/** What the canvas shows for a given state: the "Click/tap to jot"
    placeholder, the "Creating..." notice and one box per entry, in list order,
    each anchored at its own click position. */
module CacheRender {
  import opened CacheEntries

  /** One rendered entry box: its React key, its anchor and its fields. */
  datatype Box = Box(key: string, left: int, top: int, timestamp: Timestamp, title: string, body: string)

  datatype View = View(placeholder: bool, creating: bool, boxes: seq<Box>)

  /** `entries.map((entry) => <div key={entry._id} style={{ left: entry.x, top: entry.y }} …>)` */
  function Boxes(entries: seq<Entry>): (r: seq<Box>)
    ensures |r| == |entries|
    ensures forall i :: 0 <= i < |entries| ==>
      && r[i].key == entries[i].id
      && r[i].left == entries[i].x && r[i].top == entries[i].y
      && r[i].timestamp == entries[i].timestamp
      && r[i].title == entries[i].title && r[i].body == entries[i].body
  {
    if entries == [] then []
    else
      var e := entries[0];
      [Box(e.id, e.x, e.y, e.timestamp, e.title, e.body)] + Boxes(entries[1..])
  }

  function Render(entries: seq<Entry>, isCreating: bool): (v: View)
    ensures v.placeholder <==> |entries| == 0 && !isCreating
    ensures v.creating <==> isCreating
    ensures !(v.placeholder && v.creating)
    ensures |v.boxes| == |entries|
  {
    View(|entries| == 0 && !isCreating, isCreating, Boxes(entries))
  }

  /** Boxes follow list order: the boxes of a concatenation are the boxes of
      its parts, one after the other. */
  lemma {:induction false} BoxesConcat(a: seq<Entry>, b: seq<Entry>)
    ensures Boxes(a + b) == Boxes(a) + Boxes(b)
  {
    if a != [] {
      assert (a + b)[1..] == a[1..] + b;
      BoxesConcat(a[1..], b);
    }
  }

  /** Appending an entry keeps every existing box where it was and adds exactly
      one box, last, anchored at the new entry's position. */
  lemma AppendedEntryRendersLast(entries: seq<Entry>, r: Record, x: int, y: int)
    ensures var boxes := Render(entries + [Place(r, x, y)], false).boxes;
      && boxes == Boxes(entries) + [Box(r.id, x, y, r.timestamp, r.title, r.body)]
      && !Render(entries + [Place(r, x, y)], false).placeholder
  {
    BoxesConcat(entries, [Place(r, x, y)]);
  }
}
