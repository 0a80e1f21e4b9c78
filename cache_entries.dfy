/** The entries of the click-to-jot canvas and the list transforms its handlers
    apply: a record returned by the store joined with the click position, and
    the `entries.map` that replaces the title or the body of the entries whose
    identity matches. */
module CacheEntries {

  /** Opaque creation timestamp assigned by the store. */
  type Timestamp = int

  /** A record as the store returns it. */
  datatype Record = Record(id: string, title: string, body: string, timestamp: Timestamp)

  /** A record joined with the screen position of the click that created it. */
  datatype Entry = Entry(id: string, title: string, body: string, timestamp: Timestamp, x: int, y: int)

  /** The spread `{ ...newEntry, x, y }`. */
  function Place(r: Record, x: int, y: int): (e: Entry)
    ensures e.id == r.id && e.title == r.title && e.body == r.body && e.timestamp == r.timestamp
    ensures e.x == x && e.y == y
  {
    Entry(r.id, r.title, r.body, r.timestamp, x, y)
  }

  /** `entries.map(entry => entry._id === id ? { ...entry, title: value } : entry)` */
  function SetTitle(entries: seq<Entry>, id: string, value: string): (r: seq<Entry>)
    ensures |r| == |entries|
    ensures forall i :: 0 <= i < |entries| ==>
      && r[i].id == entries[i].id && r[i].body == entries[i].body
      && r[i].timestamp == entries[i].timestamp
      && r[i].x == entries[i].x && r[i].y == entries[i].y
    ensures forall i :: 0 <= i < |entries| ==>
      r[i].title == if entries[i].id == id then value else entries[i].title
    ensures forall i :: 0 <= i < |entries| && entries[i].id != id ==> r[i] == entries[i]
  {
    if entries == [] then []
    else
      var e := entries[0];
      [if e.id == id then e.(title := value) else e] + SetTitle(entries[1..], id, value)
  }

  /** `entries.map(entry => entry._id === id ? { ...entry, body: value } : entry)` */
  function SetBody(entries: seq<Entry>, id: string, value: string): (r: seq<Entry>)
    ensures |r| == |entries|
    ensures forall i :: 0 <= i < |entries| ==>
      && r[i].id == entries[i].id && r[i].title == entries[i].title
      && r[i].timestamp == entries[i].timestamp
      && r[i].x == entries[i].x && r[i].y == entries[i].y
    ensures forall i :: 0 <= i < |entries| ==>
      r[i].body == if entries[i].id == id then value else entries[i].body
    ensures forall i :: 0 <= i < |entries| && entries[i].id != id ==> r[i] == entries[i]
  {
    if entries == [] then []
    else
      var e := entries[0];
      [if e.id == id then e.(body := value) else e] + SetBody(entries[1..], id, value)
  }

  /** The identities of the entries, in list order. */
  function Ids(entries: seq<Entry>): (ids: seq<string>)
    ensures |ids| == |entries|
    ensures forall i :: 0 <= i < |entries| ==> ids[i] == entries[i].id
  {
    if entries == [] then [] else [entries[0].id] + Ids(entries[1..])
  }

  /** Editing a title keeps the identities and their order. */
  lemma {:induction false} SetTitleKeepsIds(entries: seq<Entry>, id: string, value: string)
    ensures Ids(SetTitle(entries, id, value)) == Ids(entries)
  {
    var r := SetTitle(entries, id, value);
    assert forall i :: 0 <= i < |entries| ==> Ids(r)[i] == Ids(entries)[i];
  }

  /** Editing a body keeps the identities and their order. */
  lemma {:induction false} SetBodyKeepsIds(entries: seq<Entry>, id: string, value: string)
    ensures Ids(SetBody(entries, id, value)) == Ids(entries)
  {
    var r := SetBody(entries, id, value);
    assert forall i :: 0 <= i < |entries| ==> Ids(r)[i] == Ids(entries)[i];
  }

  /** A later title edit of the same entry overrides an earlier one; with
      v1 == v2 this is idempotence. */
  lemma {:induction false} SetTitleLastWins(entries: seq<Entry>, id: string, v1: string, v2: string)
    ensures SetTitle(SetTitle(entries, id, v1), id, v2) == SetTitle(entries, id, v2)
  {
    if entries != [] {
      SetTitleLastWins(entries[1..], id, v1, v2);
    }
  }

  /** A later body edit of the same entry overrides an earlier one; with
      v1 == v2 this is idempotence. */
  lemma {:induction false} SetBodyLastWins(entries: seq<Entry>, id: string, v1: string, v2: string)
    ensures SetBody(SetBody(entries, id, v1), id, v2) == SetBody(entries, id, v2)
  {
    if entries != [] {
      SetBodyLastWins(entries[1..], id, v1, v2);
    }
  }

  /** Applying the same title edit twice equals applying it once. */
  lemma SetTitleIdempotent(entries: seq<Entry>, id: string, value: string)
    ensures SetTitle(SetTitle(entries, id, value), id, value) == SetTitle(entries, id, value)
  {
    SetTitleLastWins(entries, id, value, value);
  }

  /** Applying the same body edit twice equals applying it once. */
  lemma SetBodyIdempotent(entries: seq<Entry>, id: string, value: string)
    ensures SetBody(SetBody(entries, id, value), id, value) == SetBody(entries, id, value)
  {
    SetBodyLastWins(entries, id, value, value);
  }

  /** A title edit and a body edit commute, whichever entries they address. */
  lemma {:induction false} TitleAndBodyEditsCommute(entries: seq<Entry>, tid: string, title: string, bid: string, body: string)
    ensures SetTitle(SetBody(entries, bid, body), tid, title) == SetBody(SetTitle(entries, tid, title), bid, body)
  {
    if entries != [] {
      TitleAndBodyEditsCommute(entries[1..], tid, title, bid, body);
    }
  }

  /** Title edits of two different entries commute. */
  lemma {:induction false} TitleEditsOfDistinctIdsCommute(entries: seq<Entry>, id1: string, v1: string, id2: string, v2: string)
    requires id1 != id2
    ensures SetTitle(SetTitle(entries, id1, v1), id2, v2) == SetTitle(SetTitle(entries, id2, v2), id1, v1)
  {
    if entries != [] {
      TitleEditsOfDistinctIdsCommute(entries[1..], id1, v1, id2, v2);
    }
  }

  /** A successful creation appends to the list captured when the click
      happened, so a title edit made to an existing entry while the request was
      in flight is not in the resulting list. */
  lemma SuccessDropsEditsMadeDuringCreation(snapshot: seq<Entry>, id: string, value: string, r: Record, x: int, y: int, k: nat)
    requires k < |snapshot| && snapshot[k].id == id && snapshot[k].title != value
    ensures (snapshot + [Place(r, x, y)])[k].title != value
    ensures SetTitle(snapshot, id, value) + [Place(r, x, y)] != snapshot + [Place(r, x, y)]
  {
    var edited := SetTitle(snapshot, id, value);
    assert edited[k].title == value;
    assert (edited + [Place(r, x, y)])[k] == edited[k];
    assert (snapshot + [Place(r, x, y)])[k] == snapshot[k];
  }
}
