/** The click-to-jot canvas component: its state is the list of entries and the
    `isCreating` flag. The asynchronous click handler is split at its one
    `await`: BeginCreate runs up to the create request, CompleteCreate runs the
    continuation with the request's outcome. The continuation builds its list
    from the entries captured when the click happened, so that snapshot and the
    click position are kept as the pending creation. */
module CacheCanvas {
  import opened Wrappers
  import opened CacheEntries
  import opened CacheRender

  /** The payload of `createCacheEntry({ title, body })`. */
  datatype CreateRequest = CreateRequest(title: string, body: string)

  /** What the suspended click handler holds while its request is in flight. */
  datatype PendingCreate = PendingCreate(snapshot: seq<Entry>, x: int, y: int)

  class Canvas {
    var entries: seq<Entry>
    var isCreating: bool
    var pending: Option<PendingCreate>

    /** A creation is pending exactly while the flag is set, and there is at
        most one, since `pending` holds a single continuation. */
    ghost predicate Valid()
      reads this
    {
      isCreating <==> pending.Some?
    }

    /** What the component currently shows: the placeholder exactly when there
        are no entries and no creation is pending, "Creating..." exactly while
        one is, and one box per entry, in list order, at the entry's position. */
    function View(): (v: View)
      reads this
      ensures v.placeholder <==> |entries| == 0 && !isCreating
      ensures v.creating <==> isCreating
      ensures |v.boxes| == |entries|
      ensures forall i :: 0 <= i < |entries| ==>
        v.boxes[i].key == entries[i].id && v.boxes[i].left == entries[i].x && v.boxes[i].top == entries[i].y
    {
      Render(entries, isCreating)
    }

    /** `useState([])` and `useState(false)`. */
    constructor ()
      ensures Valid()
      ensures entries == [] && !isCreating
      ensures View().placeholder && !View().creating
    {
      entries := [];
      isCreating := false;
      pending := None;
    }

    /** The click handler up to its `await`. A click inside an existing entry
        box, or any click while a creation is pending, returns no request and
        changes nothing; any other click sets `isCreating`, remembers the
        current entries and the click position, and returns the request for a
        record with an empty title and body. */
    method BeginCreate(x: int, y: int, insideBox: bool) returns (request: Option<CreateRequest>)
      requires Valid()
      modifies this
      ensures Valid()
      ensures request.Some? <==> !insideBox && !old(isCreating)
      ensures request.Some? ==>
        && request.value == CreateRequest("", "")
        && isCreating
        && pending == Some(PendingCreate(old(entries), x, y))
      ensures request.None? ==> isCreating == old(isCreating) && pending == old(pending)
      ensures entries == old(entries)
    {
      if insideBox {
        return None;
      }
      if isCreating {
        return None;
      }
      isCreating := true;
      pending := Some(PendingCreate(entries, x, y));
      request := Some(CreateRequest("", ""));
    }

    /** The continuation after `await createCacheEntry(...)`: on success the
        entries become the click-time snapshot followed by the returned record
        at the click position; on failure the entries are left alone. In both
        cases `isCreating` is cleared. */
    method CompleteCreate(result: Option<Record>)
      requires Valid() && isCreating
      modifies this
      ensures Valid() && !isCreating
      ensures result.None? ==> entries == old(entries)
      ensures result.Some? ==>
        var p := old(pending).value;
        && |entries| == |p.snapshot| + 1
        && entries[..|p.snapshot|] == p.snapshot
        && entries[|p.snapshot|] == Place(result.value, p.x, p.y)
      ensures result.Some? ==>
        View().boxes == Boxes(old(pending).value.snapshot) +
          [Box(result.value.id, old(pending).value.x, old(pending).value.y,
               result.value.timestamp, result.value.title, result.value.body)]
    {
      var p := pending.value;
      if result.Some? {
        entries := p.snapshot + [Place(result.value, p.x, p.y)];
        BoxesConcat(p.snapshot, [Place(result.value, p.x, p.y)]);
      }
      isCreating := false;
      pending := None;
    }

    /** `handleTitleChange(id, value)`: a local edit only. */
    method TitleChange(id: string, value: string)
      requires Valid()
      modifies this
      ensures Valid()
      ensures entries == SetTitle(old(entries), id, value)
      ensures isCreating == old(isCreating) && pending == old(pending)
    {
      entries := SetTitle(entries, id, value);
    }

    /** `handleBodyChange(id, value)`: a local edit only. */
    method BodyChange(id: string, value: string)
      requires Valid()
      modifies this
      ensures Valid()
      ensures entries == SetBody(old(entries), id, value)
      ensures isCreating == old(isCreating) && pending == old(pending)
    {
      entries := SetBody(entries, id, value);
    }
  }

  /** A run of the component. A first click on empty space creates an entry; a
      click inside that entry's box is ignored; a second click on empty space
      issues a request, and a third click while it is in flight is dropped. A
      title edit of the first entry made in the meantime shows at once, but the
      successful second creation rebuilds the list from the entries captured at
      its click, so the edit is overwritten. */
  method EditDuringCreationScenario(r1: Record, r2: Record, x1: int, y1: int, x2: int, y2: int, typed: string)
    returns (requests: seq<Option<CreateRequest>>, typedShown: string, finalEntries: seq<Entry>)
    ensures requests == [Some(CreateRequest("", "")), None, Some(CreateRequest("", "")), None]
    ensures typedShown == typed
    ensures finalEntries == [Place(r1, x1, y1), Place(r2, x2, y2)]
    ensures finalEntries[0].title == r1.title
  {
    var canvas := new Canvas();
    var a := canvas.BeginCreate(x1, y1, false);
    canvas.CompleteCreate(Some(r1));
    var b := canvas.BeginCreate(x1, y1, true);
    var c := canvas.BeginCreate(x2, y2, false);
    var d := canvas.BeginCreate(x2, y2, false);
    requests := [a, b, c, d];
    canvas.TitleChange(r1.id, typed);
    typedShown := canvas.entries[0].title;
    canvas.CompleteCreate(Some(r2));
    finalEntries := canvas.entries;
  }

  /** From any idle canvas: a click on empty space, then a title edit of an
      existing entry while the request is in flight, then success. The entry
      keeps its click-time title, so the edit is lost, and the new entry is
      appended after it. */
  method EditDuringSuccessfulCreation(canvas: Canvas, x: int, y: int, k: nat, value: string, r: Record)
    requires canvas.Valid() && !canvas.isCreating && k < |canvas.entries|
    modifies canvas
    ensures canvas.Valid() && !canvas.isCreating
    ensures |canvas.entries| == |old(canvas.entries)| + 1
    ensures canvas.entries[k] == old(canvas.entries[k])
    ensures canvas.entries[k].title == old(canvas.entries[k].title)
    ensures canvas.entries[|old(canvas.entries)|] == Place(r, x, y)
  {
    var request := canvas.BeginCreate(x, y, false);
    canvas.TitleChange(canvas.entries[k].id, value);
    canvas.CompleteCreate(Some(r));
  }

  /** The same run when the request fails: the list is left as the edit made
      it, so the edit is kept. */
  method EditDuringFailedCreation(canvas: Canvas, x: int, y: int, k: nat, value: string)
    requires canvas.Valid() && !canvas.isCreating && k < |canvas.entries|
    modifies canvas
    ensures canvas.Valid() && !canvas.isCreating
    ensures canvas.entries == SetTitle(old(canvas.entries), old(canvas.entries[k].id), value)
    ensures canvas.entries[k].title == value
  {
    var request := canvas.BeginCreate(x, y, false);
    canvas.TitleChange(canvas.entries[k].id, value);
    canvas.CompleteCreate(None);
  }
}
