/** The resumable thumbnail backfill: pages of photos without a thumbnail, by an id cursor. */
module ThumbnailBackfill {

  type PhotoId = nat
  type ItemId = nat

  const NIL_ID: PhotoId := 0
  const BATCH_SIZE: nat := 50

  /** A photo and the items it is attached to, one join row each. */
  datatype Photo = Photo(id: PhotoId, thumb: bool, items: seq<ItemId>)

  datatype Row = Row(photo: PhotoId, item: ItemId)

  /** The table, in id order. */
  predicate Ordered(photos: seq<Photo>) {
    forall i, j | 0 <= i < j < |photos| :: photos[i].id < photos[j].id
  }

  predicate Known(photos: seq<Photo>, id: PhotoId) {
    exists i | 0 <= i < |photos| :: photos[i].id == id
  }

  /** Rows in id order. */
  predicate Ascending(rows: seq<Row>) {
    forall i, j | 0 <= i < j < |rows| :: rows[i].photo <= rows[j].photo
  }

  function RowsOf(p: Photo): seq<Row> {
    seq(|p.items|, i requires 0 <= i < |p.items| => Row(p.id, p.items[i]))
  }

  /** The join rows without a thumbnail past a cursor, in id order. */
  function Pending(photos: seq<Photo>, after: PhotoId): seq<Row> {
    if photos == [] then []
    else
      var p := photos[|photos| - 1];
      Pending(photos[..|photos| - 1], after) + if !p.thumb && p.id > after then RowsOf(p) else []
  }

  function Limit(rows: seq<Row>, limit: nat): seq<Row> {
    if |rows| <= limit then rows else rows[..limit]
  }

  function Page(rows: seq<Row>): seq<Row> {
    Limit(rows, BATCH_SIZE)
  }

  function Beyond(rows: seq<Row>, id: PhotoId): seq<Row> {
    if rows == [] then []
    else Beyond(rows[..|rows| - 1], id) + if rows[|rows| - 1].photo > id then [rows[|rows| - 1]] else []
  }

  /** What is pending once the first page of rows has been gone through. */
  function AfterPage(rows: seq<Row>): seq<Row> {
    if rows == [] then [] else Beyond(rows, Page(rows)[|Page(rows)| - 1].photo)
  }

  function Rest(rows: seq<Row>, pages: nat): seq<Row> {
    if pages == 0 then rows else AfterPage(Rest(rows, pages - 1))
  }

  /** The rows of the first pages, in the order they are attempted. */
  function Visited(rows: seq<Row>, pages: nat): seq<Row> {
    if pages == 0 then [] else Visited(rows, pages - 1) + Page(Rest(rows, pages - 1))
  }

  lemma OneMorePage(rows: seq<Row>, pages: nat)
    ensures Rest(rows, pages + 1) == AfterPage(Rest(rows, pages))
    ensures Visited(rows, pages + 1) == Visited(rows, pages) + Page(Rest(rows, pages))
  {
    hide AfterPage, Page;
  }

  function Failures(attempts: seq<Row>, ok: Row -> bool): nat {
    if attempts == [] then 0
    else Failures(attempts[..|attempts| - 1], ok) + if ok(attempts[|attempts| - 1]) then 0 else 1
  }

  predicate Succeeded(id: PhotoId, attempts: seq<Row>, ok: Row -> bool) {
    exists row | row in attempts :: row.photo == id && ok(row)
  }

  /** The table after these attempts: a success leaves a thumbnail, a failure leaves nothing. */
  function Recorded(photos: seq<Photo>, attempts: seq<Row>, ok: Row -> bool): seq<Photo> {
    seq(|photos|, i requires 0 <= i < |photos| =>
      photos[i].(thumb := photos[i].thumb || Succeeded(photos[i].id, attempts, ok)))
  }

  class PhotoTable {
    var photos: seq<Photo>

    constructor (photos: seq<Photo>)
      ensures this.photos == photos
    {
      this.photos := photos;
    }

    method ListMissingThumbnail(limit: nat, after: PhotoId) returns (rows: seq<Row>)
      ensures rows == Limit(Pending(photos, after), limit)
    {
      rows := [];
      for i := 0 to |photos|
        invariant rows == Pending(photos[..i], after)
      {
        assert photos[..i + 1][..i] == photos[..i];
        if !photos[i].thumb && photos[i].id > after {
          rows := rows + RowsOf(photos[i]);
        }
      }
      assert photos[..|photos|] == photos;
      if |rows| > limit {
        rows := rows[..limit];
      }
    }

    method SetThumbnailRef(id: PhotoId) returns (found: bool)
      modifies this
      ensures found <==> Known(old(photos), id)
      ensures |photos| == |old(photos)|
      ensures forall i | 0 <= i < |photos| ::
        photos[i] == if old(photos)[i].id == id then old(photos)[i].(thumb := true) else old(photos)[i]
    {
      found := false;
      for i := 0 to |photos|
        invariant |photos| == |old(photos)|
        invariant found <==> exists j | 0 <= j < i :: old(photos)[j].id == id
        invariant forall j | 0 <= j < i ::
          photos[j] == if old(photos)[j].id == id then old(photos)[j].(thumb := true) else old(photos)[j]
        invariant forall j | i <= j < |photos| :: photos[j] == old(photos)[j]
      {
        if photos[i].id == id {
          photos := photos[i := photos[i].(thumb := true)];
          found := true;
        }
      }
    }
  }

  /** One photo: everything up to recording the reference either works or does not. */
  method BackfillOne(table: PhotoTable, row: Row, ok: Row -> bool, ghost photos0: seq<Photo>, ghost attempts: seq<Row>)
    returns (failed: bool)
    requires table.photos == Recorded(photos0, attempts, ok)
    requires Known(photos0, row.photo)
    modifies table
    ensures table.photos == Recorded(photos0, attempts + [row], ok)
    ensures failed <==> !ok(row)
  {
    OneMoreAttempt(photos0, attempts, row, ok);
    if !ok(row) {
      return true;
    }
    assert Known(table.photos, row.photo) by {
      var i :| 0 <= i < |photos0| && photos0[i].id == row.photo;
      assert table.photos[i].id == row.photo;
    }
    var found := table.SetThumbnailRef(row.photo);
    failed := !found;
  }

  lemma OneMoreAttempt(photos: seq<Photo>, attempts: seq<Row>, row: Row, ok: Row -> bool)
    ensures var before, after := Recorded(photos, attempts, ok), Recorded(photos, attempts + [row], ok);
      forall i | 0 <= i < |photos| ::
        after[i] == if photos[i].id == row.photo && ok(row) then before[i].(thumb := true) else before[i]
    ensures !ok(row) ==> Recorded(photos, attempts + [row], ok) == Recorded(photos, attempts, ok)
  {
    forall id
      ensures Succeeded(id, attempts + [row], ok) <==> Succeeded(id, attempts, ok) || (id == row.photo && ok(row))
    {
      assert row in attempts + [row];
    }
  }

  lemma OneMoreFailure(attempts: seq<Row>, row: Row, ok: Row -> bool)
    ensures Failures(attempts + [row], ok) == Failures(attempts, ok) + if ok(row) then 0 else 1
  {
    assert (attempts + [row])[..|attempts|] == attempts;
  }

  /** One page, row by row; the cursor ends on its last row whatever failed. */
  method BackfillPage(table: PhotoTable, page: seq<Row>, ok: Row -> bool, ghost photos0: seq<Photo>, ghost before: seq<Row>)
    returns (failed: nat, after: PhotoId)
    requires page != [] && forall row | row in page :: Known(photos0, row.photo)
    requires table.photos == Recorded(photos0, before, ok)
    modifies table
    ensures table.photos == Recorded(photos0, before + page, ok)
    ensures failed == Failures(before + page, ok) - Failures(before, ok)
    ensures after == page[|page| - 1].photo
  {
    hide Recorded, Failures, Known;
    failed, after := 0, NIL_ID;
    assert before + page[..0] == before;
    for i := 0 to |page|
      invariant table.photos == Recorded(photos0, before + page[..i], ok)
      invariant failed == Failures(before + page[..i], ok) - Failures(before, ok)
      invariant i > 0 ==> after == page[i - 1].photo
    {
      var one := BackfillOne(table, page[i], ok, photos0, before + page[..i]);
      OneMoreFailure(before + page[..i], page[i], ok);
      assert before + page[..i + 1] == before + page[..i] + [page[i]];
      if one {
        failed := failed + 1;
      }
      after := page[i].photo;
    }
    assert page[..|page|] == page;
  }

  /** What a run that has gone through some pages has counted and recorded. */
  ghost predicate Counted(photos0: seq<Photo>, photos: seq<Photo>, ok: Row -> bool, pages: nat, failed: nat) {
    var rows := Pending(photos0, NIL_ID);
    && failed == Failures(Visited(rows, pages), ok)
    && photos == Recorded(photos0, Visited(rows, pages), ok)
    && (pages > 0 ==> Rest(rows, pages - 1) != [])
  }

  /** Page after page until one comes back empty. A failed photo is counted and passed over; a
      failed listing, call number badCall if the run gets that far, ends the run with what was
      counted so far. */
  method Backfill(table: PhotoTable, ok: Row -> bool, badCall: nat)
    returns (failed: nat, listError: bool, calls: nat)
    requires Ordered(table.photos)
    modifies table
    ensures 0 < calls <= badCall + 1 && (listError <==> calls == badCall + 1)
    ensures !listError ==> Rest(Pending(old(table.photos), NIL_ID), calls - 1) == []
    ensures Counted(old(table.photos), table.photos, ok, calls - 1, failed)
  {
    hide *;
    ghost var photos0 := table.photos;
    var after := NIL_ID;
    failed, calls := 0, 0;
    BeforeAnyPage(photos0, ok);
    while true
      invariant calls <= badCall
      invariant Counted(photos0, table.photos, ok, calls, failed) && UpTo(photos0, calls, after)
      decreases |Rest(Pending(photos0, NIL_ID), calls)|
    {
      calls := calls + 1;
      if calls - 1 == badCall {
        return failed, true, calls;
      }
      ghost var photos, soFar, cursor := table.photos, failed, after;
      NextIsPage(photos0, photos, ok, calls - 1, soFar, cursor);
      var page := table.ListMissingThumbnail(BATCH_SIZE, after);
      if |page| == 0 {
        return failed, false, calls;
      }
      var failedHere, next := BackfillPage(table, page, ok, photos0, Visited(Pending(photos0, NIL_ID), calls - 1));
      failed, after := failed + failedHere, next;
      CountedNext(photos0, photos, ok, calls - 1, soFar, cursor, failedHere);
    }
  }

  /** After these pages everything up to the cursor has been gone through, nothing past it. */
  ghost predicate UpTo(photos: seq<Photo>, pages: nat, after: PhotoId) {
    var rows := Pending(photos, NIL_ID);
    Rest(rows, pages) == Pending(photos, after) && forall row | row in Visited(rows, pages) :: row.photo <= after
  }

  lemma BeforeAnyPage(photos: seq<Photo>, ok: Row -> bool)
    ensures Counted(photos, photos, ok, 0, 0) && UpTo(photos, 0, NIL_ID)
  {
    RecordedNothing(photos, ok);
  }

  lemma NextIsPage(photos0: seq<Photo>, photos: seq<Photo>, ok: Row -> bool, pages: nat, failed: nat, after: PhotoId)
    requires Ordered(photos0) && Counted(photos0, photos, ok, pages, failed) && UpTo(photos0, pages, after)
    ensures var rows := Pending(photos0, NIL_ID);
      var page := Limit(Pending(photos, after), BATCH_SIZE);
      && page == Page(Rest(rows, pages)) && (page == [] <==> Rest(rows, pages) == [])
      && photos == Recorded(photos0, Visited(rows, pages), ok)
      && forall row | row in page :: Known(photos0, row.photo)
  {
    hide Ordered, Pending, Known, Recorded, Failures;
    var rows := Pending(photos0, NIL_ID);
    PendingUntouched(photos0, Visited(rows, pages), ok, after);
    if Rest(rows, pages) != [] {
      UpToNext(photos0, pages, after);
    }
  }

  /** The next page, once gone through, is counted too. */
  lemma CountedNext(photos0: seq<Photo>, photos: seq<Photo>, ok: Row -> bool,
                    pages: nat, failed: nat, after: PhotoId, failedHere: nat)
    requires Ordered(photos0) && Counted(photos0, photos, ok, pages, failed) && UpTo(photos0, pages, after)
    requires Rest(Pending(photos0, NIL_ID), pages) != []
    requires var rows := Pending(photos0, NIL_ID);
      failedHere == Failures(Visited(rows, pages) + Page(Rest(rows, pages)), ok) - Failures(Visited(rows, pages), ok)
    ensures var rows := Pending(photos0, NIL_ID);
      var page := Page(Rest(rows, pages));
      && |Rest(rows, pages + 1)| < |Rest(rows, pages)|
      && page != []
      && Counted(photos0, Recorded(photos0, Visited(rows, pages) + page, ok), ok, pages + 1, failed + failedHere)
      && UpTo(photos0, pages + 1, page[|page| - 1].photo)
  {
    hide Ordered, Pending, Known, Recorded, Failures, AfterPage, Rest, Visited;
    UpToNext(photos0, pages, after);
    OneMorePage(Pending(photos0, NIL_ID), pages);
    hide UpTo;
  }

  lemma UpToNext(photos: seq<Photo>, pages: nat, after: PhotoId)
    requires Ordered(photos) && UpTo(photos, pages, after) && Rest(Pending(photos, NIL_ID), pages) != []
    ensures var rows := Rest(Pending(photos, NIL_ID), pages);
      && (forall row | row in Page(rows) :: Known(photos, row.photo))
      && UpTo(photos, pages + 1, Page(rows)[|Page(rows)| - 1].photo)
      && |Rest(Pending(photos, NIL_ID), pages + 1)| < |rows|
  {
    hide Ordered, Pending, Known, AfterPage;
    PageFacts(photos, after);
    OneMorePage(Pending(photos, NIL_ID), pages);
  }

  lemma PageFacts(photos: seq<Photo>, after: PhotoId)
    requires Ordered(photos) && Pending(photos, after) != []
    ensures var rows := Pending(photos, after);
      var next := Page(rows)[|Page(rows)| - 1].photo;
      && next > after
      && (forall row | row in Page(rows) :: Known(photos, row.photo) && row.photo <= next)
      && AfterPage(rows) == Pending(photos, next) && |AfterPage(rows)| < |rows|
  {
    var rows := Pending(photos, after);
    var page := Page(rows);
    var next := page[|page| - 1].photo;
    PendingKnown(photos, after);
    PendingAscending(photos, after);
    hide Pending, Ordered, Known;
    assert page[|page| - 1] in rows;
    BeyondPending(photos, after, next);
    BeyondShorter(rows, next, |page| - 1);
    forall row | row in page
      ensures row in rows && row.photo <= next
    {
      var i :| 0 <= i < |page| && page[i] == row;
      assert rows[i] == row;
    }
  }

  lemma RecordedNothing(photos: seq<Photo>, ok: Row -> bool)
    ensures Recorded(photos, [], ok) == photos
  {}

  /** Attempts up to a cursor change nothing that is pending past it. */
  lemma {:induction false} PendingUntouched(photos: seq<Photo>, attempts: seq<Row>, ok: Row -> bool, after: PhotoId)
    requires forall row | row in attempts :: row.photo <= after
    ensures Pending(Recorded(photos, attempts, ok), after) == Pending(photos, after)
  {
    if photos != [] {
      var n := |photos| - 1;
      PendingUntouched(photos[..n], attempts, ok, after);
      assert Recorded(photos, attempts, ok)[..n] == Recorded(photos[..n], attempts, ok);
    }
  }

  /** Pending rows come from the table, past the cursor. */
  lemma {:induction false} PendingKnown(photos: seq<Photo>, after: PhotoId)
    ensures forall row | row in Pending(photos, after) :: row.photo > after && Known(photos, row.photo)
  {
    if photos != [] {
      var n := |photos| - 1;
      PendingKnown(photos[..n], after);
      KnownMore(photos);
      hide Known;
    }
  }

  lemma KnownMore(photos: seq<Photo>)
    requires photos != []
    ensures Known(photos, photos[|photos| - 1].id)
    ensures forall id | Known(photos[..|photos| - 1], id) :: Known(photos, id)
  {
    forall id | Known(photos[..|photos| - 1], id)
      ensures Known(photos, id)
    {
      var i :| 0 <= i < |photos| - 1 && photos[..|photos| - 1][i].id == id;
      assert photos[i].id == id;
    }
  }

  lemma {:induction false} PendingAscending(photos: seq<Photo>, after: PhotoId)
    requires Ordered(photos)
    ensures Ascending(Pending(photos, after))
  {
    if photos != [] {
      var n := |photos| - 1;
      var rest := Pending(photos[..n], after);
      PendingAscending(photos[..n], after);
      PendingKnown(photos[..n], after);
      forall i | 0 <= i < |rest|
        ensures rest[i].photo < photos[n].id
      {
        assert rest[i] in rest;
        var j :| 0 <= j < n && photos[..n][j].id == rest[i].photo;
      }
    }
  }

  lemma BeyondConcat(rows: seq<Row>, more: seq<Row>, id: PhotoId)
    ensures Beyond(rows + more, id) == Beyond(rows, id) + Beyond(more, id)
  {
    if more == [] {
      assert rows + more == rows;
    } else {
      var n := |more| - 1;
      assert (rows + more)[..|rows| + n] == rows + more[..n];
      BeyondConcat(rows, more[..n], id);
    }
  }

  lemma BeyondRowsOf(p: Photo, rows: seq<Row>, id: PhotoId)
    requires forall row | row in rows :: row.photo == p.id
    ensures Beyond(rows, id) == if p.id > id then rows else []
  {
    if rows != [] {
      BeyondRowsOf(p, rows[..|rows| - 1], id);
    }
  }

  /** Moving the cursor past some rows drops exactly the rows up to it. */
  lemma {:induction false} BeyondPending(photos: seq<Photo>, after: PhotoId, id: PhotoId)
    requires after <= id
    ensures Beyond(Pending(photos, after), id) == Pending(photos, id)
  {
    if photos != [] {
      var n := |photos| - 1;
      var p := photos[n];
      BeyondPending(photos[..n], after, id);
      BeyondRowsOf(p, RowsOf(p), id);
      BeyondConcat(Pending(photos[..n], after), if !p.thumb && p.id > after then RowsOf(p) else [], id);
    }
  }

  lemma {:induction false} BeyondShorter(rows: seq<Row>, id: PhotoId, k: nat)
    requires k < |rows| && rows[k].photo <= id
    ensures |Beyond(rows, id)| < |rows|
  {
    var n := |rows| - 1;
    if k < n {
      BeyondShorter(rows[..n], id, k);
    } else {
      BeyondNoLonger(rows[..n], id);
    }
  }

  lemma {:induction false} BeyondNoLonger(rows: seq<Row>, id: PhotoId)
    ensures |Beyond(rows, id)| <= |rows|
  {
    if rows != [] {
      BeyondNoLonger(rows[..|rows| - 1], id);
    }
  }
}
