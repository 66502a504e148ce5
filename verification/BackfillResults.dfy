/** What a whole backfill run comes to, whatever the photos are attached to. */
module BackfillResults {
  import opened ThumbnailBackfill

  predicate StrictlyAscending(rows: seq<Row>) {
    forall i, j | 0 <= i < j < |rows| :: rows[i].photo < rows[j].photo
  }

  /** Some row of this photo is among these. */
  predicate Tried(rows: seq<Row>, id: PhotoId) {
    exists i | 0 <= i < |rows| :: rows[i].photo == id
  }

  /** A run that went through this many pages, none of them empty, and found nothing more. */
  predicate Finished(photos: seq<Photo>, pages: nat) {
    var rows := Pending(photos, NIL_ID);
    Rest(rows, pages) == [] && (pages > 0 ==> Rest(rows, pages - 1) != [])
  }

  /** The rows such a run attempts. */
  function Attempts(photos: seq<Photo>, pages: nat): seq<Row> {
    Visited(Pending(photos, NIL_ID), pages)
  }

  // What one page takes off the list.

  lemma {:induction false} BeyondNone(rows: seq<Row>, id: PhotoId)
    requires forall i | 0 <= i < |rows| :: rows[i].photo <= id
    ensures Beyond(rows, id) == []
  {
    if rows != [] {
      BeyondNone(rows[..|rows| - 1], id);
    }
  }

  lemma {:induction false} BeyondAll(rows: seq<Row>, id: PhotoId)
    requires forall i | 0 <= i < |rows| :: rows[i].photo > id
    ensures Beyond(rows, id) == rows
  {
    if rows != [] {
      var n := |rows| - 1;
      BeyondAll(rows[..n], id);
      hide Beyond;
      BeyondStep(rows, id);
      assert rows == rows[..n] + [rows[n]];
    }
  }

  lemma BeyondStep(rows: seq<Row>, id: PhotoId)
    requires rows != []
    ensures var n := |rows| - 1;
      Beyond(rows, id) == Beyond(rows[..n], id) + if rows[n].photo > id then [rows[n]] else []
  {}

  lemma {:induction false} BeyondHas(rows: seq<Row>, id: PhotoId, row: Row)
    ensures row in Beyond(rows, id) <==> row in rows && row.photo > id
  {
    if rows != [] {
      var n := |rows| - 1;
      BeyondHas(rows[..n], id, row);
      BeyondStep(rows, id);
      hide Beyond;
      assert rows == rows[..n] + [rows[n]];
    }
  }

  lemma {:induction false} BeyondAscends(rows: seq<Row>, id: PhotoId)
    requires Ascending(rows)
    ensures Ascending(Beyond(rows, id))
  {
    if rows != [] {
      var n := |rows| - 1;
      BeyondAscends(rows[..n], id);
      BeyondStep(rows, id);
      hide Beyond;
      forall i | 0 <= i < |Beyond(rows[..n], id)|
        ensures Beyond(rows[..n], id)[i].photo <= rows[n].photo
      {
        BeyondHas(rows[..n], id, Beyond(rows[..n], id)[i]);
      }
    }
  }

  /** The rows of a page, at least, are gone after it; the rest keeps its order. */
  lemma PageDrops(rows: seq<Row>)
    requires Ascending(rows) && rows != []
    ensures var page := Page(rows);
      && page != [] && |AfterPage(rows)| + |page| <= |rows| && Ascending(AfterPage(rows))
      && page <= rows
  {
    var page, rest := Page(rows), rows[|Page(rows)|..];
    var last := page[|page| - 1].photo;
    assert rows == page + rest;
    BeyondConcat(page, rest, last);
    BeyondNone(page, last);
    BeyondNoLonger(rest, last);
    BeyondAscends(rows, last);
  }

  lemma {:induction false} RestAscends(rows: seq<Row>, k: nat)
    requires Ascending(rows)
    ensures Ascending(Rest(rows, k))
  {
    hide AfterPage, Ascending;
    if k > 0 {
      RestAscends(rows, k - 1);
      if Rest(rows, k - 1) != [] {
        PageDrops(Rest(rows, k - 1));
      } else {
        AfterNothing();
      }
    }
  }

  lemma AfterNothing()
    ensures AfterPage([]) == [] && Page([]) == []
  {}

  /** While something is left, every page so far was a full one. */
  lemma {:induction false} FullPages(rows: seq<Row>, k: nat)
    requires Ascending(rows) && Rest(rows, k) != []
    ensures |Rest(rows, k)| + k * BATCH_SIZE <= |rows|
  {
    hide AfterPage, Ascending;
    if k > 0 {
      var before := Rest(rows, k - 1);
      RestAscends(rows, k - 1);
      AfterNothing();
      FullPages(rows, k - 1);
      PageDrops(before);
    }
  }

  lemma PagesNeeded(total: nat, pages: nat)
    requires pages > 0 ==> 1 + (pages - 1) * BATCH_SIZE <= total
    ensures pages <= (total + BATCH_SIZE - 1) / BATCH_SIZE
  {}

  // What the pages together hold.

  /** Every row before these comes before every one of those. */
  predicate Before(rows: seq<Row>, later: seq<Row>) {
    forall a, b | a in rows && b in later :: a.photo < b.photo
  }

  lemma AscendingBoth(a: seq<Row>, b: seq<Row>)
    requires Ascending(a) && Ascending(b) && Before(a, b)
    ensures Ascending(a + b)
  {
    forall i, j | 0 <= i < |a| && 0 <= j < |b|
      ensures a[i].photo <= b[j].photo
    {
      assert a[i] in a && b[j] in b;
    }
  }

  lemma PageIsPrefix(rows: seq<Row>, k: nat)
    requires Ascending(rows) && 0 < k <= |rows|
    ensures Ascending(rows[..k])
    ensures forall row | row in rows[..k] :: row in rows && row.photo <= rows[k - 1].photo
    ensures forall row | row in rows && row.photo <= rows[k - 1].photo :: Tried(rows[..k], row.photo)
  {
    var page := rows[..k];
    forall row | row in page
      ensures row in rows && row.photo <= rows[k - 1].photo
    {
      var i :| 0 <= i < k && page[i] == row;
      assert rows[i] == row;
    }
    forall row | row in rows && row.photo <= rows[k - 1].photo
      ensures Tried(page, row.photo)
    {
      var i :| 0 <= i < |rows| && rows[i] == row;
      var j := if i < k then i else k - 1;
      assert page[j] == rows[j];
    }
  }

  lemma AfterPageHas(rows: seq<Row>)
    requires Ascending(rows) && rows != []
    ensures var k := |Page(rows)|;
      && 0 < k <= |rows| && Page(rows) == rows[..k]
      && forall row :: row in AfterPage(rows) <==> row in rows && row.photo > rows[k - 1].photo
  {
    var k := |Page(rows)|;
    hide Beyond, Ascending;
    forall row
      ensures row in AfterPage(rows) <==> row in rows && row.photo > rows[k - 1].photo
    {
      BeyondHas(rows, rows[k - 1].photo, row);
    }
  }

  lemma PageSplits(rows: seq<Row>)
    requires Ascending(rows)
    ensures Ascending(Page(rows)) && Before(Page(rows), AfterPage(rows))
    ensures forall row | row in Page(rows) :: row in rows
    ensures forall row | row in AfterPage(rows) :: row in rows
    ensures forall row | row in rows :: row in AfterPage(rows) || Tried(Page(rows), row.photo)
  {
    hide Page, AfterPage, Tried, Ascending;
    if rows == [] {
      AfterNothing();
      NothingAscends();
    } else {
      AfterPageHas(rows);
      PageIsPrefix(rows, |Page(rows)|);
    }
  }

  lemma NothingAscends()
    ensures Ascending([])
  {}

  /** After some pages: what was attempted came in order and off the list, and every photo of
      the list was attempted or is still on it. */
  predicate Held(rows: seq<Row>, visited: seq<Row>, rest: seq<Row>) {
    && Ascending(visited) && Before(visited, rest)
    && (forall row | row in visited :: row in rows)
    && (forall row | row in rest :: row in rows)
    && (forall row | row in rows :: row in rest || Tried(visited, row.photo))
  }

  lemma HeldAtFirst(rows: seq<Row>)
    ensures Held(rows, [], rows)
  {
    hide Tried;
  }

  lemma HeldThenPage(rows: seq<Row>, visited: seq<Row>, rest: seq<Row>)
    requires Held(rows, visited, rest) && Ascending(rest)
    ensures Held(rows, visited + Page(rest), AfterPage(rest))
  {
    PageSplits(rest);
    hide Page, AfterPage, Ascending, Tried;
    AscendingBoth(visited, Page(rest));
    forall row | row in rows
      ensures row in AfterPage(rest) || Tried(visited + Page(rest), row.photo)
    {
      TriedBoth(visited, Page(rest), row.photo);
    }
  }

  lemma {:induction false} PagesHold(rows: seq<Row>, k: nat)
    requires Ascending(rows)
    ensures Held(rows, Visited(rows, k), Rest(rows, k))
  {
    hide Held, Ascending, AfterPage, Page;
    if k == 0 {
      HeldAtFirst(rows);
    } else {
      PagesHold(rows, k - 1);
      OneMorePage(rows, k - 1);
      RestAscends(rows, k - 1);
      hide Visited, Rest;
      HeldThenPage(rows, Visited(rows, k - 1), Rest(rows, k - 1));
    }
  }

  lemma TriedBoth(a: seq<Row>, b: seq<Row>, id: PhotoId)
    ensures Tried(a + b, id) <==> Tried(a, id) || Tried(b, id)
  {
    if i :| 0 <= i < |a| && a[i].photo == id {
      assert (a + b)[i].photo == id;
    }
    if i :| 0 <= i < |b| && b[i].photo == id {
      assert (a + b)[|a| + i].photo == id;
    }
  }

  // What is on the list.

  /** A photo the listing reaches, and one it never returns. */
  predicate Reachable(p: Photo) {
    !p.thumb && p.items != [] && p.id != NIL_ID
  }

  predicate IsStranded(p: Photo) {
    !p.thumb && (p.items == [] || p.id == NIL_ID)
  }

  predicate ReachableId(photos: seq<Photo>, id: PhotoId) {
    exists i | 0 <= i < |photos| :: photos[i].id == id && Reachable(photos[i])
  }

  /** These attempts are of exactly the photos in reach. */
  ghost predicate Covers(photos: seq<Photo>, attempts: seq<Row>) {
    forall id :: Tried(attempts, id) <==> ReachableId(photos, id)
  }

  lemma ReachableStep(photos: seq<Photo>, id: PhotoId)
    requires photos != []
    ensures var n := |photos| - 1;
      ReachableId(photos, id) <==> ReachableId(photos[..n], id) || (photos[n].id == id && Reachable(photos[n]))
  {
    var n := |photos| - 1;
    if i :| 0 <= i < n && photos[..n][i].id == id && Reachable(photos[..n][i]) {
      assert photos[i].id == id;
    }
    if i :| 0 <= i < |photos| && photos[i].id == id && Reachable(photos[i]) && i < n {
      assert photos[..n][i].id == id;
    }
  }

  lemma TriedRowsOf(p: Photo, id: PhotoId)
    ensures Tried(RowsOf(p), id) <==> p.items != [] && p.id == id
  {
    if p.items != [] {
      assert RowsOf(p)[0].photo == p.id;
    }
  }

  /** The list has rows of exactly the photos that are in reach. */
  lemma {:induction false} PendingTried(photos: seq<Photo>, id: PhotoId)
    ensures Tried(Pending(photos, NIL_ID), id) <==> ReachableId(photos, id)
  {
    if photos != [] {
      var n := |photos| - 1;
      var p := photos[n];
      PendingTried(photos[..n], id);
      ReachableStep(photos, id);
      var mine := if !p.thumb && p.id > NIL_ID then RowsOf(p) else [];
      TriedBoth(Pending(photos[..n], NIL_ID), mine, id);
      TriedRowsOf(p, id);
      hide Tried, ReachableId, RowsOf;
      assert !Tried([], id) by { TriedNothing(id); }
    }
  }

  lemma TriedNothing(id: PhotoId)
    ensures !Tried([], id)
  {}

  lemma TriedIn(rows: seq<Row>, id: PhotoId)
    ensures Tried(rows, id) <==> exists row | row in rows :: row.photo == id
  {
    if row :| row in rows && row.photo == id {
      var i :| 0 <= i < |rows| && rows[i] == row;
    }
  }

  /** A photo still without a thumbnail belongs to at most one item. */
  predicate Single(photos: seq<Photo>) {
    forall i | 0 <= i < |photos| && !photos[i].thumb :: |photos[i].items| <= 1
  }

  lemma {:induction false} SingleAscends(photos: seq<Photo>, after: PhotoId)
    requires Ordered(photos) && Single(photos)
    ensures StrictlyAscending(Pending(photos, after))
  {
    if photos != [] {
      var n := |photos| - 1;
      SingleAscends(photos[..n], after);
      var rest := Pending(photos[..n], after);
      PendingKnown(photos[..n], after);
      forall i | 0 <= i < |rest|
        ensures rest[i].photo < photos[n].id
      {
        assert rest[i] in rest;
        var j :| 0 <= j < n && photos[..n][j].id == rest[i].photo;
      }
    }
  }

  // Every pending photo, page by page.

  lemma StrictSplit(rows: seq<Row>, k: nat)
    requires StrictlyAscending(rows) && 0 < k <= |rows|
    ensures forall i | 0 <= i < k :: rows[..k][i].photo <= rows[k - 1].photo
    ensures forall i | 0 <= i < |rows| - k :: rows[k..][i].photo > rows[k - 1].photo
    ensures StrictlyAscending(rows[k..])
  {}

  lemma StrictPage(rows: seq<Row>)
    requires StrictlyAscending(rows)
    ensures var n := |Page(rows)|;
      n <= |rows| && Page(rows) == rows[..n] && AfterPage(rows) == rows[n..] && StrictlyAscending(rows[n..])
  {
    if rows != [] {
      var n := |Page(rows)|;
      StrictSplit(rows, n);
      hide StrictlyAscending, Beyond;
      assert rows == rows[..n] + rows[n..];
      BeyondConcat(rows[..n], rows[n..], rows[n - 1].photo);
      BeyondNone(rows[..n], rows[n - 1].photo);
      BeyondAll(rows[n..], rows[n - 1].photo);
    }
  }

  /** Without photos of several items nothing is passed over: pages partition the list. */
  lemma {:induction false} StrictPages(rows: seq<Row>, k: nat)
    requires StrictlyAscending(rows)
    ensures rows == Visited(rows, k) + Rest(rows, k) && StrictlyAscending(Rest(rows, k))
    ensures |Rest(rows, k)| == if k * BATCH_SIZE <= |rows| then |rows| - k * BATCH_SIZE else 0
  {
    hide StrictlyAscending, AfterPage, Page;
    if k > 0 {
      StrictPages(rows, k - 1);
      OneMorePage(rows, k - 1);
      var visited, rest := Visited(rows, k - 1), Rest(rows, k - 1);
      hide Visited, Rest;
      StrictPage(rest);
      PageSize(rest);
      var n := |Page(rest)|;
      assert visited + rest == (visited + rest[..n]) + rest[n..];
    }
  }

  lemma PageSize(rows: seq<Row>)
    ensures |Page(rows)| == if |rows| <= BATCH_SIZE then |rows| else BATCH_SIZE
  {}

  /** A finished run has attempted every photo in reach and no other, in id order. */
  lemma AttemptsCover(photos: seq<Photo>, pages: nat)
    requires Ordered(photos) && Finished(photos, pages)
    ensures Ascending(Attempts(photos, pages)) && Covers(photos, Attempts(photos, pages))
  {
    var rows, attempts := Pending(photos, NIL_ID), Attempts(photos, pages);
    PendingAscending(photos, NIL_ID);
    PagesHold(rows, pages);
    hide Pending, Rest, Visited, Ascending, Ordered, ReachableId, Tried;
    forall id
      ensures Tried(attempts, id) <==> ReachableId(photos, id)
    {
      TriedIn(rows, id);
      TriedIn(attempts, id);
      PendingTried(photos, id);
    }
  }

  lemma PagesAreFew(photos: seq<Photo>, pages: nat)
    requires Ordered(photos) && Finished(photos, pages)
    ensures pages <= (|Pending(photos, NIL_ID)| + BATCH_SIZE - 1) / BATCH_SIZE
  {
    var rows := Pending(photos, NIL_ID);
    PendingAscending(photos, NIL_ID);
    hide Pending, Rest, Ascending, Ordered;
    if pages > 0 {
      FullPages(rows, pages - 1);
    }
    PagesNeeded(|rows|, pages);
  }

  lemma OneItemEach(photos: seq<Photo>, pages: nat)
    requires Ordered(photos) && Finished(photos, pages) && Single(photos)
    ensures var rows := Pending(photos, NIL_ID);
      && Attempts(photos, pages) == rows && StrictlyAscending(rows)
      && pages == (|rows| + BATCH_SIZE - 1) / BATCH_SIZE
  {
    hide *;
    var rows := Pending(photos, NIL_ID);
    SingleAscends(photos, NIL_ID);
    FinishedIs(photos, pages);
    StrictPages(rows, pages);
    if pages > 0 {
      StrictPages(rows, pages - 1);
    }
    assert Visited(rows, pages) + [] == Visited(rows, pages);
    PagesExact(|rows|, pages);
  }

  lemma FinishedIs(photos: seq<Photo>, pages: nat)
    requires Finished(photos, pages)
    ensures var rows := Pending(photos, NIL_ID);
      && Rest(rows, pages) == [] && (pages > 0 ==> Rest(rows, pages - 1) != [])
      && Attempts(photos, pages) == Visited(rows, pages)
  {
    hide Pending, Rest, Visited;
  }

  lemma PagesExact(total: nat, pages: nat)
    requires pages * BATCH_SIZE >= total && (pages > 0 ==> (pages - 1) * BATCH_SIZE < total)
    ensures pages == (total + BATCH_SIZE - 1) / BATCH_SIZE
  {}

  /** Main result: a run lists at most one page per fifty rows, and an empty one; it attempts
      every photo in reach and no other, in id order. Where photos have one item each it
      attempts every pending photo exactly once, in exactly that many pages. */
  lemma EachPhotoTried(photos: seq<Photo>, pages: nat)
    requires Ordered(photos) && Finished(photos, pages)
    ensures var rows, attempts := Pending(photos, NIL_ID), Attempts(photos, pages);
      && pages <= (|rows| + 49) / 50
      && Ascending(attempts) && Covers(photos, attempts)
      && (Single(photos) ==> attempts == rows && StrictlyAscending(rows) && pages == (|rows| + 49) / 50)
  {
    assert BATCH_SIZE == 50;
    hide *;
    AttemptsCover(photos, pages);
    PagesAreFew(photos, pages);
    if Single(photos) {
      OneItemEach(photos, pages);
    }
  }

  // Failures against photos still missing.

  function Missing(photos: seq<Photo>): nat {
    if photos == [] then 0
    else Missing(photos[..|photos| - 1]) + if photos[|photos| - 1].thumb then 0 else 1
  }

  /** Photos no listing returns: attached to nothing, or under the nil id. */
  function Stranded(photos: seq<Photo>): nat {
    if photos == [] then 0
    else Stranded(photos[..|photos| - 1]) + if IsStranded(photos[|photos| - 1]) then 1 else 0
  }

  lemma TriedStep(rows: seq<Row>, id: PhotoId)
    requires rows != []
    ensures var m := |rows| - 1; Tried(rows, id) <==> Tried(rows[..m], id) || rows[m].photo == id
  {
    var m := |rows| - 1;
    assert rows == rows[..m] + [rows[m]];
    TriedBoth(rows[..m], [rows[m]], id);
    assert [rows[m]][0].photo == rows[m].photo;
  }

  /** No photo of the table comes after its last one. */
  lemma LastIsHighest(photos: seq<Photo>, id: PhotoId)
    requires Ordered(photos) && photos != []
    ensures ReachableId(photos, id) ==> id <= photos[|photos| - 1].id
    ensures ReachableId(photos[..|photos| - 1], id) ==> id < photos[|photos| - 1].id
  {}

  /** With the last photo out of reach, the attempts are of the others. */
  lemma CoversOthers(photos: seq<Photo>, attempts: seq<Row>)
    requires photos != [] && Covers(photos, attempts) && !Reachable(photos[|photos| - 1])
    ensures Covers(photos[..|photos| - 1], attempts)
  {
    forall id
      ensures Tried(attempts, id) <==> ReachableId(photos[..|photos| - 1], id)
    {
      ReachableStep(photos, id);
    }
  }

  /** With the last photo in reach, the last attempt is of it. */
  lemma LastAttempt(photos: seq<Photo>, attempts: seq<Row>)
    requires Ordered(photos) && photos != [] && Covers(photos, attempts) && Ascending(attempts)
    requires Reachable(photos[|photos| - 1])
    ensures attempts != [] && attempts[|attempts| - 1].photo == photos[|photos| - 1].id
  {
    var p := photos[|photos| - 1];
    assert ReachableId(photos, p.id);
    assert Tried(attempts, p.id);
    var i :| 0 <= i < |attempts| && attempts[i].photo == p.id;
    var last := attempts[|attempts| - 1];
    assert Tried(attempts, last.photo);
    LastIsHighest(photos, last.photo);
  }

  /** Taking that attempt away leaves attempts of the others, or of the same photos still. */
  lemma CoversBefore(photos: seq<Photo>, attempts: seq<Row>)
    requires Ordered(photos) && photos != [] && Covers(photos, attempts) && Ascending(attempts)
    requires Reachable(photos[|photos| - 1])
    ensures attempts != []
    ensures var m, n := |attempts| - 1, |photos| - 1;
      if m > 0 && attempts[m - 1].photo == photos[n].id then Covers(photos, attempts[..m])
      else Covers(photos[..n], attempts[..m]) && (m > 0 ==> attempts[m - 1].photo < photos[n].id)
  {
    LastAttempt(photos, attempts);
    var m, n := |attempts| - 1, |photos| - 1;
    hide ReachableId, Reachable, Ordered;
    if m > 0 && attempts[m - 1].photo == photos[n].id {
      forall id
        ensures Tried(attempts[..m], id) <==> ReachableId(photos, id)
      {
        TriedStep(attempts, id);
        assert attempts[..m][m - 1].photo == photos[n].id;
      }
    } else {
      forall id
        ensures Tried(attempts[..m], id) <==> ReachableId(photos[..n], id)
      {
        TriedStep(attempts, id);
        ReachableStep(photos, id);
        LastIsHighest(photos, id);
        NotBefore(attempts, m, photos[n].id);
      }
    }
  }

  lemma NotBefore(attempts: seq<Row>, m: nat, id: PhotoId)
    requires Ascending(attempts) && m <= |attempts| && (m > 0 ==> attempts[m - 1].photo < id)
    ensures !Tried(attempts[..m], id)
  {
    assert forall i | 0 <= i < m :: attempts[i].photo <= attempts[m - 1].photo;
  }

  lemma CoversNothing(attempts: seq<Row>)
    requires Covers([], attempts)
    ensures attempts == []
  {
    if attempts != [] {
      FirstTried(attempts);
    }
  }

  lemma FirstTried(attempts: seq<Row>)
    requires attempts != []
    ensures Tried(attempts, attempts[0].photo)
  {}

  /** Attempts that cover the photos in reach are at least as many, and exactly as many when
      none of them is of the same photo twice. */
  lemma {:induction false} CoverCounts(photos: seq<Photo>, attempts: seq<Row>)
    requires Ordered(photos) && Ascending(attempts) && Covers(photos, attempts)
    ensures |attempts| + Stranded(photos) >= Missing(photos)
    ensures |attempts| + Stranded(photos) == Missing(photos) <==> StrictlyAscending(attempts)
    decreases |photos| + |attempts|
  {
    if photos == [] {
      CoversNothing(attempts);
    } else {
      var n, m := |photos| - 1, |attempts| - 1;
      if !Reachable(photos[n]) {
        CoversOthers(photos, attempts);
        CoverCounts(photos[..n], attempts);
      } else {
        CoversBefore(photos, attempts);
        LastAttempt(photos, attempts);
        hide Covers, Ordered, Stranded, Missing;
        assert Ascending(attempts[..m]);
        if m > 0 && attempts[m - 1].photo == photos[n].id {
          CoverCounts(photos, attempts[..m]);
        } else {
          OrderedPrefix(photos);
          CoverCounts(photos[..n], attempts[..m]);
          StrictSnoc(attempts);
          CountStep(photos);
        }
      }
    }
  }

  lemma OrderedPrefix(photos: seq<Photo>)
    requires Ordered(photos) && photos != []
    ensures Ordered(photos[..|photos| - 1])
  {}

  lemma CountStep(photos: seq<Photo>)
    requires photos != []
    ensures var n := |photos| - 1;
      && Missing(photos) == Missing(photos[..n]) + (if photos[n].thumb then 0 else 1)
      && Stranded(photos) == Stranded(photos[..n]) + (if IsStranded(photos[n]) then 1 else 0)
  {}

  lemma StrictSnoc(rows: seq<Row>)
    requires rows != [] && Ascending(rows)
    ensures var m := |rows| - 1;
      StrictlyAscending(rows) <==> StrictlyAscending(rows[..m]) && (m > 0 ==> rows[m - 1].photo < rows[m].photo)
  {
    var m := |rows| - 1;
    if StrictlyAscending(rows[..m]) && (m > 0 ==> rows[m - 1].photo < rows[m].photo) {
      forall i | 0 <= i < m
        ensures rows[i].photo < rows[m].photo
      {
        assert rows[i].photo <= rows[m - 1].photo;
      }
    }
  }

  /** Attempts of none of the first photos leave them as they are. */
  lemma RecordedPrefix(photos: seq<Photo>, attempts: seq<Row>, ok: Row -> bool)
    requires photos != []
    ensures var n := |photos| - 1;
      && |Recorded(photos, attempts, ok)| == |photos|
      && Recorded(photos, attempts, ok)[..n] == Recorded(photos[..n], attempts, ok)
      && Recorded(photos, attempts, ok)[n]
        == photos[n].(thumb := photos[n].thumb || Succeeded(photos[n].id, attempts, ok))
  {
    hide Succeeded;
  }

  lemma SucceededStep(id: PhotoId, attempts: seq<Row>, ok: Row -> bool)
    requires attempts != []
    ensures var m := |attempts| - 1;
      Succeeded(id, attempts, ok) <==> Succeeded(id, attempts[..m], ok) || (attempts[m].photo == id && ok(attempts[m]))
  {
    var m := |attempts| - 1;
    assert attempts == attempts[..m] + [attempts[m]];
  }

  lemma SucceededIsTried(id: PhotoId, attempts: seq<Row>, ok: Row -> bool)
    ensures Succeeded(id, attempts, ok) ==> Tried(attempts, id)
  {
    if Succeeded(id, attempts, ok) {
      TriedIn(attempts, id);
    }
  }

  /** One attempt more, of a photo that is not among these, changes none of them. */
  lemma RecordedWithout(photos: seq<Photo>, attempts: seq<Row>, ok: Row -> bool)
    requires attempts != [] && forall i | 0 <= i < |photos| :: photos[i].id != attempts[|attempts| - 1].photo
    ensures Recorded(photos, attempts, ok) == Recorded(photos, attempts[..|attempts| - 1], ok)
  {
    forall i | 0 <= i < |photos|
      ensures Succeeded(photos[i].id, attempts, ok) == Succeeded(photos[i].id, attempts[..|attempts| - 1], ok)
    {
      SucceededStep(photos[i].id, attempts, ok);
    }
    hide Succeeded;
  }

  lemma OthersDiffer(photos: seq<Photo>)
    requires Ordered(photos) && photos != []
    ensures var n := |photos| - 1; forall i | 0 <= i < n :: photos[..n][i].id != photos[n].id
  {}

  /** What becomes of the last photo, when it is attempted once at most. */
  lemma LastRecorded(photos: seq<Photo>, attempts: seq<Row>, ok: Row -> bool)
    requires Ordered(photos) && photos != [] && Covers(photos, attempts) && StrictlyAscending(attempts)
    ensures var p := photos[|photos| - 1];
      if Reachable(p)
      then attempts != [] && (Succeeded(p.id, attempts, ok) <==> ok(attempts[|attempts| - 1]))
      else p.thumb || !Succeeded(p.id, attempts, ok)
  {
    var n := |photos| - 1;
    var p := photos[n];
    SucceededIsTried(p.id, attempts, ok);
    ReachableStep(photos, p.id);
    LastIsHighest(photos, p.id);
    if Reachable(p) {
      LastAttempt(photos, attempts);
      var m := |attempts| - 1;
      SucceededStep(p.id, attempts, ok);
      SucceededIsTried(p.id, attempts[..m], ok);
      if i :| 0 <= i < m && attempts[..m][i].photo == p.id {
        assert attempts[i].photo < attempts[m].photo;
      }
    }
  }

  /** Attempts of every photo in reach, none twice: what is missing afterwards is what failed
      and what was out of reach. */
  lemma {:induction false} MissingIsFailedPlusStranded(photos: seq<Photo>, attempts: seq<Row>, ok: Row -> bool)
    requires Ordered(photos) && Covers(photos, attempts) && StrictlyAscending(attempts)
    ensures Missing(Recorded(photos, attempts, ok)) == Failures(attempts, ok) + Stranded(photos)
  {
    if photos == [] {
      CoversNothing(attempts);
    } else {
      var n, m := |photos| - 1, |attempts| - 1;
      RecordedPrefix(photos, attempts, ok);
      LastRecorded(photos, attempts, ok);
      OrderedPrefix(photos);
      CountStep(photos);
      CountStep(Recorded(photos, attempts, ok));
      if Reachable(photos[n]) {
        LastAttempt(photos, attempts);
        CoversBefore(photos, attempts);
        OthersDiffer(photos);
        StrictSnoc(attempts);
        hide *;
        RecordedWithout(photos[..n], attempts, ok);
        MissingIsFailedPlusStranded(photos[..n], attempts[..m], ok);
        FailuresStep(attempts, ok);
        ReachableIsNot(photos[n]);
      } else {
        CoversOthers(photos, attempts);
        hide *;
        MissingIsFailedPlusStranded(photos[..n], attempts, ok);
        ReachableIsNot(photos[n]);
      }
    }
  }

  lemma FailuresStep(attempts: seq<Row>, ok: Row -> bool)
    requires attempts != []
    ensures var m := |attempts| - 1;
      Failures(attempts, ok) == Failures(attempts[..m], ok) + if ok(attempts[m]) then 0 else 1
  {}

  lemma ReachableIsNot(p: Photo)
    ensures !p.thumb ==> (Reachable(p) <==> !IsStranded(p))
    ensures p.thumb ==> !Reachable(p) && !IsStranded(p)
  {}

  lemma {:induction false} FailuresOfAll(attempts: seq<Row>, ok: Row -> bool)
    ensures (forall row :: ok(row)) ==> Failures(attempts, ok) == 0
    ensures (forall row :: !ok(row)) ==> Failures(attempts, ok) == |attempts|
  {
    if attempts != [] {
      FailuresOfAll(attempts[..|attempts| - 1], ok);
    }
  }

  /** Photos out of reach stay missing. */
  lemma {:induction false} StrandedStayMissing(photos: seq<Photo>, after: seq<Photo>)
    requires |photos| == |after| && forall i | 0 <= i < |photos| :: IsStranded(photos[i]) ==> !after[i].thumb
    ensures Stranded(photos) <= Missing(after)
  {
    hide IsStranded;
    if photos != [] {
      StrandedStayMissing(photos[..|photos| - 1], after[..|photos| - 1]);
    }
  }

  /** No attempt is of a photo out of reach. */
  lemma StrandedUntried(photos: seq<Photo>, attempts: seq<Row>, ok: Row -> bool)
    requires Ordered(photos) && Covers(photos, attempts)
    ensures var after := Recorded(photos, attempts, ok);
      forall i | 0 <= i < |photos| :: IsStranded(photos[i]) ==> after[i] == photos[i]
  {
    forall i | 0 <= i < |photos| && IsStranded(photos[i])
      ensures !Succeeded(photos[i].id, attempts, ok)
    {
      SucceededIsTried(photos[i].id, attempts, ok);
    }
    hide Succeeded;
  }

  lemma NothingRecorded(photos: seq<Photo>, attempts: seq<Row>, no: Row -> bool)
    requires forall row :: !no(row)
    ensures Recorded(photos, attempts, no) == photos
  {}

  /** When every attempt works, only photos out of reach can stay missing. */
  lemma AgreementNeedsReach(photos: seq<Photo>, attempts: seq<Row>, yes: Row -> bool)
    requires Ordered(photos) && Covers(photos, attempts) && forall row :: yes(row)
    requires Failures(attempts, yes) == Missing(Recorded(photos, attempts, yes))
    ensures Stranded(photos) == 0
  {
    hide *;
    FailuresOfAll(attempts, yes);
    StrandedUntried(photos, attempts, yes);
    SameLength(photos, attempts, yes);
    StrandedMissThumb(photos);
    StrandedStayMissing(photos, Recorded(photos, attempts, yes));
  }

  lemma StrandedMissThumb(photos: seq<Photo>)
    ensures forall i | 0 <= i < |photos| :: IsStranded(photos[i]) ==> !photos[i].thumb
  {}

  /** When no attempt works, each photo has to be attempted once. */
  lemma AgreementNeedsOnce(photos: seq<Photo>, attempts: seq<Row>, no: Row -> bool)
    requires Ordered(photos) && Covers(photos, attempts) && Ascending(attempts) && forall row :: !no(row)
    requires Failures(attempts, no) == Missing(Recorded(photos, attempts, no)) && Stranded(photos) == 0
    ensures StrictlyAscending(attempts)
  {
    hide *;
    FailuresOfAll(attempts, no);
    NothingRecorded(photos, attempts, no);
    CoverCounts(photos, attempts);
  }

  /** What fails is what is missing, whatever fails. */
  ghost predicate AlwaysAgrees(photos: seq<Photo>, attempts: seq<Row>) {
    forall ok: Row -> bool :: Failures(attempts, ok) == Missing(Recorded(photos, attempts, ok))
  }

  /** Main result: a finished run is sure to report as failed exactly the photos that still
      miss their thumbnail, whatever fails, if and only if no photo was out of reach of the
      listing and none was attempted twice. */
  lemma FailedIsMissingIff(photos: seq<Photo>, pages: nat)
    requires Ordered(photos) && Finished(photos, pages)
    ensures var attempts := Attempts(photos, pages);
      AlwaysAgrees(photos, attempts) <==> Stranded(photos) == 0 && StrictlyAscending(attempts)
  {
    var attempts := Attempts(photos, pages);
    hide Attempts, Recorded, Failures, Missing, Stranded, StrictlyAscending, Finished, Ascending, Ordered, Covers;
    AttemptsCover(photos, pages);
    if Stranded(photos) == 0 && StrictlyAscending(attempts) {
      forall ok: Row -> bool
        ensures Failures(attempts, ok) == Missing(Recorded(photos, attempts, ok))
      {
        MissingIsFailedPlusStranded(photos, attempts, ok);
      }
    }
    if AlwaysAgrees(photos, attempts) {
      AgreementNeedsReach(photos, attempts, _ => true);
      AgreementNeedsOnce(photos, attempts, _ => false);
    }
  }

  lemma SameLength(photos: seq<Photo>, attempts: seq<Row>, ok: Row -> bool)
    ensures |Recorded(photos, attempts, ok)| == |photos|
  {}

  /** Where photos have one item each, the photos still missing are the failed and the stranded. */
  lemma FailedIsMissingOneItemEach(photos: seq<Photo>, pages: nat, ok: Row -> bool)
    requires Ordered(photos) && Single(photos) && Finished(photos, pages)
    ensures var attempts := Attempts(photos, pages);
      && Missing(Recorded(photos, attempts, ok)) == Failures(attempts, ok) + Stranded(photos)
      && (Failures(attempts, ok) == Missing(Recorded(photos, attempts, ok)) <==> Stranded(photos) == 0)
  {
    EachPhotoTried(photos, pages);
    hide Attempts, Recorded, Failures, Missing, Stranded, StrictlyAscending, Finished, Single;
    MissingIsFailedPlusStranded(photos, Attempts(photos, pages), ok);
  }

  /** A photo of two items is attempted, and counted, twice: two failures for one photo. */
  lemma TwoItemsCountTwice(ok: Row -> bool)
    requires !ok(Row(1, 1)) && !ok(Row(1, 2))
    ensures var photos := [Photo(1, false, [1, 2])];
      var attempts := Attempts(photos, 1);
      Finished(photos, 1) && Failures(attempts, ok) == 2 && Missing(Recorded(photos, attempts, ok)) == 1
  {
    var photos := [Photo(1, false, [1, 2])];
    var rows := [Row(1, 1), Row(1, 2)];
    assert photos[..0] == [] && RowsOf(photos[0]) == rows && Pending(photos, NIL_ID) == rows;
    assert Failures(rows, ok) == 2 by {
      assert rows[..1] == [Row(1, 1)] && rows[..1][..0] == [];
      assert Failures(rows[..1], ok) == 1;
    }
    assert Missing(Recorded(photos, rows, ok)) == 1 by {
      assert Recorded(photos, rows, ok) == photos;
    }
    hide Pending, Failures, Missing, Recorded;
    BeyondNone(rows, 1);
    assert Rest(rows, 0) == rows && Visited(rows, 0) == [];
    assert Visited(rows, 1) == rows;
  }

  // A second run.

  function FailedRows(rows: seq<Row>, ok: Row -> bool): seq<Row> {
    if rows == [] then []
    else FailedRows(rows[..|rows| - 1], ok) + if ok(rows[|rows| - 1]) then [] else [rows[|rows| - 1]]
  }

  lemma SameReach(photos: seq<Photo>, attempts: seq<Row>, ok: Row -> bool)
    requires Ordered(photos)
    ensures var photos' := Recorded(photos, attempts, ok);
      && Ordered(photos') && (Single(photos) ==> Single(photos'))
      && (forall i | 0 <= i < |photos| ::
            (Reachable(photos'[i]) <==> Reachable(photos[i]) && !Succeeded(photos[i].id, attempts, ok)))
      && (forall i | 0 <= i < |photos| :: IsStranded(photos'[i]) ==> IsStranded(photos[i]))
  {
    hide Succeeded;
  }

  lemma ReachableAgain(photos: seq<Photo>, attempts: seq<Row>, ok: Row -> bool, id: PhotoId)
    requires Ordered(photos)
    ensures ReachableId(Recorded(photos, attempts, ok), id)
      <==> ReachableId(photos, id) && !Succeeded(id, attempts, ok)
  {
    SameReach(photos, attempts, ok);
    var photos' := Recorded(photos, attempts, ok);
    hide Reachable, Succeeded;
    if i :| 0 <= i < |photos| && photos[i].id == id && Reachable(photos[i]) {
      assert photos'[i].id == id;
    }
    if i :| 0 <= i < |photos'| && photos'[i].id == id && Reachable(photos'[i]) {
      assert photos[i].id == id;
    }
  }

  /** What is pending again once these attempts are recorded: the rows of photos none of whose
      attempts worked. */
  function Unsettled(rows: seq<Row>, attempts: seq<Row>, ok: Row -> bool): seq<Row> {
    if rows == [] then []
    else
      var n := |rows| - 1;
      Unsettled(rows[..n], attempts, ok) + if Succeeded(rows[n].photo, attempts, ok) then [] else [rows[n]]
  }

  lemma {:induction false} UnsettledConcat(a: seq<Row>, b: seq<Row>, attempts: seq<Row>, ok: Row -> bool)
    ensures Unsettled(a + b, attempts, ok) == Unsettled(a, attempts, ok) + Unsettled(b, attempts, ok)
  {
    hide Succeeded;
    if b == [] {
      assert a + b == a;
    } else {
      var n := |b| - 1;
      assert (a + b)[..|a| + n] == a + b[..n];
      UnsettledConcat(a, b[..n], attempts, ok);
    }
  }

  lemma {:induction false} UnsettledSame(rows: seq<Row>, id: PhotoId, attempts: seq<Row>, ok: Row -> bool)
    requires forall i | 0 <= i < |rows| :: rows[i].photo == id
    ensures Unsettled(rows, attempts, ok) == if Succeeded(id, attempts, ok) then [] else rows
  {
    hide Succeeded;
    if rows != [] {
      UnsettledSame(rows[..|rows| - 1], id, attempts, ok);
    }
  }

  lemma {:induction false} PendingAgain(photos: seq<Photo>, attempts: seq<Row>, ok: Row -> bool)
    ensures Pending(Recorded(photos, attempts, ok), NIL_ID) == Unsettled(Pending(photos, NIL_ID), attempts, ok)
  {
    if photos != [] {
      var n := |photos| - 1;
      var p := photos[n];
      PendingAgain(photos[..n], attempts, ok);
      RecordedPrefix(photos, attempts, ok);
      var mine := if !p.thumb && p.id > NIL_ID then RowsOf(p) else [];
      UnsettledConcat(Pending(photos[..n], NIL_ID), mine, attempts, ok);
      UnsettledSame(mine, p.id, attempts, ok);
      hide Succeeded, Unsettled, Recorded;
      assert RowsOf(p.(thumb := false)) == RowsOf(p);
    }
  }

  /** Among attempts of different photos, those to repeat are those that failed. */
  lemma {:induction false} UnsettledFailed(rows: seq<Row>, ok: Row -> bool, n: nat)
    requires StrictlyAscending(rows) && n <= |rows|
    ensures Unsettled(rows[..n], rows, ok) == FailedRows(rows[..n], ok)
  {
    if n > 0 {
      UnsettledFailed(rows, ok, n - 1);
      assert rows[..n][..n - 1] == rows[..n - 1];
      assert Succeeded(rows[n - 1].photo, rows, ok) <==> ok(rows[n - 1]) by {
        OwnSuccess(rows, ok, n - 1);
      }
      hide Succeeded;
    }
  }

  lemma OwnSuccess(rows: seq<Row>, ok: Row -> bool, k: nat)
    requires StrictlyAscending(rows) && k < |rows|
    ensures Succeeded(rows[k].photo, rows, ok) <==> ok(rows[k])
  {
    if row :| row in rows && row.photo == rows[k].photo && ok(row) {
      var i :| 0 <= i < |rows| && rows[i] == row;
      assert i == k;
    }
    if ok(rows[k]) {
      assert rows[k] in rows;
    }
  }

  /** Missing afterwards are exactly the photos out of reach. */
  lemma {:induction false} MissingIsStranded(photos: seq<Photo>, after: seq<Photo>)
    requires |photos| == |after| && forall i | 0 <= i < |photos| :: IsStranded(photos[i]) <==> !after[i].thumb
    ensures Missing(after) == Stranded(photos)
  {
    hide IsStranded;
    if photos != [] {
      MissingIsStranded(photos[..|photos| - 1], after[..|photos| - 1]);
    }
  }

  lemma {:induction false} NoFailure(attempts: seq<Row>, ok: Row -> bool, i: nat)
    requires Failures(attempts, ok) == 0 && i < |attempts|
    ensures ok(attempts[i])
  {
    var m := |attempts| - 1;
    if i < m {
      NoFailure(attempts[..m], ok, i);
    }
  }

  /** A second run without a failure leaves exactly the photos out of reach. */
  lemma AllRecovered(photos: seq<Photo>, attempts: seq<Row>, ok: Row -> bool, attempts': seq<Row>, again: Row -> bool)
    requires Ordered(photos) && Covers(photos, attempts) && Covers(Recorded(photos, attempts, ok), attempts')
    requires Failures(attempts', again) == 0
    ensures Missing(Recorded(Recorded(photos, attempts, ok), attempts', again)) == Stranded(photos)
  {
    var photos' := Recorded(photos, attempts, ok);
    var after := Recorded(photos', attempts', again);
    SameReach(photos, attempts, ok);
    SameLength(photos, attempts, ok);
    SameLength(photos', attempts', again);
    StrandedUntried(photos, attempts, ok);
    StrandedUntried(photos', attempts', again);
    forall i | 0 <= i < |photos|
      ensures IsStranded(photos[i]) <==> !after[i].thumb
    {
      ReachableIsNot(photos'[i]);
      if Reachable(photos'[i]) {
        assert ReachableId(photos', photos'[i].id);
        var k :| 0 <= k < |attempts'| && attempts'[k].photo == photos'[i].id;
        NoFailure(attempts', again, k);
        assert attempts'[k] in attempts';
        assert Succeeded(photos'[i].id, attempts', again);
      }
    }
    hide Recorded, IsStranded, Reachable;
    MissingIsStranded(photos, after);
  }

  /** Main result: a second run attempts exactly the photos the first tried without success;
      if nothing fails it leaves just the photos out of reach. Where photos have one item each
      it repeats exactly the failed attempts, in the same order. */
  lemma RerunTriesTheFailed(photos: seq<Photo>, pages: nat, ok: Row -> bool, more: nat, again: Row -> bool)
    requires Ordered(photos) && Finished(photos, pages)
    requires Finished(Recorded(photos, Attempts(photos, pages), ok), more)
    ensures var attempts := Attempts(photos, pages);
      var photos' := Recorded(photos, attempts, ok);
      var attempts' := Attempts(photos', more);
      && (forall id :: Tried(attempts', id) <==> Tried(attempts, id) && !Succeeded(id, attempts, ok))
      && (Failures(attempts', again) == 0 ==> Missing(Recorded(photos', attempts', again)) == Stranded(photos))
      && (Single(photos) ==> attempts' == FailedRows(attempts, ok))
  {
    var attempts := Attempts(photos, pages);
    var photos' := Recorded(photos, attempts, ok);
    var attempts' := Attempts(photos', more);
    hide Attempts, Recorded, Finished, Single, Tried, Succeeded, ReachableId, Failures, Missing, Stranded, Pending;
    EachPhotoTried(photos, pages);
    SameReach(photos, attempts, ok);
    EachPhotoTried(photos', more);
    forall id
      ensures Tried(attempts', id) <==> Tried(attempts, id) && !Succeeded(id, attempts, ok)
    {
      ReachableAgain(photos, attempts, ok, id);
    }
    if Failures(attempts', again) == 0 {
      AllRecovered(photos, attempts, ok, attempts', again);
    }
    if Single(photos) {
      PendingAgain(photos, attempts, ok);
      UnsettledFailed(attempts, ok, |attempts|);
      assert attempts[..|attempts|] == attempts;
    }
  }

  // What a run reads and writes.

  /** A row pairs a photo in reach with one of its items. */
  predicate Genuine(photos: seq<Photo>, row: Row) {
    exists i | 0 <= i < |photos| ::
      photos[i].id == row.photo && !photos[i].thumb && row.photo != 0 && row.item in photos[i].items
  }

  lemma {:induction false} PendingGenuine(photos: seq<Photo>, row: Row)
    ensures row in Pending(photos, NIL_ID) <==> Genuine(photos, row)
  {
    if photos != [] {
      var n := |photos| - 1;
      PendingGenuine(photos[..n], row);
      GenuineStep(photos, row);
      RowsOfItems(photos[n], row);
      hide Genuine, RowsOf;
    }
  }

  lemma GenuineStep(photos: seq<Photo>, row: Row)
    requires photos != []
    ensures var n := |photos| - 1;
      var last := photos[n].id == row.photo && !photos[n].thumb && row.photo != 0 && row.item in photos[n].items;
      Genuine(photos, row) <==> Genuine(photos[..n], row) || last
  {
    var n := |photos| - 1;
    if i :| 0 <= i < n && photos[..n][i].id == row.photo && !photos[..n][i].thumb && row.item in photos[..n][i].items {
      assert photos[i].id == row.photo;
    }
    if i :| 0 <= i < |photos| && photos[i].id == row.photo && !photos[i].thumb && row.item in photos[i].items && i < n {
      assert photos[..n][i].id == row.photo;
    }
  }

  lemma RowsOfItems(p: Photo, row: Row)
    ensures row in RowsOf(p) <==> row.photo == p.id && row.item in p.items
  {
    if row.photo == p.id && row.item in p.items {
      var i :| 0 <= i < |p.items| && p.items[i] == row.item;
      assert RowsOf(p)[i] == row;
    }
  }

  /** Main result: a run attempts photos by join rows of theirs, and afterwards a photo has a
      thumbnail exactly if it had one or an attempt on it worked; nothing else changes. */
  lemma RunRecords(photos: seq<Photo>, pages: nat, ok: Row -> bool)
    requires Ordered(photos) && Finished(photos, pages)
    ensures var attempts, after := Attempts(photos, pages), Recorded(photos, Attempts(photos, pages), ok);
      && (forall row | row in attempts :: Genuine(photos, row))
      && |after| == |photos|
      && forall i | 0 <= i < |photos| ::
           && after[i].id == photos[i].id && after[i].items == photos[i].items
           && (after[i].thumb <==> photos[i].thumb || exists row | row in attempts :: row.photo == photos[i].id && ok(row))
  {
    var rows := Pending(photos, NIL_ID);
    PendingAscending(photos, NIL_ID);
    PagesHold(rows, pages);
    hide Pending, Rest, Visited, Ascending, Ordered, Tried, Genuine;
    forall row | row in Attempts(photos, pages)
      ensures Genuine(photos, row)
    {
      PendingGenuine(photos, row);
    }
  }
}
