/** When a run's count agrees with what is missing, read off the table before it starts. */
module BackfillBoundaries {
  import opened BackfillResults
  import opened ThumbnailBackfill

  /** The photos the listing reaches, in id order. */
  function Listed(photos: seq<Photo>): seq<Photo> {
    if photos == [] then []
    else
      var p := photos[|photos| - 1];
      Listed(photos[..|photos| - 1]) + if Reachable(p) then [p] else []
  }

  function Flat(qs: seq<Photo>): seq<Row> {
    if qs == [] then [] else RowsOf(qs[0]) + Flat(qs[1..])
  }

  /** Photos as Listed gives them: in id order, each of some item. */
  ghost predicate Listing(qs: seq<Photo>) {
    Ordered(qs) && forall i | 0 <= i < |qs| :: qs[i].items != []
  }

  /** Whether photo i of a listing that fits is the last of a full page. */
  predicate EndsPage(i: nat) {
    (i + 1) % 50 == 0
  }

  /** Only the last photo of a full page has several items: its other rows are skipped with it. */
  predicate SplitsAtPages(qs: seq<Photo>) {
    forall i | 0 <= i < |qs| :: |qs[i].items| == 1 || EndsPage(i)
  }

  lemma {:induction false} FlatConcat(a: seq<Photo>, b: seq<Photo>)
    ensures Flat(a + b) == Flat(a) + Flat(b)
  {
    hide RowsOf;
    if a == [] {
      assert a + b == b;
    } else {
      assert (a + b)[1..] == a[1..] + b;
      FlatConcat(a[1..], b);
    }
  }

  lemma FlatOne(p: Photo)
    ensures Flat([p]) == RowsOf(p)
  {
    hide RowsOf;
    assert [p][1..] == [];
  }

  lemma {:induction false} PendingIsFlat(photos: seq<Photo>)
    ensures Pending(photos, NIL_ID) == Flat(Listed(photos))
  {
    if photos != [] {
      var n := |photos| - 1;
      PendingIsFlat(photos[..n]);
      FlatOne(photos[n]);
      FlatConcat(Listed(photos[..n]), if Reachable(photos[n]) then [photos[n]] else []);
      hide Flat;
      assert !Reachable(photos[n]) && !photos[n].thumb && photos[n].id > NIL_ID ==> RowsOf(photos[n]) == [];
      assert !Reachable(photos[n]) ==> Flat([]) == [] by { FlatNothing(); }
    }
  }

  lemma FlatNothing()
    ensures Flat([]) == []
  {}

  lemma {:induction false} ListedIsListing(photos: seq<Photo>)
    requires Ordered(photos)
    ensures Listing(Listed(photos))
    ensures forall q | q in Listed(photos) :: q in photos
  {
    if photos != [] {
      var n := |photos| - 1;
      var qs := Listed(photos[..n]);
      ListedIsListing(photos[..n]);
      forall i | 0 <= i < |qs|
        ensures qs[i].id < photos[n].id
      {
        assert qs[i] in photos[..n];
      }
    }
  }

  lemma {:induction false} FlatWithin(qs: seq<Photo>, lo: nat, hi: nat)
    requires forall i | 0 <= i < |qs| :: lo <= qs[i].id <= hi
    ensures forall i | 0 <= i < |Flat(qs)| :: lo <= Flat(qs)[i].photo <= hi
  {
    if qs != [] {
      FlatWithin(qs[1..], lo, hi);
    }
  }

  /** As long as photos have one item each, row and photo numbers agree. */
  lemma {:induction false} FrontSingles(qs: seq<Photo>, n: nat)
    requires n <= |qs| && forall i | 0 <= i < n :: |qs[i].items| == 1
    ensures |Flat(qs)| >= n && Flat(qs)[n..] == Flat(qs[n..])
    ensures forall i | 0 <= i < n :: Flat(qs)[i].photo == qs[i].id
  {
    if n > 0 {
      FrontSingles(qs[1..], n - 1);
      assert qs[1..][n - 1..] == qs[n..];
      var first, rest := RowsOf(qs[0]), Flat(qs[1..]);
      assert Flat(qs) == first + rest && |first| == 1 && first[0].photo == qs[0].id;
      hide Flat, RowsOf;
      assert (first + rest)[n..] == rest[n - 1..];
      forall i | 0 < i < n
        ensures Flat(qs)[i].photo == qs[i].id
      {
        assert qs[1..][i - 1] == qs[i];
      }
    } else {
      assert qs[0..] == qs;
    }
  }

  lemma FlatFirst(qs: seq<Photo>)
    requires qs != [] && qs[0].items != []
    ensures var k := |qs[0].items|;
      |Flat(qs)| >= k >= 1 && forall i | 0 <= i < k :: Flat(qs)[i].photo == qs[0].id
  {}

  /** The rows of a page in which only the last photo may have several items. */
  lemma FitRows(qs: seq<Photo>, k: nat)
    requires Listing(qs) && 0 < k <= |qs| && k <= BATCH_SIZE && (k < BATCH_SIZE ==> k == |qs|)
    requires forall i | 0 <= i < k :: |qs[i].items| == 1 || i + 1 == BATCH_SIZE
    ensures var rows := Flat(qs);
      |rows| >= k && (k < BATCH_SIZE ==> |rows| == k) && forall i | 0 <= i < k :: rows[i].photo == qs[i].id
  {
    var rows := Flat(qs);
    FrontSingles(qs, k - 1);
    FlatFirst(qs[k - 1..]);
    if k < BATCH_SIZE {
      FrontSingles(qs, k);
      FlatNothing();
      assert qs[k..] == [];
    }
    hide Flat, Listing;
    assert rows[k - 1] == rows[k - 1..][0];
  }

  /** What lies past a photo in the list is what belongs to the photos after it. */
  lemma FlatBeyond(qs: seq<Photo>, k: nat)
    requires Listing(qs) && 0 < k <= |qs|
    ensures Beyond(Flat(qs), qs[k - 1].id) == Flat(qs[k..])
  {
    var last := qs[k - 1].id;
    PhotosAround(qs, k);
    assert qs == qs[..k] + qs[k..];
    hide *;
    FlatConcat(qs[..k], qs[k..]);
    BeyondConcat(Flat(qs[..k]), Flat(qs[k..]), last);
    BeyondNone(Flat(qs[..k]), last);
    BeyondAll(Flat(qs[k..]), last);
  }

  /** Where the first page ends, and what it holds, if only its last photo has several items. */
  lemma FitPage(qs: seq<Photo>, k: nat)
    requires Listing(qs) && k == (if |qs| <= BATCH_SIZE then |qs| else BATCH_SIZE)
    requires forall i | 0 <= i < k :: |qs[i].items| == 1 || i + 1 == BATCH_SIZE
    ensures var rows := Flat(qs);
      && |Page(rows)| == k && (forall i | 0 <= i < k :: Page(rows)[i].photo == qs[i].id)
      && AfterPage(rows) == Flat(qs[k..])
  {
    if k == 0 {
      assert qs[k..] == [];
      FlatNothing();
    } else {
      FitRows(qs, k);
      FlatBeyond(qs, k);
      hide Flat, Listing, Beyond, Page, AfterPage;
      PageAt(Flat(qs), k);
    }
  }

  lemma PageAt(rows: seq<Row>, k: nat)
    requires 0 < k <= |rows| && k <= BATCH_SIZE && (k < BATCH_SIZE ==> |rows| == k)
    ensures Page(rows) == rows[..k] && AfterPage(rows) == Beyond(rows, rows[k - 1].photo)
  {
    hide Beyond;
    assert |rows| == k ==> rows == rows[..k];
  }

  lemma PhotosAround(qs: seq<Photo>, k: nat)
    requires Listing(qs) && 0 < k <= |qs|
    ensures forall i | 0 <= i < |Flat(qs[..k])| :: Flat(qs[..k])[i].photo <= qs[k - 1].id
    ensures forall i | 0 <= i < |Flat(qs[k..])| :: Flat(qs[k..])[i].photo > qs[k - 1].id
  {
    FlatWithin(qs[..k], 0, qs[k - 1].id);
    if k < |qs| {
      FlatWithin(qs[k..], qs[k].id, qs[|qs| - 1].id);
    }
  }

  /** How many photos the first pages hold while they fit. */
  function Reached(total: nat, pages: nat): (n: nat)
    ensures n <= total
  {
    if pages * BATCH_SIZE <= total then pages * BATCH_SIZE else total
  }

  /** Pages that fit hold their photos once each, and the next begins where they end. */
  lemma {:induction false} FitPages(qs: seq<Photo>, pages: nat)
    requires Listing(qs) && SplitsAtPages(qs[..Reached(|qs|, pages)])
    ensures var n := Reached(|qs|, pages);
      && Rest(Flat(qs), pages) == Flat(qs[n..]) && |Visited(Flat(qs), pages)| == n
      && forall i | 0 <= i < n :: Visited(Flat(qs), pages)[i].photo == qs[i].id
  {
    hide *;
    var rows, n := Flat(qs), Reached(|qs|, pages);
    if pages == 0 {
      NoPageYet(qs);
    } else {
      var o := Reached(|qs|, pages - 1);
      ReachedGrows(|qs|, pages);
      FitsBefore(qs, o, n);
      FitPages(qs, pages - 1);
      OneMorePage(rows, pages - 1);
      TailFits(qs, pages, n - o);
      FitPage(qs[o..], n - o);
      assert qs[o..][n - o..] == qs[n..];
      JoinPage(qs, o, n, Visited(rows, pages - 1), Page(Flat(qs[o..])));
    }
  }

  lemma NoPageYet(qs: seq<Photo>)
    ensures Reached(|qs|, 0) == 0 && Rest(Flat(qs), 0) == Flat(qs[0..]) && Visited(Flat(qs), 0) == []
  {
    assert qs[0..] == qs;
  }

  lemma ReachedGrows(total: nat, pages: nat)
    requires pages > 0
    ensures Reached(total, pages - 1) <= Reached(total, pages)
  {}

  lemma JoinPage(qs: seq<Photo>, o: nat, n: nat, visited: seq<Row>, page: seq<Row>)
    requires o == |visited| <= n == |visited + page| <= |qs|
    requires forall i | 0 <= i < o :: visited[i].photo == qs[i].id
    requires forall i | 0 <= i < n - o :: page[i].photo == qs[o..][i].id
    ensures forall i | 0 <= i < n :: (visited + page)[i].photo == qs[i].id
  {
    assert forall i | 0 <= i < n :: (visited + page)[i] == if i < o then visited[i] else page[i - o];
    assert forall i | 0 <= i < n :: i >= o ==> qs[o..][i - o] == qs[i];
  }

  lemma FitsBefore(qs: seq<Photo>, o: nat, n: nat)
    requires o <= n <= |qs| && SplitsAtPages(qs[..n])
    ensures SplitsAtPages(qs[..o])
  {
    assert forall i | 0 <= i < o :: qs[..o][i] == qs[..n][i];
  }

  lemma TailFits(qs: seq<Photo>, pages: nat, k: nat)
    requires Listing(qs) && pages > 0 && SplitsAtPages(qs[..Reached(|qs|, pages)])
    requires k == Reached(|qs|, pages) - Reached(|qs|, pages - 1)
    ensures var tail := qs[Reached(|qs|, pages - 1)..];
      && Listing(tail) && k == (if |tail| <= BATCH_SIZE then |tail| else BATCH_SIZE)
      && forall i | 0 <= i < k :: |tail[i].items| == 1 || i + 1 == BATCH_SIZE
  {
    var o, n := Reached(|qs|, pages - 1), Reached(|qs|, pages);
    var tail := qs[o..];
    assert k > 0 ==> o == (pages - 1) * BATCH_SIZE;
    forall i | 0 <= i < k
      ensures |tail[i].items| == 1 || i + 1 == BATCH_SIZE
    {
      assert qs[..n][o + i] == tail[i];
    }
  }

  /** A photo of several items before the end of its page is attempted twice in it. */
  lemma PageRepeats(qs: seq<Photo>, i: nat)
    requires i < |qs| && i + 1 < BATCH_SIZE && |qs[i].items| >= 2 && forall j | 0 <= j < i :: |qs[j].items| == 1
    ensures var page := Page(Flat(qs)); i + 1 < |page| && page[i].photo == page[i + 1].photo
  {
    var rows := Flat(qs);
    FrontSingles(qs, i);
    FlatFirst(qs[i..]);
    hide Flat;
    assert rows[i] == rows[i..][0] && rows[i + 1] == rows[i..][1];
  }

  /** The first photo at which the listing does not fit. */
  lemma {:induction false} FirstMisfit(qs: seq<Photo>, n: nat) returns (i: nat)
    requires n <= |qs| && !SplitsAtPages(qs[..n])
    ensures i < n && SplitsAtPages(qs[..i]) && |qs[i].items| != 1 && !EndsPage(i)
  {
    if n == 0 {
      assert false;
    } else if !SplitsAtPages(qs[..n - 1]) {
      i := FirstMisfit(qs, n - 1);
    } else {
      i := n - 1;
      if |qs[i].items| == 1 || EndsPage(n - 1) {
        FitsOneMore(qs, n);
      }
    }
  }

  lemma FitsOneMore(qs: seq<Photo>, n: nat)
    requires 0 < n <= |qs| && SplitsAtPages(qs[..n - 1]) && (|qs[n - 1].items| == 1 || EndsPage(n - 1))
    ensures SplitsAtPages(qs[..n])
  {
    assert forall i | 0 <= i < n - 1 :: qs[..n - 1][i] == qs[..n][i];
  }

  lemma {:induction false} RestStaysEmpty(rows: seq<Row>, k: nat, n: nat)
    requires k <= n && Rest(rows, k) == []
    ensures Rest(rows, n) == []
  {
    if k < n {
      RestStaysEmpty(rows, k, n - 1);
    }
  }

  lemma {:induction false} VisitedGrows(rows: seq<Row>, k: nat, n: nat)
    requires k <= n
    ensures Visited(rows, k) <= Visited(rows, n)
  {
    hide Page, Rest;
    if k < n {
      VisitedGrows(rows, k, n - 1);
    }
  }

  lemma PlaceOf(total: nat, i: nat) returns (k: nat, o: nat, r: nat)
    requires i < total && !EndsPage(i)
    ensures o == Reached(total, k) && o + r == i && r + 1 < BATCH_SIZE
    ensures forall j | o <= j < i :: !EndsPage(j)
  {
    k, o, r := i / BATCH_SIZE, i / BATCH_SIZE * BATCH_SIZE, i % BATCH_SIZE;
  }

  /** The page it is on, where that page starts, and its place there. */
  lemma MisfitPage(qs: seq<Photo>, i: nat) returns (k: nat, o: nat, r: nat)
    requires Listing(qs) && i < |qs| && SplitsAtPages(qs[..i]) && |qs[i].items| != 1 && !EndsPage(i)
    ensures o == Reached(|qs|, k) && SplitsAtPages(qs[..o])
    ensures var tail := qs[o..];
      r < |tail| && r + 1 < BATCH_SIZE && |tail[r].items| >= 2 && forall j | 0 <= j < r :: |tail[j].items| == 1
  {
    k, o, r := PlaceOf(|qs|, i);
    FitsBefore(qs, o, i);
    hide Reached;
    var tail := qs[o..];
    forall j | 0 <= j < r
      ensures |tail[j].items| == 1
    {
      assert qs[..i][o + j] == tail[j];
    }
  }

  lemma NotEmpty(qs: seq<Photo>, o: nat)
    requires Listing(qs) && o < |qs|
    ensures Flat(qs[o..]) != []
  {
    FlatFirst(qs[o..]);
  }

  /** A listing that does not fit makes some photo be attempted twice. */
  lemma MisfitRepeats(qs: seq<Photo>, pages: nat)
    requires Listing(qs) && Rest(Flat(qs), pages) == [] && !SplitsAtPages(qs)
    ensures !StrictlyAscending(Visited(Flat(qs), pages))
  {
    assert qs[..|qs|] == qs;
    hide *;
    var i := FirstMisfit(qs, |qs|);
    var k, o, r := MisfitPage(qs, i);
    FitPages(qs, k);
    NotEmpty(qs, o);
    PageRepeats(qs[o..], r);
    var rows := Flat(qs);
    if k >= pages {
      RestStaysEmpty(rows, pages, k);
      assert false;
    } else {
      OneMorePage(rows, k);
      VisitedGrows(rows, k + 1, pages);
      RepeatInside(Visited(rows, k), Page(Flat(qs[o..])), Visited(rows, pages), r);
    }
  }

  lemma RepeatInside(visited: seq<Row>, page: seq<Row>, all: seq<Row>, r: nat)
    requires visited + page <= all && r + 1 < |page| && page[r].photo == page[r + 1].photo
    ensures !StrictlyAscending(all)
  {
    var o := |visited|;
    assert (visited + page)[o + r] == page[r] && (visited + page)[o + r + 1] == page[r + 1];
    assert all[o + r] == page[r] && all[o + r + 1] == page[r + 1];
  }

  lemma AllReached(qs: seq<Photo>, pages: nat)
    requires Listing(qs) && SplitsAtPages(qs) && Rest(Flat(qs), pages) == []
    ensures StrictlyAscending(Visited(Flat(qs), pages))
  {
    var n := Reached(|qs|, pages);
    assert qs[..|qs|] == qs;
    FitsBefore(qs, n, |qs|);
    FitPages(qs, pages);
  }

  /** Main result: a finished run is sure to report as failed exactly the photos that still
      miss their thumbnail, whatever fails, if and only if the table holds no photo out of
      reach, and only every fiftieth of the photos in reach may belong to several items. */
  lemma AgreementOnTable(photos: seq<Photo>, pages: nat)
    requires Ordered(photos) && Finished(photos, pages)
    ensures AlwaysAgrees(photos, Attempts(photos, pages))
      <==> Stranded(photos) == 0 && SplitsAtPages(Listed(photos))
  {
    assert Rest(Pending(photos, NIL_ID), pages) == [];
    assert Attempts(photos, pages) == Visited(Pending(photos, NIL_ID), pages);
    hide *;
    var qs := Listed(photos);
    FailedIsMissingIff(photos, pages);
    PendingIsFlat(photos);
    ListedIsListing(photos);
    if SplitsAtPages(qs) {
      AllReached(qs, pages);
    } else {
      MisfitRepeats(qs, pages);
    }
  }

  lemma {:induction false} ListedAre(photos: seq<Photo>, q: Photo)
    ensures q in Listed(photos) <==> q in photos && Reachable(q)
  {
    if photos != [] {
      var n := |photos| - 1;
      ListedAre(photos[..n], q);
      hide Reachable;
      assert photos == photos[..n] + [photos[n]];
    }
  }

  lemma EarlySingles(qs: seq<Photo>) returns (k: nat)
    requires SplitsAtPages(qs)
    ensures k <= |qs| && (k < |qs| ==> k + 1 == BATCH_SIZE)
    ensures forall i | 0 <= i < k :: |qs[i].items| == 1
  {
    k := if |qs| < BATCH_SIZE then |qs| else BATCH_SIZE - 1;
    assert forall i | 0 <= i < k :: !EndsPage(i);
  }

  lemma FittingIsSingle(qs: seq<Photo>)
    requires Listing(qs) && |Flat(qs)| <= BATCH_SIZE && SplitsAtPages(qs)
    ensures forall i | 0 <= i < |qs| :: |qs[i].items| == 1
  {
    hide *;
    var k := EarlySingles(qs);
    FrontSingles(qs, k);
    if k < |qs| {
      LongerThan(qs, k);
    }
  }

  /** Within one page the fiftieth photo has no room for a second row either. */
  lemma OnePageFits(qs: seq<Photo>)
    requires Listing(qs) && |Flat(qs)| <= BATCH_SIZE
    ensures SplitsAtPages(qs) <==> forall q | q in qs :: |q.items| == 1
  {
    hide Flat, EndsPage, Listing;
    if SplitsAtPages(qs) {
      FittingIsSingle(qs);
    }
  }

  lemma LongerThan(qs: seq<Photo>, k: nat)
    requires k < |qs| && |Flat(qs)| <= k + 1 && |Flat(qs)| >= k && Flat(qs)[k..] == Flat(qs[k..])
    requires Listing(qs)
    ensures |qs| == k + 1 && |qs[k].items| == 1
  {
    FlatFirst(qs[k..]);
    assert Flat(qs[k..]) == RowsOf(qs[k..][0]) + Flat(qs[k..][1..]);
    if k + 1 < |qs| {
      FlatFirst(qs[k..][1..]);
    }
  }

  /** Up to fifty rows: the condition is one item for every photo in reach. */
  lemma AgreementOnOnePage(photos: seq<Photo>, pages: nat)
    requires Ordered(photos) && Finished(photos, pages) && |Pending(photos, NIL_ID)| <= 50
    ensures AlwaysAgrees(photos, Attempts(photos, pages))
      <==> Stranded(photos) == 0 && forall q | q in photos && Reachable(q) :: |q.items| == 1
  {
    assert BATCH_SIZE == 50;
    hide *;
    AgreementOnTable(photos, pages);
    PendingIsFlat(photos);
    ListedIsListing(photos);
    OnePageFits(Listed(photos));
    forall q
      ensures q in Listed(photos) <==> q in photos && Reachable(q)
    {
      ListedAre(photos, q);
    }
  }
}
