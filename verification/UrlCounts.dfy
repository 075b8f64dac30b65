/** The grouped page listing of a collection: how much of the sorted page list has to be fetched. */
module UrlCounts {
  import opened Options

  type Url = int
  type CrawlId = nat

  /** A page as the listing returns it. URLs are numbered in sort order. */
  datatype Row = Row(url: Url, crawl: CrawlId, pageId: nat, ts: int, status: Option<int>)

  datatype Snapshot = Snapshot(pageId: nat, ts: int, status: int)

  datatype UrlCount = UrlCount(url: Url, snapshots: seq<Snapshot>, count: nat)

  function ToSnapshot(r: Row): Snapshot {
    Snapshot(r.pageId, r.ts, if r.status.Some? && r.status.value != 0 then r.status.value else 200)
  }

  ghost predicate Sorted(rows: seq<Row>) {
    forall i, j | 0 <= i < j < |rows| :: rows[i].url <= rows[j].url
  }

  // ------------------------------------------------------------------------------------------
  // Groups
  // ------------------------------------------------------------------------------------------

  predicate HasUrl(gs: seq<UrlCount>, url: Url) {
    exists i | 0 <= i < |gs| :: gs[i].url == url
  }

  function With(g: UrlCount, r: Row): UrlCount {
    g.(snapshots := g.snapshots + [ToSnapshot(r)], count := g.count + 1)
  }

  /** Adds a row to the group of its URL, which is the last one if the rows are sorted. */
  function AddRow(gs: seq<UrlCount>, r: Row): seq<UrlCount> {
    if gs != [] && gs[|gs| - 1].url == r.url then gs[..|gs| - 1] + [With(gs[|gs| - 1], r)]
    else gs + [With(UrlCount(r.url, [], 0), r)]
  }

  /** All groups of a sorted list, in order. */
  function Groups(rows: seq<Row>): seq<UrlCount> {
    if rows == [] then [] else AddRow(Groups(rows[..|rows| - 1]), rows[|rows| - 1])
  }

  /** The snapshots of one URL, in order, wherever they are in the list. */
  function SnapshotsOf(rows: seq<Row>, url: Url): seq<Snapshot> {
    if rows == [] then []
    else
      var before := SnapshotsOf(rows[..|rows| - 1], url);
      if rows[|rows| - 1].url == url then before + [ToSnapshot(rows[|rows| - 1])] else before
  }

  /** Where a URL occurs, in order. */
  function PositionsOf(rows: seq<Row>, url: Url): (at: seq<nat>)
    ensures forall k | 0 <= k < |at| :: at[k] < |rows|
  {
    if rows == [] then []
    else
      var before := PositionsOf(rows[..|rows| - 1], url);
      if rows[|rows| - 1].url == url then before + [|rows| - 1] else before
  }

  /** The snapshot of a page: its id, its time and its status, which is 200 if it has none or 0. */
  predicate IsSnapshotOf(s: Snapshot, r: Row) {
    && s.pageId == r.pageId && s.ts == r.ts
    && match r.status
       case None => s.status == 200
       case Some(status) => s.status == if status == 0 then 200 else status
  }

  lemma PositionsOfOneMore(rows: seq<Row>, r: Row, url: Url)
    ensures PositionsOf(rows + [r], url)
            == if r.url == url then PositionsOf(rows, url) + [|rows|] else PositionsOf(rows, url)
  {
    assert (rows + [r])[..|rows|] == rows;
  }

  ghost predicate Increasing(at: seq<nat>) {
    forall k, l | 0 <= k < l < |at| :: at[k] < at[l]
  }

  lemma {:induction false} PositionsIncrease(rows: seq<Row>, url: Url)
    ensures Increasing(PositionsOf(rows, url))
    decreases |rows|
  {
    if rows != [] {
      var front, r := rows[..|rows| - 1], rows[|rows| - 1];
      PositionsIncrease(front, url);
      PositionsOfOneMore(front, r, url);
      hide PositionsOf;
      assert rows == front + [r];
    }
  }

  lemma {:induction false} PositionsAreOf(rows: seq<Row>, url: Url, i: nat)
    requires i < |rows|
    ensures i in PositionsOf(rows, url) <==> rows[i].url == url
    decreases |rows|
  {
    hide PositionsOf;
    var front, r := rows[..|rows| - 1], rows[|rows| - 1];
    PositionsOfOneMore(front, r, url);
    assert rows == front + [r];
    if i < |front| {
      PositionsAreOf(front, url, i);
    } else {
      assert |front| !in PositionsOf(front, url);
    }
  }

  ghost predicate AtPositions(snapshots: seq<Snapshot>, rows: seq<Row>, at: seq<nat>) {
    && |snapshots| == |at|
    && forall k | 0 <= k < |at| :: at[k] < |rows| && IsSnapshotOf(snapshots[k], rows[at[k]])
  }

  lemma AtPositionsOfOneMore(snapshots: seq<Snapshot>, rows: seq<Row>, at: seq<nat>, r: Row)
    requires AtPositions(snapshots, rows, at)
    ensures AtPositions(snapshots, rows + [r], at)
    ensures AtPositions(snapshots + [ToSnapshot(r)], rows + [r], at + [|rows|])
  {
  }

  lemma {:induction false} SnapshotsAtPositions(rows: seq<Row>, url: Url)
    ensures AtPositions(SnapshotsOf(rows, url), rows, PositionsOf(rows, url))
    decreases |rows|
  {
    if rows != [] {
      var front, r := rows[..|rows| - 1], rows[|rows| - 1];
      SnapshotsAtPositions(front, url);
      PositionsOfOneMore(front, r, url);
      SnapshotsOfOneMore(front, r, url);
      AtPositionsOfOneMore(SnapshotsOf(front, url), front, PositionsOf(front, url), r);
      hide PositionsOf, SnapshotsOf, AtPositions;
      assert rows == front + [r];
    }
  }

  /** The snapshots of a URL are those of the rows where it occurs, all of them and in order. */
  lemma SnapshotsAreOfTheRows(rows: seq<Row>, url: Url)
    ensures var at, snapshots := PositionsOf(rows, url), SnapshotsOf(rows, url);
            && (forall k, l | 0 <= k < l < |at| :: at[k] < at[l])
            && (forall i: nat | i < |rows| :: i in at <==> rows[i].url == url)
            && |snapshots| == |at|
            && (forall k | 0 <= k < |at| :: IsSnapshotOf(snapshots[k], rows[at[k]]))
  {
    hide PositionsOf, SnapshotsOf, IsSnapshotOf;
    PositionsIncrease(rows, url);
    SnapshotsAtPositions(rows, url);
    forall i: nat | i < |rows| ensures i in PositionsOf(rows, url) <==> rows[i].url == url {
      PositionsAreOf(rows, url, i);
    }
  }

  ghost predicate Ascending(gs: seq<UrlCount>) {
    forall i, j | 0 <= i < j < |gs| :: gs[i].url < gs[j].url
  }

  /** Each group has every snapshot of its URL in the list, in order, and their number. */
  ghost predicate FullGroups(gs: seq<UrlCount>, rows: seq<Row>) {
    forall i | 0 <= i < |gs| :: gs[i].snapshots == SnapshotsOf(rows, gs[i].url) && gs[i].count == |gs[i].snapshots|
  }

  ghost predicate Covers(gs: seq<UrlCount>, rows: seq<Row>) {
    forall k | 0 <= k < |rows| :: HasUrl(gs, rows[k].url)
  }

  predicate SameEnd(gs: seq<UrlCount>, rows: seq<Row>) {
    if rows == [] then gs == [] else gs != [] && gs[|gs| - 1].url == rows[|rows| - 1].url
  }

  /** What the groups of a sorted list are: one for each URL that occurs, in increasing order, each with
      every snapshot of that URL and their number. */
  lemma {:induction false} GroupsMeaning(rows: seq<Row>)
    requires Sorted(rows)
    ensures var gs := Groups(rows); SameEnd(gs, rows) && Ascending(gs) && FullGroups(gs, rows) && Covers(gs, rows)
    decreases |rows|
  {
    if rows != [] {
      var n := |rows| - 1;
      GroupsMeaning(rows[..n]);
      assert rows == rows[..n] + [rows[n]];
      OneMoreAscending(Groups(rows[..n]), rows[..n], rows[n]);
      OneMoreFull(Groups(rows[..n]), rows[..n], rows[n]);
      OneMoreCovered(Groups(rows[..n]), rows[..n], rows[n]);
    }
  }

  lemma OneMoreAscending(gs: seq<UrlCount>, rows: seq<Row>, r: Row)
    requires Sorted(rows + [r]) && SameEnd(gs, rows) && Ascending(gs)
    ensures SameEnd(AddRow(gs, r), rows + [r]) && Ascending(AddRow(gs, r))
  {
    if rows != [] {
      assert (rows + [r])[|rows| - 1].url <= (rows + [r])[|rows|].url;
    }
  }

  lemma SnapshotsOfOneMore(rows: seq<Row>, r: Row, url: Url)
    ensures SnapshotsOf(rows + [r], url)
            == if r.url == url then SnapshotsOf(rows, url) + [ToSnapshot(r)] else SnapshotsOf(rows, url)
  {
    assert (rows + [r])[..|rows|] == rows;
  }

  lemma OneMoreFull(gs: seq<UrlCount>, rows: seq<Row>, r: Row)
    requires Sorted(rows + [r]) && SameEnd(gs, rows) && Ascending(gs) && FullGroups(gs, rows)
    ensures FullGroups(AddRow(gs, r), rows + [r])
  {
    var gs' := AddRow(gs, r);
    forall i | 0 <= i < |gs'|
      ensures gs'[i].snapshots == SnapshotsOf(rows + [r], gs'[i].url) && gs'[i].count == |gs'[i].snapshots|
    {
      SnapshotsOfOneMore(rows, r, gs'[i].url);
      if i == |gs| {
        forall k | 0 <= k < |rows| ensures rows[k].url != r.url {
          assert (rows + [r])[k].url <= (rows + [r])[|rows| - 1].url <= (rows + [r])[|rows|].url;
        }
        NoSnapshots(rows, r.url);
      }
    }
  }

  lemma OneMoreCovered(gs: seq<UrlCount>, rows: seq<Row>, r: Row)
    requires Covers(gs, rows)
    ensures Covers(AddRow(gs, r), rows + [r])
  {
    var gs' := AddRow(gs, r);
    forall k | 0 <= k < |rows + [r]| ensures HasUrl(gs', (rows + [r])[k].url) {
      if k < |rows| {
        assert HasUrl(gs, rows[k].url);
        var i :| 0 <= i < |gs| && gs[i].url == rows[k].url;
        assert gs'[i].url == rows[k].url;
      } else {
        assert gs'[|gs'| - 1].url == r.url;
      }
    }
  }

  lemma {:induction false} NoSnapshots(rows: seq<Row>, url: Url)
    requires forall i | 0 <= i < |rows| :: rows[i].url != url
    ensures SnapshotsOf(rows, url) == []
    decreases |rows|
  {
    if rows != [] {
      NoSnapshots(rows[..|rows| - 1], url);
    }
  }

  // ------------------------------------------------------------------------------------------
  // The listing
  // ------------------------------------------------------------------------------------------

  /** How many rows belong to the first pageSize groups. */
  function Cut(rows: seq<Row>, pageSize: nat): (k: nat)
    ensures k <= |rows|
  {
    if |Groups(rows)| <= pageSize then |rows| else Cut(rows[..|rows| - 1], pageSize)
  }

  /** The full answer: the first pageSize URLs, each with all its snapshots. */
  function Answer(rows: seq<Row>, pageSize: nat): seq<UrlCount> {
    var gs := Groups(rows);
    if |gs| <= pageSize then gs else gs[..pageSize]
  }

  function Fetched(rows: seq<Row>, limit: nat): seq<Row> {
    if |rows| <= limit then rows else rows[..limit]
  }

  /** Only pageSize rows for each crawl are fetched, in whatever order the page listing has. */
  method ListPageUrlCounts(rows: seq<Row>, crawlCount: nat, pageSize: nat) returns (result: seq<UrlCount>)
    ensures var fetched := Fetched(rows, pageSize * crawlCount);
            && result == Gathered(fetched[..ReadUpTo(fetched, pageSize)])
            && (Sorted(rows) ==> result == Answer(fetched, pageSize))
  {
    var fetched := Fetched(rows, pageSize * crawlCount);
    result := GroupUpTo(fetched, pageSize);
    if Sorted(rows) {
      SortedAnswer(fetched, pageSize);
    }
  }

  /** Stops at the first URL that would be one too many. */
  method GroupUpTo(pages: seq<Row>, pageSize: nat) returns (urlCounts: seq<UrlCount>)
    ensures urlCounts == Gathered(pages[..ReadUpTo(pages, pageSize)])
  {
    hide Gathered, ReadUpTo, Indexed, Place, With;
    urlCounts := [];
    var position: map<Url, nat> := map[];
    NothingGathered(pages);
    for i := 0 to |pages|
      invariant urlCounts == Gathered(pages[..i]) && |urlCounts| <= pageSize
      invariant Indexed(position, urlCounts)
    {
      var page := pages[i];
      GatheredOneMore(pages, i);
      if page.url !in position {
        NewUrl(position, urlCounts, page);
        // already at the page size, and this would add a URL
        if |urlCounts| >= pageSize {
          ReadingStops(pages, i, pageSize);
          return;
        }
        position := position[page.url := |urlCounts|];
        urlCounts := urlCounts + [UrlCount(page.url, [], 0)];
      } else {
        KnownUrl(position, urlCounts, page);
      }
      urlCounts := urlCounts[position[page.url] := With(urlCounts[position[page.url]], page)];
    }
    assert pages[..|pages|] == pages;
    ReadingGoesThrough(pages, pageSize);
  }

  /** The dictionary finds each group by its URL, and nothing else. */
  predicate Indexed(position: map<Url, nat>, gs: seq<UrlCount>) {
    && (forall k | 0 <= k < |gs| :: gs[k].url in position && position[gs[k].url] == k)
    && (forall url | url in position :: position[url] < |gs| && gs[position[url]].url == url)
  }

  lemma KnownUrl(position: map<Url, nat>, gs: seq<UrlCount>, r: Row)
    requires Indexed(position, gs) && r.url in position
    ensures position[r.url] < |gs| && gs[position[r.url] := With(gs[position[r.url]], r)] == Place(gs, r)
    ensures Indexed(position, Place(gs, r))
  {
    var i := IndexOf(gs, r.url);
    assert i == position[r.url];
  }

  lemma NewUrl(position: map<Url, nat>, gs: seq<UrlCount>, r: Row)
    requires Indexed(position, gs) && r.url !in position
    ensures var blank := gs + [UrlCount(r.url, [], 0)]; blank[|gs| := With(blank[|gs|], r)] == Place(gs, r)
    ensures Indexed(position[r.url := |gs|], Place(gs, r)) && |Place(gs, r)| == |gs| + 1
  {
    assert IndexOf(gs, r.url) == |gs|;
    var gs' := Place(gs, r);
    assert forall k | 0 <= k < |gs| :: gs'[k] == gs[k] && gs[k].url != r.url;
  }

  // ------------------------------------------------------------------------------------------
  // Rows in any order
  // ------------------------------------------------------------------------------------------

  function IndexOf(gs: seq<UrlCount>, url: Url): (i: nat)
    ensures i <= |gs| && (i < |gs| ==> gs[i].url == url)
    ensures forall k | 0 <= k < i :: gs[k].url != url
  {
    if gs == [] || gs[0].url == url then 0 else 1 + IndexOf(gs[1..], url)
  }

  /** Adds a row to the group of its URL, wherever it is, or opens a group at the end. */
  function Place(gs: seq<UrlCount>, r: Row): seq<UrlCount> {
    var i := IndexOf(gs, r.url);
    if i < |gs| then gs[i := With(gs[i], r)] else gs + [With(UrlCount(r.url, [], 0), r)]
  }

  /** One group for each URL, in the order in which the URLs first occur. */
  function Gathered(rows: seq<Row>): seq<UrlCount> {
    if rows == [] then [] else Place(Gathered(rows[..|rows| - 1]), rows[|rows| - 1])
  }

  /** How many rows are read: as many as have no more than pageSize URLs. */
  function ReadUpTo(rows: seq<Row>, pageSize: nat): (k: nat)
    ensures k <= |rows|
  {
    if |Gathered(rows)| <= pageSize then |rows| else ReadUpTo(rows[..|rows| - 1], pageSize)
  }

  lemma NothingGathered(rows: seq<Row>)
    ensures Gathered(rows[..0]) == [] && Indexed(map[], [])
  {
  }

  lemma GatheredOneMore(rows: seq<Row>, i: nat)
    requires i < |rows|
    ensures Gathered(rows[..i + 1]) == Place(Gathered(rows[..i]), rows[i])
  {
    assert rows[..i + 1][..i] == rows[..i];
  }

  lemma {:induction false} GatheredGrows(rows: seq<Row>, k: nat)
    requires k <= |rows|
    ensures |Gathered(rows[..k])| <= |Gathered(rows)|
    decreases |rows|
  {
    if k == |rows| {
      assert rows[..k] == rows;
    } else {
      GatheredGrows(rows[..|rows| - 1], k);
      assert rows[..|rows| - 1][..k] == rows[..k];
    }
  }

  lemma {:induction false} ReadingStops(rows: seq<Row>, i: nat, pageSize: nat)
    requires i < |rows| && |Gathered(rows[..i])| <= pageSize < |Gathered(rows[..i + 1])|
    ensures ReadUpTo(rows, pageSize) == i
    decreases |rows|
  {
    GatheredGrows(rows, i + 1);
    var front := rows[..|rows| - 1];
    if i < |rows| - 1 {
      assert front[..i] == rows[..i] && front[..i + 1] == rows[..i + 1];
      ReadingStops(front, i, pageSize);
    } else {
      assert rows[..i] == front && rows[..i + 1] == rows;
    }
  }

  lemma ReadingGoesThrough(rows: seq<Row>, pageSize: nat)
    requires |Gathered(rows)| <= pageSize
    ensures ReadUpTo(rows, pageSize) == |rows|
  {
  }

  ghost predicate DistinctUrls(gs: seq<UrlCount>) {
    forall i, j | 0 <= i < j < |gs| :: gs[i].url != gs[j].url
  }

  /** Where a URL first occurs. */
  function FirstAt(rows: seq<Row>, url: Url): (i: nat)
    ensures i <= |rows| && (i < |rows| ==> rows[i].url == url)
    ensures forall k | 0 <= k < i :: rows[k].url != url
  {
    if rows == [] || rows[0].url == url then 0 else 1 + FirstAt(rows[1..], url)
  }

  ghost predicate InOrderOfOccurrence(gs: seq<UrlCount>, rows: seq<Row>) {
    && (forall i | 0 <= i < |gs| :: FirstAt(rows, gs[i].url) < |rows|)
    && (forall i, j | 0 <= i < j < |gs| :: FirstAt(rows, gs[i].url) < FirstAt(rows, gs[j].url))
  }

  /** What is gathered from rows in any order: one group for each URL that occurs, in the order of first
      occurrence, each with every snapshot of that URL, in order, and their number. */
  lemma {:induction false} GatheredMeaning(rows: seq<Row>)
    ensures var gs := Gathered(rows);
            DistinctUrls(gs) && InOrderOfOccurrence(gs, rows) && FullGroups(gs, rows) && Covers(gs, rows)
    decreases |rows|
  {
    if rows != [] {
      var n := |rows| - 1;
      GatheredMeaning(rows[..n]);
      assert rows == rows[..n] + [rows[n]];
      PlacedInOrder(Gathered(rows[..n]), rows[..n], rows[n]);
      PlacedFull(Gathered(rows[..n]), rows[..n], rows[n]);
      PlacedCovers(Gathered(rows[..n]), rows[..n], rows[n]);
    }
  }

  lemma FirstAtInOneMore(rows: seq<Row>, r: Row, url: Url)
    ensures FirstAt(rows + [r], url) ==
      if FirstAt(rows, url) < |rows| then FirstAt(rows, url) else if r.url == url then |rows| else |rows| + 1
  {
    var more := rows + [r];
    var k := FirstAt(rows, url);
    assert more[|rows|] == r && forall i | 0 <= i < |rows| :: more[i] == rows[i];
    if k < |rows| {
      assert more[k].url == url;
    }
  }

  /** A URL that has occurred has a group. */
  lemma OccurredHasGroup(gs: seq<UrlCount>, rows: seq<Row>, url: Url)
    requires Covers(gs, rows)
    ensures FirstAt(rows, url) < |rows| ==> HasUrl(gs, url)
  {
    if FirstAt(rows, url) < |rows| {
      assert HasUrl(gs, rows[FirstAt(rows, url)].url);
    }
  }

  lemma PlaceUrls(gs: seq<UrlCount>, r: Row)
    ensures var gs' := Place(gs, r);
            && |gs| <= |gs'| <= |gs| + 1
            && (forall i | 0 <= i < |gs| :: gs'[i].url == gs[i].url)
            && (|gs'| == |gs| + 1 ==> gs'[|gs|].url == r.url && !HasUrl(gs, r.url))
  {
  }

  lemma PlacedInOrder(gs: seq<UrlCount>, rows: seq<Row>, r: Row)
    requires DistinctUrls(gs) && InOrderOfOccurrence(gs, rows) && Covers(gs, rows)
    ensures DistinctUrls(Place(gs, r)) && InOrderOfOccurrence(Place(gs, r), rows + [r])
  {
    hide Place, FirstAt, HasUrl, Covers;
    PlaceUrls(gs, r);
    var gs' := Place(gs, r);
    forall i | 0 <= i < |gs'|
      ensures FirstAt(rows + [r], gs'[i].url) == if i < |gs| then FirstAt(rows, gs[i].url) else |rows|
    {
      FirstAtInOneMore(rows, r, gs'[i].url);
      if i == |gs| {
        OccurredHasGroup(gs, rows, r.url);
      }
    }
    assert forall i, j | 0 <= i < j < |gs'| :: FirstAt(rows + [r], gs'[i].url) < FirstAt(rows + [r], gs'[j].url);
    assert forall i, j | 0 <= i < j < |gs'| :: gs'[i].url != gs'[j].url;
  }

  lemma PlacedFull(gs: seq<UrlCount>, rows: seq<Row>, r: Row)
    requires DistinctUrls(gs) && FullGroups(gs, rows) && Covers(gs, rows)
    ensures FullGroups(Place(gs, r), rows + [r])
  {
    var gs' := Place(gs, r);
    forall i | 0 <= i < |gs'|
      ensures gs'[i].snapshots == SnapshotsOf(rows + [r], gs'[i].url) && gs'[i].count == |gs'[i].snapshots|
    {
      SnapshotsOfOneMore(rows, r, gs'[i].url);
      if i == |gs| {
        forall k | 0 <= k < |rows| ensures rows[k].url != r.url {
          assert HasUrl(gs, rows[k].url);
        }
        NoSnapshots(rows, r.url);
      }
    }
  }

  lemma PlacedCovers(gs: seq<UrlCount>, rows: seq<Row>, r: Row)
    requires Covers(gs, rows)
    ensures Covers(Place(gs, r), rows + [r])
  {
    var gs' := Place(gs, r);
    forall k | 0 <= k < |rows + [r]| ensures HasUrl(gs', (rows + [r])[k].url) {
      if k < |rows| {
        assert HasUrl(gs, rows[k].url);
        var i :| 0 <= i < |gs| && gs[i].url == rows[k].url;
        assert gs'[i].url == rows[k].url;
      } else {
        assert gs'[IndexOf(gs, r.url)].url == r.url;
      }
    }
  }

  /** Reading stops right before the first URL that would be one too many, and only there. */
  lemma {:induction false} StopsBeforeOneTooMany(rows: seq<Row>, pageSize: nat)
    ensures var k := ReadUpTo(rows, pageSize);
            && |Gathered(rows[..k])| <= pageSize
            && (k < |rows| ==> |Gathered(rows[..k])| == pageSize && !HasUrl(Gathered(rows[..k]), rows[k].url))
    decreases |rows|
  {
    if |Gathered(rows)| <= pageSize {
      assert rows[..|rows|] == rows;
    } else {
      var front := rows[..|rows| - 1];
      StopsBeforeOneTooMany(front, pageSize);
      var k := ReadUpTo(front, pageSize);
      assert front[..k] == rows[..k];
      if k == |front| {
        assert rows[..k] == front;
      }
    }
  }

  // Sorted rows again.

  lemma PlaceOfSorted(gs: seq<UrlCount>, rows: seq<Row>, r: Row)
    requires Sorted(rows + [r]) && SameEnd(gs, rows) && Ascending(gs)
    ensures Place(gs, r) == AddRow(gs, r)
  {
    if rows != [] {
      assert (rows + [r])[|rows| - 1].url <= (rows + [r])[|rows|].url;
      assert forall i | 0 <= i < |gs| - 1 :: gs[i].url < gs[|gs| - 1].url;
      assert forall i | 0 <= i < |gs| - 1 :: gs[i].url != r.url;
    }
  }

  lemma {:induction false} GatheredOfSorted(rows: seq<Row>)
    requires Sorted(rows)
    ensures Gathered(rows) == Groups(rows)
    decreases |rows|
  {
    if rows != [] {
      var n := |rows| - 1;
      GatheredOfSorted(rows[..n]);
      GroupsMeaning(rows[..n]);
      assert rows == rows[..n] + [rows[n]];
      PlaceOfSorted(Groups(rows[..n]), rows[..n], rows[n]);
    }
  }

  lemma {:induction false} ReadUpToOfSorted(rows: seq<Row>, pageSize: nat)
    requires Sorted(rows)
    ensures ReadUpTo(rows, pageSize) == Cut(rows, pageSize)
    decreases |rows|
  {
    GatheredOfSorted(rows);
    if |Groups(rows)| > pageSize {
      ReadUpToOfSorted(rows[..|rows| - 1], pageSize);
    }
  }

  /** For sorted rows, what is gathered up to the stop is the first pageSize URLs with all of their snapshots. */
  lemma SortedAnswer(rows: seq<Row>, pageSize: nat)
    requires Sorted(rows)
    ensures Gathered(rows[..ReadUpTo(rows, pageSize)]) == Answer(rows, pageSize)
  {
    ReadUpToOfSorted(rows, pageSize);
    GatheredOfSorted(rows[..Cut(rows, pageSize)]);
    AnswerIsBeforeTheCut(rows, pageSize);
  }

  // ------------------------------------------------------------------------------------------
  // When the fetched part is enough
  // ------------------------------------------------------------------------------------------

  function CountSum(gs: seq<UrlCount>): nat {
    if gs == [] then 0 else CountSum(gs[..|gs| - 1]) + gs[|gs| - 1].count
  }

  lemma {:induction false} EveryRowIsCounted(rows: seq<Row>)
    ensures CountSum(Groups(rows)) == |rows|
    decreases |rows|
  {
    if rows != [] {
      var before, gs := Groups(rows[..|rows| - 1]), Groups(rows);
      EveryRowIsCounted(rows[..|rows| - 1]);
      if before != [] && |gs| == |before| {
        assert gs[..|gs| - 1] == before[..|before| - 1];
      } else {
        assert gs[..|gs| - 1] == before;
      }
    }
  }

  /** The rows of the answer are the rows before the cut. */
  lemma {:induction false} AnswerIsBeforeTheCut(rows: seq<Row>, pageSize: nat)
    ensures Answer(rows, pageSize) == Groups(rows[..Cut(rows, pageSize)])
    decreases |rows|
  {
    if |Groups(rows)| <= pageSize {
      assert rows[..|rows|] == rows;
    } else {
      var n := |rows| - 1;
      var front := rows[..n];
      AnswerIsBeforeTheCut(front, pageSize);
      PrefixOfPrefix(rows, n, Cut(front, pageSize));
      OneRowLess(Groups(front), rows[n], pageSize);
    }
  }

  lemma PrefixOfPrefix(rows: seq<Row>, n: nat, k: nat)
    requires k <= n <= |rows|
    ensures rows[..n][..k] == rows[..k]
  {
  }

  lemma OneRowLess(gs: seq<UrlCount>, r: Row, pageSize: nat)
    requires |AddRow(gs, r)| > pageSize
    ensures AddRow(gs, r)[..pageSize] == if |gs| <= pageSize then gs else gs[..pageSize]
  {
  }

  lemma CountOfAnswer(rows: seq<Row>, pageSize: nat)
    ensures CountSum(Answer(rows, pageSize)) == Cut(rows, pageSize)
  {
    AnswerIsBeforeTheCut(rows, pageSize);
    EveryRowIsCounted(rows[..Cut(rows, pageSize)]);
  }

  /** For a sorted list: the answer from the fetched part is the answer from all matching pages if and
      only if the pages of the first pageSize URLs fit into what is fetched. */
  lemma CompleteIffTheCutFits(rows: seq<Row>, limit: nat, pageSize: nat)
    requires Sorted(rows)
    ensures Answer(Fetched(rows, limit), pageSize) == Answer(rows, pageSize) <==> Cut(rows, pageSize) <= limit
  {
    var k := Cut(rows, pageSize);
    if |rows| > limit {
      var pages := rows[..limit];
      if limit < k {
        CountOfAnswer(rows, pageSize);
        CountOfAnswer(pages, pageSize);
      } else {
        CutOfPrefix(rows, limit, pageSize);
        PrefixOfPrefix(rows, limit, k);
        AnswerIsBeforeTheCut(rows, pageSize);
        AnswerIsBeforeTheCut(pages, pageSize);
      }
    }
  }

  lemma {:induction false} CutOfPrefix(rows: seq<Row>, limit: nat, pageSize: nat)
    requires Cut(rows, pageSize) <= limit <= |rows|
    ensures Cut(rows[..limit], pageSize) == Cut(rows, pageSize)
    decreases |rows|
  {
    hide Groups;
    if limit < |rows| {
      var n := |rows| - 1;
      CutOfPrefix(rows[..n], limit, pageSize);
      assert rows[..n][..limit] == rows[..limit];
    } else {
      assert rows[..limit] == rows;
    }
  }

  ghost predicate OncePerCrawl(rows: seq<Row>) {
    forall i, j | 0 <= i < j < |rows| && rows[i].url == rows[j].url :: rows[i].crawl != rows[j].crawl
  }

  ghost predicate FromCrawls(rows: seq<Row>, crawls: set<CrawlId>) {
    forall i | 0 <= i < |rows| :: rows[i].crawl in crawls
  }

  /** Pigeonhole: a URL has no more snapshots than there are crawls. */
  lemma {:induction false} SnapshotsPerUrl(rows: seq<Row>, url: Url, crawls: set<CrawlId>)
    requires OncePerCrawl(rows) && (forall i | 0 <= i < |rows| && rows[i].url == url :: rows[i].crawl in crawls)
    ensures |SnapshotsOf(rows, url)| <= |crawls|
    decreases |rows|
  {
    if rows != [] {
      var n := |rows| - 1;
      if rows[n].url == url {
        assert |crawls - {rows[n].crawl}| == |crawls| - 1;
        SnapshotsPerUrl(rows[..n], url, crawls - {rows[n].crawl});
      } else {
        SnapshotsPerUrl(rows[..n], url, crawls);
      }
    }
  }

  lemma {:induction false} SumBound(gs: seq<UrlCount>, most: nat)
    requires forall i | 0 <= i < |gs| :: gs[i].count <= most
    ensures CountSum(gs) <= |gs| * most
    decreases |gs|
  {
    if gs != [] {
      SumBound(gs[..|gs| - 1], most);
      assert |gs| * most == (|gs| - 1) * most + most;
    }
  }

  /** There are at most as many rows as groups times crawls. */
  lemma OncePerCrawlBound(rows: seq<Row>, crawls: set<CrawlId>)
    requires Sorted(rows) && OncePerCrawl(rows) && FromCrawls(rows, crawls)
    ensures |rows| <= |Groups(rows)| * |crawls|
  {
    var gs := Groups(rows);
    GroupsMeaning(rows);
    forall i | 0 <= i < |gs| ensures gs[i].count <= |crawls| {
      SnapshotsPerUrl(rows, gs[i].url, crawls);
    }
    SumBound(gs, |crawls|);
    EveryRowIsCounted(rows);
  }

  /** When no crawl has the same URL twice, fetching pageSize pages for each crawl is always enough: the
      result is the first pageSize URLs in order, each with all of its snapshots. */
  lemma OncePerCrawlIsComplete(rows: seq<Row>, crawls: set<CrawlId>, pageSize: nat)
    requires Sorted(rows) && OncePerCrawl(rows) && FromCrawls(rows, crawls)
    ensures Answer(Fetched(rows, pageSize * |crawls|), pageSize) == Answer(rows, pageSize)
  {
    AnswerIsBeforeTheCut(rows, pageSize);
    OncePerCrawlBound(rows[..Cut(rows, pageSize)], crawls);
    Times(|Answer(rows, pageSize)|, pageSize, |crawls|);
    CompleteIffTheCutFits(rows, pageSize * |crawls|, pageSize);
  }

  lemma Times(a: nat, b: nat, c: nat)
    requires a <= b
    ensures a * c <= b * c
  {
  }
}
