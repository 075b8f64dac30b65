/** Workflow statistics: the full recompute, the incremental update, and the deletion of archived items
    that accumulates one difference for each workflow. */
module CrawlDeletion {
  import opened ArchivedFiles
  import opened Options
  import opened MapSums

  datatype CrawlId = CrawlId(n: int)

  /** The id of a workflow. */
  datatype Cid = Cid(n: int)

  /** details stands for the fields that are copied to the workflow as they are. A crawl that is running
      or waiting has not finished. */
  datatype Crawl = Crawl(
    kind: Kind,
    cid: Option<Cid>,
    successful: bool,
    running: bool,
    finished: Option<int>,
    files: seq<File>,
    details: nat)

  type Crawls = map<CrawlId, Crawl>

  datatype LastCrawl = NoCrawl | Last(id: CrawlId, details: nat, size: int, time: int)

  datatype Stats = Stats(
    crawlCount: int,
    successfulCount: int,
    totalSize: int,
    last: LastCrawl,
    stopping: bool,
    isRunning: bool)

  datatype Tally = Tally(count: int, successful: int, size: int)

  const NOTHING := Tally(0, 0, 0)

  predicate InWorkflow(c: Crawl, cid: Cid) {
    c.cid == Some(cid) && c.finished.Some?
  }

  /** An item that has finished is not running. */
  ghost predicate FinishedAtRest(crawls: Crawls) {
    forall id | id in crawls && crawls[id].finished.Some? :: !crawls[id].running
  }

  ghost predicate Distinct(ids: seq<CrawlId>) {
    forall i, j | 0 <= i < j < |ids| :: ids[i] != ids[j]
  }

  /** There is exactly one running crawl, the condition under which one is found. */
  predicate Running(crawls: Crawls, cid: Cid) {
    |ActiveOf(crawls, cid)| == 1
  }

  function ActiveOf(crawls: Crawls, cid: Cid): set<CrawlId> {
    set id | id in crawls && crawls[id].cid == Some(cid) && crawls[id].running
  }

  function FinishTime(c: Crawl): int {
    if c.finished.Some? then c.finished.value else 0
  }

  // ------------------------------------------------------------------------------------------
  // What the statistics should be
  // ------------------------------------------------------------------------------------------

  ghost function SizesOf(crawls: Crawls, cid: Cid): map<CrawlId, int> {
    map id | id in crawls && InWorkflow(crawls[id], cid) :: SizeOf(crawls[id].files)
  }

  ghost function SuccessfulOf(crawls: Crawls, cid: Cid): set<CrawlId> {
    set id | id in crawls && InWorkflow(crawls[id], cid) && crawls[id].successful
  }

  /** Recounted from all finished crawls of a workflow. */
  ghost function TallyOf(crawls: Crawls, cid: Cid): Tally {
    Summed(SizesOf(crawls, cid), SuccessfulOf(crawls, cid))
  }

  ghost predicate IsLast(crawls: Crawls, cid: Cid, id: CrawlId) {
    && id in crawls && InWorkflow(crawls[id], cid)
    && forall o | o in crawls && InWorkflow(crawls[o], cid) :: FinishTime(crawls[o]) <= FinishTime(crawls[id])
  }

  ghost predicate NoneFinished(crawls: Crawls, cid: Cid) {
    forall id | id in crawls :: !InWorkflow(crawls[id], cid)
  }

  function ToLast(crawls: Crawls, id: CrawlId): LastCrawl
    requires id in crawls && crawls[id].finished.Some?
  {
    Last(id, crawls[id].details, SizeOf(crawls[id].files), FinishTime(crawls[id]))
  }

  ghost predicate DescribesLast(s: Stats, crawls: Crawls, cid: Cid) {
    && !s.stopping && !s.isRunning
    && if NoneFinished(crawls, cid) then s.last == NoCrawl
       else exists id :: IsLast(crawls, cid, id) && s.last == ToLast(crawls, id)
  }

  /** What the full recompute establishes. While a crawl is running, the fields about the last crawl are
      about that one and left alone. */
  ghost predicate Consistent(s: Stats, crawls: Crawls, cid: Cid) {
    && Tally(s.crawlCount, s.successfulCount, s.totalSize) == TallyOf(crawls, cid)
    && (!Running(crawls, cid) ==> DescribesLast(s, crawls, cid))
  }

  function Minus(a: Tally, b: Tally): Tally {
    Tally(a.count - b.count, a.successful - b.successful, a.size - b.size)
  }

  function Plus(a: Tally, b: Tally): Tally {
    Tally(a.count + b.count, a.successful + b.successful, a.size + b.size)
  }

  function DifferenceOf(differences: map<Cid, Tally>, cid: Cid): Tally {
    if cid in differences then differences[cid] else NOTHING
  }

  /** What one crawl contributes to a workflow. */
  function Share(c: Crawl, cid: Cid): Tally {
    if InWorkflow(c, cid) then Tally(1, if c.successful then 1 else 0, SizeOf(c.files)) else NOTHING
  }

  ghost function Summed(sizes: map<CrawlId, int>, good: set<CrawlId>): Tally {
    Tally(|sizes|, |good|, Total(sizes))
  }

  lemma RemoveOneOfWorkflow(crawls: Crawls, id: CrawlId, cid: Cid)
    requires id in crawls
    ensures SizesOf(crawls - {id}, cid) == SizesOf(crawls, cid) - {id}
    ensures SuccessfulOf(crawls - {id}, cid) == SuccessfulOf(crawls, cid) - {id}
  {
  }

  lemma RemoveFromSum(sizes: map<CrawlId, int>, good: set<CrawlId>, id: CrawlId)
    ensures id in sizes ==>
      Summed(sizes - {id}, good - {id}) == Minus(Summed(sizes, good), Tally(1, if id in good then 1 else 0, sizes[id]))
    ensures id !in sizes && id !in good ==> Summed(sizes - {id}, good - {id}) == Summed(sizes, good)
  {
    if id in sizes {
      TotalRemove(sizes, id);
      SizeWithout(sizes, id);
    } else {
      assert sizes - {id} == sizes;
    }
    if id !in good {
      assert good - {id} == good;
    }
  }

  lemma RemoveOne(crawls: Crawls, id: CrawlId, cid: Cid)
    requires id in crawls
    ensures TallyOf(crawls - {id}, cid) == Minus(TallyOf(crawls, cid), Share(crawls[id], cid))
  {
    RemoveOneOfWorkflow(crawls, id, cid);
    RemoveFromSum(SizesOf(crawls, cid), SuccessfulOf(crawls, cid), id);
  }

  // ------------------------------------------------------------------------------------------
  // The archive
  // ------------------------------------------------------------------------------------------

  datatype Outcome = Deleted | NotFound | NotStopped | NothingFound | FileDeletionError

  /** How the loop over a list ends. */
  datatype Ending = Through | Missing | StopFailed

  /** The part of the items that deleting a list removes. */
  function Remaining(crawls: Crawls, ids: seq<CrawlId>, kind: Kind): Crawls {
    map id | id in crawls && !(id in ids && crawls[id].kind == kind) :: crawls[id]
  }

  function CidOf(c: Crawl): set<Cid> {
    if c.cid.Some? then {c.cid.value} else {}
  }

  /** The workflows of the items of a list that are going to be deleted. */
  ghost function CidsOf(crawls: Crawls, ids: seq<CrawlId>, kind: Kind): set<Cid> {
    set i | 0 <= i < |ids| && ids[i] in crawls && crawls[ids[i]].kind == kind && crawls[ids[i]].cid.Some? ::
      crawls[ids[i]].cid.value
  }

  /** What the loop takes from the workflow of an item, whether it has finished or not. */
  function Taken(c: Crawl): Tally {
    Tally(1, if c.successful then 1 else 0, SizeOf(c.files))
  }

  function WithTaken(differences: map<Cid, Tally>, c: Crawl): map<Cid, Tally> {
    if c.cid.None? then differences
    else differences[c.cid.value := Plus(DifferenceOf(differences, c.cid.value), Taken(c))]
  }

  /** The item is going to be deleted and belongs to the workflow. */
  predicate Concerns(crawls: Crawls, id: CrawlId, kind: Kind, cid: Cid) {
    id in crawls && crawls[id].kind == kind && crawls[id].cid == Some(cid)
  }

  /** What a list takes from a workflow, item by item. */
  ghost function TakenByList(crawls: Crawls, ids: seq<CrawlId>, kind: Kind, cid: Cid): Tally {
    if ids == [] then NOTHING
    else
      var id, before := ids[|ids| - 1], TakenByList(crawls, ids[..|ids| - 1], kind, cid);
      if Concerns(crawls, id, kind, cid) then Plus(before, Taken(crawls[id])) else before
  }

  /** What is about the last crawl is the same. */
  predicate SameLast(s: Stats, t: Stats) {
    s.last == t.last && s.stopping == t.stopping && s.isRunning == t.isRunning
  }

  /** The items of the list that belong to the workflow have finished, and none of them is listed twice. */
  ghost predicate FinishedAndOnce(crawls: Crawls, ids: seq<CrawlId>, kind: Kind, cid: Cid) {
    forall i | 0 <= i < |ids| && Concerns(crawls, ids[i], kind, cid) ::
      crawls[ids[i]].finished.Some? && ids[i] !in ids[..i]
  }

  /** An id that does not exist ends the loop, and so does a crawl that is not stopped. */
  function EndingOf(crawls: Crawls, ids: seq<CrawlId>, kind: Kind, stops: CrawlId -> bool): Ending {
    if ids == [] then Through
    else if ids[0] !in crawls then Missing
    else if crawls[ids[0]].kind == kind == CrawlItem && crawls[ids[0]].finished.None? && !stops(ids[0]) then StopFailed
    else EndingOf(crawls, ids[1..], kind, stops)
  }

  /** Some file of a crawl that is going to be deleted cannot be deleted from storage. */
  predicate SomeFileFails(crawls: Crawls, ids: seq<CrawlId>, kind: Kind, deletes: File -> bool) {
    exists i | 0 <= i < |ids| ::
      ids[i] in crawls && crawls[ids[i]].kind == kind && !AllDelete(crawls[ids[i]].files, deletes)
  }

  predicate AllDelete(files: seq<File>, deletes: File -> bool) {
    forall i | 0 <= i < |files| :: deletes(files[i])
  }

  class Archive {
    var crawls: Crawls
    var workflows: map<Cid, Stats>

    constructor ()
      ensures crawls == map[] && workflows == map[]
    {
      crawls, workflows := map[], map[];
    }

    /** The full recompute. The cursor returns the finished crawls of the workflow by finish time. */
    method StatsRecomputeAll(cid: Cid, cursor: seq<CrawlId>, running: bool)
      requires cid in workflows && running == Running(crawls, cid)
      requires forall i | 0 <= i < |cursor| ::
        cursor[i] in crawls && crawls[cursor[i]].cid == Some(cid) && crawls[cursor[i]].finished.Some?
      requires Distinct(cursor)
      requires forall i, j | 0 <= i < j < |cursor| ::
        crawls[cursor[i]].finished.value <= crawls[cursor[j]].finished.value
      requires forall id | id in crawls && InWorkflow(crawls[id], cid) :: id in cursor
      modifies `workflows
      ensures cid in workflows && workflows == old(workflows)[cid := workflows[cid]]
      ensures Consistent(workflows[cid], crawls, cid)
      ensures running ==> workflows[cid].last == old(workflows[cid]).last
    {
      var tally := TallyCursor(crawls, cid, cursor);
      var s := workflows[cid].(crawlCount := tally.count, successfulCount := tally.successful, totalSize := tally.size);
      if !running {
        s := s.(stopping := false, isRunning := false);
        if cursor != [] {
          var last := cursor[|cursor| - 1];
          s := s.(last := ToLast(crawls, last));
          assert IsLast(crawls, cid, last);
        } else {
          s := s.(last := NoCrawl);
        }
      }
      workflows := workflows[cid := s];
    }

    /** The incremental update: adds the differences, and looks up the last crawl unless one is running.
        With no crawl left it does not touch the stopping flag. */
    method StatsRecomputeLast(cid: Cid, size: int, incCrawls: int, incSuccessful: int, running: bool,
                              last: Option<CrawlId>)
      requires cid in workflows && running == Running(crawls, cid)
      requires if last.Some? then IsLast(crawls, cid, last.value) else NoneFinished(crawls, cid)
      modifies `workflows
      ensures cid in workflows && workflows == old(workflows)[cid := workflows[cid]]
      ensures var s, t := old(workflows)[cid], workflows[cid];
              && t.crawlCount == s.crawlCount + incCrawls && t.successfulCount == s.successfulCount + incSuccessful
              && t.totalSize == s.totalSize + size
              && (running ==> t.last == s.last && t.stopping == s.stopping && t.isRunning == s.isRunning)
              && (!running ==> !t.isRunning && t.stopping == (s.stopping && last.None?))
              && (!running ==> t.last == if last.None? then NoCrawl else ToLast(crawls, last.value))
    {
      var s := workflows[cid];
      if !running {
        if last.Some? {
          s := s.(last := ToLast(crawls, last.value), stopping := false, isRunning := false);
        } else {
          s := s.(last := NoCrawl, isRunning := false);
        }
      }
      s := s.(crawlCount := s.crawlCount + incCrawls, successfulCount := s.successfulCount + incSuccessful,
              totalSize := s.totalSize + size);
      workflows := workflows[cid := s];
    }

    /** Deletes one item's files and returns the size of those that could be deleted. */
    method DeleteCrawlFiles(files: seq<File>, deletes: File -> bool) returns (size: nat, failed: bool)
      ensures failed <==> !AllDelete(files, deletes)
      ensures !failed ==> size == SizeOf(files)
      ensures size <= SizeOf(files)
    {
      size, failed := 0, false;
      for i := 0 to |files|
        invariant failed <==> exists j | 0 <= j < i :: !deletes(files[j])
        invariant size <= SizeUpTo(files, i) && (!failed ==> size == SizeUpTo(files, i))
      {
        if deletes(files[i]) {
          size := size + files[i].size;
        } else {
          failed := true;
        }
      }
    }

    /** One item of the list: deletes its files and adds what is taken from its workflow. */
    method AccumulateOne(crawl: Crawl, deletes: File -> bool, differences: map<Cid, Tally>)
      returns (differences': map<Cid, Tally>, failed: bool)
      ensures failed <==> !AllDelete(crawl.files, deletes)
      ensures differences'.Keys == differences.Keys + CidOf(crawl)
      ensures !failed ==> differences' == WithTaken(differences, crawl)
    {
      var size;
      size, failed := DeleteCrawlFiles(crawl.files, deletes);
      differences' := differences;
      if crawl.cid.Some? {
        var cid := crawl.cid.value;
        var taken := Tally(1, if crawl.successful then 1 else 0, size);
        differences' := differences[cid := Plus(DifferenceOf(differences, cid), taken)];
      }
    }

    /** The loop over the list: what is going to be subtracted from each workflow. */
    method Accumulate(ids: seq<CrawlId>, kind: Kind, deletes: File -> bool, stops: CrawlId -> bool)
      returns (ending: Ending, differences: map<Cid, Tally>, failed: bool)
      ensures ending == EndingOf(crawls, ids, kind, stops)
      ensures ending == Through ==> (failed <==> SomeFileFails(crawls, ids, kind, deletes))
      ensures ending == Through ==> differences.Keys == CidsOf(crawls, ids, kind)
      ensures ending == Through && !failed ==> TellsTaken(crawls, ids, kind, differences)
    {
      hide TakenByList, AllDelete, CidsOf, Concerns, WithTaken;
      ending, differences, failed := Through, map[], false;
      NothingListed(crawls, ids, kind);
      for i := 0 to |ids|
        invariant EndingOf(crawls, ids, kind, stops) == EndingOf(crawls, ids[i..], kind, stops)
        invariant failed <==> SomeFileFails(crawls, ids[..i], kind, deletes)
        invariant differences.Keys == CidsOf(crawls, ids[..i], kind)
        invariant !failed ==> TellsTaken(crawls, ids[..i], kind, differences)
      {
        var id := ids[i];
        assert ids[i..][0] == id && ids[i..][1..] == ids[i + 1..];
        if id !in crawls {
          return Missing, differences, failed;
        }
        var crawl := crawls[id];
        if crawl.kind == kind == CrawlItem && crawl.finished.None? && !stops(id) {
          return StopFailed, differences, failed;
        }
        assert ids[..i + 1] == ids[..i] + [id];
        OneMoreListed(crawls, ids[..i], id, kind, deletes, differences);
        if crawl.kind != kind {
          continue;
        }
        var fileFailed;
        differences, fileFailed := AccumulateOne(crawl, deletes, differences);
        failed := failed || fileFailed;
      }
      assert ids[..|ids|] == ids;
    }

    /** Deletes a list of items of one kind and updates the workflows they belong to. An id that does not
        exist, or a crawl that is not stopped, ends the operation before any record is removed, even when
        files of items before it are already gone. When a file cannot be deleted the items are gone all the
        same, but the workflows are not updated. */
    method DeleteCrawls(ids: seq<CrawlId>, kind: Kind, deletes: File -> bool, stops: CrawlId -> bool)
      returns (outcome: Outcome)
      requires FinishedAtRest(crawls)
      modifies this
      ensures var ending := EndingOf(old(crawls), ids, kind, stops);
              && crawls == (if ending == Through then Remaining(old(crawls), ids, kind) else old(crawls))
              && outcome == match ending
                            case Missing => NotFound
                            case StopFailed => NotStopped
                            case Through =>
                              if SomeFileFails(old(crawls), ids, kind, deletes) then FileDeletionError
                              else if crawls == old(crawls) then NothingFound else Deleted
      ensures FinishedAtRest(crawls) && workflows.Keys == old(workflows).Keys
      ensures outcome != Deleted ==> workflows == old(workflows)
      ensures outcome == Deleted ==>
        forall cid | cid in workflows && Consistent(old(workflows)[cid], old(crawls), cid) ::
          Consistent(workflows[cid], crawls, cid) <==> FinishedAndOnce(old(crawls), ids, kind, cid)
      ensures outcome == Deleted ==>
        forall cid | cid in workflows && Running(crawls, cid) :: SameLast(old(workflows)[cid], workflows[cid])
    {
      hide TellsTaken, FinishedAndOnce, Consistent, EndingOf, SomeFileFails, Running;
      var ending, differences, failed := Accumulate(ids, kind, deletes, stops);
      if ending != Through {
        return if ending == Missing then NotFound else NotStopped;
      }
      var left := Remaining(crawls, ids, kind);
      var deletedCount := |crawls| - |left|;
      CountsTellWhetherAnyWent(crawls, ids, kind);
      crawls := left;
      if failed {
        return FileDeletionError;
      }
      if deletedCount < 1 {
        return NothingFound;
      }
      SubtractAll(old(crawls), ids, kind, differences);
      return Deleted;
    }

    /** One incremental update for each workflow in the differences. */
    method SubtractAll(ghost before: Crawls, ghost ids: seq<CrawlId>, ghost kind: Kind, differences: map<Cid, Tally>)
      requires crawls == Remaining(before, ids, kind) && FinishedAtRest(before)
      requires differences.Keys == CidsOf(before, ids, kind) && TellsTaken(before, ids, kind, differences)
      modifies `workflows
      ensures workflows.Keys == old(workflows).Keys
      ensures forall cid | cid in workflows :: RightIff(old(workflows)[cid], before, workflows[cid], ids, kind, cid)
      ensures forall cid | cid in workflows && Running(crawls, cid) :: SameLast(old(workflows)[cid], workflows[cid])
    {
      hide CidsOf, Running, RightIff, Remaining, TellsTaken, FinishedAtRest;
      forall cid | cid in workflows && cid !in differences
        ensures RightIff(workflows[cid], before, workflows[cid], ids, kind, cid)
      {
        NotAmongTheListed(before, ids, kind, cid);
        UntouchedIsRight(workflows[cid], before, ids, kind, cid);
      }
      var todo := differences.Keys;
      while todo != {}
        invariant todo <= differences.Keys && workflows.Keys == old(workflows).Keys
        invariant forall cid | cid in todo && cid in workflows :: workflows[cid] == old(workflows)[cid]
        invariant forall cid | cid in workflows && cid !in todo ::
          RightIff(old(workflows)[cid], before, workflows[cid], ids, kind, cid)
        invariant forall cid | cid in workflows && cid !in todo && Running(crawls, cid) ::
          SameLast(old(workflows)[cid], workflows[cid])
        decreases todo
      {
        var cid :| cid in todo;
        todo := todo - {cid};
        // a workflow that was deleted is not matched
        if cid in workflows {
          TakenIs(before, ids, kind, differences, cid);
          Subtract(before, ids, kind, cid, differences[cid]);
        }
      }
    }

    method Subtract(ghost before: Crawls, ghost ids: seq<CrawlId>, ghost kind: Kind, cid: Cid, d: Tally)
      requires cid in workflows && crawls == Remaining(before, ids, kind) && FinishedAtRest(before)
      requires d == TakenByList(before, ids, kind, cid)
      modifies `workflows
      ensures cid in workflows && workflows == old(workflows)[cid := workflows[cid]]
      ensures RightIff(old(workflows)[cid], before, workflows[cid], ids, kind, cid)
      ensures Running(crawls, cid) ==> SameLast(old(workflows)[cid], workflows[cid])
    {
      hide TakenByList, Consistent, FinishedAndOnce, FinishedAtRest, Remaining;
      var running, last := LookUp(cid);
      StatsRecomputeLast(cid, -d.size, -d.count, -d.successful, running, last);
      if Consistent(old(workflows)[cid], before, cid) {
        SubtractedIsRightIff(old(workflows)[cid], workflows[cid], before, ids, kind, cid, last);
      }
    }

    /** The two queries of the incremental update. */
    method LookUp(cid: Cid) returns (running: bool, last: Option<CrawlId>)
      ensures running == Running(crawls, cid)
      ensures running <==> |set id | id in crawls && crawls[id].cid == Some(cid) && crawls[id].running| == 1
      ensures if last.Some? then IsLast(crawls, cid, last.value) else NoneFinished(crawls, cid)
    {
      assert ActiveOf(crawls, cid) == set id | id in crawls && crawls[id].cid == Some(cid) && crawls[id].running;
      running := Running(crawls, cid);
      last := None;
      var todo := crawls.Keys;
      while todo != {}
        invariant todo <= crawls.Keys
        invariant last.None? ==> forall id | id in crawls && id !in todo :: !InWorkflow(crawls[id], cid)
        invariant last.Some? ==> last.value in crawls && InWorkflow(crawls[last.value], cid)
        invariant last.Some? ==> forall id | id in crawls && id !in todo && InWorkflow(crawls[id], cid) ::
          FinishTime(crawls[id]) <= FinishTime(crawls[last.value])
        decreases todo
      {
        var id :| id in todo;
        todo := todo - {id};
        if InWorkflow(crawls[id], cid) {
          if last.None? || FinishTime(crawls[id]) > FinishTime(crawls[last.value]) {
            last := Some(id);
          }
        }
      }
    }
  }

  /** The loop of the full recompute. */
  method TallyCursor(crawls: Crawls, cid: Cid, cursor: seq<CrawlId>) returns (tally: Tally)
    requires forall i | 0 <= i < |cursor| :: cursor[i] in crawls && InWorkflow(crawls[cursor[i]], cid)
    requires Distinct(cursor)
    requires forall id | id in crawls && InWorkflow(crawls[id], cid) :: id in cursor
    ensures tally == TallyOf(crawls, cid)
  {
    hide TallyOf, Counted;
    tally := NOTHING;
    CountedFirst(crawls, cursor, cid);
    for i := 0 to |cursor|
      invariant Counted(crawls, cursor, i, cid, tally)
    {
      var crawl := crawls[cursor[i]];
      var size := FilesSize(crawl.files);
      var share := Tally(1, if crawl.successful then 1 else 0, size);
      assert share == Share(crawl, cid);
      OneMoreCounted(crawls, cursor, i, cid, tally);
      tally := Plus(tally, share);
    }
    CountedLast(crawls, cursor, cid, tally);
  }

  method FilesSize(files: seq<File>) returns (size: nat)
    ensures size == SizeOf(files)
  {
    size := 0;
    for i := 0 to |files|
      invariant size == SizeUpTo(files, i)
    {
      size := size + files[i].size;
    }
  }

  // ------------------------------------------------------------------------------------------
  // Why the incremental update agrees with the recompute
  // ------------------------------------------------------------------------------------------

  lemma CidsOfOneMore(crawls: Crawls, ids: seq<CrawlId>, id: CrawlId, kind: Kind)
    requires id in crawls
    ensures CidsOf(crawls, ids + [id], kind)
            == CidsOf(crawls, ids, kind) + if crawls[id].kind == kind then CidOf(crawls[id]) else {}
  {
    var more := ids + [id];
    assert more[|ids|] == id && forall j | 0 <= j < |ids| :: more[j] == ids[j];
    forall cid | cid in CidsOf(crawls, ids, kind) ensures cid in CidsOf(crawls, more, kind) {
      var j :| 0 <= j < |ids| && ids[j] in crawls && crawls[ids[j]].kind == kind && crawls[ids[j]].cid == Some(cid);
      assert more[j] == ids[j];
    }
  }

  lemma {:induction false} AddedAt(differences: map<Cid, Tally>, at: Cid, share: Tally, cid: Cid)
    ensures DifferenceOf(differences[at := Plus(DifferenceOf(differences, at), share)], cid)
            == Plus(DifferenceOf(differences, cid), if cid == at then share else NOTHING)
  {
  }

  lemma {:induction false} TakenIsAdded(differences: map<Cid, Tally>, c: Crawl, cid: Cid)
    ensures DifferenceOf(WithTaken(differences, c), cid)
            == if c.cid == Some(cid) then Plus(DifferenceOf(differences, cid), Taken(c))
               else DifferenceOf(differences, cid)
  {
    if c.cid.Some? {
      AddedAt(differences, c.cid.value, Taken(c), cid);
    }
  }

  /** The differences are what the list takes from each workflow. */
  ghost predicate TellsTaken(crawls: Crawls, ids: seq<CrawlId>, kind: Kind, differences: map<Cid, Tally>) {
    forall cid :: DifferenceOf(differences, cid) == TakenByList(crawls, ids, kind, cid)
  }

  lemma NothingListed(crawls: Crawls, ids: seq<CrawlId>, kind: Kind)
    ensures CidsOf(crawls, ids[..0], kind) == {} && TellsTaken(crawls, ids[..0], kind, map[])
  {
  }

  lemma TakenIs(crawls: Crawls, ids: seq<CrawlId>, kind: Kind, differences: map<Cid, Tally>, cid: Cid)
    requires TellsTaken(crawls, ids, kind, differences) && cid in differences
    ensures differences[cid] == TakenByList(crawls, ids, kind, cid)
  {
    assert DifferenceOf(differences, cid) == differences[cid];
  }

  lemma TakenByOneMore(crawls: Crawls, ids: seq<CrawlId>, id: CrawlId, kind: Kind, cid: Cid)
    ensures TakenByList(crawls, ids + [id], kind, cid)
            == if Concerns(crawls, id, kind, cid) then Plus(TakenByList(crawls, ids, kind, cid), Taken(crawls[id]))
               else TakenByList(crawls, ids, kind, cid)
  {
    assert (ids + [id])[..|ids|] == ids;
  }

  lemma FilesOfOneMore(crawls: Crawls, ids: seq<CrawlId>, id: CrawlId, kind: Kind, deletes: File -> bool)
    requires id in crawls
    ensures SomeFileFails(crawls, ids + [id], kind, deletes) <==>
            || SomeFileFails(crawls, ids, kind, deletes)
            || (crawls[id].kind == kind && !AllDelete(crawls[id].files, deletes))
  {
    hide AllDelete;
    var more := ids + [id];
    assert more[|ids|] == id && forall j | 0 <= j < |ids| :: more[j] == ids[j];
    if SomeFileFails(crawls, ids, kind, deletes) {
      var i :| 0 <= i < |ids| &&
        ids[i] in crawls && crawls[ids[i]].kind == kind && !AllDelete(crawls[ids[i]].files, deletes);
      assert more[i] == ids[i];
    }
  }

  lemma OneMoreListed(crawls: Crawls, ids: seq<CrawlId>, id: CrawlId, kind: Kind, deletes: File -> bool,
                      differences: map<Cid, Tally>)
    requires id in crawls
    ensures SomeFileFails(crawls, ids + [id], kind, deletes) <==>
            || SomeFileFails(crawls, ids, kind, deletes)
            || (crawls[id].kind == kind && !AllDelete(crawls[id].files, deletes))
    ensures CidsOf(crawls, ids + [id], kind)
            == CidsOf(crawls, ids, kind) + if crawls[id].kind == kind then CidOf(crawls[id]) else {}
    ensures TellsTaken(crawls, ids, kind, differences) ==>
      TellsTaken(crawls, ids + [id], kind,
        if crawls[id].kind == kind then WithTaken(differences, crawls[id]) else differences)
  {
    hide TakenByList, Taken, WithTaken, CidsOf, SomeFileFails;
    FilesOfOneMore(crawls, ids, id, kind, deletes);
    CidsOfOneMore(crawls, ids, id, kind);
    if TellsTaken(crawls, ids, kind, differences) {
      var more := if crawls[id].kind == kind then WithTaken(differences, crawls[id]) else differences;
      forall cid ensures DifferenceOf(more, cid) == TakenByList(crawls, ids + [id], kind, cid) {
        TakenByOneMore(crawls, ids, id, kind, cid);
        TakenIsAdded(differences, crawls[id], cid);
      }
    }
  }

  function FirstIds(ids: seq<CrawlId>, n: nat): set<CrawlId>
    requires n <= |ids|
  {
    set i | 0 <= i < n :: ids[i]
  }

  lemma OneMoreFirstId(crawls: Crawls, ids: seq<CrawlId>, i: nat)
    requires i < |ids| && ids[i] in crawls && Distinct(ids)
    ensures ids[i] in crawls - FirstIds(ids, i)
    ensures crawls - FirstIds(ids, i + 1) == crawls - FirstIds(ids, i) - {ids[i]}
  {
    assert FirstIds(ids, i + 1) == FirstIds(ids, i) + {ids[i]};
  }

  lemma NothingLeft(crawls: Crawls, ids: seq<CrawlId>, cid: Cid)
    requires forall id | id in crawls && InWorkflow(crawls[id], cid) :: id in ids
    ensures TallyOf(crawls - FirstIds(ids, |ids|), cid) == NOTHING
  {
    var left := crawls - FirstIds(ids, |ids|);
    forall id | id in left ensures !InWorkflow(left[id], cid) {
      assert forall i | 0 <= i < |ids| :: ids[i] in FirstIds(ids, |ids|);
    }
    assert SizesOf(left, cid) == map[] && SuccessfulOf(left, cid) == {};
  }

  /** The tally of the first i ids, together with what is left, makes up the whole. */
  ghost predicate Counted(crawls: Crawls, ids: seq<CrawlId>, i: nat, cid: Cid, tally: Tally)
    requires i <= |ids|
  {
    Plus(tally, TallyOf(crawls - FirstIds(ids, i), cid)) == TallyOf(crawls, cid)
  }

  lemma CountedFirst(crawls: Crawls, ids: seq<CrawlId>, cid: Cid)
    ensures Counted(crawls, ids, 0, cid, NOTHING)
  {
    NoIds(crawls, ids);
    NothingPlus(TallyOf(crawls, cid));
  }

  lemma NoIds(crawls: Crawls, ids: seq<CrawlId>)
    ensures crawls - FirstIds(ids, 0) == crawls
  {
  }

  lemma NothingPlus(t: Tally)
    ensures Plus(NOTHING, t) == t && Plus(t, NOTHING) == t
  {
  }

  lemma CountedLast(crawls: Crawls, ids: seq<CrawlId>, cid: Cid, tally: Tally)
    requires Counted(crawls, ids, |ids|, cid, tally)
    requires forall id | id in crawls && InWorkflow(crawls[id], cid) :: id in ids
    ensures tally == TallyOf(crawls, cid)
  {
    NothingLeft(crawls, ids, cid);
    NothingPlus(tally);
  }

  lemma OneMoreCounted(crawls: Crawls, ids: seq<CrawlId>, i: nat, cid: Cid, tally: Tally)
    requires i < |ids| && ids[i] in crawls && Distinct(ids)
    requires Counted(crawls, ids, i, cid, tally)
    ensures Counted(crawls, ids, i + 1, cid, Plus(tally, Share(crawls[ids[i]], cid)))
  {
    var left := crawls - FirstIds(ids, i);
    OneMoreFirstId(crawls, ids, i);
    RemoveOne(left, ids[i], cid);
    PlusMinus(tally, TallyOf(left, cid), Share(crawls[ids[i]], cid));
  }

  lemma PlusMinus(a: Tally, b: Tally, c: Tally)
    ensures Plus(Plus(a, c), Minus(b, c)) == Plus(a, b)
  {
  }

  // What a list takes from a workflow against what the workflow loses.

  ghost function Lost(crawls: Crawls, ids: seq<CrawlId>, kind: Kind, cid: Cid): Tally {
    Minus(TallyOf(crawls, cid), TallyOf(Remaining(crawls, ids, kind), cid))
  }

  lemma RemainingOfOneMore(crawls: Crawls, ids: seq<CrawlId>, id: CrawlId, kind: Kind)
    ensures var left, more := Remaining(crawls, ids, kind), Remaining(crawls, ids + [id], kind);
            && (id in crawls && crawls[id].kind == kind && id !in ids ==>
                  id in left && left[id] == crawls[id] && more == left - {id})
            && (!(id in crawls && crawls[id].kind == kind && id !in ids) ==> more == left)
  {
  }

  lemma LostByOneMore(crawls: Crawls, ids: seq<CrawlId>, id: CrawlId, kind: Kind, cid: Cid)
    ensures var lost := Lost(crawls, ids, kind, cid);
            Lost(crawls, ids + [id], kind, cid)
            == if Concerns(crawls, id, kind, cid) && crawls[id].finished.Some? && id !in ids
               then Plus(lost, Taken(crawls[id])) else lost
  {
    RemainingOfOneMore(crawls, ids, id, kind);
    hide TallyOf, Remaining;
    if id in crawls && crawls[id].kind == kind && id !in ids {
      RemoveOne(Remaining(crawls, ids, kind), id, cid);
    }
  }

  lemma OnceOfOneMore(crawls: Crawls, ids: seq<CrawlId>, id: CrawlId, kind: Kind, cid: Cid)
    ensures FinishedAndOnce(crawls, ids + [id], kind, cid) <==>
            && FinishedAndOnce(crawls, ids, kind, cid)
            && (Concerns(crawls, id, kind, cid) ==> crawls[id].finished.Some? && id !in ids)
  {
    hide Concerns;
    var more := ids + [id];
    assert more[..|ids|] == ids && more[|ids|] == id;
    assert forall j | 0 <= j < |ids| :: more[j] == ids[j] && more[..j] == ids[..j];
  }

  /** A list takes from a workflow what the workflow loses if and only if its items have finished and are
      listed once; otherwise it counts too many. */
  lemma {:induction false} TakenIsLostIff(crawls: Crawls, ids: seq<CrawlId>, kind: Kind, cid: Cid)
    ensures var taken, lost := TakenByList(crawls, ids, kind, cid), Lost(crawls, ids, kind, cid);
            if FinishedAndOnce(crawls, ids, kind, cid) then taken == lost else taken.count > lost.count
    decreases |ids|
  {
    hide FinishedAndOnce, Lost, Concerns;
    if ids == [] {
      NothingLost(crawls, kind, cid);
    } else {
      var front, id := ids[..|ids| - 1], ids[|ids| - 1];
      assert ids == front + [id];
      TakenIsLostIff(crawls, front, kind, cid);
      LostByOneMore(crawls, front, id, kind, cid);
      OnceOfOneMore(crawls, front, id, kind, cid);
    }
  }

  lemma NothingLost(crawls: Crawls, kind: Kind, cid: Cid)
    ensures FinishedAndOnce(crawls, [], kind, cid) && Lost(crawls, [], kind, cid) == NOTHING
  {
    assert Remaining(crawls, [], kind) == crawls;
  }

  /** Deleting finished items of a workflow does not change which of its crawls are running. */
  lemma RunningUnchanged(crawls: Crawls, ids: seq<CrawlId>, kind: Kind, cid: Cid)
    requires FinishedAtRest(crawls) && FinishedAndOnce(crawls, ids, kind, cid)
    ensures Running(Remaining(crawls, ids, kind), cid) == Running(crawls, cid)
  {
    var left := Remaining(crawls, ids, kind);
    forall id | id in ids && Concerns(crawls, id, kind, cid) ensures !crawls[id].running {
      var i :| 0 <= i < |ids| && ids[i] == id;
      assert Concerns(crawls, ids[i], kind, cid);
    }
    assert ActiveOf(left, cid) == ActiveOf(crawls, cid);
  }

  lemma StaysConsistent(s: Stats, t: Stats, before: Crawls, after: Crawls, cid: Cid, d: Tally, last: Option<CrawlId>)
    requires Consistent(s, before, cid) && Running(after, cid) == Running(before, cid)
    requires TallyOf(after, cid) == Minus(TallyOf(before, cid), d)
    requires if last.Some? then IsLast(after, cid, last.value) else NoneFinished(after, cid)
    requires t.crawlCount == s.crawlCount - d.count && t.successfulCount == s.successfulCount - d.successful
    requires t.totalSize == s.totalSize - d.size
    requires !Running(after, cid) ==> !t.isRunning && t.stopping == (s.stopping && last.None?)
    requires !Running(after, cid) ==> t.last == if last.None? then NoCrawl else ToLast(after, last.value)
    ensures Consistent(t, after, cid)
  {
  }

  /** If they were right before, the statistics are right after if and only if the workflow's items of the
      list have finished and are listed once. */
  ghost predicate RightIff(s: Stats, before: Crawls, t: Stats, ids: seq<CrawlId>, kind: Kind, cid: Cid) {
    Consistent(s, before, cid) ==>
      (Consistent(t, Remaining(before, ids, kind), cid) <==> FinishedAndOnce(before, ids, kind, cid))
  }

  lemma SubtractedIsRightIff(s: Stats, t: Stats, before: Crawls, ids: seq<CrawlId>, kind: Kind, cid: Cid,
                             last: Option<CrawlId>)
    requires Consistent(s, before, cid) && FinishedAtRest(before)
    requires var after, d := Remaining(before, ids, kind), TakenByList(before, ids, kind, cid);
             && (if last.Some? then IsLast(after, cid, last.value) else NoneFinished(after, cid))
             && t.crawlCount == s.crawlCount - d.count && t.successfulCount == s.successfulCount - d.successful
             && t.totalSize == s.totalSize - d.size
             && (!Running(after, cid) ==> !t.isRunning && t.stopping == (s.stopping && last.None?))
             && (!Running(after, cid) ==> t.last == if last.None? then NoCrawl else ToLast(after, last.value))
    ensures Consistent(t, Remaining(before, ids, kind), cid) <==> FinishedAndOnce(before, ids, kind, cid)
  {
    hide TallyOf, TakenByList, FinishedAndOnce, Remaining, IsLast, NoneFinished, Running;
    TakenIsLostIff(before, ids, kind, cid);
    if FinishedAndOnce(before, ids, kind, cid) {
      RunningUnchanged(before, ids, kind, cid);
      StaysConsistent(s, t, before, Remaining(before, ids, kind), cid, TakenByList(before, ids, kind, cid), last);
    }
  }

  ghost predicate NoneListed(crawls: Crawls, ids: seq<CrawlId>, kind: Kind, cid: Cid) {
    forall i | 0 <= i < |ids| :: !Concerns(crawls, ids[i], kind, cid)
  }

  lemma NotAmongTheListed(crawls: Crawls, ids: seq<CrawlId>, kind: Kind, cid: Cid)
    requires cid !in CidsOf(crawls, ids, kind)
    ensures NoneListed(crawls, ids, kind, cid)
  {
    forall i | 0 <= i < |ids| ensures !Concerns(crawls, ids[i], kind, cid) {
      assert Concerns(crawls, ids[i], kind, cid) ==> cid in CidsOf(crawls, ids, kind);
    }
  }

  lemma SameItemsOfWorkflow(crawls: Crawls, ids: seq<CrawlId>, kind: Kind, cid: Cid)
    requires NoneListed(crawls, ids, kind, cid)
    ensures var left := Remaining(crawls, ids, kind);
            forall id | id in crawls && crawls[id].cid == Some(cid) :: id in left && left[id] == crawls[id]
  {
    forall id | id in crawls && crawls[id].cid == Some(cid) ensures id in Remaining(crawls, ids, kind) {
      if i :| 0 <= i < |ids| && ids[i] == id {
        assert !Concerns(crawls, ids[i], kind, cid);
      }
    }
  }

  lemma UntouchedStaysConsistent(s: Stats, crawls: Crawls, ids: seq<CrawlId>, kind: Kind, cid: Cid)
    requires Consistent(s, crawls, cid) && NoneListed(crawls, ids, kind, cid)
    ensures Consistent(s, Remaining(crawls, ids, kind), cid)
  {
    var left := Remaining(crawls, ids, kind);
    SameItemsOfWorkflow(crawls, ids, kind, cid);
    assert ActiveOf(left, cid) == ActiveOf(crawls, cid);
    assert SizesOf(left, cid) == SizesOf(crawls, cid) && SuccessfulOf(left, cid) == SuccessfulOf(crawls, cid);
    if !Running(crawls, cid) && !NoneFinished(crawls, cid) {
      var id :| IsLast(crawls, cid, id) && s.last == ToLast(crawls, id);
      assert IsLast(left, cid, id);
    }
  }

  lemma UntouchedIsRight(s: Stats, crawls: Crawls, ids: seq<CrawlId>, kind: Kind, cid: Cid)
    requires NoneListed(crawls, ids, kind, cid)
    ensures RightIff(s, crawls, s, ids, kind, cid)
  {
    hide Consistent, Remaining, Concerns;
    if Consistent(s, crawls, cid) {
      UntouchedStaysConsistent(s, crawls, ids, kind, cid);
    }
  }

  // ------------------------------------------------------------------------------------------
  // What consistent statistics and the answers say
  // ------------------------------------------------------------------------------------------

  /** One crawl is running, the one that the fields about the last crawl are about. */
  ghost predicate OneIsRunning(crawls: Crawls, cid: Cid) {
    |set id | id in crawls && crawls[id].cid == Some(cid) && crawls[id].running| == 1
  }

  lemma RunningMeansOne(crawls: Crawls, cid: Cid)
    ensures Running(crawls, cid) <==> OneIsRunning(crawls, cid)
  {
    assert ActiveOf(crawls, cid) == set id | id in crawls && crawls[id].cid == Some(cid) && crawls[id].running;
  }

  ghost predicate HasFinished(crawls: Crawls, cid: Cid, id: CrawlId) {
    id in crawls && crawls[id].cid == Some(cid) && crawls[id].finished.Some?
  }

  /** Unless one crawl is running, consistent statistics are about a crawl that finished last, with its time, size and
      details; without a finished crawl they are about none. */
  lemma LastCrawlIsTheLatest(s: Stats, crawls: Crawls, cid: Cid)
    requires Consistent(s, crawls, cid) && !OneIsRunning(crawls, cid)
    ensures !s.isRunning && !s.stopping
    ensures s.last == NoCrawl <==> forall o :: !HasFinished(crawls, cid, o)
    ensures s.last.Last? ==>
      && HasFinished(crawls, cid, s.last.id) && crawls[s.last.id].finished == Some(s.last.time)
      && s.last.details == crawls[s.last.id].details && s.last.size == SizeOf(crawls[s.last.id].files)
      && forall o | HasFinished(crawls, cid, o) :: crawls[o].finished.value <= s.last.time
  {
    RunningMeansOne(crawls, cid);
    hide Running, TallyOf;
    if NoneFinished(crawls, cid) {
      assert forall o | HasFinished(crawls, cid, o) :: InWorkflow(crawls[o], cid);
    } else {
      var id :| IsLast(crawls, cid, id) && s.last == ToLast(crawls, id);
      assert HasFinished(crawls, cid, id);
      assert forall o | HasFinished(crawls, cid, o) :: InWorkflow(crawls[o], cid);
    }
  }

  /** Consistent statistics count the finished crawls and the successful ones among them, and add up their sizes. */
  lemma CountsAreOfTheFinished(s: Stats, crawls: Crawls, cid: Cid)
    requires Consistent(s, crawls, cid)
    ensures s.crawlCount == |set id | id in crawls && HasFinished(crawls, cid, id)|
    ensures s.successfulCount == |set id | id in crawls && HasFinished(crawls, cid, id) && crawls[id].successful|
    ensures s.totalSize == Total(map id | id in crawls && HasFinished(crawls, cid, id) :: SizeOf(crawls[id].files))
  {
    var sizes: map<CrawlId, int> := map id | id in crawls && HasFinished(crawls, cid, id) :: SizeOf(crawls[id].files);
    assert SizesOf(crawls, cid) == sizes;
    assert sizes.Keys == set id | id in crawls && HasFinished(crawls, cid, id);
    assert SuccessfulOf(crawls, cid) == set id | id in crawls && HasFinished(crawls, cid, id) && crawls[id].successful;
    assert |sizes| == |sizes.Keys|;
  }

  /** An item of the list is not there. */
  predicate IsMissing(crawls: Crawls, ids: seq<CrawlId>, i: nat)
    requires i < |ids|
  {
    ids[i] !in crawls
  }

  /** A crawl, among crawls to be deleted, that has not finished and is not stopped. */
  predicate GoesOn(crawls: Crawls, ids: seq<CrawlId>, kind: Kind, stops: CrawlId -> bool, i: nat)
    requires i < |ids|
  {
    ids[i] in crawls && kind.CrawlItem? && crawls[ids[i]].kind.CrawlItem? && crawls[ids[i]].finished == None
    && !stops(ids[i])
  }

  /** The loop over a list gets through if nothing is missing and nothing goes on; otherwise it ends at the first of
      these. */
  lemma {:induction false} HowTheLoopEnds(crawls: Crawls, ids: seq<CrawlId>, kind: Kind, stops: CrawlId -> bool)
    ensures var ending := EndingOf(crawls, ids, kind, stops);
            && (ending == Through ==> forall i: nat | i < |ids| ::
                  !IsMissing(crawls, ids, i) && !GoesOn(crawls, ids, kind, stops, i))
            && (ending != Through ==> exists i: nat | i < |ids| ::
                  && (if ending == Missing then IsMissing(crawls, ids, i) else GoesOn(crawls, ids, kind, stops, i))
                  && forall j: nat | j < i :: !IsMissing(crawls, ids, j) && !GoesOn(crawls, ids, kind, stops, j))
    decreases |ids|
  {
    if ids != [] {
      var rest := ids[1..];
      HowTheLoopEnds(crawls, rest, kind, stops);
      var ending := EndingOf(crawls, ids, kind, stops);
      if IsMissing(crawls, ids, 0) || GoesOn(crawls, ids, kind, stops, 0) {
        assert if ending == Missing then IsMissing(crawls, ids, 0) else GoesOn(crawls, ids, kind, stops, 0);
      } else {
        assert ending == EndingOf(crawls, rest, kind, stops);
        assert forall j: nat | j < |rest| :: rest[j] == ids[j + 1];
        if ending == Through {
          forall i: nat | i < |ids| ensures !IsMissing(crawls, ids, i) && !GoesOn(crawls, ids, kind, stops, i) {
            assert i > 0 ==> !IsMissing(crawls, rest, i - 1) && !GoesOn(crawls, rest, kind, stops, i - 1);
          }
        } else {
          var i: nat :| i < |rest|
            && (if ending == Missing then IsMissing(crawls, rest, i) else GoesOn(crawls, rest, kind, stops, i))
            && forall j: nat | j < i :: !IsMissing(crawls, rest, j) && !GoesOn(crawls, rest, kind, stops, j);
          assert if ending == Missing then IsMissing(crawls, ids, i + 1) else GoesOn(crawls, ids, kind, stops, i + 1);
          forall j: nat | j < i + 1 ensures !IsMissing(crawls, ids, j) && !GoesOn(crawls, ids, kind, stops, j) {
            assert j > 0 ==> !IsMissing(crawls, rest, j - 1) && !GoesOn(crawls, rest, kind, stops, j - 1);
          }
        }
      }
    }
  }

  /** A deletion fails on files exactly when some file of some item that goes cannot be deleted. */
  lemma WhichFileFails(crawls: Crawls, ids: seq<CrawlId>, kind: Kind, deletes: File -> bool)
    ensures SomeFileFails(crawls, ids, kind, deletes) <==>
            exists id, f | id in ids && id in crawls && crawls[id].kind == kind && f in crawls[id].files :: !deletes(f)
  {
    if SomeFileFails(crawls, ids, kind, deletes) {
      var i :| 0 <= i < |ids| &&
        ids[i] in crawls && crawls[ids[i]].kind == kind && !AllDelete(crawls[ids[i]].files, deletes);
      var files := crawls[ids[i]].files;
      var k :| 0 <= k < |files| && !deletes(files[k]);
      assert files[k] in files && ids[i] in ids;
    }
    if id, f :| id in ids && id in crawls && crawls[id].kind == kind && f in crawls[id].files && !deletes(f) {
      var i :| 0 <= i < |ids| && ids[i] == id;
      var k :| 0 <= k < |crawls[id].files| && crawls[id].files[k] == f;
      assert !AllDelete(crawls[ids[i]].files, deletes);
    }
  }

  // ------------------------------------------------------------------------------------------
  // Main results
  // ------------------------------------------------------------------------------------------

  ghost predicate DistinctFinishTimes(crawls: Crawls, cid: Cid) {
    forall a, b | a in crawls && b in crawls && InWorkflow(crawls[a], cid) && InWorkflow(crawls[b], cid)
      && crawls[a].finished == crawls[b].finished :: a == b
  }

  /** Consistency leaves no choice: with distinct finish times, and no crawl running, statistics that went
      through deletions equal field by field what the full recompute stores. */
  lemma ConsistentMeansEqualToRecompute(s: Stats, recomputed: Stats, crawls: Crawls, cid: Cid)
    requires Consistent(s, crawls, cid) && Consistent(recomputed, crawls, cid)
    requires !Running(crawls, cid) && DistinctFinishTimes(crawls, cid)
    ensures s == recomputed
  {
    if !NoneFinished(crawls, cid) {
      var a :| IsLast(crawls, cid, a) && s.last == ToLast(crawls, a);
      var b :| IsLast(crawls, cid, b) && recomputed.last == ToLast(crawls, b);
      assert FinishTime(crawls[a]) <= FinishTime(crawls[b]) <= FinishTime(crawls[a]);
    }
  }

  /** A finished item of the workflow is listed. */
  ghost predicate FinishedOneListed(crawls: Crawls, ids: seq<CrawlId>, kind: Kind, cid: Cid) {
    exists i | 0 <= i < |ids| :: Concerns(crawls, ids[i], kind, cid) && crawls[ids[i]].finished.Some?
  }

  /** When a file could not be deleted, the statistics are left alone, and of every workflow that lost a
      finished item they are wrong from then on. They stay right if and only if it lost none and, should its
      one running crawl have gone, the fields about the last crawl were already about the one before. */
  lemma LeftAloneIsRightIffNoneLost(s: Stats, crawls: Crawls, ids: seq<CrawlId>, kind: Kind, cid: Cid)
    requires Consistent(s, crawls, cid)
    ensures var left := Remaining(crawls, ids, kind);
            Consistent(s, left, cid) <==>
              && !FinishedOneListed(crawls, ids, kind, cid)
              && (Running(crawls, cid) && !Running(left, cid) ==> DescribesLast(s, crawls, cid))
  {
    hide Running, DescribesLast, TallyOf, Remaining;
    var left := Remaining(crawls, ids, kind);
    if FinishedOneListed(crawls, ids, kind, cid) {
      FewerFinished(crawls, ids, kind, cid);
    } else {
      SameFinished(s, crawls, ids, kind, cid);
    }
  }

  lemma FewerFinished(crawls: Crawls, ids: seq<CrawlId>, kind: Kind, cid: Cid)
    requires FinishedOneListed(crawls, ids, kind, cid)
    ensures TallyOf(Remaining(crawls, ids, kind), cid).count < TallyOf(crawls, cid).count
  {
    var left := Remaining(crawls, ids, kind);
    var i :| 0 <= i < |ids| && Concerns(crawls, ids[i], kind, cid) && crawls[ids[i]].finished.Some?;
    assert ids[i] in SizesOf(crawls, cid) && ids[i] !in SizesOf(left, cid);
    assert SizesOf(left, cid).Keys < SizesOf(crawls, cid).Keys;
    ProperSubsetIsSmaller(SizesOf(left, cid).Keys, SizesOf(crawls, cid).Keys);
    assert |SizesOf(left, cid).Keys| == |SizesOf(left, cid)| && |SizesOf(crawls, cid).Keys| == |SizesOf(crawls, cid)|;
  }

  lemma SameFinished(s: Stats, crawls: Crawls, ids: seq<CrawlId>, kind: Kind, cid: Cid)
    requires !FinishedOneListed(crawls, ids, kind, cid)
    ensures TallyOf(Remaining(crawls, ids, kind), cid) == TallyOf(crawls, cid)
    ensures DescribesLast(s, Remaining(crawls, ids, kind), cid) <==> DescribesLast(s, crawls, cid)
  {
    var left := Remaining(crawls, ids, kind);
    forall id | id in crawls && InWorkflow(crawls[id], cid) ensures id in left {
      FinishedStays(crawls, ids, kind, cid, id);
    }
    assert SizesOf(left, cid) == SizesOf(crawls, cid) && SuccessfulOf(left, cid) == SuccessfulOf(crawls, cid);
    assert forall id :: IsLast(left, cid, id) <==> IsLast(crawls, cid, id);
  }

  lemma FinishedStays(crawls: Crawls, ids: seq<CrawlId>, kind: Kind, cid: Cid, id: CrawlId)
    requires !FinishedOneListed(crawls, ids, kind, cid) && id in crawls && InWorkflow(crawls[id], cid)
    ensures id in Remaining(crawls, ids, kind)
  {
    assert forall i | 0 <= i < |ids| && ids[i] == id :: !Concerns(crawls, ids[i], kind, cid);
  }

  lemma CountsTellWhetherAnyWent(crawls: Crawls, ids: seq<CrawlId>, kind: Kind)
    ensures |Remaining(crawls, ids, kind)| < |crawls| <==> Remaining(crawls, ids, kind) != crawls
  {
    var left := Remaining(crawls, ids, kind);
    if left != crawls {
      assert left.Keys < crawls.Keys;
      ProperSubsetIsSmaller(left.Keys, crawls.Keys);
    }
    assert |left.Keys| == |left| && |crawls.Keys| == |crawls|;
  }

  lemma ProperSubsetIsSmaller<T>(a: set<T>, b: set<T>)
    requires a < b
    ensures |a| < |b|
  {
    assert |b| == |a| + |b - a| by {
      assert b == a + (b - a);
    }
    var x :| x in b - a;
    assert |b - a| > 0;
  }
}
