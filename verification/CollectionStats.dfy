/** Collection statistics and how changes to a collection are noticed: membership changes that write
    and then announce themselves, statistics updates that run concurrently, and the staleness check. */
module CollectionStats {
  import opened MapSums
  import opened Options

  type CrawlId = nat
  type ChangeId = nat
  type UpdateId = nat

  /** What one successful crawl of the collection adds to the statistics. */
  datatype Part = Part(size: int, pages: int)

  datatype Stats = Stats(crawlCount: nat, pageCount: int, totalSize: int)

  ghost function Pages(parts: map<CrawlId, Part>): map<CrawlId, int> {
    map id | id in parts :: parts[id].pages
  }

  ghost function Sizes(parts: map<CrawlId, Part>): map<CrawlId, int> {
    map id | id in parts :: parts[id].size
  }

  ghost function Recount(parts: map<CrawlId, Part>): Stats {
    Stats(|parts|, Total(Pages(parts)), Total(Sizes(parts)))
  }

  /** A change on its way. The usual path writes, one crawl after the other, reads the clock once and then
      stores the time as modified. Adding crawls reads the clock and stores it first, and writes last. */
  datatype Change =
    | Written
    | Stamped(time: int)
    | AddStamped(time: int)
    | AddAnnounced(time: int)

  /** A running update: when it started, the crawls its cursor still has to return, and what it has read. */
  datatype Update = Update(start: int, pending: set<CrawlId>, seen: map<CrawlId, Part>)

  /** clock is in whole seconds, as times are stored; lastRead is its latest reading. */
  datatype State = State(
    parts: map<CrawlId, Part>,
    modified: int,
    lastStarted: Option<int>,
    stats: Stats,
    changes: map<ChangeId, Change>,
    updates: map<UpdateId, Update>,
    clock: int,
    lastRead: int)

  /** The check that decides whether the statistics are computed again. */
  predicate ShouldUpdate(s: State) {
    s.lastStarted.None? || s.modified > s.lastStarted.value
  }

  predicate SameSecond(s: State) {
    s.lastStarted.Some? && s.modified == s.lastStarted.value
  }

  ghost predicate Fresh(s: State) {
    s.lastStarted.Some? && s.stats == Recount(s.parts)
  }

  /** Nothing is on its way, the statistics are wrong, and nobody will notice. */
  ghost predicate Lost(s: State) {
    s.changes == map[] && s.updates == map[] && !ShouldUpdate(s) && !Fresh(s)
  }

  // ------------------------------------------------------------------------------------------
  // Steps
  // ------------------------------------------------------------------------------------------

  datatype Step =
    | AdvanceClock(seconds: nat)
    | Write(k: ChangeId, id: CrawlId, part: Option<Part>)
    | ReadClock(k: ChangeId)
    | SetModified(k: ChangeId)
    | AddReadClock(k: ChangeId)
    | AddSetModified(k: ChangeId)
    | AddWrite(k: ChangeId, id: CrawlId, added: Part, last: bool)
    | StartUpdate(u: UpdateId)
    | ReadCrawl(u: UpdateId, id: CrawlId)
    | FinishUpdate(u: UpdateId)

  predicate Enabled(s: State, step: Step) {
    match step
    case AdvanceClock(_) => true
    case Write(k, _, _) => k in s.changes ==> s.changes[k].Written?
    case ReadClock(k) => k in s.changes && s.changes[k].Written?
    case SetModified(k) => k in s.changes && s.changes[k].Stamped?
    case AddReadClock(k) => k !in s.changes
    case AddSetModified(k) => k in s.changes && s.changes[k].AddStamped?
    case AddWrite(k, _, _, _) => k in s.changes && s.changes[k].AddAnnounced?
    case StartUpdate(u) => u !in s.updates
    case ReadCrawl(u, id) => u in s.updates && id !in s.updates[u].seen && (id in s.updates[u].pending || id in s.parts)
    case FinishUpdate(u) => u in s.updates && s.updates[u].pending == {}
  }

  function Parts(parts: map<CrawlId, Part>, id: CrawlId, part: Option<Part>): map<CrawlId, Part> {
    if part.Some? then parts[id := part.value] else parts - {id}
  }

  /** A crawl that has left the collection is not returned by the cursor; one that has joined may be. */
  function Read(s: State, u: Update, id: CrawlId): Update {
    Update(u.start, u.pending - {id}, if id in s.parts then u.seen[id := s.parts[id]] else u.seen)
  }

  ghost function Apply(s: State, step: Step): State
    requires Enabled(s, step)
  {
    match step
    case AdvanceClock(n) => s.(clock := s.clock + n)
    case Write(k, id, part) => s.(parts := Parts(s.parts, id, part), changes := s.changes[k := Written])
    case ReadClock(k) => s.(changes := s.changes[k := Stamped(s.clock)], lastRead := s.clock)
    case SetModified(k) => s.(modified := s.changes[k].time, changes := s.changes - {k})
    case AddReadClock(k) => s.(changes := s.changes[k := AddStamped(s.clock)], lastRead := s.clock)
    case AddSetModified(k) =>
      s.(modified := s.changes[k].time, changes := s.changes[k := AddAnnounced(s.changes[k].time)])
    case AddWrite(k, id, part, last) =>
      s.(parts := s.parts[id := part], changes := if last then s.changes - {k} else s.changes)
    case StartUpdate(u) =>
      s.(updates := s.updates[u := Update(s.clock, s.parts.Keys, map[])], lastRead := s.clock)
    case ReadCrawl(u, id) => s.(updates := s.updates[u := Read(s, s.updates[u], id)])
    case FinishUpdate(u) =>
      s.(stats := Recount(s.updates[u].seen), lastStarted := Some(s.updates[u].start), updates := s.updates - {u})
  }

  ghost predicate Feasible(s: State, steps: seq<Step>)
    decreases |steps|
  {
    steps == [] || (Enabled(s, steps[0]) && Feasible(Apply(s, steps[0]), steps[1..]))
  }

  ghost function Run(s: State, steps: seq<Step>): State
    requires Feasible(s, steps)
    decreases |steps|
  {
    if steps == [] then s else Run(Apply(s, steps[0]), steps[1..])
  }

  /** A collection with no activity, whose statistics were either never computed or are right. */
  ghost predicate Init(s: State) {
    && s.changes == map[] && s.updates == map[]
    && s.modified <= s.lastRead <= s.clock
    && (s.lastStarted.Some? ==> s.lastStarted.value <= s.lastRead && Fresh(s))
  }

  // ------------------------------------------------------------------------------------------
  // Which runs are safe
  // ------------------------------------------------------------------------------------------

  /** How two times compare: with a clock that never gives the same time twice, or with whole seconds. */
  predicate After(strict: bool, time: int, start: int) {
    if strict then time > start else time >= start
  }

  /** The conditions a step has to meet for changes to be noticed: a change that has written reads a later time
      than was read before, if the clock is said to be strict, a stored time never replaces a later one, and
      crawls that were announced first are written before any update starts. */
  predicate Careful(strict: bool, s: State, step: Step)
    requires Enabled(s, step)
  {
    match step
    case ReadClock(_) => !strict || s.clock > s.lastRead
    case SetModified(k) => s.changes[k].time >= s.modified
    case AddSetModified(k) => s.changes[k].time >= s.modified
    case AddWrite(k, _, _, _) =>
      && (forall u | u in s.updates :: After(strict, s.changes[k].time, s.updates[u].start))
      && (s.lastStarted.Some? ==> After(strict, s.changes[k].time, s.lastStarted.value))
    case _ => true
  }

  ghost predicate AllCareful(strict: bool, s: State, steps: seq<Step>)
    requires Feasible(s, steps)
    decreases |steps|
  {
    steps == [] || (Careful(strict, s, steps[0]) && AllCareful(strict, Apply(s, steps[0]), steps[1..]))
  }

  /** Whoever started at the given time is going to be, or already is, seen as out of date. */
  predicate Covers(strict: bool, c: Change, start: int) {
    c.Written? || (c.Stamped? && After(strict, c.time, start))
  }

  predicate Covered(strict: bool, s: State, start: int) {
    After(strict, s.modified, start) || exists k | k in s.changes :: Covers(strict, s.changes[k], start)
  }

  /** What the update has read and still has to read is the collection as it is now. */
  predicate Clean(s: State, u: Update) {
    && (forall id | id in u.seen :: id in s.parts && s.parts[id] == u.seen[id])
    && s.parts.Keys <= u.seen.Keys + u.pending
  }

  predicate TimesInv(s: State) {
    && s.modified <= s.lastRead <= s.clock
    && (s.lastStarted.Some? ==> s.lastStarted.value <= s.lastRead)
    && (forall u | u in s.updates :: s.updates[u].start <= s.lastRead)
    && (forall k | k in s.changes && !s.changes[k].Written? :: s.changes[k].time <= s.lastRead)
    && (forall k | k in s.changes && s.changes[k].AddAnnounced? :: s.changes[k].time <= s.modified)
  }

  ghost predicate Inv(strict: bool, s: State) {
    && TimesInv(s)
    && (forall u | u in s.updates :: Clean(s, s.updates[u]) || Covered(strict, s, s.updates[u].start))
    && (s.lastStarted.Some? ==> Fresh(s) || Covered(strict, s, s.lastStarted.value))
  }

  lemma StepKeepsCovered(strict: bool, s: State, step: Step, start: int)
    requires TimesInv(s) && Enabled(s, step) && Careful(strict, s, step)
    requires Covered(strict, s, start) && start <= s.lastRead
    ensures Covered(strict, Apply(s, step), start)
  {
    var s' := Apply(s, step);
    if !After(strict, s.modified, start) {
      var k :| k in s.changes && Covers(strict, s.changes[k], start);
      if step == SetModified(k) {
        assert After(strict, s'.modified, start);
      } else {
        assert k in s'.changes && Covers(strict, s'.changes[k], start);
      }
    }
  }

  lemma StepKeepsTimes(strict: bool, s: State, step: Step)
    requires TimesInv(s) && Enabled(s, step) && Careful(strict, s, step)
    ensures TimesInv(Apply(s, step))
  {
  }

  /** A step that changes the collection leaves everything that started before it covered. */
  lemma WritesCover(strict: bool, s: State, step: Step, start: int)
    requires TimesInv(s) && Enabled(s, step) && Careful(strict, s, step) && (step.Write? || step.AddWrite?)
    requires step.AddWrite? ==> After(strict, s.changes[step.k].time, start)
    ensures Covered(strict, Apply(s, step), start)
  {
    var s' := Apply(s, step);
    if step.Write? {
      assert step.k in s'.changes && Covers(strict, s'.changes[step.k], start);
    }
  }

  lemma StepKeepsUpdate(strict: bool, s: State, step: Step, u: UpdateId)
    requires Inv(strict, s) && Enabled(s, step) && Careful(strict, s, step) && u in Apply(s, step).updates
    ensures var s' := Apply(s, step); Clean(s', s'.updates[u]) || Covered(strict, s', s'.updates[u].start)
  {
    var s' := Apply(s, step);
    if u in s.updates {
      if Covered(strict, s, s.updates[u].start) {
        StepKeepsCovered(strict, s, step, s.updates[u].start);
      } else if step.Write? || step.AddWrite? {
        WritesCover(strict, s, step, s.updates[u].start);
      }
    }
  }

  lemma StepKeepsStored(strict: bool, s: State, step: Step)
    requires Inv(strict, s) && Enabled(s, step) && Careful(strict, s, step) && Apply(s, step).lastStarted.Some?
    ensures var s' := Apply(s, step); Fresh(s') || Covered(strict, s', s'.lastStarted.value)
  {
    hide Recount;
    var s' := Apply(s, step);
    if step.FinishUpdate? {
      var u := s.updates[step.u];
      if Clean(s, u) {
        assert u.seen == s.parts;
      } else {
        StepKeepsCovered(strict, s, step, u.start);
      }
    } else if Covered(strict, s, s.lastStarted.value) {
      StepKeepsCovered(strict, s, step, s.lastStarted.value);
    } else if step.Write? || step.AddWrite? {
      WritesCover(strict, s, step, s.lastStarted.value);
    }
  }

  lemma {:induction false} RunKeepsInv(strict: bool, s: State, steps: seq<Step>)
    requires Inv(strict, s) && Feasible(s, steps) && AllCareful(strict, s, steps)
    ensures Inv(strict, Run(s, steps))
    decreases |steps|
  {
    if steps != [] {
      var s' := Apply(s, steps[0]);
      StepKeepsTimes(strict, s, steps[0]);
      forall u | u in s'.updates ensures Clean(s', s'.updates[u]) || Covered(strict, s', s'.updates[u].start) {
        StepKeepsUpdate(strict, s, steps[0], u);
      }
      if s'.lastStarted.Some? {
        StepKeepsStored(strict, s, steps[0]);
      }
      RunKeepsInv(strict, s', steps[1..]);
    }
  }

  // ------------------------------------------------------------------------------------------
  // Main results
  // ------------------------------------------------------------------------------------------

  /** Whatever the interleaving of changes and of any number of updates that finish in any order, provided
      that the clock is strict, no stored time replaces a later one, and no update starts between the
      announcement of crawls and their writing: once no change is on its way, the statistics are a recount
      or the check asks for an update. The job that loops on the check therefore ends only with statistics
      that are right. Each of the three conditions is needed, see below. */
  lemma ChangesAreNoticed(s: State, steps: seq<Step>)
    requires Init(s) && Feasible(s, steps) && AllCareful(true, s, steps) && Run(s, steps).changes == map[]
    ensures Fresh(Run(s, steps)) || ShouldUpdate(Run(s, steps))
  {
    RunKeepsInv(true, s, steps);
    QuietMeansNoticed(true, Run(s, steps));
  }

  /** Under the other two conditions, times in whole seconds leave one more way out, and only one: the
      collection carries the very second in which the stored statistics were started. */
  lemma ChangesAreNoticedUpToASecond(s: State, steps: seq<Step>)
    requires Init(s) && Feasible(s, steps) && AllCareful(false, s, steps) && Run(s, steps).changes == map[]
    ensures var t := Run(s, steps); Fresh(t) || ShouldUpdate(t) || SameSecond(t)
  {
    RunKeepsInv(false, s, steps);
    QuietMeansNoticed(false, Run(s, steps));
  }

  lemma QuietMeansNoticed(strict: bool, t: State)
    requires Inv(strict, t) && t.changes == map[]
    ensures Fresh(t) || ShouldUpdate(t) || (!strict && SameSecond(t))
  {
    if t.lastStarted.Some? && !Fresh(t) {
      assert Covered(strict, t, t.lastStarted.value);
    }
  }

  lemma {:induction false} RunInTwo(s: State, steps: seq<Step>, more: seq<Step>)
    requires Feasible(s, steps + more)
    ensures Feasible(s, steps) && Feasible(Run(s, steps), more) && Run(s, steps + more) == Run(Run(s, steps), more)
    decreases |steps|
  {
    if steps == [] {
      assert steps + more == more;
    } else {
      assert (steps + more)[1..] == steps[1..] + more;
      RunInTwo(Apply(s, steps[0]), steps[1..], more);
    }
  }

  predicate OnlyReads(u: UpdateId, steps: seq<Step>) {
    forall i | 0 <= i < |steps| :: steps[i].ReadCrawl? && steps[i].u == u
  }

  lemma {:induction false} ReadsStayClean(s: State, u: UpdateId, cursor: seq<Step>)
    requires u in s.updates && Clean(s, s.updates[u]) && OnlyReads(u, cursor) && Feasible(s, cursor)
    ensures var t := Run(s, cursor);
            && t.parts == s.parts && t.modified == s.modified
            && u in t.updates && t.updates[u].start == s.updates[u].start && Clean(t, t.updates[u])
    decreases |cursor|
  {
    if cursor != [] {
      assert OnlyReads(u, cursor[1..]) by {
        assert forall i | 0 <= i < |cursor| - 1 :: cursor[1..][i] == cursor[i + 1];
      }
      ReadsStayClean(Apply(s, cursor[0]), u, cursor[1..]);
    }
  }

  /** The loop of the job comes to an end: after one update that no change interrupts, whatever the order in
      which it reads the crawls, the statistics are right and the check is satisfied. */
  lemma QuietUpdateEndsTheLoop(s: State, u: UpdateId, cursor: seq<Step>)
    requires s.modified <= s.clock && OnlyReads(u, cursor)
    requires Feasible(s, [StartUpdate(u)] + cursor + [FinishUpdate(u)])
    ensures var t := Run(s, [StartUpdate(u)] + cursor + [FinishUpdate(u)]); Fresh(t) && !ShouldUpdate(t)
  {
    hide Recount;
    var started, last := [StartUpdate(u)], [FinishUpdate(u)];
    RunInTwo(s, started + cursor, last);
    RunInTwo(s, started, cursor);
    assert started[1..] == [] && last[1..] == [];
    var s1 := Apply(s, StartUpdate(u));
    assert Run(s, started) == s1;
    ReadsStayClean(s1, u, cursor);
    var s2 := Run(s1, cursor);
    assert s2.updates[u].seen == s2.parts;
    assert Run(s2, last) == Apply(s2, FinishUpdate(u));
  }

  /** A completed change and the update that has just read everything before it. */
  ghost predicate AboutToFinish(s: State, u: UpdateId) {
    u in s.updates && s.updates.Keys == {u} && s.updates[u].pending == {} && s.updates[u].seen == s.parts
  }

  lemma StaleFinish(s: State, u: UpdateId)
    requires u in s.updates && s.updates.Keys == {u} && s.updates[u].pending == {} && s.changes == map[]
    requires Recount(s.updates[u].seen) != Recount(s.parts)
    ensures Lost(Apply(s, FinishUpdate(u))) <==> s.modified <= s.updates[u].start
  {
    assert Apply(s, FinishUpdate(u)).updates == map[];
  }

  /** Write, clock, announcement, end of the update: the change is lost if and only if the clock still
      shows the second in which the update started. */
  lemma SameSecondLoses(s: State, u: UpdateId, k: ChangeId, id: CrawlId, part: Option<Part>)
    requires TimesInv(s) && AboutToFinish(s, u) && s.changes == map[]
    requires Recount(Parts(s.parts, id, part)) != Recount(s.parts)
    ensures var steps := [Write(k, id, part), ReadClock(k), SetModified(k), FinishUpdate(u)];
            Feasible(s, steps) && (Lost(Run(s, steps)) <==> s.clock == s.updates[u].start)
  {
    hide Recount, Run, Feasible;
    var s1 := Apply(s, Write(k, id, part));
    var s2 := Apply(s1, ReadClock(k));
    var s3 := Apply(s2, SetModified(k));
    assert s3.changes == map[] && s3.updates == s.updates && s3.parts == Parts(s.parts, id, part);
    StaleFinish(s3, u);
    RunOfFour(s, Write(k, id, part), ReadClock(k), SetModified(k), FinishUpdate(u));
  }

  /** Crawls that are announced before they are written, with an update that reads everything in between:
      they are lost if and only if the update did not start before the announced time. */
  lemma AnnouncedFirstLoses(s: State, u: UpdateId, k: ChangeId, id: CrawlId, part: Part)
    requires AboutToFinish(s, u) && s.changes.Keys == {k} && s.changes[k].AddAnnounced?
    requires s.modified == s.changes[k].time && Recount(s.parts[id := part]) != Recount(s.parts)
    ensures var steps := [AddWrite(k, id, part, true), FinishUpdate(u)];
            Feasible(s, steps) && (Lost(Run(s, steps)) <==> s.updates[u].start >= s.changes[k].time)
  {
    var s1 := Apply(s, AddWrite(k, id, part, true));
    assert s1.changes == map[];
    StaleFinish(s1, u);
    RunOfTwo(s, AddWrite(k, id, part, true), FinishUpdate(u));
  }

  predicate OnlyStores(steps: seq<Step>) {
    forall i | 0 <= i < |steps| :: steps[i].SetModified?
  }

  /** Any number of changes that have read the clock and not stored it yet, over statistics that lack one of
      them: whichever stores last decides. The change is lost if and only if the time stored last is not
      after the start of the statistics, even when others are. */
  lemma {:induction false} LastToStoreDecides(s: State, steps: seq<Step>)
    requires s.updates == map[] && s.lastStarted.Some? && !Fresh(s)
    requires forall k | k in s.changes :: s.changes[k].Stamped?
    requires OnlyStores(steps) && Feasible(s, steps) && Run(s, steps).changes == map[]
    ensures steps != [] ==> steps[|steps| - 1].k in s.changes
    ensures Lost(Run(s, steps)) <==>
            (if steps == [] then s.modified else s.changes[steps[|steps| - 1].k].time) <= s.lastStarted.value
    decreases |steps|
  {
    hide Recount;
    if steps != [] {
      assert OnlyStores(steps[1..]) by {
        assert forall i | 0 <= i < |steps| - 1 :: steps[1..][i] == steps[i + 1];
      }
      LastToStoreDecides(Apply(s, steps[0]), steps[1..]);
      assert |steps| > 1 ==> steps[1..][|steps| - 2] == steps[|steps| - 1];
    }
  }

  // ------------------------------------------------------------------------------------------
  // Each condition is needed
  // ------------------------------------------------------------------------------------------

  /** The one condition that a run does not meet. */
  datatype Lapse = EqualReadings | UpdateBeforeWrite | StoredTooLate

  predicate AnnouncesFirst(step: Step) {
    step.AddReadClock? || step.AddSetModified? || step.AddWrite?
  }

  /** Every reading of the clock, by a change or by an update, is later than all before. */
  predicate ReadsLater(s: State, step: Step) {
    step.ReadClock? || step.AddReadClock? || step.StartUpdate? ==> s.clock > s.lastRead
  }

  predicate NearlyCareful(lapse: Lapse, s: State, step: Step)
    requires Enabled(s, step)
  {
    match lapse
    case EqualReadings => !AnnouncesFirst(step) && Careful(false, s, step)
    case UpdateBeforeWrite => ReadsLater(s, step) && (step.AddWrite? || Careful(true, s, step))
    case StoredTooLate =>
      !AnnouncesFirst(step) && ReadsLater(s, step) && (step.SetModified? || Careful(true, s, step))
  }

  ghost predicate AllNearly(lapse: Lapse, s: State, steps: seq<Step>)
    requires Feasible(s, steps)
    decreases |steps|
  {
    steps == [] || (NearlyCareful(lapse, s, steps[0]) && AllNearly(lapse, Apply(s, steps[0]), steps[1..]))
  }

  /** A run from an empty collection with right statistics. */
  ghost predicate Reaches(lapse: Lapse, s: State, steps: seq<Step>, t: State) {
    Init(s) && Feasible(s, steps) && AllNearly(lapse, s, steps) && Run(s, steps) == t
  }

  /** An empty collection with right statistics. */
  ghost function Empty(): (s: State)
    ensures Init(s)
  {
    State(map[], 0, Some(0), Recount(map[]), map[], map[], 0, 0)
  }

  lemma Start(lapse: Lapse) returns (steps: seq<Step>, t: State)
    ensures t == Empty() && Reaches(lapse, Empty(), steps, t)
  {
    steps, t := [], Empty();
  }

  /** All writes first, no stored time replaces a later one, but two clock readings are equal. */
  lemma EqualReadingsLose() returns (steps: seq<Step>, t: State)
    ensures Reaches(EqualReadings, Empty(), steps, t) && Lost(t)
  {
    hide Reaches;
    var part := Part(1, 1);
    steps, t := Start(EqualReadings);
    steps, t := Join(EqualReadings, steps, t, StartUpdate(0), t.(updates := map[0 := Update(0, {}, map[])]));
    steps, t := Join(EqualReadings, steps, t, Write(0, 0, Some(part)),
      t.(parts := map[0 := part], changes := map[0 := Written]));
    steps, t := Join(EqualReadings, steps, t, ReadClock(0), t.(changes := map[0 := Stamped(0)]));
    steps, t := Join(EqualReadings, steps, t, SetModified(0), t.(changes := map[]));
    steps, t := Join(EqualReadings, steps, t, FinishUpdate(0), t.(updates := map[]));
    assert |map[0 := part]| == 1;
  }

  /** A strict clock and no stored time that replaces a later one, but crawls that are announced are written
      only after an update has started. */
  lemma AnnouncedFirstRun() returns (steps: seq<Step>, t: State)
    ensures Reaches(UpdateBeforeWrite, Empty(), steps, t) && Lost(t)
  {
    hide Reaches;
    var part := Part(1, 1);
    steps, t := Start(UpdateBeforeWrite);
    steps, t := Join(UpdateBeforeWrite, steps, t, AdvanceClock(1), t.(clock := 1));
    steps, t := Join(UpdateBeforeWrite, steps, t, AddReadClock(0),
      t.(changes := map[0 := AddStamped(1)], lastRead := 1));
    steps, t := Join(UpdateBeforeWrite, steps, t, AddSetModified(0),
      t.(modified := 1, changes := map[0 := AddAnnounced(1)]));
    steps, t := Join(UpdateBeforeWrite, steps, t, AdvanceClock(1), t.(clock := 2));
    steps, t := Join(UpdateBeforeWrite, steps, t, StartUpdate(0),
      t.(updates := map[0 := Update(2, {}, map[])], lastRead := 2));
    steps, t := Join(UpdateBeforeWrite, steps, t, AddWrite(0, 0, part, true),
      t.(parts := map[0 := part], changes := map[]));
    steps, t := Join(UpdateBeforeWrite, steps, t, FinishUpdate(0), t.(updates := map[], lastStarted := Some(2)));
    assert |map[0 := part]| == 1;
  }

  /** The same with two crawls announced together, of which an update sees the first. */
  lemma UpdateBetweenWritesLoses() returns (steps: seq<Step>, t: State)
    ensures Reaches(UpdateBeforeWrite, Empty(), steps, t) && Lost(t)
  {
    hide Reaches;
    var part := Part(1, 1);
    steps, t := FirstOfTwoRead(part);
    steps, t := Join(UpdateBeforeWrite, steps, t, AddWrite(0, 1, part, true),
      t.(parts := TwoParts(part), changes := map[]));
    steps, t := Join(UpdateBeforeWrite, steps, t, FinishUpdate(0),
      t.(updates := map[], stats := Recount(map[0 := part]), lastStarted := Some(2)));
    assert |map[0 := part]| == 1 && |TwoParts(part)| == 2;
  }

  lemma FirstOfTwoRead(part: Part) returns (steps: seq<Step>, t: State)
    ensures Reaches(UpdateBeforeWrite, Empty(), steps, t)
    ensures t == State(map[0 := part], 1, Some(0), Recount(map[]), map[0 := AddAnnounced(1)],
                       map[0 := Update(2, {}, map[0 := part])], 2, 2)
  {
    hide Reaches;
    steps, t := FirstOfTwoWritten(part);
    steps, t := Join(UpdateBeforeWrite, steps, t, AdvanceClock(1), t.(clock := 2));
    assert t.parts.Keys == {0} && {0} - {0} == {};
    steps, t := Join(UpdateBeforeWrite, steps, t, StartUpdate(0),
      t.(updates := map[0 := Update(2, {0}, map[])], lastRead := 2));
    steps, t := Join(UpdateBeforeWrite, steps, t, ReadCrawl(0, 0),
      t.(updates := map[0 := Update(2, {}, map[0 := part])]));
  }

  lemma FirstOfTwoWritten(part: Part) returns (steps: seq<Step>, t: State)
    ensures Reaches(UpdateBeforeWrite, Empty(), steps, t)
    ensures t == State(map[0 := part], 1, Some(0), Recount(map[]), map[0 := AddAnnounced(1)], map[], 1, 1)
  {
    hide Reaches, Recount;
    steps, t := Start(UpdateBeforeWrite);
    steps, t := Join(UpdateBeforeWrite, steps, t, AdvanceClock(1), t.(clock := 1));
    steps, t := Join(UpdateBeforeWrite, steps, t, AddReadClock(0),
      t.(changes := map[0 := AddStamped(1)], lastRead := 1));
    steps, t := Join(UpdateBeforeWrite, steps, t, AddSetModified(0),
      t.(modified := 1, changes := map[0 := AddAnnounced(1)]));
    steps, t := Join(UpdateBeforeWrite, steps, t, AddWrite(0, 0, part, false), t.(parts := map[0 := part]));
  }

  /** All writes first and a strict clock, but a change stores its time after another has stored a later one. */
  lemma StrictClockIsNotEnough() returns (steps: seq<Step>, t: State)
    ensures Reaches(StoredTooLate, Empty(), steps, t) && Lost(t)
  {
    hide Reaches;
    var part := Part(1, 1);
    steps, t := SecondChangeStoresFirst(part);
    steps, t := Join(StoredTooLate, steps, t, FinishUpdate(0),
      t.(updates := map[], stats := Recount(map[0 := part]), lastStarted := Some(2)));
    steps, t := Join(StoredTooLate, steps, t, SetModified(0), t.(modified := 1, changes := map[]));
    assert |map[0 := part]| == 1 && |TwoParts(part)| == 2;
  }

  /** A second change, made later, stores its time while the first has still not stored its own. */
  lemma SecondChangeStoresFirst(part: Part) returns (steps: seq<Step>, t: State)
    ensures Reaches(StoredTooLate, Empty(), steps, t)
    ensures t == State(TwoParts(part), 3, Some(0), Recount(map[]), map[0 := Stamped(1)],
                       map[0 := Update(2, {}, map[0 := part])], 3, 3)
  {
    hide Reaches, Recount;
    steps, t := UpdateBetweenClockAndStore(part);
    steps, t := Join(StoredTooLate, steps, t, AdvanceClock(1), t.(clock := 3));
    steps, t := Join(StoredTooLate, steps, t, Write(1, 1, Some(part)),
      t.(parts := TwoParts(part), changes := map[0 := Stamped(1), 1 := Written]));
    steps, t := Join(StoredTooLate, steps, t, ReadClock(1),
      t.(changes := map[0 := Stamped(1), 1 := Stamped(3)], lastRead := 3));
    steps, t := Join(StoredTooLate, steps, t, SetModified(1), t.(modified := 3, changes := map[0 := Stamped(1)]));
  }

  function TwoParts(part: Part): map<CrawlId, Part> {
    map[0 := part, 1 := part]
  }

  /** One change is written and reads the clock; before it stores the time an update starts and reads the crawl. */
  lemma UpdateBetweenClockAndStore(part: Part) returns (steps: seq<Step>, t: State)
    ensures Reaches(StoredTooLate, Empty(), steps, t)
    ensures t == State(map[0 := part], 0, Some(0), Recount(map[]), map[0 := Stamped(1)],
                       map[0 := Update(2, {}, map[0 := part])], 2, 2)
  {
    hide Reaches, Recount;
    steps, t := Start(StoredTooLate);
    steps, t := Join(StoredTooLate, steps, t, AdvanceClock(1), t.(clock := 1));
    steps, t := Join(StoredTooLate, steps, t, Write(0, 0, Some(part)),
      t.(parts := map[0 := part], changes := map[0 := Written]));
    steps, t := Join(StoredTooLate, steps, t, ReadClock(0), t.(changes := map[0 := Stamped(1)], lastRead := 1));
    steps, t := Join(StoredTooLate, steps, t, AdvanceClock(1), t.(clock := 2));
    assert t.parts.Keys == {0} && {0} - {0} == {};
    steps, t := Join(StoredTooLate, steps, t, StartUpdate(0),
      t.(updates := map[0 := Update(2, {0}, map[])], lastRead := 2));
    steps, t := Join(StoredTooLate, steps, t, ReadCrawl(0, 0), t.(updates := map[0 := Update(2, {}, map[0 := part])]));
  }

  /** One more step of a run from the empty collection. */
  lemma Join(lapse: Lapse, steps: seq<Step>, t: State, step: Step, next: State) returns (steps': seq<Step>, t': State)
    requires Reaches(lapse, Empty(), steps, t)
    requires Enabled(t, step) && NearlyCareful(lapse, t, step) && Apply(t, step) == next
    ensures steps' == steps + [step] && t' == next && Reaches(lapse, Empty(), steps', t')
  {
    steps', t' := steps + [step], next;
    OneMoreStep(lapse, Empty(), steps, t, step, next);
  }

  lemma {:induction false} OneMoreStep(lapse: Lapse, s: State, steps: seq<Step>, t: State, step: Step, next: State)
    requires Feasible(s, steps) && AllNearly(lapse, s, steps) && Run(s, steps) == t
    requires Enabled(t, step) && NearlyCareful(lapse, t, step) && Apply(t, step) == next
    ensures Feasible(s, steps + [step]) && AllNearly(lapse, s, steps + [step]) && Run(s, steps + [step]) == next
    decreases |steps|
  {
    if steps == [] {
      assert steps + [step] == [step] && [step][1..] == [];
    } else {
      hide Apply, NearlyCareful;
      assert (steps + [step])[1..] == steps[1..] + [step];
      OneMoreStep(lapse, Apply(s, steps[0]), steps[1..], t, step, next);
    }
  }

  lemma RunOfOneMore(s: State, step: Step, rest: seq<Step>)
    requires Enabled(s, step) && Feasible(Apply(s, step), rest)
    ensures Feasible(s, [step] + rest) && Run(s, [step] + rest) == Run(Apply(s, step), rest)
  {
    hide Enabled, Apply;
    assert ([step] + rest)[1..] == rest;
  }

  lemma RunOfTwo(s: State, a: Step, b: Step)
    requires Enabled(s, a) && Enabled(Apply(s, a), b)
    ensures Feasible(s, [a, b]) && Run(s, [a, b]) == Apply(Apply(s, a), b)
  {
    hide Enabled, Apply;
    RunOfOneMore(Apply(s, a), b, []);
    RunOfOneMore(s, a, [b]);
    assert [b] + [] == [b] && [a] + [b] == [a, b];
  }

  lemma RunOfFour(s: State, a: Step, b: Step, c: Step, d: Step)
    requires Enabled(s, a) && Enabled(Apply(s, a), b) && Enabled(Apply(Apply(s, a), b), c)
    requires Enabled(Apply(Apply(Apply(s, a), b), c), d)
    ensures Feasible(s, [a, b, c, d]) && Run(s, [a, b, c, d]) == Apply(Apply(Apply(Apply(s, a), b), c), d)
  {
    hide Enabled, Apply;
    RunOfTwo(Apply(Apply(s, a), b), c, d);
    RunOfOneMore(Apply(s, a), b, [c, d]);
    RunOfOneMore(s, a, [b, c, d]);
    assert [b] + [c, d] == [b, c, d] && [a] + [b, c, d] == [a, b, c, d];
  }

  // ------------------------------------------------------------------------------------------
  // What can happen
  // ------------------------------------------------------------------------------------------

  /** A change or an update may start at any time, a change may write on until it reads the clock or has written the
      last announced crawl, and an update may read any crawl of the collection once. */
  lemma WhatMayHappen(s: State, k: ChangeId, u: UpdateId, id: CrawlId, part: Part, seconds: nat)
    ensures Enabled(s, AdvanceClock(seconds))
    ensures k !in s.changes || s.changes[k] == Written ==>
      Enabled(s, Write(k, id, None)) && Enabled(s, Write(k, id, Some(part)))
    ensures k !in s.changes ==> Enabled(s, AddReadClock(k))
    ensures k in s.changes && s.changes[k].AddAnnounced? ==>
      Enabled(s, AddWrite(k, id, part, true)) && Enabled(s, AddWrite(k, id, part, false))
    ensures u !in s.updates ==> Enabled(s, StartUpdate(u))
    ensures u in s.updates && id in s.parts && id !in s.updates[u].seen ==> Enabled(s, ReadCrawl(u, id))
  {
  }

  /** An update has not seen a crawl that its cursor still has to return. */
  ghost predicate CursorsReadOnce(s: State) {
    forall u | u in s.updates :: s.updates[u].pending !! s.updates[u].seen.Keys
  }

  /** Any update that is running can be brought to its end, by reading what its cursor still has to return. */
  lemma {:induction false} UpdateCanFinish(s: State, u: UpdateId) returns (steps: seq<Step>)
    requires u in s.updates && CursorsReadOnce(s)
    ensures Feasible(s, steps)
    ensures var t := Run(s, steps);
            && t.updates.Keys == s.updates.Keys - {u} && t.changes == s.changes && t.parts == s.parts
            && t.lastStarted == Some(s.updates[u].start) && CursorsReadOnce(t)
    decreases |s.updates[u].pending|
  {
    hide Recount;
    var pending := s.updates[u].pending;
    if pending == {} {
      steps := [FinishUpdate(u)];
      RunOfOneMore(s, FinishUpdate(u), []);
      assert [FinishUpdate(u)] + [] == steps;
    } else {
      var id :| id in pending;
      var t := Apply(s, ReadCrawl(u, id));
      assert t.updates[u].pending == pending - {id};
      var rest := UpdateCanFinish(t, u);
      steps := [ReadCrawl(u, id)] + rest;
      RunOfOneMore(s, ReadCrawl(u, id), rest);
    }
  }

  /** Any change on its way can be brought to its end, after which the collection carries a time it read. */
  lemma ChangeCanFinish(s: State, k: ChangeId, id: CrawlId, part: Part) returns (steps: seq<Step>)
    requires k in s.changes
    ensures Feasible(s, steps)
    ensures var t := Run(s, steps);
            && t.changes == s.changes - {k} && t.updates == s.updates
            && (s.changes[k] == Written ==> t.modified == s.clock)
            && (s.changes[k].Stamped? || s.changes[k].AddStamped? ==> t.modified == s.changes[k].time)
            && (s.changes[k].AddAnnounced? ==> t.modified == s.modified)
            && t.parts == if s.changes[k].AddStamped? || s.changes[k].AddAnnounced? then s.parts[id := part]
                          else s.parts
  {
    match s.changes[k]
    case Written =>
      steps := [ReadClock(k), SetModified(k)];
      RunOfTwo(s, ReadClock(k), SetModified(k));
    case Stamped(_) =>
      steps := [SetModified(k)];
      RunOfOneMore(s, SetModified(k), []);
      assert [SetModified(k)] + [] == steps;
    case AddStamped(_) =>
      steps := [AddSetModified(k), AddWrite(k, id, part, true)];
      RunOfTwo(s, AddSetModified(k), AddWrite(k, id, part, true));
    case AddAnnounced(_) =>
      steps := [AddWrite(k, id, part, true)];
      RunOfOneMore(s, AddWrite(k, id, part, true), []);
      assert [AddWrite(k, id, part, true)] + [] == steps;
  }

  // ------------------------------------------------------------------------------------------
  // The recount itself
  // ------------------------------------------------------------------------------------------

  /** A crawl found by the query for the collection, finished well or not. */
  datatype Crawl = Crawl(successful: bool, fileSizes: seq<int>, pages: int)

  function SizeOf(sizes: seq<int>): int {
    if sizes == [] then 0 else SizeOf(sizes[..|sizes| - 1]) + sizes[|sizes| - 1]
  }

  ghost function PartsOf(crawls: map<CrawlId, Crawl>): map<CrawlId, Part> {
    map id | id in crawls && crawls[id].successful :: Part(SizeOf(crawls[id].fileSizes), crawls[id].pages)
  }

  /** The size of a crawl is that of its files: none has no size, one its own, and sizes add up. */
  lemma {:induction false} SizesAddUp(a: seq<int>, b: seq<int>, size: int)
    ensures SizeOf([]) == 0 && SizeOf([size]) == size && SizeOf(a + b) == SizeOf(a) + SizeOf(b)
    decreases |b|
  {
    assert SizeOf([size]) == SizeOf([size][..0]) + size && [size][..0] == [];
    if b == [] {
      assert a + b == a;
    } else {
      var n := |b| - 1;
      SizesAddUp(a, b[..n], size);
      assert (a + b)[..|a + b| - 1] == a + b[..n];
    }
  }

  /** What the recount comes to: the successful crawls are counted, and their pages and sizes added up. */
  lemma RecountOfCrawls(crawls: map<CrawlId, Crawl>, pages: map<CrawlId, int>, sizes: map<CrawlId, int>)
    requires forall id :: id in pages <==> id in crawls && crawls[id].successful
    requires forall id | id in pages :: pages[id] == crawls[id].pages
    requires sizes.Keys == pages.Keys && forall id | id in sizes :: sizes[id] == SizeOf(crawls[id].fileSizes)
    ensures Recount(PartsOf(crawls)) == Stats(|pages|, Total(pages), Total(sizes))
  {
    hide SizeOf;
    var parts := PartsOf(crawls);
    assert parts.Keys == pages.Keys && |parts| == |parts.Keys| && |pages| == |pages.Keys|;
    assert Pages(parts) == pages && Sizes(parts) == sizes;
  }

  lemma UpdatedParts(parts: map<CrawlId, Part>, id: CrawlId, part: Part)
    ensures Pages(parts[id := part]) == Pages(parts)[id := part.pages]
    ensures Sizes(parts[id := part]) == Sizes(parts)[id := part.size]
  {
  }

  lemma RecountOfOneMore(parts: map<CrawlId, Part>, id: CrawlId, part: Part)
    requires id !in parts
    ensures var before := Recount(parts);
            Recount(parts[id := part])
            == Stats(before.crawlCount + 1, before.pageCount + part.pages, before.totalSize + part.size)
  {
    UpdatedParts(parts, id, part);
    TotalUpdate(Pages(parts), id, part.pages);
    TotalUpdate(Sizes(parts), id, part.size);
  }

  lemma NothingCounted()
    ensures Recount(PartsOf(map[])) == Stats(0, 0, 0)
  {
    assert PartsOf(map[]) == map[] && Pages(map[]) == map[] && Sizes(map[]) == map[];
  }

  lemma OneMoreCrawl(done: map<CrawlId, Crawl>, id: CrawlId, crawl: Crawl)
    requires id !in done
    ensures id !in PartsOf(done)
    ensures PartsOf(done[id := crawl])
            == if crawl.successful then PartsOf(done)[id := Part(SizeOf(crawl.fileSizes), crawl.pages)]
               else PartsOf(done)
  {
  }

  /** Goes through the crawls once, in any order, skips the ones that were not successful and adds up the rest. */
  method CountCollection(crawls: map<CrawlId, Crawl>) returns (stats: Stats)
    ensures stats == Recount(PartsOf(crawls))
  {
    hide SizeOf, Recount, PartsOf;
    var crawlCount, pageCount, totalSize := 0, 0, 0;
    NothingCounted();
    var todo := crawls.Keys;
    ghost var done: map<CrawlId, Crawl> := map[];
    while todo != {}
      invariant todo <= crawls.Keys && done.Keys == crawls.Keys - todo
      invariant forall id | id in done :: done[id] == crawls[id]
      invariant Stats(crawlCount, pageCount, totalSize) == Recount(PartsOf(done))
      decreases todo
    {
      var id :| id in todo;
      var crawl := crawls[id];
      todo := todo - {id};
      OneMoreCrawl(done, id, crawl);
      if crawl.successful {
        var size := FilesSize(crawl.fileSizes);
        RecountOfOneMore(PartsOf(done), id, Part(size, crawl.pages));
        crawlCount := crawlCount + 1;
        totalSize := totalSize + size;
        pageCount := pageCount + crawl.pages;
      }
      done := done[id := crawl];
    }
    assert done == crawls;
    stats := Stats(crawlCount, pageCount, totalSize);
  }

  method FilesSize(sizes: seq<int>) returns (total: int)
    ensures total == SizeOf(sizes)
  {
    total := 0;
    for i := 0 to |sizes|
      invariant total == SizeOf(sizes[..i])
    {
      assert sizes[..i + 1][..i] == sizes[..i];
      total := total + sizes[i];
    }
    assert sizes[..|sizes|] == sizes;
  }
}
