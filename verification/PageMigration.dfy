/** The multi-worker page migration: any number of workers, crawls that come, finish and go, and
    workers that die, as steps on the crawl collection. */
module PageMigration {

  type CrawlId = nat
  type WorkerId = nat

  /** The version workers migrate to, and the one new crawls are stored with. */
  const TARGET := 2

  datatype Finish = Running | FinishedAt(time: int)

  datatype Crawl = Crawl(version: int, migrating: bool, finish: Finish)

  /** Each worker runs the claim loop twice. */
  datatype Round = First | Second

  datatype Pc =
    | Claiming(round: Round)
    | Migrating(round: Round, id: CrawlId)
    | AwaitFinish
    | AwaitMigrated
    | Returned
    | Failed

  /** everUsed and claims are history: ids are never reused, and claims lists every claim in order. */
  datatype State = State(
    crawls: map<CrawlId, Crawl>,
    workers: map<WorkerId, Pc>,
    everUsed: set<CrawlId>,
    claims: seq<CrawlId>)

  predicate Old(s: State, id: CrawlId) {
    id in s.crawls && s.crawls[id].version != TARGET
  }

  predicate OldRunning(s: State, id: CrawlId) {
    Old(s, id) && s.crawls[id].finish.Running?
  }

  /** The match query of the claim. */
  predicate Claimable(s: State, id: CrawlId) {
    Old(s, id) && !s.crawls[id].migrating && s.crawls[id].finish.FinishedAt?
  }

  predicate Busy(s: State, w: WorkerId, id: CrawlId) {
    w in s.workers && s.workers[w].Migrating? && s.workers[w].id == id
  }

  predicate At(s: State, w: WorkerId, pc: Pc) {
    w in s.workers && s.workers[w] == pc
  }

  // ------------------------------------------------------------------------------------------
  // Steps
  // ------------------------------------------------------------------------------------------

  /** Each constructor is one database operation or one event outside the workers. In the two waiting
      loops a worker that still finds a document logs it by an attribute a dictionary does not have;
      raises says whether that ends the worker, as it does in the code, or the loop goes around. */
  datatype Step =
    | StartWorker(w: WorkerId)
    | Claim(w: WorkerId, id: CrawlId)
    | NothingToClaim(w: WorkerId)
    | Complete(w: WorkerId)
    | NoneRunning(w: WorkerId)
    | SeesRunning(w: WorkerId, id: CrawlId, raises: bool)
    | NoneMigrating(w: WorkerId)
    | SeesMigrating(w: WorkerId, id: CrawlId, raises: bool)
    | Crash(w: WorkerId)
    | CrawlAdded(id: CrawlId, finish: Finish)
    | CrawlFinishes(id: CrawlId, time: int)
    | CrawlDeleted(id: CrawlId)

  /** The claim takes the match that finished last. */
  predicate NewestClaimable(s: State, id: CrawlId) {
    && Claimable(s, id)
    && forall o | o in s.crawls && Claimable(s, o) :: s.crawls[o].finish.time <= s.crawls[id].finish.time
  }

  predicate Enabled(s: State, step: Step) {
    match step
    case StartWorker(w) => w !in s.workers
    case Claim(w, id) => w in s.workers && s.workers[w].Claiming? && NewestClaimable(s, id)
    case NothingToClaim(w) =>
      w in s.workers && s.workers[w].Claiming? && forall id | id in s.crawls :: !Claimable(s, id)
    case Complete(w) => w in s.workers && s.workers[w].Migrating?
    case NoneRunning(w) => At(s, w, AwaitFinish) && forall id | id in s.crawls :: !OldRunning(s, id)
    case SeesRunning(w, id, _) => At(s, w, AwaitFinish) && OldRunning(s, id)
    case NoneMigrating(w) => At(s, w, AwaitMigrated) && forall id | id in s.crawls :: !s.crawls[id].migrating
    case SeesMigrating(w, id, _) => At(s, w, AwaitMigrated) && id in s.crawls && s.crawls[id].migrating
    case Crash(w) => w in s.workers && s.workers[w] != Returned
    case CrawlAdded(id, _) => id !in s.everUsed
    case CrawlFinishes(id, _) => id in s.crawls && s.crawls[id].finish.Running?
    case CrawlDeleted(id) => id in s.crawls
  }

  function Move(s: State, w: WorkerId, pc: Pc): State {
    s.(workers := s.workers[w := pc])
  }

  function Store(s: State, id: CrawlId, c: Crawl): State {
    s.(crawls := s.crawls[id := c])
  }

  function Apply(s: State, step: Step): State
    requires Enabled(s, step)
  {
    match step
    case StartWorker(w) => Move(s, w, Claiming(First))
    case Claim(w, id) =>
      var claimed := Store(s, id, s.crawls[id].(migrating := true));
      Move(claimed, w, Migrating(s.workers[w].round, id)).(claims := s.claims + [id])
    case NothingToClaim(w) => Move(s, w, if s.workers[w].round == First then AwaitFinish else AwaitMigrated)
    case Complete(w) =>
      var id := s.workers[w].id;
      var done := Move(s, w, Claiming(s.workers[w].round));
      if id in s.crawls then Store(done, id, s.crawls[id].(version := TARGET, migrating := false)) else done
    case NoneRunning(w) => Move(s, w, Claiming(Second))
    case SeesRunning(w, _, raises) => if raises then Move(s, w, Failed) else s
    case NoneMigrating(w) => Move(s, w, Returned)
    case SeesMigrating(w, _, raises) => if raises then Move(s, w, Failed) else s
    case Crash(w) => Move(s, w, Failed)
    case CrawlAdded(id, finish) => Store(s, id, Crawl(TARGET, false, finish)).(everUsed := s.everUsed + {id})
    case CrawlFinishes(id, time) => Store(s, id, s.crawls[id].(finish := FinishedAt(time)))
    case CrawlDeleted(id) => s.(crawls := s.crawls - {id})
  }

  predicate Feasible(s: State, steps: seq<Step>)
    decreases |steps|
  {
    steps == [] || (Enabled(s, steps[0]) && Feasible(Apply(s, steps[0]), steps[1..]))
  }

  function Run(s: State, steps: seq<Step>): State
    requires Feasible(s, steps)
    decreases |steps|
  {
    if steps == [] then s else Run(Apply(s, steps[0]), steps[1..])
  }

  /** Before the first worker starts, crawls may be in any state, even marked by an earlier job. */
  predicate Init(s: State) {
    s.workers == map[] && s.claims == [] && s.crawls.Keys <= s.everUsed
  }

  // ------------------------------------------------------------------------------------------
  // Invariant, phase by phase
  // ------------------------------------------------------------------------------------------

  /** Reached only after the worker has seen that no old crawl is running any more. */
  predicate PastFinishWait(pc: Pc) {
    pc == Claiming(Second) || (pc.Migrating? && pc.round == Second) || pc == AwaitMigrated || pc == Returned
  }

  ghost predicate Owned(s: State) {
    && (forall w, id | Busy(s, w, id) :: id in s.everUsed && (id in s.crawls ==> s.crawls[id].migrating && Old(s, id)))
    && (forall v, w, id | Busy(s, v, id) && Busy(s, w, id) :: v == w)
  }

  ghost predicate ClaimsSpent(s: State) {
    && (forall i | 0 <= i < |s.claims| :: s.claims[i] in s.everUsed)
    && (forall i | 0 <= i < |s.claims| :: s.claims[i] !in Unclaimed(s))
    && (forall i, j | 0 <= i < j < |s.claims| :: s.claims[i] != s.claims[j])
  }

  ghost predicate Phases(s: State) {
    && (forall w, id | w in s.workers && PastFinishWait(s.workers[w]) :: !OldRunning(s, id))
    && (forall w, id | At(s, w, AwaitMigrated) && Old(s, id) :: s.crawls[id].migrating)
    && (forall w, id | At(s, w, Returned) :: !Old(s, id))
  }

  ghost predicate Inv(s: State) {
    s.crawls.Keys <= s.everUsed && Owned(s) && ClaimsSpent(s) && Phases(s)
  }

  /** Crawls nobody has claimed yet, finished or not. */
  function Unclaimed(s: State): set<CrawlId> {
    set id | id in s.crawls && Old(s, id) && !s.crawls[id].migrating
  }

  lemma StepKeepsOwned(s: State, step: Step)
    requires Inv(s) && Enabled(s, step)
    ensures Owned(Apply(s, step)) && Apply(s, step).crawls.Keys <= Apply(s, step).everUsed
  {
    var s' := Apply(s, step);
    assert step.Complete? ==> Busy(s, step.w, s.workers[step.w].id);
    forall w, id | Busy(s', w, id)
      ensures id in s'.everUsed && (id in s'.crawls ==> s'.crawls[id].migrating && Old(s', id))
    {
      assert Busy(s, w, id) || step == Claim(w, id);
    }
    forall v, w, id | Busy(s', v, id) && Busy(s', w, id)
      ensures v == w
    {
      assert Busy(s, v, id) || step == Claim(v, id);
      assert Busy(s, w, id) || step == Claim(w, id);
    }
  }

  /** Claiming removes one crawl from the unclaimed ones, and nothing ever adds one. */
  lemma StepShrinksUnclaimed(s: State, step: Step)
    requires Inv(s) && Enabled(s, step)
    ensures step.Claim? ==> step.id in Unclaimed(s) && Unclaimed(Apply(s, step)) == Unclaimed(s) - {step.id}
    ensures Unclaimed(Apply(s, step)) <= Unclaimed(s)
  {
    if step.Complete? {
      assert Busy(s, step.w, s.workers[step.w].id);
    }
  }

  lemma StepKeepsClaimsSpent(s: State, step: Step)
    requires Inv(s) && Enabled(s, step)
    ensures ClaimsSpent(Apply(s, step))
  {
    StepShrinksUnclaimed(s, step);
  }

  lemma StepKeepsPhases(s: State, step: Step)
    requires Inv(s) && Enabled(s, step)
    ensures Phases(Apply(s, step))
  {
    var s' := Apply(s, step);
    forall w, id | w in s'.workers && PastFinishWait(s'.workers[w]) ensures !OldRunning(s', id) {
      assert OldRunning(s', id) ==> OldRunning(s, id);
    }
    forall w, id | At(s', w, AwaitMigrated) && Old(s', id) ensures s'.crawls[id].migrating {
      assert Old(s, id);
      if At(s, w, AwaitMigrated) {
        assert s.crawls[id].migrating;
      } else {
        assert PastFinishWait(s.workers[w]);
        assert !OldRunning(s, id) && !Claimable(s, id);
      }
    }
    forall w, id | At(s', w, Returned) ensures !Old(s', id) {
      assert At(s, w, Returned) || At(s, w, AwaitMigrated);
      assert Old(s', id) ==> Old(s, id);
    }
  }

  lemma StepKeepsInv(s: State, step: Step)
    requires Inv(s) && Enabled(s, step)
    ensures Inv(Apply(s, step))
  {
    StepKeepsOwned(s, step);
    StepKeepsClaimsSpent(s, step);
    StepKeepsPhases(s, step);
  }

  lemma {:induction false} RunKeepsInv(s: State, steps: seq<Step>)
    requires Inv(s) && Feasible(s, steps)
    ensures Inv(Run(s, steps))
    ensures |Run(s, steps).claims| + |Unclaimed(Run(s, steps))| <= |s.claims| + |Unclaimed(s)|
    decreases |steps|
  {
    if steps != [] {
      var s' := Apply(s, steps[0]);
      StepKeepsInv(s, steps[0]);
      StepShrinksUnclaimed(s, steps[0]);
      SubsetSize(Unclaimed(s'), Unclaimed(s));
      RunKeepsInv(s', steps[1..]);
    }
  }

  lemma {:induction false} SubsetSize<T>(a: set<T>, b: set<T>)
    requires a <= b
    ensures |a| <= |b|
    decreases a
  {
    if a != {} {
      var x :| x in a;
      SubsetSize(a - {x}, b - {x});
    }
  }

  // ------------------------------------------------------------------------------------------
  // Main results
  // ------------------------------------------------------------------------------------------

  /** At no point of any run is a crawl in the hands of two workers, no crawl is claimed twice, and
      there are never more claims than crawls that were unclaimed at the start. */
  lemma ClaimsAreExclusive(s: State, steps: seq<Step>)
    requires Init(s) && Feasible(s, steps)
    ensures var t := Run(s, steps);
            && (forall v, w, id | Busy(t, v, id) && Busy(t, w, id) :: v == w)
            && (forall i, j | 0 <= i < j < |t.claims| :: t.claims[i] != t.claims[j])
            && |t.claims| <= |Unclaimed(s)|
  {
    RunKeepsInv(s, steps);
  }

  /** Once any worker has returned, every crawl has the target version, then and ever after. */
  lemma ReturnMeansAllMigrated(s: State, steps: seq<Step>, w: WorkerId)
    requires Init(s) && Feasible(s, steps) && At(Run(s, steps), w, Returned)
    ensures forall id | id in Run(s, steps).crawls :: Run(s, steps).crawls[id].version == TARGET
  {
    RunKeepsInv(s, steps);
    var t := Run(s, steps);
    forall id | id in t.crawls ensures t.crawls[id].version == TARGET {
      assert !Old(t, id);
    }
  }

  /** A claimed crawl that no worker holds: its worker died before completing it. */
  ghost predicate Orphan(s: State, id: CrawlId) {
    Old(s, id) && s.crawls[id].migrating && forall w :: !Busy(s, w, id)
  }

  /** A worker that dies while it holds a crawl orphans it. */
  lemma CrashOrphans(s: State, w: WorkerId, id: CrawlId)
    requires Inv(s) && Busy(s, w, id) && id in s.crawls
    ensures Enabled(s, Crash(w)) && Orphan(Apply(s, Crash(w)), id)
  {
    var t := Apply(s, Crash(w));
    forall v ensures !Busy(t, v, id) {
      assert Busy(t, v, id) ==> Busy(s, v, id);
    }
  }

  /** Nothing picks an orphan up again: until it is deleted it stays as it is, and as long as it is
      there no worker of the job returns, however many are started. */
  lemma {:induction false} OrphansBlockTheJob(s: State, steps: seq<Step>, id: CrawlId)
    requires Inv(s) && Orphan(s, id) && Feasible(s, steps)
    ensures id in Run(s, steps).crawls ==> Orphan(Run(s, steps), id) && forall w :: !At(Run(s, steps), w, Returned)
    decreases |steps|
  {
    if steps == [] {
      forall w ensures !At(s, w, Returned) {
        assert Old(s, id);
      }
    } else {
      var s' := Apply(s, steps[0]);
      StepKeepsInv(s, steps[0]);
      if id in s'.crawls {
        var step := steps[0];
        assert step.Complete? ==> Busy(s, step.w, s.workers[step.w].id);
        forall w ensures !Busy(s', w, id) {
          assert !Busy(s, w, id);
        }
        OrphansBlockTheJob(s', steps[1..], id);
      } else {
        assert id in s'.everUsed;
        DeletedStaysDeleted(s', steps[1..], id);
      }
    }
  }

  lemma {:induction false} DeletedStaysDeleted(s: State, steps: seq<Step>, id: CrawlId)
    requires Inv(s) && Feasible(s, steps) && id in s.everUsed && id !in s.crawls
    ensures id !in Run(s, steps).crawls
    decreases |steps|
  {
    if steps != [] {
      StepKeepsInv(s, steps[0]);
      DeletedStaysDeleted(Apply(s, steps[0]), steps[1..], id);
    }
  }

  // ------------------------------------------------------------------------------------------
  // Returning is possible
  // ------------------------------------------------------------------------------------------

  /** No crawl is marked, and every old crawl has finished. */
  predicate Quiet(s: State) {
    forall id | id in s.crawls :: !s.crawls[id].migrating && !OldRunning(s, id)
  }

  lemma {:induction false} NewestExists(s: State, ids: set<CrawlId>) returns (newest: CrawlId)
    requires ids != {} && forall id | id in ids :: Claimable(s, id)
    ensures newest in ids && Claimable(s, newest)
    ensures forall id | id in ids :: Claimable(s, id) && s.crawls[id].finish.time <= s.crawls[newest].finish.time
    decreases ids
  {
    newest :| newest in ids;
    if ids != {newest} {
      assert ids - {newest} != {};
      var other := NewestExists(s, ids - {newest});
      if s.crawls[newest].finish.time < s.crawls[other].finish.time {
        newest := other;
      }
    }
  }

  predicate NoDeletions(steps: seq<Step>) {
    forall i | 0 <= i < |steps| :: !steps[i].CrawlDeleted?
  }

  lemma {:induction false} RunOfSum(s: State, steps: seq<Step>, more: seq<Step>)
    requires Feasible(s, steps) && Feasible(Run(s, steps), more)
    ensures Feasible(s, steps + more) && Run(s, steps + more) == Run(Run(s, steps), more)
    decreases |steps|
  {
    hide Enabled, Apply;
    if steps == [] {
      assert steps + more == more;
    } else {
      assert (steps + more)[1..] == steps[1..] + more;
      RunOfSum(Apply(s, steps[0]), steps[1..], more);
    }
  }

  lemma RunOfOne(s: State, step: Step)
    requires Enabled(s, step)
    ensures Feasible(s, [step]) && Run(s, [step]) == Apply(s, step)
  {
    hide Enabled, Apply;
    assert [step][1..] == [];
    assert Feasible(Apply(s, step), []) && Run(Apply(s, step), []) == Apply(s, step);
  }

  lemma RunOfOneMore(s: State, step: Step, rest: seq<Step>)
    requires Enabled(s, step) && Feasible(Apply(s, step), rest)
    ensures Feasible(s, [step] + rest) && Run(s, [step] + rest) == Run(Apply(s, step), rest)
  {
    hide Enabled, Apply;
    assert ([step] + rest)[1..] == rest;
  }

  /** One round of a lone worker: it migrates the newest old crawl, or passes on to the next phase. */
  lemma LoneRound(s: State, w: WorkerId) returns (steps: seq<Step>, t: State)
    requires w in s.workers && s.workers[w].Claiming? && Quiet(s)
    ensures Feasible(s, steps) && NoDeletions(steps) && t == Run(s, steps) && Quiet(t) && w in t.workers
    ensures if Unclaimed(s) != {} then t.workers[w] == s.workers[w] && |Unclaimed(t)| < |Unclaimed(s)|
            else
              && t.workers[w] == (if s.workers[w].round == First then Claiming(Second) else Returned)
              && Unclaimed(t) == {}
  {
    var first, second;
    if Unclaimed(s) != {} {
      var id := NewestExists(s, Unclaimed(s));
      first, second := Claim(w, id), Complete(w);
      assert Unclaimed(Apply(Apply(s, first), second)) == Unclaimed(s) - {id};
    } else {
      assert forall id | id in s.crawls :: Claimable(s, id) ==> id in Unclaimed(s);
      first := NothingToClaim(w);
      second := if s.workers[w].round == First then NoneRunning(w) else NoneMigrating(w);
    }
    steps, t := [first] + [second], Apply(Apply(s, first), second);
    RunOfOne(Apply(s, first), second);
    RunOfOneMore(s, first, [second]);
  }

  /** From a quiet state a worker that is left alone returns, having claimed and completed every old crawl. */
  lemma {:induction false} LoneWorkerReturns(s: State, w: WorkerId) returns (steps: seq<Step>)
    requires w in s.workers && s.workers[w].Claiming? && Quiet(s)
    ensures Feasible(s, steps) && NoDeletions(steps) && At(Run(s, steps), w, Returned)
    decreases |Unclaimed(s)|, if s.workers[w].round == First then 1 else 0
  {
    hide Quiet, Feasible, Run;
    var t;
    steps, t := LoneRound(s, w);
    if !At(t, w, Returned) {
      var rest := LoneWorkerReturns(t, w);
      RunOfSum(s, steps, rest);
      steps := steps + rest;
    }
  }

  // ------------------------------------------------------------------------------------------
  // Returning is possible exactly when nothing is stuck
  // ------------------------------------------------------------------------------------------

  /** A marked crawl that no worker holds, whether it is old or not. */
  ghost predicate Stuck(s: State, id: CrawlId) {
    id in s.crawls && s.crawls[id].migrating && forall w :: !Busy(s, w, id)
  }

  /** Without deletions, a worker that has not returned yet does so. */
  ghost predicate ReturnsIn(s: State, steps: seq<Step>, w: WorkerId) {
    Feasible(s, steps) && NoDeletions(steps) && !At(s, w, Returned) && At(Run(s, steps), w, Returned)
  }

  lemma StepKeepsStuck(s: State, step: Step, id: CrawlId)
    requires Inv(s) && Enabled(s, step) && Stuck(s, id) && !step.CrawlDeleted?
    ensures Stuck(Apply(s, step), id) && !step.NoneMigrating?
  {
    var s' := Apply(s, step);
    assert step.Complete? ==> Busy(s, step.w, s.workers[step.w].id);
    forall w ensures !Busy(s', w, id) {
      assert !Busy(s, w, id);
    }
  }

  lemma {:induction false} StuckMeansNoReturn(s: State, steps: seq<Step>, id: CrawlId, w: WorkerId)
    requires Inv(s) && Stuck(s, id) && Feasible(s, steps) && NoDeletions(steps) && !At(s, w, Returned)
    ensures !At(Run(s, steps), w, Returned)
    decreases |steps|
  {
    if steps != [] {
      var s' := Apply(s, steps[0]);
      assert !steps[0].CrawlDeleted?;
      StepKeepsStuck(s, steps[0], id);
      StepKeepsInv(s, steps[0]);
      assert NoDeletions(steps[1..]) by {
        assert forall i | 0 <= i < |steps| - 1 :: steps[1..][i] == steps[i + 1];
      }
      StuckMeansNoReturn(s', steps[1..], id, w);
    }
  }

  function Marked(s: State): set<CrawlId> {
    set id | id in s.crawls && s.crawls[id].migrating
  }

  /** Every worker that holds a crawl completes it. */
  lemma {:induction false} AllComplete(s: State) returns (steps: seq<Step>)
    requires Inv(s) && forall id :: !Stuck(s, id)
    ensures Feasible(s, steps) && NoDeletions(steps) && Marked(Run(s, steps)) == {}
    ensures Run(s, steps).workers.Keys == s.workers.Keys
    decreases |Marked(s)|
  {
    steps := [];
    if Marked(s) != {} {
      var id :| id in Marked(s);
      assert !Stuck(s, id);
      var w :| Busy(s, w, id);
      var t := Apply(s, Complete(w));
      assert Marked(t) == Marked(s) - {id};
      StepKeepsInv(s, Complete(w));
      forall o ensures !Stuck(t, o) {
        assert !Stuck(s, o);
        if o in Marked(t) {
          var v :| Busy(s, v, o);
          assert Busy(t, v, o);
        }
      }
      var rest := AllComplete(t);
      RunOfOneMore(s, Complete(w), rest);
      steps := [Complete(w)] + rest;
    }
  }

  function RunningOld(s: State): set<CrawlId> {
    set id | id in s.crawls && OldRunning(s, id)
  }

  /** Every old crawl finishes. */
  lemma {:induction false} AllFinish(s: State) returns (steps: seq<Step>)
    requires Marked(s) == {}
    ensures Feasible(s, steps) && NoDeletions(steps) && Quiet(Run(s, steps))
    ensures Run(s, steps).workers == s.workers
    decreases |RunningOld(s)|
  {
    steps := [];
    if RunningOld(s) == {} {
      forall id | id in s.crawls ensures !s.crawls[id].migrating && !OldRunning(s, id) {
        assert id !in Marked(s) && id !in RunningOld(s);
      }
    } else {
      var id :| id in RunningOld(s);
      var t := Apply(s, CrawlFinishes(id, 0));
      assert RunningOld(t) == RunningOld(s) - {id} && Marked(t) == {};
      var rest := AllFinish(t);
      RunOfOneMore(s, CrawlFinishes(id, 0), rest);
      steps := [CrawlFinishes(id, 0)] + rest;
    }
  }

  lemma {:induction false} AboveAll(ids: set<WorkerId>) returns (w: WorkerId)
    ensures forall v | v in ids :: v < w
    decreases ids
  {
    w := 0;
    if ids != {} {
      var v :| v in ids;
      var others := AboveAll(ids - {v});
      w := if v < others then others else v + 1;
      forall x | x in ids ensures x < w {
        assert x == v || x in ids - {v};
      }
    }
  }

  lemma NewWorkerReturns(s: State) returns (steps: seq<Step>, w: WorkerId)
    requires Quiet(s)
    ensures w !in s.workers && Feasible(s, steps) && NoDeletions(steps) && At(Run(s, steps), w, Returned)
  {
    w := AboveAll(s.workers.Keys);
    var t := Apply(s, StartWorker(w));
    assert Quiet(t) by {
      assert forall id | id in s.crawls :: OldRunning(t, id) ==> OldRunning(s, id);
    }
    var rest := LoneWorkerReturns(t, w);
    RunOfOneMore(s, StartWorker(w), rest);
    steps := [StartWorker(w)] + rest;
  }

  /** In any state of any run: unless a crawl is deleted, some worker can still return if and only if no
      marked crawl is without a worker. */
  lemma ReturnIsPossibleIffNothingIsStuck(start: State, past: seq<Step>)
    requires Init(start) && Feasible(start, past)
    ensures var s := Run(start, past); (exists steps, w :: ReturnsIn(s, steps, w)) <==> forall id :: !Stuck(s, id)
  {
    RunKeepsInv(start, past);
    SomeoneReturnsIff(Run(start, past));
  }

  lemma SomeoneReturnsIff(s: State)
    requires Inv(s)
    ensures (exists steps, w :: ReturnsIn(s, steps, w)) <==> forall id :: !Stuck(s, id)
  {
    if id :| Stuck(s, id) {
      forall steps, w ensures !ReturnsIn(s, steps, w) {
        if Feasible(s, steps) && NoDeletions(steps) && !At(s, w, Returned) {
          StuckMeansNoReturn(s, steps, id, w);
        }
      }
    } else {
      var a := AllComplete(s);
      var b := AllFinish(Run(s, a));
      RunOfSum(s, a, b);
      var c, w := NewWorkerReturns(Run(s, a + b));
      RunOfSum(s, a + b, c);
      assert ReturnsIn(s, a + b + c, w);
    }
  }

  // ------------------------------------------------------------------------------------------
  // The order of claims, and progress
  // ------------------------------------------------------------------------------------------

  /** Waiting to be claimed: finished, not at the target version, and not marked. */
  ghost predicate Waits(crawls: map<CrawlId, Crawl>, id: CrawlId) {
    id in crawls && crawls[id].finish.FinishedAt? && crawls[id].version != 2 && crawls[id].migrating == false
  }

  /** A claiming worker may claim a crawl if and only if it waits and none that waits has finished later. */
  lemma ClaimsTheNewest(s: State, w: WorkerId, id: CrawlId)
    requires w in s.workers && s.workers[w].Claiming?
    ensures Enabled(s, Claim(w, id)) <==>
            && Waits(s.crawls, id)
            && forall o | Waits(s.crawls, o) :: s.crawls[id].finish.time >= s.crawls[o].finish.time
    ensures Enabled(s, NothingToClaim(w)) <==> forall o :: !Waits(s.crawls, o)
  {
    forall o ensures Waits(s.crawls, o) <==> Claimable(s, o) {
    }
  }

  ghost predicate NoneFinishes(steps: seq<Step>) {
    forall i | 0 <= i < |steps| :: !steps[i].CrawlFinishes?
  }

  /** These crawls waited, and finished one no later than the one before. */
  ghost predicate NewestFirst(crawls: map<CrawlId, Crawl>, claims: seq<CrawlId>) {
    && (forall i | 0 <= i < |claims| :: Waits(crawls, claims[i]))
    && (forall i, j | 0 <= i < j < |claims| :: TimeOf(crawls, claims[i]) >= TimeOf(crawls, claims[j]))
  }

  /** When a crawl finished, if it has. */
  ghost function TimeOf(crawls: map<CrawlId, Crawl>, id: CrawlId): int {
    if id in crawls && crawls[id].finish.FinishedAt? then crawls[id].finish.time else 0
  }

  /** One step makes nobody wait, unless a crawl finishes. */
  lemma StepMakesNoneWait(s: State, step: Step, id: CrawlId)
    requires Enabled(s, step) && !step.CrawlFinishes? && s.crawls.Keys <= s.everUsed
    requires Waits(Apply(s, step).crawls, id)
    ensures Waits(s.crawls, id) && TimeOf(Apply(s, step).crawls, id) == TimeOf(s.crawls, id)
  {
  }

  lemma StepClaims(s: State, step: Step)
    requires Enabled(s, step)
    ensures Apply(s, step).claims == if step.Claim? then s.claims + [step.id] else s.claims
    ensures s.crawls.Keys <= s.everUsed ==> Apply(s, step).crawls.Keys <= Apply(s, step).everUsed
  {
  }

  /** Whatever workers do, as long as no crawl finishes, crawls are claimed in the order in which they finished, the
      newest first. */
  lemma {:induction false} ClaimsGoNewestFirst(s: State, steps: seq<Step>) returns (added: seq<CrawlId>)
    requires s.crawls.Keys <= s.everUsed && Feasible(s, steps) && NoneFinishes(steps)
    ensures Run(s, steps).claims == s.claims + added && NewestFirst(s.crawls, added)
    decreases |steps|
  {
    hide Apply, Enabled, Waits, TimeOf;
    if steps == [] {
      added := [];
    } else {
      var step, t := steps[0], Apply(s, steps[0]);
      StepClaims(s, step);
      assert NoneFinishes(steps[1..]) && !step.CrawlFinishes? by {
        assert forall i | 0 <= i < |steps| - 1 :: steps[1..][i] == steps[i + 1];
      }
      var rest := ClaimsGoNewestFirst(t, steps[1..]);
      forall i | 0 <= i < |rest|
        ensures Waits(s.crawls, rest[i]) && TimeOf(t.crawls, rest[i]) == TimeOf(s.crawls, rest[i])
      {
        StepMakesNoneWait(s, step, rest[i]);
      }
      if step.Claim? {
        ClaimedIsNewest(s, step.w, step.id, rest);
        added := [step.id] + rest;
      } else {
        added := rest;
      }
    }
  }

  lemma ClaimedIsNewest(s: State, w: WorkerId, id: CrawlId, rest: seq<CrawlId>)
    requires Enabled(s, Claim(w, id)) && forall i | 0 <= i < |rest| :: Waits(s.crawls, rest[i])
    ensures Waits(s.crawls, id)
    ensures forall i | 0 <= i < |rest| :: TimeOf(s.crawls, id) >= TimeOf(s.crawls, rest[i])
  {
    ClaimsTheNewest(s, w, id);
  }

  /** No worker is ever stuck: one that has neither returned nor failed has a database operation to do next. */
  lemma NoWorkerIsStuck(s: State, w: WorkerId) returns (step: Step)
    requires w in s.workers && s.workers[w] != Returned && s.workers[w] != Failed
    ensures Enabled(s, step) && !step.CrawlAdded? && !step.CrawlFinishes? && !step.CrawlDeleted? && step.w == w
    ensures !step.StartWorker? && !step.Crash?
  {
    match s.workers[w]
    case Claiming(_) =>
      var claimable := set id | id in s.crawls && Claimable(s, id);
      if claimable != {} {
        var id := NewestExists(s, claimable);
        step := Claim(w, id);
      } else {
        assert forall id | id in s.crawls && Claimable(s, id) :: id in claimable;
        step := NothingToClaim(w);
      }
    case Migrating(_, _) => step := Complete(w);
    case AwaitFinish =>
      if id :| id in s.crawls && OldRunning(s, id) {
        step := SeesRunning(w, id, true);
      } else {
        step := NoneRunning(w);
      }
    case AwaitMigrated =>
      if id :| id in s.crawls && s.crawls[id].migrating {
        step := SeesMigrating(w, id, true);
      } else {
        step := NoneMigrating(w);
      }
  }

  /** A waiting worker that finds what it waits for goes around or fails, and nothing else changes. */
  lemma WaitingWorkers(s: State, w: WorkerId, id: CrawlId, raises: bool)
    requires w in s.workers && id in s.crawls
    ensures Enabled(s, SeesRunning(w, id, raises)) <==>
      s.workers[w] == AwaitFinish && s.crawls[id].version != 2 && s.crawls[id].finish == Running
    ensures Enabled(s, SeesMigrating(w, id, raises)) <==> s.workers[w] == AwaitMigrated && s.crawls[id].migrating
    ensures Enabled(s, SeesRunning(w, id, raises)) ==>
      Apply(s, SeesRunning(w, id, raises)) == if raises then s.(workers := s.workers[w := Failed]) else s
    ensures Enabled(s, SeesMigrating(w, id, raises)) ==>
      Apply(s, SeesMigrating(w, id, raises)) == if raises then s.(workers := s.workers[w := Failed]) else s
  {
  }

  /** At any time a worker may start, one that has not returned may die, a crawl may be added under a fresh id, one
      that is running may finish, and any may be deleted. */
  lemma WhatMayHappen(s: State, w: WorkerId, id: CrawlId, finish: Finish, time: int)
    ensures w !in s.workers ==> Enabled(s, StartWorker(w))
    ensures w in s.workers && !s.workers[w].Returned? ==> Enabled(s, Crash(w))
    ensures id !in s.everUsed ==> Enabled(s, CrawlAdded(id, finish))
    ensures id in s.crawls && s.crawls[id].finish.Running? ==> Enabled(s, CrawlFinishes(id, time))
    ensures id in s.crawls ==> Enabled(s, CrawlDeleted(id))
  {
  }

  /** What a step does to a crawl: a claim marks it, completing it gives it the target version and takes the mark off,
      a new one has both from the start, and no other step but its end and its deletion touches it. */
  lemma WhatHappensToACrawl(s: State, step: Step, id: CrawlId)
    requires Enabled(s, step)
    ensures var crawls := Apply(s, step).crawls;
            match step
            case Claim(_, o) =>
              if o == id then id in crawls && crawls[id] == Crawl(s.crawls[id].version, true, s.crawls[id].finish)
              else SameCrawl(s.crawls, crawls, id)
            case Complete(w) =>
              if s.workers[w].id == id && id in s.crawls then
                id in crawls && crawls[id] == Crawl(2, false, s.crawls[id].finish)
              else SameCrawl(s.crawls, crawls, id)
            case CrawlAdded(o, finish) =>
              if o == id then id in crawls && crawls[id] == Crawl(2, false, finish)
              else SameCrawl(s.crawls, crawls, id)
            case CrawlFinishes(o, time) =>
              if o == id then
                id in crawls && crawls[id] == Crawl(s.crawls[id].version, s.crawls[id].migrating, FinishedAt(time))
              else SameCrawl(s.crawls, crawls, id)
            case CrawlDeleted(o) => if o == id then id !in crawls else SameCrawl(s.crawls, crawls, id)
            case _ => crawls == s.crawls
  {
  }

  predicate SameCrawl(crawls: map<CrawlId, Crawl>, crawls': map<CrawlId, Crawl>, id: CrawlId) {
    if id in crawls then id in crawls' && crawls'[id] == crawls[id] else id !in crawls'
  }
}
