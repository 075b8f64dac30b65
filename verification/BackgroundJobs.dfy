/** Background jobs: creation, the callback that a job has finished, and retries. */
module BackgroundJobs {
  import opened Options

  type OrgId = int
  type Time = int

  datatype JobId = JobId(id: int)

  datatype Kind =
    | CreateReplica | DeleteReplica
    | DeleteOrg | RecalculateStats | ReAddPages
    | OptimizePages | UpdateCollStats | PostprocessUpload
    | CleanupSeedFiles | RetryStuckUploads

  datatype Attempt = Attempt(started: Time, finished: Option<Time>)

  datatype Job = Job(
    kind: Kind, oid: Option<OrgId>,
    started: Time, finished: Option<Time>, success: Option<bool>,
    previous: Option<seq<Attempt>>)

  /** launched says whether the cluster could start the job; fileFound and fileThere, whether the replicated
      file still exists; attempt, which attempt reports. */
  datatype Event =
    | Callback(kind: Kind, ok: bool, at: Time, oid: Option<OrgId>, fileThere: bool, attempt: nat)
    | Retry(org: Option<OrgId>, fileFound: bool, launched: bool, now: Time)
    | FreshStart(now: Time)

  datatype Answer =
    | Accepted(done: bool)
    | JobNotFound | NotFinished | AlreadySucceeded | FileNotFound
    | CronRetryNotSupported | InvalidJobType | DuplicateKey

  // ------------------------------------------------------------------------------------------
  // One record
  // ------------------------------------------------------------------------------------------

  function NewJob(kind: Kind, oid: Option<OrgId>, now: Time): Job {
    Job(kind, oid, now, None, None, None)
  }

  predicate IsCron(kind: Kind) {
    kind == CleanupSeedFiles || kind == RetryStuckUploads
  }

  predicate IsReplica(kind: Kind) {
    kind == CreateReplica || kind == DeleteReplica
  }

  /** The kinds whose record is looked up by id and organization when they are started again. */
  predicate LooksUpByOrg(kind: Kind) {
    IsReplica(kind) || kind == DeleteOrg || kind == RecalculateStats || kind == ReAddPages
  }

  function Restarted(j: Job, now: Time): Job {
    var attempt := Attempt(j.started, j.finished);
    var previous := if j.previous.Some? && j.previous.value != [] then j.previous.value + [attempt] else [attempt];
    j.(started := now, finished := None, success := None, previous := Some(previous))
  }

  /** Whether a retry that passes the checks reaches the record and starts a new attempt. */
  predicate StartsAgain(j: Job, org: Option<OrgId>, fileFound: bool, launched: bool) {
    && launched
    && if org.None? then j.kind == OptimizePages
       else if LooksUpByOrg(j.kind) then j.oid == org && (IsReplica(j.kind) ==> fileFound)
       else j.kind == UpdateCollStats || j.kind == PostprocessUpload
  }

  /** A callback that changes the record: it is open, and of that kind and organization. */
  predicate Counts(j: Job, e: Event) {
    e.Callback? && j.finished.None? && j.kind == e.kind && j.oid == e.oid
  }

  /** A callback that enters the replica into the file's record, which a deleted file no longer has. */
  predicate EntersReplica(j: Job, e: Event) {
    e.Callback? && e.ok && e.fileThere && j.finished.None? && j.kind == e.kind == CreateReplica
  }

  function Step(j: Job, e: Event): Job {
    match e
    case Callback(_, ok, at, _, _, _) => if Counts(j, e) then j.(finished := Some(at), success := Some(ok)) else j
    case Retry(org, fileFound, launched, now) =>
      if j.finished.Some? && j.success != Some(true) && StartsAgain(j, org, fileFound, launched)
      then Restarted(j, now)
      else j
    case FreshStart(now) => NewJob(j.kind, j.oid, now)
  }

  function RetryAnswer(j: Job, org: Option<OrgId>, fileFound: bool): Answer {
    if j.finished.None? then NotFinished
    else if j.success == Some(true) then AlreadySucceeded
    else if org.None? then Accepted(j.kind == OptimizePages)
    else if IsReplica(j.kind) && !fileFound then FileNotFound
    else if j.kind == CleanupSeedFiles then CronRetryNotSupported
    else Accepted(j.kind != OptimizePages && j.kind != RetryStuckUploads)
  }

  // ------------------------------------------------------------------------------------------
  // The collection of records
  // ------------------------------------------------------------------------------------------

  class JobStore {
    var jobs: map<JobId, Job>
    /** The jobs whose replica has been entered into its file's record. */
    var replicated: set<JobId>

    ghost predicate Valid()
      reads this
    {
      && (forall id | id in jobs :: SettledTogether(jobs[id]))
      && replicated <= jobs.Keys
    }

    constructor ()
      ensures Valid() && jobs == map[] && replicated == {}
    {
      jobs, replicated := map[], {};
    }

    /** Starts a job under a new id, or under an id derived from what it works on. */
    method Create(id: JobId, kind: Kind, oid: Option<OrgId>, launched: bool, now: Time)
      requires Valid()
      modifies `jobs
      ensures Valid()
      ensures jobs == if launched then old(jobs)[id := NewJob(kind, oid, now)] else old(jobs)
    {
      if launched {
        jobs := jobs[id := NewJob(kind, oid, now)];
      }
    }

    /** The cluster is asked first; when it fails, or when the record is not found, nothing changes and the
        exception goes no further. */
    method StartAgain(id: JobId, org: Option<OrgId>, launched: bool, now: Time)
      requires Valid()
      modifies `jobs
      ensures Valid()
      ensures jobs == if launched && id in old(jobs) && (org.None? || old(jobs)[id].oid == org)
                      then old(jobs)[id := Restarted(old(jobs)[id], now)] else old(jobs)
    {
      if !launched {
        return;
      }
      if id !in jobs || (org.Some? && jobs[id].oid != org) {
        return;
      }
      jobs := jobs[id := Restarted(jobs[id], now)];
    }

    method RetryJob(id: JobId, org: Option<OrgId>, fileFound: bool, launched: bool, now: Time) returns (answer: Answer)
      requires Valid()
      modifies `jobs
      ensures Valid()
      ensures answer == if id in old(jobs) then RetryAnswer(old(jobs)[id], org, fileFound) else JobNotFound
      ensures jobs == if id in old(jobs) then old(jobs)[id := Step(old(jobs)[id], Retry(org, fileFound, launched, now))]
                      else old(jobs)
    {
      if id !in jobs {
        return JobNotFound;
      }
      var job := jobs[id];
      assert jobs[id := job] == jobs;
      if job.finished.None? {
        return NotFinished;
      }
      if job.success == Some(true) {
        return AlreadySucceeded;
      }
      if org.Some? {
        answer := RetryOrgJob(id, job, org, fileFound, launched, now);
        return;
      }
      if job.kind == OptimizePages {
        StartAgain(id, None, launched, now);
        return Accepted(true);
      }
      return Accepted(false);
    }

    method RetryOrgJob(id: JobId, job: Job, org: Option<OrgId>, fileFound: bool, launched: bool, now: Time)
      returns (answer: Answer)
      requires Valid() && org.Some?
      requires id in jobs && jobs[id] == job && job.finished.Some? && job.success != Some(true)
      modifies `jobs
      ensures Valid()
      ensures answer == RetryAnswer(job, org, fileFound)
      ensures jobs == old(jobs)[id := Step(job, Retry(org, fileFound, launched, now))]
    {
      assert jobs[id := job] == jobs;
      match job.kind
      case CreateReplica | DeleteReplica =>
        if !fileFound {
          return FileNotFound;
        }
        StartAgain(id, org, launched, now);
        return Accepted(true);
      case DeleteOrg | RecalculateStats | ReAddPages =>
        StartAgain(id, org, launched, now);
        return Accepted(true);
      case UpdateCollStats | PostprocessUpload =>
        StartAgain(id, None, launched, now);
        return Accepted(true);
      case CleanupSeedFiles =>
        return CronRetryNotSupported;
      case OptimizePages | RetryStuckUploads =>
        return Accepted(false);
    }

    /** newId is the random id of the record made for a periodic job, which has none until it finishes. */
    method JobFinished(id: JobId, kind: Kind, ok: bool, at: Time, started: Option<Time>, oid: Option<OrgId>,
                       newId: JobId, fileThere: bool, ghost attempt: nat)
      returns (answer: Answer)
      requires Valid()
      modifies this
      ensures Valid()
      ensures kind.CleanupSeedFiles? || kind.RetryStuckUploads? ==>
        && replicated == old(replicated)
        && answer == (if newId in old(jobs) then DuplicateKey else Accepted(true))
        && var begun := if started.Some? then started.value else at;
        && jobs == if newId in old(jobs) then old(jobs)
                   else old(jobs)[newId := Job(kind, None, begun, Some(at), Some(ok), None)]
      ensures !kind.CleanupSeedFiles? && !kind.RetryStuckUploads? && id !in old(jobs) ==>
        answer == JobNotFound && jobs == old(jobs) && replicated == old(replicated)
      ensures !kind.CleanupSeedFiles? && !kind.RetryStuckUploads? && id in old(jobs) ==>
        && var job, e := old(jobs)[id], Callback(kind, ok, at, oid, fileThere, attempt);
        && jobs == old(jobs)[id := Step(job, e)]
        && answer == (if job.finished.None? && job.kind != kind then InvalidJobType else Accepted(true))
        && replicated == old(replicated) + if EntersReplica(job, e) then {id} else {}
    {
      if IsCron(kind) {
        if newId in jobs {
          return DuplicateKey;
        }
        var begun := if started.Some? then started.value else at;
        jobs := jobs[newId := Job(kind, None, begun, Some(at), Some(ok), None)];
        return Accepted(true);
      }
      if id !in jobs {
        return JobNotFound;
      }
      var job := jobs[id];
      assert jobs[id := job] == jobs;
      if job.finished.Some? {
        return Accepted(true);
      }
      if job.kind != kind {
        return InvalidJobType;
      }
      if ok && kind == CreateReplica {
        if fileThere {
          replicated := replicated + {id};
        }
      }
      if job.oid == oid {
        jobs := jobs[id := job.(finished := Some(at), success := Some(ok))];
      }
      return Accepted(true);
    }
  }

  // ------------------------------------------------------------------------------------------
  // What one event comes to, kind by kind
  // ------------------------------------------------------------------------------------------

  /** The attempt that was the present one is filed with the previous ones, and a new one is open. */
  ghost predicate HasNewAttempt(j: Job, t: Job, now: Time) {
    && t.kind == j.kind && t.oid == j.oid && t.started == now && t.finished == None && t.success == None
    && t.previous.Some?
    && t.previous.value == (match j.previous case Some(earlier) => earlier case None => []) +
                           [Attempt(j.started, j.finished)]
  }

  /** A retry starts a new attempt of a job that has failed, if its kind can be retried from where it is asked for, if
      the cluster starts it, and if it finds the record; replica jobs need their file as well. */
  lemma WhatARetryDoes(j: Job, org: Option<OrgId>, fileFound: bool, launched: bool, now: Time)
    ensures var answer, t := RetryAnswer(j, org, fileFound), Step(j, Retry(org, fileFound, launched, now));
            match (j.finished, j.success)
            case (None, _) => answer == NotFinished && t == j
            case (Some(_), Some(true)) => answer == AlreadySucceeded && t == j
            case _ =>
              match j.kind
              case CreateReplica | DeleteReplica =>
                && answer == (if org == None then Accepted(false) else if fileFound then Accepted(true)
                              else FileNotFound)
                && if org != None && fileFound && launched && j.oid == org then HasNewAttempt(j, t, now) else t == j
              case DeleteOrg | RecalculateStats | ReAddPages =>
                && answer == Accepted(org != None)
                && if org != None && launched && j.oid == org then HasNewAttempt(j, t, now) else t == j
              case UpdateCollStats | PostprocessUpload =>
                && answer == Accepted(org != None)
                && if org != None && launched then HasNewAttempt(j, t, now) else t == j
              case OptimizePages =>
                && answer == Accepted(org == None)
                && if org == None && launched then HasNewAttempt(j, t, now) else t == j
              case CleanupSeedFiles =>
                answer == (if org == None then Accepted(false) else CronRetryNotSupported) && t == j
              case RetryStuckUploads =>
                answer == Accepted(false) && t == j
  {
  }

  /** A callback closes an open record of its kind and organization, with its result, and leaves any other alone; it
      enters a replica when a job that creates one reports success for an open record while the file is there. */
  lemma WhatACallbackDoes(j: Job, kind: Kind, ok: bool, at: Time, oid: Option<OrgId>, fileThere: bool, attempt: nat)
    ensures var e := Callback(kind, ok, at, oid, fileThere, attempt);
            && Step(j, e) == (if j.finished == None && kind == j.kind && oid == j.oid
                              then Job(j.kind, j.oid, j.started, Some(at), Some(ok), j.previous) else j)
            && (EntersReplica(j, e) <==>
                  j.finished == None && j.kind.CreateReplica? && kind.CreateReplica? && ok && fileThere)
  {
  }

  // ------------------------------------------------------------------------------------------
  // Whole runs of one record
  // ------------------------------------------------------------------------------------------

  predicate SettledTogether(j: Job) {
    j.finished.Some? <==> j.success.Some?
  }

  function Run(j: Job, events: seq<Event>): Job
    decreases |events|
  {
    if events == [] then j else Run(Step(j, events[0]), events[1..])
  }

  function Earlier(j: Job): seq<Attempt> {
    if j.previous.Some? then j.previous.value else []
  }

  /** All attempts of a job, the present one last. */
  function Attempts(j: Job): seq<Attempt> {
    Earlier(j) + [Attempt(j.started, j.finished)]
  }

  /** What really happened to a record. */
  datatype Effect = Ended(at: Time, ok: bool, reporter: nat, fileThere: bool) | Began(now: Time)

  function EffectOf(e: Event): Effect {
    match e
    case Callback(_, ok, at, _, fileThere, attempt) => Ended(at, ok, attempt, fileThere)
    case Retry(_, _, _, now) => Began(now)
    case FreshStart(now) => Began(now)
  }

  function Effects(j: Job, events: seq<Event>): seq<Effect>
    decreases |events|
  {
    if events == [] then []
    else
      var next := Step(j, events[0]);
      if next == j then Effects(next, events[1..])
      else [EffectOf(events[0])] + Effects(next, events[1..])
  }

  /** The attempts that a sequence of endings and beginnings stands for. */
  function Told(started: Time, finished: Option<Time>, effects: seq<Effect>): seq<Attempt>
    decreases |effects|
  {
    if effects == [] then [Attempt(started, finished)]
    else match effects[0]
         case Ended(at, _, _, _) => Told(started, Some(at), effects[1..])
         case Began(now) => [Attempt(started, finished)] + Told(now, None, effects[1..])
  }

  /** An attempt ends at most once, only an attempt that ended in failure is followed by another, and
      nothing follows success. result is that of the present attempt. */
  predicate Alternates(result: Option<bool>, effects: seq<Effect>)
    decreases |effects|
  {
    effects == [] ||
    match effects[0]
    case Ended(_, ok, _, _) => result.None? && Alternates(Some(ok), effects[1..])
    case Began(_) => result == Some(false) && Alternates(None, effects[1..])
  }

  function ResultAfter(result: Option<bool>, effects: seq<Effect>): Option<bool>
    decreases |effects|
  {
    if effects == [] then result
    else match effects[0]
         case Ended(_, ok, _, _) => ResultAfter(Some(ok), effects[1..])
         case Began(_) => ResultAfter(None, effects[1..])
  }

  /** No fresh start changes the record. */
  predicate ForgetsNothing(j: Job, events: seq<Event>)
    decreases |events|
  {
    events == [] ||
    ((events[0].FreshStart? ==> Step(j, events[0]) == j) && ForgetsNothing(Step(j, events[0]), events[1..]))
  }

  lemma {:induction false} SettledTogetherAlways(j: Job, events: seq<Event>)
    requires SettledTogether(j)
    ensures SettledTogether(Run(j, events))
    decreases |events|
  {
    if events != [] {
      SettledTogetherAlways(Step(j, events[0]), events[1..]);
    }
  }

  lemma StepIsAnEffect(j: Job, e: Event)
    requires SettledTogether(j) && !e.FreshStart? && Step(j, e) != j
    ensures SettledTogether(Step(j, e))
    ensures e.Callback? ==> j.success.None? && Step(j, e).success == Some(e.ok)
    ensures e.Callback? ==> Step(j, e) == j.(finished := Some(e.at), success := Some(e.ok))
    ensures e.Retry? ==> j.success == Some(false) && Step(j, e).success.None?
    ensures e.Retry? ==> Step(j, e).started == e.now && Step(j, e).finished.None?
    ensures e.Retry? ==> Step(j, e).previous == Some(Attempts(j))
  {
    if e.Retry? {
      assert j.success == Some(if j.success.value then true else false);
      assert j.previous.None? || j.previous.value == [] ==> Attempts(j) == [Attempt(j.started, j.finished)];
    }
  }

  /** Whatever arrives in whatever order: endings and beginnings alternate, and the record tells exactly
      the attempts there were, in order, and the result of the last. */
  lemma {:induction false} RecordTellsTheAttempts(j: Job, events: seq<Event>)
    requires SettledTogether(j) && ForgetsNothing(j, events)
    ensures var effects := Effects(j, events);
            && Alternates(j.success, effects)
            && Attempts(Run(j, events)) == Earlier(j) + Told(j.started, j.finished, effects)
            && Run(j, events).success == ResultAfter(j.success, effects)
    decreases |events|
  {
    if events != [] {
      var next, rest := Step(j, events[0]), events[1..];
      if next == j {
        RecordTellsTheAttempts(j, rest);
      } else {
        StepIsAnEffect(j, events[0]);
        RecordTellsTheAttempts(next, rest);
        var effects := Effects(j, events);
        assert effects[1..] == Effects(next, rest);
      }
    }
  }

  /** A job as it was created: its attempts are those its endings and beginnings tell, from the first. */
  lemma NewJobTellsAll(kind: Kind, oid: Option<OrgId>, now: Time, events: seq<Event>)
    requires ForgetsNothing(NewJob(kind, oid, now), events)
    ensures var effects := Effects(NewJob(kind, oid, now), events);
            && Alternates(None, effects)
            && Attempts(Run(NewJob(kind, oid, now), events)) == Told(now, None, effects)
  {
    RecordTellsTheAttempts(NewJob(kind, oid, now), events);
  }

  lemma RunInTwo(j: Job, events: seq<Event>, more: seq<Event>)
    ensures Run(j, events + more) == Run(Run(j, events), more)
    decreases |events|
  {
    if events == [] {
      assert events + more == more;
    } else {
      assert (events + more)[1..] == events[1..] + more;
      RunInTwo(Step(j, events[0]), events[1..], more);
    }
  }

  /** later goes on where earlier stopped: nothing that ended has changed, and no attempt is missing. */
  predicate Continues(earlier: seq<Attempt>, later: seq<Attempt>) {
    && |earlier| <= |later|
    && forall i | 0 <= i < |earlier| ::
         && later[i].started == earlier[i].started
         && (earlier[i].finished.Some? ==> later[i] == earlier[i])
  }

  /** Nothing that has ended changes any more, and a job that succeeded is left alone. */
  lemma {:induction false} FinishedAttemptsStay(j: Job, events: seq<Event>)
    requires SettledTogether(j) && ForgetsNothing(j, events)
    ensures Continues(Attempts(j), Attempts(Run(j, events)))
    ensures j.success == Some(true) ==> Run(j, events) == j
    decreases |events|
  {
    if events != [] {
      var next, rest := Step(j, events[0]), events[1..];
      if next != j {
        StepIsAnEffect(j, events[0]);
      }
      FinishedAttemptsStay(next, rest);
    }
  }

  // ------------------------------------------------------------------------------------------
  // Replicas on record
  // ------------------------------------------------------------------------------------------

  /** Some callback of the run entered the replica into the file's record. */
  predicate ReplicaEntered(j: Job, events: seq<Event>)
    decreases |events|
  {
    events != [] && (EntersReplica(j, events[0]) || ReplicaEntered(Step(j, events[0]), events[1..]))
  }

  predicate OwnOrg(j: Job, events: seq<Event>) {
    forall i | 0 <= i < |events| :: events[i].Callback? ==> events[i].oid == j.oid
  }

  predicate FoundFile(effects: seq<Effect>) {
    exists i | 0 <= i < |effects| :: effects[i].Ended? && effects[i].ok && effects[i].fileThere
  }

  lemma FoundFileInOneMore(first: Effect, rest: seq<Effect>)
    ensures FoundFile([first] + rest) <==> (first.Ended? && first.ok && first.fileThere) || FoundFile(rest)
  {
    var all := [first] + rest;
    assert all[0] == first && forall i | 0 <= i < |rest| :: all[i + 1] == rest[i];
  }

  lemma {:induction false} EnteredIffFound(j: Job, events: seq<Event>)
    requires j.kind == CreateReplica && OwnOrg(j, events)
    ensures ReplicaEntered(j, events) <==> FoundFile(Effects(j, events))
    decreases |events|
  {
    if events != [] {
      var next, rest := Step(j, events[0]), events[1..];
      assert OwnOrg(next, rest) by {
        assert forall i | 0 <= i < |rest| :: rest[i] == events[i + 1];
      }
      EnteredIffFound(next, rest);
      assert EntersReplica(j, events[0]) <==> Counts(j, events[0]) && events[0].ok && events[0].fileThere;
      if next != j {
        FoundFileInOneMore(EffectOf(events[0]), Effects(next, rest));
      }
    }
  }

  lemma {:induction false} SuccessIsLast(result: Option<bool>, effects: seq<Effect>)
    requires Alternates(result, effects) && result != Some(true) && ResultAfter(result, effects) == Some(true)
    ensures effects != [] && effects[|effects| - 1].Ended? && effects[|effects| - 1].ok
    ensures forall i | 0 <= i < |effects| - 1 :: effects[i].Ended? ==> !effects[i].ok
    decreases |effects|
  {
    assert effects != [];
    var rest := effects[1..];
    if effects[0].Ended? && effects[0].ok {
      assert rest == [] by {
        assert rest != [] ==> !Alternates(Some(true), rest);
      }
    } else {
      SuccessIsLast(if effects[0].Ended? then Some(false) else None, rest);
    }
  }

  /** A replica job that has come to success has its replica on record if and only if the file was still
      there when that success was reported. */
  lemma SucceededReplicaIsOnRecordIff(j: Job, events: seq<Event>)
    requires SettledTogether(j) && j.kind == CreateReplica && j.success != Some(true)
    requires OwnOrg(j, events) && ForgetsNothing(j, events) && Run(j, events).success == Some(true)
    ensures var effects := Effects(j, events);
            && effects != [] && effects[|effects| - 1].Ended? && effects[|effects| - 1].ok
            && (ReplicaEntered(j, events) <==> effects[|effects| - 1].fileThere)
  {
    RecordTellsTheAttempts(j, events);
    SuccessIsLast(j.success, Effects(j, events));
    EnteredIffFound(j, events);
  }

  // ------------------------------------------------------------------------------------------
  // Where the record falls short
  // ------------------------------------------------------------------------------------------

  /** Collection and upload jobs have ids of their own making, so that a fresh start finds the old record
      and overwrites it: of its attempts none is left. */
  lemma FreshStartForgets(j: Job, events: seq<Event>, now: Time, more: seq<Event>)
    requires ForgetsNothing(NewJob(j.kind, j.oid, now), more)
    ensures Attempts(Run(j, events + [FreshStart(now)] + more))
            == Told(now, None, Effects(NewJob(j.kind, j.oid, now), more))
  {
    RunInTwo(j, events + [FreshStart(now)], more);
    RunInTwo(j, events, [FreshStart(now)]);
    var before := Run(j, events);
    RunOfOneMore(before, FreshStart(now), []);
    assert [FreshStart(now)] + [] == [FreshStart(now)];
    KindStays(j, events);
    NewJobTellsAll(j.kind, j.oid, now, more);
  }

  lemma {:induction false} FreshStartsShorten(j: Job, events: seq<Event>)
    requires SettledTogether(j)
    ensures var told := Told(j.started, j.finished, Effects(j, events));
            && |Attempts(Run(j, events))| <= |Earlier(j)| + |told|
            && (!ForgetsNothing(j, events) ==> |Attempts(Run(j, events))| < |Earlier(j)| + |told|)
    decreases |events|
  {
    if events != [] {
      var next, rest := Step(j, events[0]), events[1..];
      FreshStartsShorten(next, rest);
      if next != j {
        if !events[0].FreshStart? {
          StepIsAnEffect(j, events[0]);
        }
        assert Effects(j, events)[1..] == Effects(next, rest);
      }
    }
  }

  /** The record lists every attempt of a run, in order, if and only if no fresh start changed it. */
  lemma AllAttemptsListedIff(j: Job, events: seq<Event>)
    requires SettledTogether(j)
    ensures Attempts(Run(j, events)) == Earlier(j) + Told(j.started, j.finished, Effects(j, events))
            <==> ForgetsNothing(j, events)
  {
    FreshStartsShorten(j, events);
    if ForgetsNothing(j, events) {
      RecordTellsTheAttempts(j, events);
    }
  }

  lemma {:induction false} KindStays(j: Job, events: seq<Event>)
    ensures Run(j, events).kind == j.kind && Run(j, events).oid == j.oid
    decreases |events|
  {
    if events != [] {
      KindStays(Step(j, events[0]), events[1..]);
    }
  }

  /** Each ending was reported by the attempt that it ends; k is the number of the present attempt. */
  predicate OwnReports(k: nat, effects: seq<Effect>)
    decreases |effects|
  {
    effects == [] ||
    match effects[0]
    case Ended(_, _, reporter, _) => reporter == k && OwnReports(k, effects[1..])
    case Began(_) => OwnReports(k + 1, effects[1..])
  }

  /** Every callback that finds the record open is from the attempt the record is about. Callbacks that
      come later and find the record closed do no harm. */
  predicate InTime(j: Job, k: nat, events: seq<Event>)
    decreases |events|
  {
    events == [] ||
    var began := !events[0].Callback? && Step(j, events[0]) != j;
    && (Counts(j, events[0]) ==> events[0].attempt == k)
    && InTime(Step(j, events[0]), if began then k + 1 else k, events[1..])
  }

  /** Each ending was reported by the attempt that it ends if and only if every callback that found the
      record open came from the present attempt. */
  lemma {:induction false} OwnReportsIffInTime(j: Job, k: nat, events: seq<Event>)
    ensures OwnReports(k, Effects(j, events)) <==> InTime(j, k, events)
    decreases |events|
  {
    if events != [] {
      var next, rest := Step(j, events[0]), events[1..];
      assert events[0].Callback? ==> (next != j <==> Counts(j, events[0]));
      if next == j {
        OwnReportsIffInTime(j, k, rest);
      } else {
        OwnReportsIffInTime(next, if events[0].Callback? then k else k + 1, rest);
        assert Effects(j, events)[1..] == Effects(next, rest);
      }
    }
  }

  lemma RunOfOneMore(j: Job, e: Event, rest: seq<Event>)
    ensures Run(j, [e] + rest) == Run(Step(j, e), rest)
  {
    assert ([e] + rest)[1..] == rest;
  }

  /** A callback that is repeated after the retry ends the new attempt before its time, and the new
      attempt's own success is then ignored. */
  lemma LateCallbackEndsTheNextAttempt(oid: Option<OrgId>)
    requires oid.Some?
    ensures var failure := Callback(CreateReplica, false, 5, oid, true, 0);
            var success := Callback(CreateReplica, true, 20, oid, true, 1);
            var events := [failure, Retry(oid, true, true, 10), failure, success];
            var j := Run(NewJob(CreateReplica, oid, 0), events);
            && j.success == Some(false)
            && Attempts(j) == [Attempt(0, Some(5)), Attempt(10, Some(5))]
  {
    var failure := Callback(CreateReplica, false, 5, oid, true, 0);
    var success := Callback(CreateReplica, true, 20, oid, true, 1);
    var again := Retry(oid, true, true, 10);
    var j0 := NewJob(CreateReplica, oid, 0);
    RunOfOneMore(j0, failure, [again, failure, success]);
    var j1 := Step(j0, failure);
    RunOfOneMore(j1, again, [failure, success]);
    var j2 := Step(j1, again);
    RunOfOneMore(j2, failure, [success]);
    var j3 := Step(j2, failure);
    RunOfOneMore(j3, success, []);
    assert [failure, again, failure, success] == [failure] + [again, failure, success];
    assert [again, failure, success] == [again] + [failure, success];
    assert [failure, success] == [failure] + [success] && [success] == [success] + [];
    assert Step(j3, success) == j3 && Attempts(j2) == [Attempt(0, Some(5)), Attempt(10, None)];
  }

  /** A retry says yes without starting anything exactly when the cluster refused or the record belongs to
      another organization. */
  lemma YesWithoutARestartIff(j: Job, org: Option<OrgId>, fileFound: bool, launched: bool, now: Time)
    requires SettledTogether(j) && RetryAnswer(j, org, fileFound) == Accepted(true)
    ensures Step(j, Retry(org, fileFound, launched, now)) == j <==>
      !launched || (org.Some? && LooksUpByOrg(j.kind) && j.oid != org)
  {
    if Step(j, Retry(org, fileFound, launched, now)) != j {
      StepIsAnEffect(j, Retry(org, fileFound, launched, now));
    }
  }
}
