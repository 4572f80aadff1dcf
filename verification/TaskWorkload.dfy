/**
  The task workload reconciler: it creates the job of a workload and copies the job's progress
  into the workload's conditions. Reconciles interleave with the job's progress and its deletion,
  and the write that saves the conditions may be lost.
 */
module TaskWorkload {
  import opened Common

  const WORKLOAD_CONTAINER := "workload"

  datatype ConditionType = Initialized | Started | Succeeded | Failed | Canceled

  datatype Condition = Condition(ctype: ConditionType, isTrue: bool, time: int, reason: string, exitCode: int)

  type Conditions = seq<Condition>

  datatype JobCondition = JobCondition(failed: bool, time: int)
  datatype JobStatus = JobStatus(startTime: Option<int>, succeeded: int, completionTime: Option<int>, failed: int,
    conditions: seq<JobCondition>)
  datatype Job = Job(uid: nat, status: JobStatus)

  datatype Terminated = Terminated(reason: string, exitCode: int)
  datatype Container = Container(name: string, terminated: Option<Terminated>)
  datatype Pod = Pod(containers: seq<Container>)

  datatype Error = ListFailed | PodCount | NotTerminated | NoWorkloadContainer | GetFailed | CreateFailed

  // ---------------------------------------------------------------- job status to conditions

  /** The latest time at which the job was reported failed. */
  method GetLastFailureTimestamp(status: JobStatus) returns (lastFailure: Option<int>)
    ensures lastFailure == LastFailure(status.conditions)
  {
    lastFailure := None;
    for i := 0 to |status.conditions|
      invariant lastFailure == LastFailure(status.conditions[..i])
    {
      var condition := status.conditions[i];
      assert status.conditions[..i + 1][..i] == status.conditions[..i];
      if !condition.failed {
        continue;
      }
      if lastFailure.None? || condition.time > lastFailure.value {
        lastFailure := Some(condition.time);
      }
    }
    assert status.conditions[..|status.conditions|] == status.conditions;
  }

  function LastFailure(conditions: seq<JobCondition>): Option<int> {
    if conditions == [] then None
    else
      var n := |conditions| - 1;
      var earlier, c := LastFailure(conditions[..n]), conditions[n];
      if !c.failed then earlier
      else if earlier.None? || c.time > earlier.value then Some(c.time)
      else earlier
  }

  /** None without a failure; otherwise the time of one, and no other is later. */
  lemma {:induction false} LastFailureIsLatest(conditions: seq<JobCondition>)
    ensures LastFailure(conditions).None? <==> forall c :: c in conditions ==> !c.failed
    ensures LastFailure(conditions).Some? ==>
              && (exists c :: c in conditions && c.failed && c.time == LastFailure(conditions).value)
              && (forall c :: c in conditions && c.failed ==> c.time <= LastFailure(conditions).value)
  {
    if conditions != [] {
      var n := |conditions| - 1;
      LastFailureIsLatest(conditions[..n]);
      assert conditions == conditions[..n] + [conditions[n]];
      assert conditions[n] in conditions;
    }
  }

  /** The end of the workload container, found in the job's only pod. */
  function FailedContainer(pods: Result<seq<Pod>, Error>): Result<Terminated, Error> {
    if pods.Err? then Err(ListFailed)
    else if |pods.value| != 1 then Err(PodCount)
    else TerminatedWorkload(pods.value[0].containers)
  }

  function TerminatedWorkload(containers: seq<Container>): Result<Terminated, Error> {
    if containers == [] then Err(NoWorkloadContainer)
    else if containers[0].name != WORKLOAD_CONTAINER then TerminatedWorkload(containers[1..])
    else match containers[0].terminated
      case None => Err(NotTerminated)
      case Some(t) => Ok(t)
  }

  /** The first workload container of a pod. */
  predicate FirstWorkload(containers: seq<Container>, i: int) {
    0 <= i < |containers| && containers[i].name == WORKLOAD_CONTAINER && forall j :: 0 <= j < i ==>
      containers[j].name != WORKLOAD_CONTAINER
  }

  lemma {:induction false} TerminatedWorkloadMeaning(containers: seq<Container>)
    ensures forall i :: FirstWorkload(containers, i) ==>
      TerminatedWorkload(containers) ==
      if containers[i].terminated.None? then Err(NotTerminated) else Ok(containers[i].terminated.value)
    ensures (forall i :: 0 <= i < |containers| ==> containers[i].name != WORKLOAD_CONTAINER) <==>
            TerminatedWorkload(containers) == Err(NoWorkloadContainer)
    ensures TerminatedWorkload(containers) != Err(NoWorkloadContainer) ==> exists i :: FirstWorkload(containers, i)
  {
    if containers != [] && containers[0].name == WORKLOAD_CONTAINER {
      assert FirstWorkload(containers, 0);
    } else if containers != [] {
      var rest := containers[1..];
      TerminatedWorkloadMeaning(rest);
      assert forall i :: 0 <= i < |rest| ==> rest[i] == containers[i + 1];
      forall i | FirstWorkload(containers, i)
        ensures FirstWorkload(rest, i - 1) && rest[i - 1] == containers[i]
      {
      }
      assert forall i :: 1 <= i < |containers| ==> containers[i] == rest[i - 1];
      if i :| FirstWorkload(rest, i) {
        assert forall j :: 0 < j < i + 1 ==> containers[j].name == rest[j - 1].name;
        assert FirstWorkload(containers, i + 1);
      }
    }
  }

  /** The end of the first workload container of the only pod; otherwise what is missing, in that order. */
  method GetFailedContainerStatus(pods: Result<seq<Pod>, Error>) returns (r: Result<Terminated, Error>)
    ensures r == Err(ListFailed) <==> pods.Err?
    ensures r == Err(PodCount) <==> pods.Ok? && |pods.value| != 1
    ensures pods.Ok? && |pods.value| == 1 ==>
      var containers := pods.value[0].containers;
      && (r == Err(NoWorkloadContainer) <==>
        forall i :: 0 <= i < |containers| ==> containers[i].name != WORKLOAD_CONTAINER)
      && (r == Err(NotTerminated) <==> exists i :: FirstWorkload(containers, i) && containers[i].terminated.None?)
      && (forall t :: r == Ok(t) <==> exists i :: FirstWorkload(containers, i) && containers[i].terminated == Some(t))
    ensures r == FailedContainer(pods)
  {
    if pods.Err? {
      return Err(ListFailed);
    }
    if |pods.value| > 1 {
      return Err(PodCount);
    }
    if |pods.value| == 0 {
      return Err(PodCount);
    }
    var containers := pods.value[0].containers;
    TerminatedWorkloadMeaning(containers);
    for i := 0 to |containers|
      invariant TerminatedWorkload(containers) == TerminatedWorkload(containers[i..])
    {
      if containers[i].name != WORKLOAD_CONTAINER {
        continue;
      }
      if containers[i].terminated.None? {
        return Err(NotTerminated);
      }
      return Ok(containers[i].terminated.value);
    }
    return Err(NoWorkloadContainer);
  }

  predicate JobSucceeded(s: JobStatus) {
    s.startTime.Some? && s.succeeded > 0 && s.completionTime.Some?
  }

  predicate JobFailed(s: JobStatus) {
    s.startTime.Some? && s.failed > 0 && LastFailure(s.conditions).Some?
  }

  /** What a job says about its task; the first condition carries no time of its own. */
  function Reported(job: Job, pods: Result<seq<Pod>, Error>, now: int): Result<Conditions, Error> {
    var s := job.status;
    if JobFailed(s) && FailedContainer(pods).Err? then Err(FailedContainer(pods).error)
    else Ok(
        [Condition(Initialized, true, now, "JobCreated", 0)]
        + (if s.startTime.Some? then [Condition(Started, true, s.startTime.value, "JobStarted", 0)] else [])
        + (if JobSucceeded(s) then [Condition(Succeeded, true, s.completionTime.value, "JobSucceeded", 0)] else [])
        + (if JobFailed(s) then
             var end := FailedContainer(pods).value;
             [Condition(Failed, true, LastFailure(s.conditions).value, end.reason, end.exitCode)]
           else []))
  }

  method GetStatusConditions(job: Job, pods: Result<seq<Pod>, Error>, now: int) returns (r: Result<Conditions, Error>)
    ensures r == Reported(job, pods, now)
  {
    var conditions := [Condition(Initialized, true, now, "JobCreated", 0)];
    if job.status.startTime.None? {
      assert conditions + [] == conditions;
      return Ok(conditions);
    }
    conditions := conditions + [Condition(Started, true, job.status.startTime.value, "JobStarted", 0)];
    if job.status.succeeded > 0 && job.status.completionTime.Some? {
      conditions := conditions + [Condition(Succeeded, true, job.status.completionTime.value, "JobSucceeded", 0)];
    }
    assert conditions + [] == conditions;
    var lastFailure := GetLastFailureTimestamp(job.status);
    if job.status.failed > 0 && lastFailure.Some? {
      var terminationState := GetFailedContainerStatus(pods);
      if terminationState.Err? {
        return Err(terminationState.error);
      }
      conditions :=
        conditions +
          [Condition(Failed, true, lastFailure.value, terminationState.value.reason, terminationState.value.exitCode)];
    }
    return Ok(conditions);
  }

  // ---------------------------------------------------------------- condition sets

  /** Upsert by type; a condition keeps its time unless its status changes. */
  function SetStatusCondition(conditions: Conditions, c: Condition): Conditions {
    if conditions == [] then [c]
    else if conditions[0].ctype != c.ctype then [conditions[0]] + SetStatusCondition(conditions[1..], c)
    else [c.(time := if conditions[0].isTrue == c.isTrue then conditions[0].time else c.time)] + conditions[1..]
  }

  function SetAll(conditions: Conditions, news: Conditions): Conditions {
    if news == [] then conditions
    else SetStatusCondition(SetAll(conditions, news[..|news| - 1]), news[|news| - 1])
  }

  function Find(conditions: Conditions, t: ConditionType): Option<Condition> {
    if conditions == [] then None
    else if conditions[0].ctype == t then Some(conditions[0])
    else Find(conditions[1..], t)
  }

  predicate FirstOf(conditions: Conditions, t: ConditionType, i: int) {
    0 <= i < |conditions| && conditions[i].ctype == t && forall j :: 0 <= j < i ==> conditions[j].ctype != t
  }

  /** The first condition of a type. */
  lemma {:induction false} FindMeaning(conditions: Conditions, t: ConditionType)
    ensures Find(conditions, t).None? <==> forall c :: c in conditions ==> c.ctype != t
    ensures Find(conditions, t).Some? ==> exists i :: FirstOf(conditions, t, i) &&
                                                      conditions[i] == Find(conditions, t).value
  {
    if conditions != [] && conditions[0].ctype != t {
      var rest := conditions[1..];
      FindMeaning(rest, t);
      assert conditions == [conditions[0]] + rest;
      if Find(rest, t).Some? {
        var i :| FirstOf(rest, t, i) && rest[i] == Find(rest, t).value;
        assert forall j :: 0 < j < i + 1 ==> conditions[j] == rest[j - 1];
        assert FirstOf(conditions, t, i + 1);
      }
    } else if conditions != [] {
      assert FirstOf(conditions, t, 0);
    }
  }

  predicate IsTrue(conditions: Conditions, t: ConditionType) {
    Find(conditions, t).Some? && Find(conditions, t).value.isTrue
  }

  predicate UniqueTypes(conditions: Conditions) {
    forall i, j :: 0 <= i < j < |conditions| ==> conditions[i].ctype != conditions[j].ctype
  }

  /** A condition is saved as it is; only, one whose status is not new keeps the time it had. */
  predicate Stored(before: Conditions, after: Conditions, c: Condition) {
    var had := Find(before, c.ctype);
    Find(after, c.ctype) == Some(if had.Some? && had.value.isTrue == c.isTrue then c.(time := had.value.time) else c)
  }

  lemma {:induction false} SetOne(conditions: Conditions, c: Condition)
    ensures Stored(conditions, SetStatusCondition(conditions, c), c)
    ensures forall t :: t != c.ctype ==> Find(SetStatusCondition(conditions, c), t) == Find(conditions, t)
  {
    var updated := SetStatusCondition(conditions, c);
    if conditions != [] && conditions[0].ctype != c.ctype {
      SetOne(conditions[1..], c);
      assert updated[1..] == SetStatusCondition(conditions[1..], c);
    } else if conditions != [] {
      assert updated[1..] == conditions[1..];
    }
  }

  lemma {:induction false} SetOneKeepsUnique(conditions: Conditions, c: Condition)
    requires UniqueTypes(conditions)
    ensures UniqueTypes(SetStatusCondition(conditions, c))
    ensures forall d :: d in SetStatusCondition(conditions, c) ==> d.ctype == c.ctype || d in conditions
  {
    if conditions != [] && conditions[0].ctype != c.ctype {
      SetOneKeepsUnique(conditions[1..], c);
      var rest := SetStatusCondition(conditions[1..], c);
      assert SetStatusCondition(conditions, c)[1..] == rest;
      forall j | 0 <= j < |rest| ensures rest[j].ctype != conditions[0].ctype {
        assert rest[j] in rest;
      }
    }
  }

  predicate Mentions(conditions: Conditions, t: ConditionType) {
    exists i :: 0 <= i < |conditions| && conditions[i].ctype == t
  }

  lemma MentionsOneMore(news: Conditions, t: ConditionType)
    requires news != []
    ensures Mentions(news, t) <==> Mentions(news[..|news| - 1], t) || news[|news| - 1].ctype == t
  {
    var n := |news| - 1;
    if i :| 0 <= i < |news| && news[i].ctype == t && i < n {
      assert news[..n][i].ctype == t;
    }
    if i :| 0 <= i < n && news[..n][i].ctype == t {
      assert news[i].ctype == t;
    }
  }

  lemma {:induction false} SetAllSets(conditions: Conditions, news: Conditions)
    requires forall i :: 0 <= i < |news| ==> news[i].isTrue
    ensures forall t :: IsTrue(SetAll(conditions, news), t) <==> IsTrue(conditions, t) || Mentions(news, t)
    ensures Grows(conditions, SetAll(conditions, news))
    ensures UniqueTypes(conditions) ==> UniqueTypes(SetAll(conditions, news))
  {
    if news != [] {
      var n := |news| - 1;
      SetAllSets(conditions, news[..n]);
      var before := SetAll(conditions, news[..n]);
      SetOne(before, news[n]);
      if UniqueTypes(before) {
        SetOneKeepsUnique(before, news[n]);
      }
      forall t ensures Mentions(news, t) <==> Mentions(news[..n], t) || news[n].ctype == t {
        MentionsOneMore(news, t);
      }
    }
  }

  /** Of conditions of different types each is saved; conditions of other types stay. */
  lemma {:induction false} SetAllStores(conditions: Conditions, news: Conditions)
    requires UniqueTypes(news)
    ensures forall c :: c in news ==> Stored(conditions, SetAll(conditions, news), c)
    ensures forall t :: !Mentions(news, t) ==> Find(SetAll(conditions, news), t) == Find(conditions, t)
  {
    if news != [] {
      var n := |news| - 1;
      var before, last := SetAll(conditions, news[..n]), news[n];
      SetAllStores(conditions, news[..n]);
      SetOne(before, last);
      forall t ensures Mentions(news, t) <==> Mentions(news[..n], t) || last.ctype == t {
        MentionsOneMore(news, t);
      }
      assert !Mentions(news[..n], last.ctype);
      forall c | c in news && c != last ensures c in news[..n] && c.ctype != last.ctype {
        assert news == news[..n] + [last];
      }
    }
  }

  /** A workload's conditions: each type once, in an order of stages. */
  predicate Staged(conditions: Conditions) {
    && UniqueTypes(conditions)
    && (IsTrue(conditions, Started) ==> IsTrue(conditions, Initialized))
    && (IsTrue(conditions, Succeeded) || IsTrue(conditions, Failed) ==> IsTrue(conditions, Started))
    && !IsTrue(conditions, Canceled)
  }

  /** Conditions are added and keep their times; none is taken back. */
  predicate Grows(before: Conditions, after: Conditions) {
    forall t :: IsTrue(before, t) ==> IsTrue(after, t) && Find(after, t).value.time == Find(before, t).value.time
  }

  // ---------------------------------------------------------------- what a report says

  predicate AnyFailed(conditions: seq<JobCondition>) {
    exists c :: c in conditions && c.failed
  }

  predicate LatestFailure(conditions: seq<JobCondition>, time: int) {
    && (exists c :: c in conditions && c.failed && c.time == time)
    && forall c :: c in conditions && c.failed ==> c.time <= time
  }

  /** How the workload container of the job's only pod has ended. */
  ghost predicate EndOf(pods: Result<seq<Pod>, Error>, reason: string, exitCode: int) {
    && pods.Ok? && |pods.value| == 1
    && exists i :: FirstWorkload(pods.value[0].containers, i) &&
                   pods.value[0].containers[i].terminated == Some(Terminated(reason, exitCode))
  }

  /** What a job, and the pod that has failed it, say about the task, condition by condition. */
  ghost predicate Says(job: Job, pods: Result<seq<Pod>, Error>, now: int, c: Condition) {
    var s := job.status;
    c.isTrue && match c.ctype
      case Initialized => c.time == now && c.reason == "JobCreated" && c.exitCode == 0
      case Started => s.startTime == Some(c.time) && c.reason == "JobStarted" && c.exitCode == 0
      case Succeeded =>
        && s.startTime.Some? && s.succeeded > 0 && s.completionTime == Some(c.time)
        && c.reason == "JobSucceeded" && c.exitCode == 0
      case Failed =>
        && s.startTime.Some? && s.failed > 0 && LatestFailure(s.conditions, c.time)
        && EndOf(pods, c.reason, c.exitCode)
      case Canceled => false
  }

  lemma FailedContainerMeaning(pods: Result<seq<Pod>, Error>)
    ensures forall reason, exitCode ::
      FailedContainer(pods) == Ok(Terminated(reason, exitCode)) <==> EndOf(pods, reason, exitCode)
  {
    if pods.Ok? && |pods.value| == 1 {
      TerminatedWorkloadMeaning(pods.value[0].containers);
    }
  }

  lemma LastFailureIff(conditions: seq<JobCondition>)
    ensures LastFailure(conditions).Some? <==> AnyFailed(conditions)
    ensures forall time :: LastFailure(conditions) == Some(time) <==> LatestFailure(conditions, time)
  {
    LastFailureIsLatest(conditions);
  }

  /** A report is refused only when a failed job's pod does not tell its end; it lists what is said, each type once. */
  lemma ReportMeaning(job: Job, pods: Result<seq<Pod>, Error>, now: int)
    ensures Reported(job, pods, now).Err? <==>
      && job.status.startTime.Some? && job.status.failed > 0 && AnyFailed(job.status.conditions)
      && forall reason, exitCode :: !EndOf(pods, reason, exitCode)
    ensures Reported(job, pods, now).Ok? ==>
      && UniqueTypes(Reported(job, pods, now).value)
      && forall c :: c in Reported(job, pods, now).value <==> Says(job, pods, now, c)
  {
    FailedContainerMeaning(pods);
    LastFailureIff(job.status.conditions);
    if FailedContainer(pods).Ok? {
      var end := FailedContainer(pods).value;
      assert EndOf(pods, end.reason, end.exitCode);
    }
  }

  lemma ReportedTypes(job: Job, pods: Result<seq<Pod>, Error>, now: int)
    requires Reported(job, pods, now).Ok?
    ensures
      var r, s := Reported(job, pods, now).value, job.status;
      && (forall i :: 0 <= i < |r| ==> r[i].isTrue)
      && Mentions(r, Initialized)
      && (Mentions(r, Started) <==> s.startTime.Some?)
      && (Mentions(r, Succeeded) <==> JobSucceeded(s))
      && (Mentions(r, Failed) <==> JobFailed(s))
      && !Mentions(r, Canceled)
  {
    var r, s := Reported(job, pods, now).value, job.status;
    assert r[0].ctype == Initialized;
    assert s.startTime.Some? ==> r[1].ctype == Started;
    assert JobSucceeded(s) ==> r[2].ctype == Succeeded;
    assert JobFailed(s) ==> r[|r| - 1].ctype == Failed;
  }

  /** Saving what a job reports keeps the order of stages and takes nothing back. */
  lemma ReportIsStaged(saved: Conditions, job: Job, pods: Result<seq<Pod>, Error>, now: int)
    requires Reported(job, pods, now).Ok?
    ensures
      var after := SetAll(saved, Reported(job, pods, now).value);
      && (Staged(saved) ==> Staged(after)) && Grows(saved, after) && IsTrue(after, Initialized)
      && (IsTrue(after, Succeeded) <==> IsTrue(saved, Succeeded) || JobSucceeded(job.status))
      && (IsTrue(after, Failed) <==> IsTrue(saved, Failed) || JobFailed(job.status))
  {
    ReportedTypes(job, pods, now);
    SetAllSets(saved, Reported(job, pods, now).value);
  }

  /** All that a job says is saved, and nothing else is touched. */
  ghost predicate SavedAsSaid(before: Conditions, after: Conditions, job: Job, pods: Result<seq<Pod>, Error>,
                              now: int)
  {
    && (forall c :: Says(job, pods, now, c) ==> Stored(before, after, c))
    && (forall t :: (forall c :: Says(job, pods, now, c) ==> c.ctype != t) ==> Find(after, t) == Find(before, t))
  }

  lemma ReportIsSaved(saved: Conditions, job: Job, pods: Result<seq<Pod>, Error>, now: int)
    requires Reported(job, pods, now).Ok?
    ensures SavedAsSaid(saved, SetAll(saved, Reported(job, pods, now).value), job, pods, now)
  {
    var r := Reported(job, pods, now).value;
    ReportMeaning(job, pods, now);
    SetAllStores(saved, r);
    forall t | Mentions(r, t) ensures exists c :: Says(job, pods, now, c) && c.ctype == t {
      var i :| 0 <= i < |r| && r[i].ctype == t;
      assert r[i] in r;
    }
  }

  // ---------------------------------------------------------------- record state

  datatype RecordState = PENDING | RUNNING | CANCELING | SUCCEEDED | FAILED

  function ToRecordState(conditions: Conditions): RecordState {
    if IsTrue(conditions, Succeeded) then SUCCEEDED
    else if IsTrue(conditions, Failed) then FAILED
    else if IsTrue(conditions, Canceled) then CANCELING
    else if IsTrue(conditions, Started) then RUNNING
    else PENDING
  }

  /** The state of a task, told from its job and from what was saved before the job's report. */
  lemma RecordTellsJob(saved: Conditions, job: Job, pods: Result<seq<Pod>, Error>, now: int)
    requires Reported(job, pods, now).Ok?
    ensures
      var s, state := job.status, ToRecordState(SetAll(saved, Reported(job, pods, now).value));
      var succeeded := IsTrue(saved, Succeeded) || (s.startTime.Some? && s.succeeded > 0 && s.completionTime.Some?);
      var failed := IsTrue(saved, Failed) || (s.startTime.Some? && s.failed > 0 && AnyFailed(s.conditions));
      && (state == SUCCEEDED <==> succeeded)
      && (state == FAILED <==> !succeeded && failed)
      && (state == CANCELING <==> !succeeded && !failed && IsTrue(saved, Canceled))
      && (state == RUNNING <==>
          !succeeded && !failed && !IsTrue(saved, Canceled) && (IsTrue(saved, Started) || s.startTime.Some?))
  {
    ReportedTypes(job, pods, now);
    SetAllSets(saved, Reported(job, pods, now).value);
    LastFailureIff(job.status.conditions);
  }

  /** States that a task in a given state may still come to. */
  predicate Forward(from: RecordState, to: RecordState) {
    match from
    case PENDING => true
    case RUNNING => to != PENDING
    case CANCELING => to != PENDING && to != RUNNING
    case SUCCEEDED => to == SUCCEEDED
    case FAILED => to == FAILED
  }

  /** As conditions are added the state goes forward, unless a failed task is also said to succeed. */
  lemma StateGoesForwardIff(before: Conditions, after: Conditions)
    requires Grows(before, after)
    ensures Forward(ToRecordState(before), ToRecordState(after)) <==>
            !(IsTrue(before, Failed) && !IsTrue(before, Succeeded) && IsTrue(after, Succeeded))
  {
  }

  // ---------------------------------------------------------------- the reconciler

  class JobStore {
    var job: Option<Job>
    var nextUid: nat

    method Get(fails: bool) returns (r: Result<Option<Job>, Error>)
      ensures r == if fails then Err(GetFailed) else Ok(job)
    {
      r := if fails then Err(GetFailed) else Ok(job);
    }

    method Create(fails: bool) returns (r: Result<Job, Error>)
      modifies this
      ensures
        if fails || old(job).Some? then r == Err(CreateFailed) && job == old(job) && nextUid == old(nextUid)
        else r == Ok(NewJob(old(nextUid))) && job == Some(NewJob(old(nextUid))) && nextUid == old(nextUid) + 1
    {
      if fails || job.Some? {
        return Err(CreateFailed);
      }
      job := Some(NewJob(nextUid));
      nextUid := nextUid + 1;
      r := Ok(job.value);
    }
  }

  function NewJob(uid: nat): Job {
    Job(uid, JobStatus(None, 0, None, 0, []))
  }

  /** The reconciler's copy of the workload. */
  class Workload {
    var deleted: bool
    var generation: int
    var observedGeneration: int
    var conditions: Conditions
  }

  /** The job to report on, if any, and whether it is created now. */
  datatype Obtained = Obtained(job: Result<Option<Job>, Error>, creates: bool)

  function Obtain(conditions: Conditions, job: Option<Job>, nextUid: nat, getFails: bool, createFails: bool): Obtained {
    if getFails then Obtained(Err(GetFailed), false)
    else if job.Some? then Obtained(Ok(job), false)
    else if IsTrue(conditions, Initialized) then Obtained(Ok(None), false)
    else if createFails then Obtained(Err(CreateFailed), false)
    else Obtained(Ok(Some(NewJob(nextUid))), true)
  }

  /** The conditions, and the error, that a reconcile ends with. */
  function Settle(conditions: Conditions, o: Obtained, pods: Result<seq<Pod>, Error>,
                  now: int): (Conditions, Option<Error>)
  {
    if o.job.Err? then (conditions, Some(o.job.error))
    else if o.job.value.None? then (conditions, None)
    else
      var reported := Reported(o.job.value.value, pods, now);
      if reported.Err? then (conditions, Some(reported.error)) else (SetAll(conditions, reported.value), None)
  }

  class Reconciler {
    const jobs: JobStore

    constructor (jobs: JobStore)
      ensures this.jobs == jobs
    {
      this.jobs := jobs;
    }

    method GetOrCreateJob(workload: Workload, getFails: bool, createFails: bool) returns (r: Result<Option<Job>, Error>)
      modifies jobs
      ensures
        var o := Obtain(workload.conditions, old(jobs.job), old(jobs.nextUid), getFails, createFails);
        && r == o.job
        && jobs.job == (if o.creates then o.job.value else old(jobs.job))
        && jobs.nextUid == old(jobs.nextUid) + if o.creates then 1 else 0
      ensures getFails ==> r == Err(GetFailed)
      ensures !getFails && old(jobs.job).Some? ==> r == Ok(old(jobs.job))
      ensures !getFails && old(jobs.job).None? && IsTrue(workload.conditions, Initialized) ==> r == Ok(None)
      ensures getFails || createFails || old(jobs.job).Some? || IsTrue(workload.conditions, Initialized) ==>
        jobs.job == old(jobs.job) && jobs.nextUid == old(jobs.nextUid)
      ensures !getFails && old(jobs.job).None? && !IsTrue(workload.conditions, Initialized) ==>
        if createFails then r == Err(CreateFailed)
        else
          && r == Ok(Some(Job(old(jobs.nextUid), JobStatus(None, 0, None, 0, []))))
          && jobs.job == r.value && jobs.nextUid == old(jobs.nextUid) + 1
    {
      var existing := jobs.Get(getFails);
      if existing.Err? {
        return Err(GetFailed);
      }
      if existing.value.Some? {
        return Ok(existing.value);
      }
      if IsTrue(workload.conditions, Initialized) {
        return Ok(None);
      }
      var created := jobs.Create(createFails);
      if created.Err? {
        return Err(created.error);
      }
      return Ok(Some(created.value));
    }

    method UpdateTaskWorkloadStatus(workload: Workload, job: Job, pods: Result<seq<Pod>, Error>, now: int)
      returns (err: Option<Error>)
      modifies workload`conditions
      ensures
        var reported := Reported(job, pods, now);
        if reported.Err? then err == Some(reported.error) && workload.conditions == old(workload.conditions)
        else err.None? && workload.conditions == SetAll(old(workload.conditions), reported.value)
      ensures err.None? ==> SavedAsSaid(old(workload.conditions), workload.conditions, job, pods, now)
    {
      var conditions := GetStatusConditions(job, pods, now);
      if conditions.Err? {
        return Some(conditions.error);
      }
      for i := 0 to |conditions.value|
        invariant workload.conditions == SetAll(old(workload.conditions), conditions.value[..i])
      {
        assert conditions.value[..i + 1][..i] == conditions.value[..i];
        workload.conditions := SetStatusCondition(workload.conditions, conditions.value[i]);
      }
      assert conditions.value[..|conditions.value|] == conditions.value;
      ReportIsSaved(old(workload.conditions), job, pods, now);
      return None;
    }

    /** One reconcile: a deleted workload is left alone, and a finished one whose job is gone is not run again. */
    method ReconcileResource(workload: Workload, getFails: bool, createFails: bool, pods: Result<seq<Pod>, Error>,
                             now: int)
      returns (err: Option<Error>)
      modifies workload`observedGeneration, workload`conditions, jobs
      ensures workload.deleted ==>
        && err.None? && jobs.job == old(jobs.job) && jobs.nextUid == old(jobs.nextUid)
        && workload.conditions == old(workload.conditions)
        && workload.observedGeneration == old(workload.observedGeneration)
      ensures !workload.deleted ==> workload.observedGeneration == workload.generation
      ensures !workload.deleted ==>
                var o := Obtain(old(workload.conditions), old(jobs.job), old(jobs.nextUid), getFails, createFails);
                && (workload.conditions, err) == Settle(old(workload.conditions), o, pods, now)
                && jobs.job == (if o.creates then o.job.value else old(jobs.job))
                && jobs.nextUid == old(jobs.nextUid) + if o.creates then 1 else 0
      ensures Staged(old(workload.conditions)) ==> Staged(workload.conditions)
      ensures Grows(old(workload.conditions), workload.conditions)
      ensures IsTrue(old(workload.conditions), Initialized) || old(jobs.job).Some? ==>
                jobs.job == old(jobs.job) && jobs.nextUid == old(jobs.nextUid)
      ensures !workload.deleted && err.None? && !IsTrue(old(workload.conditions), Initialized) ==>
                && IsTrue(workload.conditions, Initialized)
                && jobs.job == if old(jobs.job).Some? then old(jobs.job) else Some(NewJob(old(jobs.nextUid)))
      ensures !workload.deleted && err.None? && jobs.job.Some? && JobFailed(jobs.job.value.status) ==>
        IsTrue(workload.conditions, Failed)
      ensures !workload.deleted && err.None? && jobs.job.Some? && JobSucceeded(jobs.job.value.status) ==>
        IsTrue(workload.conditions, Succeeded)
      ensures !workload.deleted && err.None? && jobs.job.Some? ==>
        SavedAsSaid(old(workload.conditions), workload.conditions, jobs.job.value, pods, now)
      ensures !workload.deleted && getFails ==> err == Some(GetFailed)
      ensures err.Some? || jobs.job.None? ==> workload.conditions == old(workload.conditions)
    {
      if workload.deleted {
        return None;
      }
      workload.observedGeneration := workload.generation;
      var job := GetOrCreateJob(workload, getFails, createFails);
      if job.Err? {
        return Some(job.error);
      }
      if job.value.None? {
        return None;
      }
      if Reported(job.value.value, pods, now).Ok? {
        ReportIsStaged(workload.conditions, job.value.value, pods, now);
      }
      err := UpdateTaskWorkloadStatus(workload, job.value.value, pods, now);
    }
  }

  // ---------------------------------------------------------------- runs

  /** Where the one reconcile at work on the workload stands, with its copy of the conditions. */
  datatype Phase =
    | Idle
    | Fetched(conditions: Conditions)
    | Missing(conditions: Conditions)
    | Holding(conditions: Conditions, job: Job)
    | Saving(conditions: Conditions, job: Job)

  datatype Creation = Creation(uid: nat, saved: Conditions)

  /** The workload as saved, all earlier saved states, the job the save came from, and every job creation. */
  datatype World = World(
    job: Option<Job>,
    nextUid: nat,
    saved: Conditions,
    history: seq<Conditions>,
    source: Option<nat>,
    phase: Phase,
    creations: seq<Creation>)

  datatype Step =
    | Fetch(readAt: Option<nat>)
    | GetJob(fails: bool)
    | CreateJob(fails: bool)
    | Report(pods: Result<seq<Pod>, Error>, now: int)
    | Save(lost: bool)
    | Progress(status: JobStatus)
    | DeleteJob

  /** A job starts once, ends at most once, and does not both succeed and fail. */
  predicate Advances(before: JobStatus, after: JobStatus) {
    && (before.startTime.Some? ==> after.startTime == before.startTime)
    && (JobSucceeded(before) ==> JobSucceeded(after))
    && (JobFailed(before) ==> JobFailed(after))
    && !(JobSucceeded(after) && JobFailed(after))
  }

  function Next(w: World, step: Step): World {
    match step
    case Fetch(readAt) =>
      if !w.phase.Idle? then w
      else if readAt.Some? && readAt.value < |w.history| then w.(phase := Fetched(w.history[readAt.value]))
      else w.(phase := Fetched(w.saved))
    case GetJob(fails) =>
      if !w.phase.Fetched? then w
      else if fails then w.(phase := Idle)
      else if w.job.Some? then w.(phase := Holding(w.phase.conditions, w.job.value))
      else if IsTrue(w.phase.conditions, Initialized) then w.(phase := Idle)
      else w.(phase := Missing(w.phase.conditions))
    case CreateJob(fails) =>
      if !w.phase.Missing? then w
      else if fails || w.job.Some? then w.(phase := Idle)
      else
        var job := NewJob(w.nextUid);
        w.(job := Some(job), nextUid := w.nextUid + 1, phase := Holding(w.phase.conditions, job),
           creations := w.creations + [Creation(w.nextUid, w.saved)])
    case Report(pods, now) =>
      if !w.phase.Holding? then w
      else
        var reported := Reported(w.phase.job, pods, now);
        if reported.Err? then w.(phase := Idle)
        else w.(phase := Saving(SetAll(w.phase.conditions, reported.value), w.phase.job))
    case Save(lost) =>
      if !w.phase.Saving? then w
      else if lost then w.(phase := Idle)
      else w.(saved := w.phase.conditions, history := w.history +
        [w.saved], source := Some(w.phase.job.uid), phase := Idle)
    case Progress(status) =>
      if w.job.Some? && Advances(w.job.value.status, status) then w.(job := Some(w.job.value.(status := status))) else w
    case DeleteJob =>
      w.(job := None)
  }

  /** A reconcile that nothing interrupts and whose save is not lost is a run of five steps. */
  lemma ReconcileIsFiveSteps(w: World, getFails: bool, createFails: bool, pods: Result<seq<Pod>, Error>, now: int)
    requires w.phase.Idle?
    ensures
      var obtained := Next(Next(Next(w, Fetch(None)), GetJob(getFails)), CreateJob(createFails));
      var end := Next(Next(obtained, Report(pods, now)), Save(false));
      var o := Obtain(w.saved, w.job, w.nextUid, getFails, createFails);
      && end.phase.Idle?
      && end.saved == Settle(w.saved, o, pods, now).0
      && end.job == (if o.creates then o.job.value else w.job)
      && end.creations == w.creations + (if o.creates then [Creation(w.nextUid, w.saved)] else [])
      && end.nextUid == w.nextUid + if o.creates then 1 else 0
  {
  }

  const INIT := World(None, 0, [], [], None, Idle, [])

  function After(steps: seq<Step>): World {
    if steps == [] then INIT else Next(After(steps[..|steps| - 1]), steps[|steps| - 1])
  }

  /** Reconciles read the workload as it was last saved. */
  predicate FreshReads(steps: seq<Step>) {
    forall i :: 0 <= i < |steps| && steps[i].Fetch? ==> steps[i].readAt.None?
  }

  predicate PhaseIsCurrent(w: World) {
    match w.phase
    case Idle => true
    case Fetched(conditions) => conditions == w.saved
    case Missing(conditions) => conditions == w.saved && !IsTrue(w.saved, Initialized)
    case Holding(conditions, job) => conditions == w.saved && SameJob(w, job)
    case Saving(conditions, job) =>
      && SameJob(w, job)
      && Staged(conditions) && Grows(w.saved, conditions) && IsTrue(conditions, Initialized)
      && (IsTrue(conditions, Succeeded) <==> IsTrue(w.saved, Succeeded) || JobSucceeded(job.status))
      && (IsTrue(conditions, Failed) <==> IsTrue(w.saved, Failed) || JobFailed(job.status))
  }

  /** The job a reconcile holds is an earlier state of the job there is, and saved conditions came from it. */
  predicate SameJob(w: World, job: Job) {
    && !(JobSucceeded(job.status) && JobFailed(job.status))
    && (w.job.Some? ==> w.job.value.uid == job.uid)
    && (w.job.Some? && JobSucceeded(job.status) ==> JobSucceeded(w.job.value.status))
    && (w.job.Some? && JobFailed(job.status) ==> JobFailed(w.job.value.status))
    && (IsTrue(w.saved, Initialized) ==> SavedFrom(w, job))
  }

  predicate SavedFrom(w: World, job: Job) {
    && w.source == Some(job.uid)
    && (IsTrue(w.saved, Succeeded) ==> JobSucceeded(job.status))
    && (IsTrue(w.saved, Failed) ==> JobFailed(job.status))
  }

  predicate Invariant(w: World) {
    && Staged(w.saved)
    && (w.job.Some? ==> !(JobSucceeded(w.job.value.status) && JobFailed(w.job.value.status)))
    && (IsTrue(w.saved, Initialized) && w.job.Some? ==> SavedFrom(w, w.job.value))
    && (IsTrue(w.saved, Initialized) <==> w.source.Some?)
    && !(IsTrue(w.saved, Succeeded) && IsTrue(w.saved, Failed))
    && PhaseIsCurrent(w)
    && (forall i :: 0 <= i < |w.creations| ==> !IsTrue(w.creations[i].saved, Initialized))
  }

  lemma ReportStep(w: World, pods: Result<seq<Pod>, Error>, now: int)
    requires Invariant(w)
    ensures Invariant(Next(w, Report(pods, now)))
  {
    if w.phase.Holding? {
      var reported := Reported(w.phase.job, pods, now);
      if reported.Ok? {
        ReportIsStaged(w.saved, w.phase.job, pods, now);
        SavingStarts(w, SetAll(w.saved, reported.value));
      }
    }
  }

  lemma SavingStarts(w: World, after: Conditions)
    requires Invariant(w) && w.phase.Holding?
    requires Staged(after) && Grows(w.saved, after) && IsTrue(after, Initialized)
    requires IsTrue(after, Succeeded) <==> IsTrue(w.saved, Succeeded) || JobSucceeded(w.phase.job.status)
    requires IsTrue(after, Failed) <==> IsTrue(w.saved, Failed) || JobFailed(w.phase.job.status)
    ensures Invariant(w.(phase := Saving(after, w.phase.job)))
  {
  }

  lemma SaveStep(w: World, lost: bool)
    requires Invariant(w)
    ensures Invariant(Next(w, Save(lost)))
    ensures Grows(w.saved, Next(w, Save(lost)).saved)
    ensures w.source.Some? ==> Next(w, Save(lost)).source == w.source
  {
  }

  lemma ProgressStep(w: World, status: JobStatus)
    requires Invariant(w)
    ensures Invariant(Next(w, Progress(status)))
  {
  }

  lemma InvariantStep(w: World, step: Step)
    requires Invariant(w) && (step.Fetch? ==> step.readAt.None?)
    ensures Invariant(Next(w, step))
    ensures Grows(w.saved, Next(w, step).saved)
    ensures w.source.Some? ==> Next(w, step).source == w.source && Next(w, step).creations == w.creations
  {
    match step
    case Report(pods, now) => ReportStep(w, pods, now);
    case Save(lost) => SaveStep(w, lost);
    case Progress(status) => ProgressStep(w, status);
    case _ =>
  }

  lemma {:induction false} InvariantHolds(steps: seq<Step>)
    requires FreshReads(steps)
    ensures Invariant(After(steps))
  {
    if steps != [] {
      InvariantHolds(steps[..|steps| - 1]);
      InvariantStep(After(steps[..|steps| - 1]), steps[|steps| - 1]);
    }
  }

  /**
    In every run: once Initialized is saved no job is created any more, the saved conditions come from one
    and the same job, they only grow, and the state read off them never goes back.
   */
  lemma {:induction false} OnceInitialized(steps: seq<Step>, n: nat)
    requires FreshReads(steps) && n <= |steps|
    ensures
      var w, end := After(steps[..n]), After(steps);
      && Staged(end.saved) && Grows(w.saved, end.saved)
      && Forward(ToRecordState(w.saved), ToRecordState(end.saved))
      && (IsTrue(w.saved, Initialized) ==> end.creations == w.creations && end.source == w.source)
    decreases |steps|
  {
    InvariantHolds(steps);
    if n == |steps| {
      assert steps[..n] == steps;
      StateGoesForwardIff(After(steps).saved, After(steps).saved);
    } else {
      var m := |steps| - 1;
      assert steps[..m][..n] == steps[..n];
      OnceInitialized(steps[..m], n);
      InvariantHolds(steps[..m]);
      InvariantStep(After(steps[..m]), steps[m]);
      GrowthIsTransitive(After(steps[..n]).saved, After(steps[..m]).saved, After(steps).saved);
    }
  }

  lemma GrowthIsTransitive(a: Conditions, b: Conditions, c: Conditions)
    requires Grows(a, b) && Grows(b, c) && !(IsTrue(c, Succeeded) && IsTrue(c, Failed))
    ensures Grows(a, c) && Forward(ToRecordState(a), ToRecordState(c))
  {
  }

  /** No job is ever created while another exists, nor after Initialized was saved. */
  lemma CreationsArePremature(steps: seq<Step>, fails: bool)
    requires FreshReads(steps) && After(steps + [CreateJob(fails)]).creations != After(steps).creations
    ensures After(steps).job.None? && !IsTrue(After(steps).saved, Initialized)
  {
    assert (steps + [CreateJob(fails)])[..|steps|] == steps;
    InvariantHolds(steps);
  }

  // ---------------------------------------------------------------- how often a task runs

  lemma AfterOne(steps: seq<Step>, step: Step)
    ensures After(steps + [step]) == Next(After(steps), step)
  {
    assert (steps + [step])[..|steps|] == steps;
  }

  lemma {:induction false} AfterMore(steps: seq<Step>, more: seq<Step>)
    ensures After(steps + more) == Onward(After(steps), more)
    decreases |more|
  {
    if more == [] {
      assert steps + more == steps;
    } else {
      AfterOne(steps, more[0]);
      assert steps + more == steps + [more[0]] + more[1..];
      AfterMore(steps + [more[0]], more[1..]);
    }
  }

  function Onward(w: World, steps: seq<Step>): World
    decreases |steps|
  {
    if steps == [] then w else Onward(Next(w, steps[0]), steps[1..])
  }

  /** The job's deletion finds conditions saved, or no job. */
  predicate DeletesAreLate(steps: seq<Step>) {
    forall i {:trigger steps[i]} :: 0 <= i < |steps| && steps[i].DeleteJob? ==>
      IsTrue(After(steps[..i]).saved, Initialized) || After(steps[..i]).job.None?
  }

  predicate Once(w: World) {
    |w.creations| <= 1 && (w.creations != [] ==> w.job.Some? || IsTrue(w.saved, Initialized))
  }

  lemma OnceStep(w: World, step: Step)
    requires Invariant(w) && Once(w)
    requires step.DeleteJob? ==> IsTrue(w.saved, Initialized) || w.job.None?
    requires Grows(w.saved, Next(w, step).saved)
    ensures Once(Next(w, step))
  {
    if step.Report? {
      ReportMovesPhase(w, step.pods, step.now);
    }
  }

  /** When no job is deleted before the conditions are saved, a task runs at most once. */
  lemma {:induction false} AtMostOnce(steps: seq<Step>)
    requires FreshReads(steps) && DeletesAreLate(steps)
    ensures |After(steps).creations| <= 1
    ensures After(steps).creations != [] ==> After(steps).job.Some? || IsTrue(After(steps).saved, Initialized)
  {
    if steps != [] {
      var n := |steps| - 1;
      assert forall i {:trigger steps[..n][i]} :: 0 <= i < n ==>
        steps[..n][i] == steps[i] && steps[..n][..i] == steps[..i];
      AtMostOnce(steps[..n]);
      InvariantHolds(steps[..n]);
      InvariantStep(After(steps[..n]), steps[n]);
      assert steps[n].DeleteJob? ==> IsTrue(After(steps[..n]).saved, Initialized) || After(steps[..n]).job.None?;
      OnceStep(After(steps[..n]), steps[n]);
    }
  }

  /** Fail what is going on, lose its save, delete the job, and reconcile anew. */
  function Again(readAt: Option<nat>): seq<Step> {
    [GetJob(true), CreateJob(true), Report(Ok([]), 0), Save(true), DeleteJob, Fetch(readAt), GetJob(false),
      CreateJob(false)]
  }

  lemma AgainCreatesIff(w: World, readAt: Option<nat>)
    ensures
      var copy := if readAt.Some? && readAt.value < |w.history| then w.history[readAt.value] else w.saved;
      var end := Onward(w, Again(readAt));
      && end.saved == w.saved && end.history == w.history
      && end.creations == if IsTrue(copy, Initialized)
        then w.creations else w.creations + [Creation(w.nextUid, w.saved)]
  {
    var all := Again(readAt);
    var quiet := Onward(w, all[..4]);
    assert all[..4] == [GetJob(true), CreateJob(true), Report(Ok([]), 0), Save(true)];
    QuietDown(w);
    OnwardSplits(w, all, 4);
    assert all[4..] == [DeleteJob, Fetch(readAt), GetJob(false), CreateJob(false)];
    Reread(quiet, readAt);
  }

  lemma {:induction false} OnwardSplits(w: World, steps: seq<Step>, n: nat)
    requires n <= |steps|
    ensures Onward(w, steps) == Onward(Onward(w, steps[..n]), steps[n..])
    decreases n
  {
    if n > 0 {
      OnwardSplits(Next(w, steps[0]), steps[1..], n - 1);
      assert steps[..n][1..] == steps[1..][..n - 1] && steps[1..][n - 1..] == steps[n..];
    } else {
      assert steps[..0] == [] && steps[0..] == steps;
    }
  }

  lemma OnwardCons(w: World, a: Step, rest: seq<Step>)
    ensures Onward(w, [a] + rest) == Onward(Next(w, a), rest)
  {
    assert ([a] + rest)[1..] == rest;
  }

  lemma OnwardFour(w: World, a: Step, b: Step, c: Step, d: Step)
    ensures Onward(w, [a, b, c, d]) == Next(Next(Next(Next(w, a), b), c), d)
  {
    assert [a, b, c, d] == [a] + [b, c, d] && [b, c, d] == [b] + [c, d] && [c, d] == [c] + [d] && [d] == [d] + [];
    OnwardCons(w, a, [b, c, d]);
    OnwardCons(Next(w, a), b, [c, d]);
    OnwardCons(Next(Next(w, a), b), c, [d]);
    OnwardCons(Next(Next(Next(w, a), b), c), d, []);
  }

  lemma ReportMovesPhase(w: World, pods: Result<seq<Pod>, Error>, now: int)
    ensures
      var next := Next(w, Report(pods, now));
      && next.(phase := Idle) == w.(phase := Idle)
      && (if w.phase.Holding? then next.phase.Idle? || next.phase.Saving? else next.phase == w.phase)
  {
  }

  lemma QuietDown(w: World)
    ensures Onward(w, [GetJob(true), CreateJob(true), Report(Ok([]), 0), Save(true)]) == w.(phase := Idle)
  {
    OnwardFour(w, GetJob(true), CreateJob(true), Report(Ok([]), 0), Save(true));
    var asked := Next(w, GetJob(true));
    assert asked == if w.phase.Fetched? then w.(phase := Idle) else w;
    var created := Next(asked, CreateJob(true));
    assert created == if asked.phase.Missing? then asked.(phase := Idle) else asked;
    ReportMovesPhase(created, Ok([]), 0);
  }

  /** A reconcile of a task without a job creates one exactly when the copy that it reads lacks Initialized. */
  lemma Reread(w: World, readAt: Option<nat>)
    requires w.phase.Idle?
    ensures
      var copy := if readAt.Some? && readAt.value < |w.history| then w.history[readAt.value] else w.saved;
      var end := Onward(w, [DeleteJob, Fetch(readAt), GetJob(false), CreateJob(false)]);
      && end.saved == w.saved && end.history == w.history
      && end.creations == if IsTrue(copy, Initialized)
        then w.creations else w.creations + [Creation(w.nextUid, w.saved)]
  {
    OnwardFour(w, DeleteJob, Fetch(readAt), GetJob(false), CreateJob(false));
  }

  /** After any run of fresh reads the task can run once more exactly when Initialized is not saved. */
  lemma AnotherRunIff(steps: seq<Step>)
    requires FreshReads(steps)
    ensures (exists more :: FreshReads(more) && After(steps + more).creations != After(steps).creations) <==>
            !IsTrue(After(steps).saved, Initialized)
  {
    if IsTrue(After(steps).saved, Initialized) {
      forall more | FreshReads(more)
        ensures After(steps + more).creations == After(steps).creations
      {
        assert FreshReads(steps + more);
        assert (steps + more)[..|steps|] == steps;
        OnceInitialized(steps + more, |steps|);
      }
    } else {
      AgainCreatesIff(After(steps), None);
      AfterMore(steps, Again(None));
      assert FreshReads(Again(None));
    }
  }

  predicate NoDeletes(steps: seq<Step>) {
    forall i :: 0 <= i < |steps| ==> !steps[i].DeleteJob?
  }

  /** There is a job, or there will be none any more. */
  predicate Provided(w: World) {
    w.job.Some? || IsTrue(w.saved, Initialized)
  }

  lemma ProvidedStep(w: World, step: Step)
    requires Invariant(w) && Provided(w) && !step.DeleteJob? && Grows(w.saved, Next(w, step).saved)
    ensures Provided(Next(w, step)) && Next(w, step).creations == w.creations
  {
    if step.Report? {
      ReportMovesPhase(w, step.pods, step.now);
    }
  }

  lemma {:induction false} ProvidedCreatesNothing(steps: seq<Step>, more: seq<Step>)
    requires FreshReads(steps) && FreshReads(more) && NoDeletes(more) && Provided(After(steps))
    ensures Provided(After(steps + more)) && After(steps + more).creations == After(steps).creations
    decreases |more|
  {
    if more == [] {
      assert steps + more == steps;
    } else {
      var n := |more| - 1;
      ProvidedCreatesNothing(steps, more[..n]);
      InvariantHolds(steps + more[..n]);
      InvariantStep(After(steps + more[..n]), more[n]);
      ProvidedStep(After(steps + more[..n]), more[n]);
      AfterOne(steps + more[..n], more[n]);
      assert steps + more[..n] + [more[n]] == steps + more;
    }
  }

  /** Fail what is going on, lose its save, and reconcile anew, deleting nothing. */
  function Anew(): seq<Step> {
    [GetJob(true), CreateJob(true), Report(Ok([]), 0), Save(true)] +
      [Save(true), Fetch(None), GetJob(false), CreateJob(false)]
  }

  lemma IdleReconcileCreates(w: World)
    requires w.phase.Idle? && w.job.None? && !IsTrue(w.saved, Initialized)
    ensures Onward(w, [Save(true), Fetch(None), GetJob(false), CreateJob(false)]).creations ==
      w.creations + [Creation(w.nextUid, w.saved)]
  {
    OnwardFour(w, Save(true), Fetch(None), GetJob(false), CreateJob(false));
    assert Next(w, Save(true)) == w;
    var fetched := Next(w, Fetch(None));
    assert fetched == w.(phase := Fetched(w.saved));
    assert Next(fetched, GetJob(false)) == w.(phase := Missing(w.saved));
  }

  lemma AnewCreates(w: World)
    requires w.job.None? && !IsTrue(w.saved, Initialized)
    ensures Onward(w, Anew()).creations == w.creations + [Creation(w.nextUid, w.saved)]
  {
    var first := [GetJob(true), CreateJob(true), Report(Ok([]), 0), Save(true)];
    assert Anew()[..4] == first;
    assert Anew()[4..] == [Save(true), Fetch(None), GetJob(false), CreateJob(false)];
    OnwardSplits(w, Anew(), 4);
    QuietDown(w);
    IdleReconcileCreates(w.(phase := Idle));
  }

  /**
    After any run of fresh reads, and as long as no job is deleted, a further job can be created exactly when
    there is none and Initialized is not saved.
   */
  lemma AnotherRunWithoutDeletionIff(steps: seq<Step>)
    requires FreshReads(steps)
    ensures
      (exists more :: FreshReads(more) && NoDeletes(more) &&
        After(steps + more).creations != After(steps).creations) <==>
      After(steps).job.None? && !IsTrue(After(steps).saved, Initialized)
  {
    if Provided(After(steps)) {
      forall more | FreshReads(more) && NoDeletes(more)
        ensures After(steps + more).creations == After(steps).creations
      {
        ProvidedCreatesNothing(steps, more);
      }
    } else {
      AnewCreates(After(steps));
      AfterMore(steps, Anew());
      assert FreshReads(Anew()) && NoDeletes(Anew());
    }
  }

  lemma OnceMore(steps: seq<Step>)
    requires !IsTrue(After(steps).saved, Initialized)
    ensures After(steps + Again(None)).saved == After(steps).saved
    ensures |After(steps + Again(None)).creations| == |After(steps).creations| + 1
  {
    AgainCreatesIff(After(steps), None);
    AfterMore(steps, Again(None));
  }

  /** While it is not saved, any number of jobs can come and go. */
  lemma {:induction false} LostSaveLetsTaskRunTwice(steps: seq<Step>, n: nat) returns (more: seq<Step>)
    requires !IsTrue(After(steps).saved, Initialized)
    ensures FreshReads(more) && After(steps + more).saved == After(steps).saved
    ensures |After(steps + more).creations| == |After(steps).creations| + n
  {
    if n == 0 {
      more := [];
      assert steps + [] == steps;
    } else {
      var before := LostSaveLetsTaskRunTwice(steps, n - 1);
      OnceMore(steps + before);
      more := before + Again(None);
      assert steps + more == steps + before + Again(None);
      assert FreshReads(Again(None));
    }
  }

  /** The first conditions that were ever saved are still there to be read. */
  lemma {:induction false} HistoryBeginsEmpty(steps: seq<Step>)
    ensures var w := After(steps); if w.history == [] then w.saved == [] else w.history[0] == []
  {
    if steps != [] {
      HistoryBeginsEmpty(steps[..|steps| - 1]);
    }
  }

  /** Fresh reads are needed: after every run a reconcile that may read an old copy can run the task again. */
  lemma StaleReadRunsTaskAgain(steps: seq<Step>)
    ensures After(steps + Again(Some(0))).creations ==
      After(steps).creations + [Creation(After(steps).nextUid, After(steps).saved)]
  {
    HistoryBeginsEmpty(steps);
    AgainCreatesIff(After(steps), Some(0));
    AfterMore(steps, Again(Some(0)));
  }
}
