/**
  Process statistics: the pods of a process are folded into one record for each desired instance.
  A quantity is an exact number of billionths of its unit.
 */
module Stats {
  import opened Common
  import opened Numbers

  const POD_INDEX_LABEL := "apps.kubernetes.io/pod-index"

  // ---------------------------------------------------------------- pods

  datatype State = Starting | Running | Down | Crashed

  datatype Condition = Condition(kind: string, isTrue: bool)

  /** A container that waits has a reason for it. */
  datatype ContainerStatus = ContainerStatus(waiting: Option<string>)

  datatype Pod = Pod(labels: map<string, string>, conditions: seq<Condition>, containers: seq<ContainerStatus>)

  type Usage = map<string, int>

  datatype PodMetrics = PodMetrics(pod: Pod, containers: seq<Usage>, timestamp: int)

  function ExtractIndex(pod: Pod): Option<nat> {
    if POD_INDEX_LABEL !in pod.labels then None
    else
      var index := Atoi(pod.labels[POD_INDEX_LABEL]);
      if index.None? || index.value < 0 then None else Some(index.value)
  }

  /** An index that is printed as a label is read back, as long as it fits in 64 bits. */
  lemma PrintedIndexIsExtractedIff(pod: Pod, n: nat)
    requires POD_INDEX_LABEL in pod.labels && pod.labels[POD_INDEX_LABEL] == Itoa(n)
    ensures ExtractIndex(pod) == if IsInt64(n) then Some(n) else None
  {
    ValueOfItoa(n);
  }

  /** The first condition of a kind decides. */
  function PodConditionStatus(conditions: seq<Condition>, kind: string): bool {
    if conditions == [] then false
    else if conditions[0].kind == kind then conditions[0].isTrue
    else PodConditionStatus(conditions[1..], kind)
  }

  predicate PodHasCrashedContainer(pod: Pod) {
    exists i :: 0 <= i < |pod.containers| && pod.containers[i].waiting == Some("CrashLoopBackOff")
  }

  function GetPodState(pod: Pod): State {
    if PodConditionStatus(pod.conditions, "Ready") then Running
    else if !PodConditionStatus(pod.conditions, "PodScheduled") then Down
    else if PodHasCrashedContainer(pod) then Crashed
    else Starting
  }

  /** The first condition of a kind says so. */
  predicate FirstTrue(conditions: seq<Condition>, kind: string) {
    exists i :: 0 <= i < |conditions| && conditions[i] == Condition(kind, true) &&
                forall j :: 0 <= j < i ==> conditions[j].kind != kind
  }

  lemma {:induction false} ConditionStatusMeaning(conditions: seq<Condition>, kind: string)
    ensures PodConditionStatus(conditions, kind) <==> FirstTrue(conditions, kind)
  {
    if conditions != [] {
      var rest := conditions[1..];
      ConditionStatusMeaning(rest, kind);
      assert forall i :: 0 < i < |conditions| ==> conditions[i] == rest[i - 1];
      if conditions[0].kind != kind && FirstTrue(rest, kind) {
        var i :| 0 <= i < |rest| && rest[i] == Condition(kind, true) &&
                 forall j :: 0 <= j < i ==> rest[j].kind != kind;
        assert conditions[i + 1] == Condition(kind, true);
      }
      if conditions[0].kind != kind && FirstTrue(conditions, kind) {
        var i :| 0 <= i < |conditions| && conditions[i] == Condition(kind, true) &&
                 forall j :: 0 <= j < i ==> conditions[j].kind != kind;
        assert rest[i - 1] == Condition(kind, true);
        assert forall j :: 0 <= j < i - 1 ==> rest[j] == conditions[j + 1];
      }
    }
  }

  predicate IsReady(pod: Pod) {
    FirstTrue(pod.conditions, "Ready")
  }

  predicate IsScheduled(pod: Pod) {
    FirstTrue(pod.conditions, "PodScheduled")
  }

  predicate IsCrashLooping(pod: Pod) {
    ContainerStatus(Some("CrashLoopBackOff")) in pod.containers
  }

  /** A pod that is ready runs; one that is not is down without a place to run, crashed when some container waits so. */
  lemma PodStateMeaning(pod: Pod)
    ensures GetPodState(pod) == Running <==> IsReady(pod)
    ensures GetPodState(pod) == Down <==> !IsReady(pod) && !IsScheduled(pod)
    ensures GetPodState(pod) == Crashed <==> !IsReady(pod) && IsScheduled(pod) && IsCrashLooping(pod)
    ensures GetPodState(pod) == Starting <==> !IsReady(pod) && IsScheduled(pod) && !IsCrashLooping(pod)
  {
    ConditionStatusMeaning(pod.conditions, "Ready");
    ConditionStatusMeaning(pod.conditions, "PodScheduled");
  }

  // ---------------------------------------------------------------- the sum over containers

  predicate Measured(containers: seq<Usage>, resource: string) {
    exists i :: 0 <= i < |containers| && resource in containers[i]
  }

  function Amount(usage: Usage, resource: string): int {
    if resource in usage then usage[resource] else 0
  }

  function Sum(containers: seq<Usage>, resource: string): int {
    if containers == [] then 0
    else
      Sum(containers[..|containers| - 1], resource) + Amount(containers[|containers| - 1], resource)
  }

  /** The containers are added up in order, the resources of each in no particular order. */
  method AggregateContainerMetrics(containers: seq<Usage>) returns (metrics: Usage)
    ensures forall r :: r in metrics <==> Measured(containers, r)
    ensures forall r :: r in metrics ==> metrics[r] == Sum(containers, r)
  {
    metrics := map[];
    for i := 0 to |containers|
      invariant forall r :: r in metrics <==> Measured(containers[..i], r)
      invariant forall r :: Amount(metrics, r) == Sum(containers[..i], r)
    {
      metrics := AddUsage(metrics, containers[i]);
      forall r
        ensures r in metrics <==> Measured(containers[..i + 1], r)
        ensures Amount(metrics, r) == Sum(containers[..i + 1], r)
      {
        MeasuredStep(containers, i, r);
      }
    }
    assert containers[..|containers|] == containers;
  }

  method AddUsage(metrics: Usage, usage: Usage) returns (r: Usage)
    ensures forall k :: k in r <==> k in metrics || k in usage
    ensures forall k :: Amount(r, k) == Amount(metrics, k) + Amount(usage, k)
  {
    r := metrics;
    var left := usage.Keys;
    ghost var added: Usage := map[];
    while left != {}
      invariant left <= usage.Keys
      invariant added == map k | k in usage && k !in left :: usage[k]
      invariant forall k :: k in r <==> k in metrics || k in added
      invariant forall k :: Amount(r, k) == Amount(metrics, k) + Amount(added, k)
      decreases |left|
    {
      var k :| k in left;
      assert Amount(r, k) == Amount(metrics, k);
      ghost var before := r;
      if k in r {
        r := r[k := r[k] + usage[k]];
      } else {
        r := r[k := usage[k]];
      }
      assert forall l :: l != k ==>
        Amount(r, l) == Amount(before, l) && Amount(added[k := usage[k]], l) == Amount(added, l);
      left := left - {k};
      added := added[k := usage[k]];
    }
    assert added == usage;
  }

  lemma MeasuredStep(containers: seq<Usage>, i: nat, r: string)
    requires i < |containers|
    ensures Measured(containers[..i + 1], r) <==> Measured(containers[..i], r) || r in containers[i]
    ensures Sum(containers[..i + 1], r) == Sum(containers[..i], r) + Amount(containers[i], r)
  {
    var next := containers[..i + 1];
    assert next[..i] == containers[..i];
    assert next[i] == containers[i];
    assert forall j :: 0 <= j < i ==> next[j] == containers[..i][j];
  }

  /** Sum adds what each container has. */
  lemma {:induction false} SumMeaning(a: seq<Usage>, b: seq<Usage>, usage: Usage, r: string)
    ensures Sum([], r) == 0 && Sum([usage], r) == if r in usage then usage[r] else 0
    ensures Sum(a + b, r) == Sum(a, r) + Sum(b, r)
    decreases |b|
  {
    assert [usage][..0] == [];
    if b == [] {
      assert a + b == a;
    } else {
      var n := |b| - 1;
      assert (a + b)[..|a + b| - 1] == a + b[..n];
      SumMeaning(a, b[..n], usage, r);
    }
  }

  // ---------------------------------------------------------------- the records

  datatype Process = Process(guid: string, kind: string, desiredInstances: int, memoryMB: int, diskQuotaMB: int)

  /** The share of a CPU is a real: the rounding of floating point is left out. */
  datatype Record = Record(
    processGUID: string,
    processType: string,
    index: int,
    state: State,
    cpu: Option<real>,
    mem: Option<int>,
    disk: Option<int>,
    timestamp: Option<int>,
    memQuota: Option<int>,
    diskQuota: Option<int>)

  function DownRecord(p: Process, index: int): Record {
    Record(p.guid, p.kind, index, Down, None, None, None, None, None, None)
  }

  /** The library rounds a quantity up to whole units. */
  function Units(quantity: int): int {
    -((-quantity) / 1_000_000_000)
  }

  function MegabytesToBytes(mb: int): int {
    Wrap64(Wrap64(mb * 1024) * 1024)
  }

  datatype Error = FetchFailed | BadIndex

  datatype Outcome = Records(records: seq<Record>) | Failed(error: Error) | Panicked

  /** Whether a pod has a say in the record of an instance. */
  predicate Counts(m: PodMetrics, index: nat) {
    ExtractIndex(m.pod) == Some(index) && GetPodState(m.pod) != Down
  }

  predicate CountsWith(m: PodMetrics, index: nat, resource: string) {
    Counts(m, index) && Measured(m.containers, resource)
  }

  predicate CountsMeasured(m: PodMetrics, index: nat) {
    Counts(m, index) && AnyMeasured(m)
  }

  function Counting(index: nat): PodMetrics -> bool {
    m => Counts(m, index)
  }

  function CountingWith(index: nat, resource: string): PodMetrics -> bool {
    m => CountsWith(m, index, resource)
  }

  function CountingMeasured(index: nat): PodMetrics -> bool {
    m => CountsMeasured(m, index)
  }

  function Last(metrics: seq<PodMetrics>, p: PodMetrics -> bool): Option<PodMetrics>
  {
    if metrics == [] then None
    else
      var k := |metrics| - 1;
      if p(metrics[k]) then Some(metrics[k]) else Last(metrics[..k], p)
  }

  function Cpu(m: PodMetrics): real {
    Sum(m.containers, "cpu") as real / 1_000_000_000.0
  }

  function Memory(m: PodMetrics): int {
    Units(Sum(m.containers, "memory"))
  }

  function Storage(m: PodMetrics): int {
    Units(Sum(m.containers, "storage"))
  }

  function RecordFrom(p: Process, index: nat, stated: Option<PodMetrics>, cpu: Option<PodMetrics>,
                      memory: Option<PodMetrics>,
                      storage: Option<PodMetrics>, measured: Option<PodMetrics>): Record
  {
    Record(
      p.guid,
      p.kind,
      index,
      if stated.None? then Down else GetPodState(stated.value.pod),
      if cpu.None? then None else Some(Cpu(cpu.value)),
      if memory.None? then None else Some(Memory(memory.value)),
      if storage.None? then None else Some(Storage(storage.value)),
      if measured.None? then None else Some(measured.value.timestamp),
      if measured.None? then None else Some(MegabytesToBytes(p.memoryMB)),
      if measured.None? then None else Some(MegabytesToBytes(p.diskQuotaMB)))
  }

  /**
    The record of an instance: its state is that of the last pod with its index that is not down, each amount is
    of the last such pod that has it, and the time and quotas come with the last such pod that has any amount.
   */
  function RecordOf(p: Process, metrics: seq<PodMetrics>, index: nat): Record {
    RecordFrom(
      p, index,
      Last(metrics, Counting(index)),
      Last(metrics, CountingWith(index, "cpu")),
      Last(metrics, CountingWith(index, "memory")),
      Last(metrics, CountingWith(index, "storage")),
      Last(metrics, CountingMeasured(index)))
  }

  lemma LastStep(metrics: seq<PodMetrics>, k: nat, p: PodMetrics -> bool)
    requires k < |metrics|
    ensures Last(metrics[..k + 1], p) == if p(metrics[k]) then Some(metrics[k]) else Last(metrics[..k], p)
  {
    assert metrics[..k + 1][..k] == metrics[..k];
  }

  /** What one more pod makes of a record. */
  function Noted(p: Process, before: Record, m: PodMetrics): Record {
    var stated := before.(state := GetPodState(m.pod));
    if !AnyMeasured(m) then stated
    else
      stated.(
      cpu := if Measured(m.containers, "cpu") then Some(Cpu(m)) else before.cpu,
      mem := if Measured(m.containers, "memory") then Some(Memory(m)) else before.mem,
      disk := if Measured(m.containers, "storage") then Some(Storage(m)) else before.disk,
      timestamp := Some(m.timestamp),
      memQuota := Some(MegabytesToBytes(p.memoryMB)),
      diskQuota := Some(MegabytesToBytes(p.diskQuotaMB)))
  }

  predicate AnyMeasured(m: PodMetrics) {
    exists i :: 0 <= i < |m.containers| && m.containers[i] != map[]
  }

  lemma NotedAssembles(p: Process, index: nat, m: PodMetrics, stated: Option<PodMetrics>, cpu: Option<PodMetrics>,
                       memory: Option<PodMetrics>,
                       storage: Option<PodMetrics>, measured: Option<PodMetrics>)
    ensures Noted(p, RecordFrom(p, index, stated, cpu, memory, storage, measured), m) ==
            RecordFrom(p, index, Some(m),
                       if Measured(m.containers, "cpu") then Some(m) else cpu,
                       if Measured(m.containers, "memory") then Some(m) else memory,
                       if Measured(m.containers, "storage") then Some(m) else storage,
                       if AnyMeasured(m) then Some(m) else measured)
  {
  }

  lemma RecordStep(p: Process, metrics: seq<PodMetrics>, k: nat, index: nat)
    requires k < |metrics|
    ensures RecordOf(p, metrics[..k + 1], index) ==
            var before := RecordOf(p, metrics[..k], index);
            if Counts(metrics[k], index) then Noted(p, before, metrics[k]) else before
  {
    LastStep(metrics, k, Counting(index));
    LastStep(metrics, k, CountingWith(index, "cpu"));
    LastStep(metrics, k, CountingWith(index, "memory"));
    LastStep(metrics, k, CountingWith(index, "storage"));
    LastStep(metrics, k, CountingMeasured(index));
    var ms := metrics[..k];
    NotedAssembles(
      p, index, metrics[k], Last(ms, Counting(index)), Last(ms, CountingWith(index, "cpu")),
        Last(ms, CountingWith(index, "memory")),
      Last(ms, CountingWith(index, "storage")), Last(ms, CountingMeasured(index)));
  }

  lemma {:induction false} LastMeaning(metrics: seq<PodMetrics>, p: PodMetrics -> bool)
    ensures Last(metrics, p).None? <==> forall j :: 0 <= j < |metrics| ==> !p(metrics[j])
    ensures Last(metrics, p).Some? ==> p(Last(metrics, p).value)
  {
    var n := |metrics| - 1;
    if metrics != [] && !p(metrics[n]) {
      LastMeaning(metrics[..n], p);
      assert forall j :: 0 <= j < n ==> metrics[..n][j] == metrics[j];
    }
  }

  lemma {:induction false} LastIs(metrics: seq<PodMetrics>, p: PodMetrics -> bool, k: nat)
    requires k < |metrics| && p(metrics[k]) && forall j :: k < j < |metrics| ==> !p(metrics[j])
    ensures Last(metrics, p) == Some(metrics[k])
  {
    if k < |metrics| - 1 {
      LastIs(metrics[..|metrics| - 1], p, k);
    }
  }

  predicate LastToCount(metrics: seq<PodMetrics>, index: nat, k: int) {
    0 <= k < |metrics| && Counts(metrics[k], index) && forall j :: k < j < |metrics| ==> !Counts(metrics[j], index)
  }

  // ---------------------------------------------------------------- what a record shows

  /** A pod has a say in an instance: its label is the index, and it is ready or at least has a place to run. */
  predicate Says(m: PodMetrics, index: nat) {
    && POD_INDEX_LABEL in m.pod.labels && Atoi(m.pod.labels[POD_INDEX_LABEL]) == Some(index)
    && (IsReady(m.pod) || IsScheduled(m.pod))
  }

  predicate SaysOf(m: PodMetrics, index: nat, resource: string) {
    Says(m, index) && exists i :: 0 <= i < |m.containers| && resource in m.containers[i]
  }

  predicate SaysAny(m: PodMetrics, index: nat) {
    Says(m, index) && exists i :: 0 <= i < |m.containers| && m.containers[i] != map[]
  }

  lemma CountsIff(m: PodMetrics, index: nat)
    ensures Counts(m, index) <==> Says(m, index)
    ensures forall resource :: CountsWith(m, index, resource) <==> SaysOf(m, index, resource)
    ensures CountsMeasured(m, index) <==> SaysAny(m, index)
  {
    PodStateMeaning(m.pod);
  }

  predicate LastToSay(metrics: seq<PodMetrics>, index: nat, k: int) {
    0 <= k < |metrics| && Says(metrics[k], index) && forall j :: k < j < |metrics| ==> !Says(metrics[j], index)
  }

  predicate LastToSayOf(metrics: seq<PodMetrics>, index: nat, resource: string, k: int) {
    && 0 <= k < |metrics| && SaysOf(metrics[k], index, resource)
    && forall j :: k < j < |metrics| ==> !SaysOf(metrics[j], index, resource)
  }

  predicate LastToSayAny(metrics: seq<PodMetrics>, index: nat, k: int) {
    0 <= k < |metrics| && SaysAny(metrics[k], index) && forall j :: k < j < |metrics| ==> !SaysAny(metrics[j], index)
  }

  lemma LastSaying(metrics: seq<PodMetrics>, index: nat)
    ensures Last(metrics, Counting(index)).None? <==> forall j :: 0 <= j < |metrics| ==> !Says(metrics[j], index)
    ensures forall k :: LastToSay(metrics, index, k) ==> Last(metrics, Counting(index)) == Some(metrics[k])
  {
    forall m ensures Counting(index)(m) <==> Says(m, index) {
      CountsIff(m, index);
    }
    LastMeaning(metrics, Counting(index));
    forall k | LastToSay(metrics, index, k) ensures Last(metrics, Counting(index)) == Some(metrics[k]) {
      LastIs(metrics, Counting(index), k);
    }
  }

  lemma LastSayingOf(metrics: seq<PodMetrics>, index: nat, resource: string)
    ensures Last(metrics, CountingWith(index, resource)).None? <==>
            forall j :: 0 <= j < |metrics| ==> !SaysOf(metrics[j], index, resource)
    ensures forall k :: LastToSayOf(metrics, index, resource, k) ==>
                          Last(metrics, CountingWith(index, resource)) == Some(metrics[k])
  {
    forall m ensures CountingWith(index, resource)(m) <==> SaysOf(m, index, resource) {
      CountsIff(m, index);
    }
    LastMeaning(metrics, CountingWith(index, resource));
    forall k | LastToSayOf(metrics, index, resource, k)
      ensures Last(metrics, CountingWith(index, resource)) == Some(metrics[k])
    {
      LastIs(metrics, CountingWith(index, resource), k);
    }
  }

  lemma LastSayingAny(metrics: seq<PodMetrics>, index: nat)
    ensures Last(metrics, CountingMeasured(index)).None? <==>
            forall j :: 0 <= j < |metrics| ==> !SaysAny(metrics[j], index)
    ensures forall k :: LastToSayAny(metrics, index, k) ==> Last(metrics, CountingMeasured(index)) == Some(metrics[k])
  {
    forall m ensures CountingMeasured(index)(m) <==> SaysAny(m, index) {
      CountsIff(m, index);
    }
    LastMeaning(metrics, CountingMeasured(index));
    forall k | LastToSayAny(metrics, index, k)
      ensures Last(metrics, CountingMeasured(index)) == Some(metrics[k])
    {
      LastIs(metrics, CountingMeasured(index), k);
    }
  }

  lemma BlankRecord(p: Process, metrics: seq<PodMetrics>, index: nat)
    requires forall j :: 0 <= j < |metrics| ==> !Says(metrics[j], index)
    ensures RecordOf(p, metrics, index) == DownRecord(p, index)
  {
    LastSaying(metrics, index);
    LastSayingOf(metrics, index, "cpu");
    LastSayingOf(metrics, index, "memory");
    LastSayingOf(metrics, index, "storage");
    LastSayingAny(metrics, index);
  }

  lemma StateOfLast(p: Process, metrics: seq<PodMetrics>, index: nat, k: nat)
    requires LastToSay(metrics, index, k)
    ensures StateFits(RecordOf(p, metrics, index).state, metrics[k].pod)
  {
    LastSaying(metrics, index);
    PodStateMeaning(metrics[k].pod);
  }

  /** The state of a pod that is not down. */
  predicate StateFits(state: State, pod: Pod) {
    && (state == Running <==> IsReady(pod))
    && (state == Crashed <==> !IsReady(pod) && IsCrashLooping(pod))
    && (state == Starting <==> !IsReady(pod) && !IsCrashLooping(pod))
  }

  lemma DownIff(p: Process, metrics: seq<PodMetrics>, index: nat)
    ensures RecordOf(p, metrics, index).state == Down <==> forall j :: 0 <= j < |metrics| ==> !Says(metrics[j], index)
  {
    LastSaying(metrics, index);
    LastMeaning(metrics, Counting(index));
  }

  /** The last pod with a say decides the state; without one the instance is down and its record blank. */
  lemma LastPodDecides(p: Process, metrics: seq<PodMetrics>, index: nat)
    ensures RecordOf(p, metrics, index).state == Down <==> forall j :: 0 <= j < |metrics| ==> !Says(metrics[j], index)
    ensures RecordOf(p, metrics, index).state == Down ==>
      RecordOf(p, metrics, index) == Record(p.guid, p.kind, index, Down, None, None, None, None, None, None)
    ensures forall k :: LastToSay(metrics, index, k) ==> StateFits(RecordOf(p, metrics, index).state, metrics[k].pod)
  {
    DownIff(p, metrics, index);
    if RecordOf(p, metrics, index).state == Down {
      BlankRecord(p, metrics, index);
    }
    forall k | LastToSay(metrics, index, k)
      ensures StateFits(RecordOf(p, metrics, index).state, metrics[k].pod)
    {
      StateOfLast(p, metrics, index, k);
    }
  }

  /** The least whole number of units that holds a quantity. */
  predicate RoundedUp(units: int, quantity: int) {
    (units - 1) * 1_000_000_000 < quantity <= units * 1_000_000_000
  }

  predicate NobodySaysOf(metrics: seq<PodMetrics>, index: nat, resource: string) {
    forall j :: 0 <= j < |metrics| ==> !SaysOf(metrics[j], index, resource)
  }

  predicate IsBillionths(quantity: int, share: real) {
    share * 1_000_000_000.0 == quantity as real
  }

  lemma UnitsRoundUp(quantity: int)
    ensures RoundedUp(Units(quantity), quantity)
  {
  }

  /** Each amount is what the containers of the last pod with a say that has any of it have together. */
  lemma CpuShown(p: Process, metrics: seq<PodMetrics>, index: nat)
    ensures RecordOf(p, metrics, index).cpu.None? <==> NobodySaysOf(metrics, index, "cpu")
    ensures forall k :: LastToSayOf(metrics, index, "cpu", k) ==>
      var cpu := RecordOf(p, metrics, index).cpu;
      cpu.Some? && IsBillionths(Sum(metrics[k].containers, "cpu"), cpu.value)
  {
    LastSayingOf(metrics, index, "cpu");
    forall k | LastToSayOf(metrics, index, "cpu", k)
      ensures IsBillionths(Sum(metrics[k].containers, "cpu"), Cpu(metrics[k]))
    {
    }
  }

  lemma MemoryShown(p: Process, metrics: seq<PodMetrics>, index: nat)
    ensures RecordOf(p, metrics, index).mem.None? <==> NobodySaysOf(metrics, index, "memory")
    ensures forall k :: LastToSayOf(metrics, index, "memory", k) ==>
      var mem := RecordOf(p, metrics, index).mem;
      mem.Some? && RoundedUp(mem.value, Sum(metrics[k].containers, "memory"))
  {
    LastSayingOf(metrics, index, "memory");
    forall k | LastToSayOf(metrics, index, "memory", k)
      ensures RoundedUp(Memory(metrics[k]), Sum(metrics[k].containers, "memory"))
    {
      UnitsRoundUp(Sum(metrics[k].containers, "memory"));
    }
  }

  lemma StorageShown(p: Process, metrics: seq<PodMetrics>, index: nat)
    ensures RecordOf(p, metrics, index).disk.None? <==> NobodySaysOf(metrics, index, "storage")
    ensures forall k :: LastToSayOf(metrics, index, "storage", k) ==>
      var disk := RecordOf(p, metrics, index).disk;
      disk.Some? && RoundedUp(disk.value, Sum(metrics[k].containers, "storage"))
  {
    LastSayingOf(metrics, index, "storage");
    forall k | LastToSayOf(metrics, index, "storage", k)
      ensures RoundedUp(Storage(metrics[k]), Sum(metrics[k].containers, "storage"))
    {
      UnitsRoundUp(Sum(metrics[k].containers, "storage"));
    }
  }

  /** The time is that of the last pod with a say and any amount; with it come the process's quotas, in bytes. */
  lemma QuotasShown(p: Process, metrics: seq<PodMetrics>, index: nat)
    ensures (forall j :: 0 <= j < |metrics| ==> !SaysAny(metrics[j], index)) ==>
      var r := RecordOf(p, metrics, index);
      r.timestamp.None? && r.memQuota.None? && r.diskQuota.None?
    ensures forall k :: LastToSayAny(metrics, index, k) ==>
      var r := RecordOf(p, metrics, index);
      && r.timestamp == Some(metrics[k].timestamp)
      && r.memQuota == Some(Wrap64(p.memoryMB * 1_048_576))
      && r.diskQuota == Some(Wrap64(p.diskQuotaMB * 1_048_576))
    ensures
      var r := RecordOf(p, metrics, index);
      r.processGUID == p.guid && r.processType == p.kind && r.index == index
  {
    LastSayingAny(metrics, index);
    WrapTwice(p.memoryMB);
    WrapTwice(p.diskQuotaMB);
  }

  /** A product that wraps around twice wraps around once. */
  lemma WrapTwice(mb: int)
    ensures MegabytesToBytes(mb) == Wrap64(mb * 1_048_576)
  {
    var k := (mb * 1024 + TWO_63) / (2 * TWO_63);
    assert Wrap64(mb * 1024) == mb * 1024 - k * 2 * TWO_63;
    WrapPeriod(mb * 1_048_576, -1024 * k);
  }

  predicate AnyCountsWith(metrics: seq<PodMetrics>, index: nat, resource: string) {
    exists j :: 0 <= j < |metrics| && CountsWith(metrics[j], index, resource)
  }

  lemma {:induction false} AnyLastIff(metrics: seq<PodMetrics>, index: nat, resource: string)
    ensures Last(metrics, CountingWith(index, resource)).Some? <==> AnyCountsWith(metrics, index, resource)
  {
    var n := |metrics| - 1;
    if metrics != [] && !CountsWith(metrics[n], index, resource) {
      AnyLastIff(metrics[..n], index, resource);
      assert forall j :: 0 <= j < n ==> metrics[..n][j] == metrics[j];
    }
  }

  lemma LastFrom(metrics: seq<PodMetrics>, p: PodMetrics -> bool, k: nat)
    requires k < |metrics| && forall j :: k < j < |metrics| ==> !p(metrics[j])
    ensures Last(metrics, p) == if p(metrics[k]) then Some(metrics[k]) else Last(metrics[..k], p)
  {
    if p(metrics[k]) {
      LastIs(metrics, p, k);
    } else {
      LastOfPrefix(metrics, p, k);
    }
  }

  /** No pod after `k` counts, as far as a resource goes. */
  lemma NoneCountsWith(metrics: seq<PodMetrics>, index: nat, k: nat, resource: string)
    requires k < |metrics| && forall j :: k < j < |metrics| ==> !Counting(index)(metrics[j])
    ensures forall j :: k < j < |metrics| ==> !CountingWith(index, resource)(metrics[j])
  {
    forall j | k < j < |metrics| ensures !CountingWith(index, resource)(metrics[j]) {
      assert !Counting(index)(metrics[j]);
    }
  }

  /** An amount is shown that the pod with the say does not have. */
  predicate Stale<T>(shown: Option<T>, last: PodMetrics, resource: string) {
    shown.Some? && !Measured(last.containers, resource)
  }

  /**
    An amount of a record is that of the last pod that counts, if it has one. A stale amount is shown exactly
    when it has none and some earlier pod that counts had one, and then it is what the earlier pods had left.
   */
  lemma StaleAmountsIff(p: Process, metrics: seq<PodMetrics>, index: nat, k: nat)
    requires LastToCount(metrics, index, k)
    ensures
      var last, shown, left := metrics[k], RecordOf(p, metrics, index), RecordOf(p, metrics[..k], index);
      && (Stale(shown.cpu, last, "cpu") <==>
        !Measured(last.containers, "cpu") && AnyCountsWith(metrics[..k], index, "cpu"))
      && (Stale(shown.mem, last, "memory") <==>
        !Measured(last.containers, "memory") && AnyCountsWith(metrics[..k], index, "memory"))
      && (Stale(shown.disk, last, "storage") <==>
        !Measured(last.containers, "storage") && AnyCountsWith(metrics[..k], index, "storage"))
      && shown.cpu == (if Measured(last.containers, "cpu") then Some(Cpu(last)) else left.cpu)
      && shown.mem == (if Measured(last.containers, "memory") then Some(Memory(last)) else left.mem)
      && shown.disk == (if Measured(last.containers, "storage") then Some(Storage(last)) else left.disk)
  {
    assert forall j :: k < j < |metrics| ==> !Counting(index)(metrics[j]);
    NoneCountsWith(metrics, index, k, "cpu");
    NoneCountsWith(metrics, index, k, "memory");
    NoneCountsWith(metrics, index, k, "storage");
    LastFrom(metrics, CountingWith(index, "cpu"), k);
    LastFrom(metrics, CountingWith(index, "memory"), k);
    LastFrom(metrics, CountingWith(index, "storage"), k);
    AnyLastIff(metrics[..k], index, "cpu");
    AnyLastIff(metrics[..k], index, "memory");
    AnyLastIff(metrics[..k], index, "storage");
  }

  lemma {:induction false} LastOfPrefix(metrics: seq<PodMetrics>, p: PodMetrics -> bool, k: nat)
    requires k <= |metrics| && forall j :: k <= j < |metrics| ==> !p(metrics[j])
    ensures Last(metrics, p) == Last(metrics[..k], p)
  {
    var n := |metrics| - 1;
    if k <= n {
      LastOfPrefix(metrics[..n], p, k);
      assert metrics[..n][..k] == metrics[..k];
    } else {
      assert metrics[..k] == metrics;
    }
  }

  /** A pod without an index: no label, or not the number of an instance. */
  predicate BadIndexed(m: PodMetrics) {
    POD_INDEX_LABEL !in m.pod.labels ||
      var index := Atoi(m.pod.labels[POD_INDEX_LABEL]);
      index.None? || index.value < 0
  }

  method NotePod(p: Process, before: Record, m: PodMetrics, podState: State) returns (record: Record)
    requires podState == GetPodState(m.pod)
    ensures record == Noted(p, before, m)
  {
    record := before.(state := podState);
    var metricsMap := AggregateContainerMetrics(m.containers);
    NothingMeasured(m.containers, metricsMap);
    if |metricsMap| == 0 {
      return;
    }
    if "cpu" in metricsMap {
      record := record.(cpu := Some(metricsMap["cpu"] as real / 1_000_000_000.0));
    }
    if "memory" in metricsMap {
      record := record.(mem := Some(Units(metricsMap["memory"])));
    }
    if "storage" in metricsMap {
      record := record.(disk := Some(Units(metricsMap["storage"])));
    }
    record := record.(
      timestamp := Some(m.timestamp), memQuota := Some(MegabytesToBytes(p.memoryMB)), diskQuota :=
        Some(MegabytesToBytes(p.diskQuotaMB)));
  }

  /** The three reads may fail; the number of desired instances is used unchecked to size the result. */
  method FetchStats(process: Option<Process>, stopped: Option<bool>, fetched: Option<seq<PodMetrics>>)
    returns (o: Outcome)
    ensures process.None? || stopped.None? ==> o == Failed(FetchFailed)
    ensures process.Some? && stopped == Some(true) ==>
      o == Records([Record(process.value.guid, process.value.kind, 0, Down, None, None, None, None, None, None)])
    ensures process.Some? && stopped == Some(false) ==>
      if fetched.None? then o == Failed(FetchFailed)
      else if process.value.desiredInstances < 0 then o.Panicked?
      else if exists m :: m in fetched.value && BadIndexed(m) then o == Failed(BadIndex)
      else o.Records? && |o.records| == process.value.desiredInstances
           && forall i :: 0 <= i < |o.records| ==> o.records[i] == RecordOf(process.value, fetched.value, i)
  {
    if process.None? || stopped.None? {
      return Failed(FetchFailed);
    }
    var p := process.value;
    if stopped.value {
      return Records([DownRecord(p, 0)]);
    }
    if fetched.None? {
      return Failed(FetchFailed);
    }
    var metrics := fetched.value;
    if p.desiredInstances < 0 {
      return Panicked;
    }
    var records := new Record[p.desiredInstances](i => DownRecord(p, i));
    for k := 0 to |metrics|
      invariant forall m :: m in metrics[..k] ==> !BadIndexed(m)
      invariant forall i :: 0 <= i < records.Length ==> records[i] == RecordOf(p, metrics[..k], i)
    {
      var m := metrics[k];
      assert metrics[..k + 1] == metrics[..k] + [m];
      forall i | 0 <= i < records.Length
        ensures RecordOf(p, metrics[..k + 1], i) == if Counts(m, i)
          then Noted(p, RecordOf(p, metrics[..k], i), m) else RecordOf(p, metrics[..k], i)
      {
        RecordStep(p, metrics, k, i);
      }
      var index := ExtractIndex(m.pod);
      if index.None? {
        assert m in metrics && BadIndexed(m);
        return Failed(BadIndex);
      }
      var podState := GetPodState(m.pod);
      if podState == Down {
        continue;
      }
      if index.value >= records.Length {
        continue;
      }
      var i := index.value;
      records[i] := NotePod(p, records[i], m, podState);
    }
    assert metrics[..|metrics|] == metrics;
    return Records(records[..]);
  }

  lemma NothingMeasured(containers: seq<Usage>, metrics: Usage)
    requires forall r :: r in metrics <==> Measured(containers, r)
    ensures |metrics| == 0 <==> forall i :: 0 <= i < |containers| ==> containers[i] == map[]
  {
  }
}
