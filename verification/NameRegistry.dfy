/**
  The name registry: a name is owned by whoever created the lease whose object name is
  a digest of the entity type and the name. Webhooks create, patch and delete leases
  concurrently; every registry call performs at most one atomic store operation, so an
  interleaving of any number of callers is a sequence of calls.
 */
module NameRegistry {
  import opened Common

  const HASHED_NAME_PREFIX := "n-"
  const UNLOCKED := "none"
  const LOCKED := "locked"
  const HOLDER_PATH := "/spec/holderIdentity"

  datatype Key = Key(namespace: string, leaseName: string)
  datatype Owner = Owner(namespace: string, name: string)
  datatype Lease = Lease(entityType: string, namespace: string, name: string, owner: Owner, holder: Option<string>)

  type Leases = map<Key, Lease>

  datatype Error = AlreadyExists | NotFound | PatchFailed | Unavailable

  function Reply(fault: Fault, err: Option<Error>): Option<Error> {
    if fault.NoFault? then err else Some(Unavailable)
  }

  // ---------------------------------------------------------------- JSON Patch

  /** Operations of a JSON Patch, sections 4.6 and 4.3 of RFC 6902. */
  datatype PatchOp = TestOp(path: string, value: string) | ReplaceOp(path: string, value: string)

  /** Both operations need their target to exist; None is failure. */
  function ApplyOp(lease: Lease, op: PatchOp): Option<Lease> {
    if op.path != HOLDER_PATH || lease.holder.None? then None
    else match op
      case TestOp(_, v) => if lease.holder.value == v then Some(lease) else None
      case ReplaceOp(_, v) => Some(lease.(holder := Some(v)))
  }

  /** The patch is applied in order and fails as a whole, section 5 of RFC 6902. */
  function ApplyPatch(lease: Lease, ops: seq<PatchOp>): Option<Lease>
    decreases |ops|
  {
    if ops == [] then Some(lease)
    else match ApplyOp(lease, ops[0])
      case None => None
      case Some(next) => ApplyPatch(next, ops[1..])
  }

  function SwapPatch(from: string, to: string): seq<PatchOp> {
    [TestOp(HOLDER_PATH, from), ReplaceOp(HOLDER_PATH, to)]
  }

  /** Test-and-replace is a compare-and-swap on the holder. */
  lemma SwapPatchIsCompareAndSwap(lease: Lease, from: string, to: string)
    ensures ApplyPatch(lease, SwapPatch(from, to)) ==
            if lease.holder == Some(from) then Some(lease.(holder := Some(to))) else None
  {
    var ops := SwapPatch(from, to);
    assert ops[1..] == [ReplaceOp(HOLDER_PATH, to)];
    match ApplyOp(lease, ops[0])
    case None =>
    case Some(next) =>
      assert ApplyPatch(next, ops[1..]) == Some(next.(holder := Some(to)));
  }

  // ---------------------------------------------------------------- calls

  datatype Op = Register(owner: Owner) | Deregister | TryLock | Unlock

  /** One call of one caller on the registry of an entity type. */
  datatype Call = Call(caller: nat, entityType: string, dryRun: bool, fault: Fault, namespace: string, name: string,
    op: Op)

  function HashInput(entityType: string, name: string): string {
    entityType + "::" + name
  }

  function HashName(sha1: string -> string, entityType: string, name: string): string {
    HASHED_NAME_PREFIX + sha1(HashInput(entityType, name))
  }

  function KeyOf(sha1: string -> string, entityType: string, namespace: string, name: string): Key {
    Key(namespace, HashName(sha1, entityType, name))
  }

  function KeyOfCall(sha1: string -> string, c: Call): Key {
    KeyOf(sha1, c.entityType, c.namespace, c.name)
  }

  function Holder(leases: Leases, k: Key): Option<string> {
    if k in leases then leases[k].holder else None
  }

  /** Whether a call reaches the store and changes it. */
  predicate Applied(sha1: string -> string, leases: Leases, c: Call) {
    var k := KeyOfCall(sha1, c);
    && !c.dryRun
    && !c.fault.Rejected?
    && match c.op
       case Register(_) => k !in leases
       case Deregister => k in leases
       case TryLock => Holder(leases, k) == Some(UNLOCKED)
       case Unlock => Holder(leases, k) == Some(LOCKED)
  }

  function Effect(sha1: string -> string, leases: Leases, c: Call): Leases {
    var k := KeyOfCall(sha1, c);
    if !Applied(sha1, leases, c) then leases
    else match c.op
      case Register(owner) => leases[k := Lease(c.entityType, c.namespace, c.name, owner, Some(UNLOCKED))]
      case Deregister => leases - {k}
      case TryLock => leases[k := leases[k].(holder := Some(LOCKED))]
      case Unlock => leases[k := leases[k].(holder := Some(UNLOCKED))]
  }

  function Outcome(sha1: string -> string, leases: Leases, c: Call): Option<Error> {
    var k := KeyOfCall(sha1, c);
    if c.dryRun then None
    else Reply(c.fault,
               if Applied(sha1, leases, c) || c.op.Deregister? then None
               else if c.op.Register? then Some(AlreadyExists)
               else if k in leases then Some(PatchFailed)
               else Some(NotFound))
  }

  /** What CheckNameOwnership answers. */
  function Owns(sha1: string -> string, leases: Leases, fault: Fault,
                entityType: string, namespace: string, name: string, owner: Owner): Result<bool, Error> {
    var k := KeyOf(sha1, entityType, namespace, name);
    if !fault.NoFault? then Err(Unavailable)
    else if k !in leases then Err(NotFound)
    else Ok(leases[k].owner == owner)
  }

  /** What a call answers and does, told from the lease of its name. */
  lemma CallMeaning(sha1: string -> string, leases: Leases, c: Call)
    ensures
      var k := Key(c.namespace, "n-" + sha1(c.entityType + "::" + c.name));
      var after, err := Effect(sha1, leases, c), Outcome(sha1, leases, c);
      var taken := k in leases;
      && (c.dryRun ==> err.None? && after == leases)
      && (!c.dryRun && !c.fault.NoFault? ==> err == Some(Unavailable))
      && (!c.dryRun && c.fault.Rejected? ==> after == leases)
      && (!c.dryRun && !c.fault.Rejected? ==>
        match c.op
        case Register(owner) =>
          && after == (if taken then leases
                       else leases[k := Lease(c.entityType, c.namespace, c.name, owner, Some("none"))])
          && (c.fault.NoFault? ==> err == if taken then Some(AlreadyExists) else None)
        case Deregister =>
          && after == leases - {k}
          && (c.fault.NoFault? ==> err.None?)
        case TryLock =>
          && after == (if taken && leases[k].holder == Some("none")
                       then leases[k := leases[k].(holder := Some("locked"))] else leases)
          && (c.fault.NoFault? ==> err == if !taken then Some(NotFound)
                                          else if leases[k].holder == Some("none") then None
                                          else Some(PatchFailed))
        case Unlock =>
          && after == (if taken && leases[k].holder == Some("locked")
                       then leases[k := leases[k].(holder := Some("none"))] else leases)
          && (c.fault.NoFault? ==> err == if !taken then Some(NotFound)
                                          else if leases[k].holder == Some("locked") then None
                                          else Some(PatchFailed)))
  {
    var k := Key(c.namespace, "n-" + sha1(c.entityType + "::" + c.name));
    assert k == KeyOfCall(sha1, c);
    assert k !in leases ==> leases - {k} == leases;
  }

  // ---------------------------------------------------------------- the implementation

  /** The object store, reduced to leases. */
  class LeaseStore {
    var leases: Leases

    method Create(key: Key, lease: Lease, fault: Fault) returns (err: Option<Error>)
      modifies this
      ensures leases == if !fault.Rejected? && key !in old(leases) then old(leases)[key := lease] else old(leases)
      ensures err == Reply(fault, if key in old(leases) then Some(AlreadyExists) else None)
    {
      err := Reply(fault, if key in leases then Some(AlreadyExists) else None);
      if !fault.Rejected? && key !in leases {
        leases := leases[key := lease];
      }
    }

    method Delete(key: Key, fault: Fault) returns (err: Option<Error>)
      modifies this
      ensures leases == if fault.Rejected? then old(leases) else old(leases) - {key}
      ensures err == Reply(fault, if key in old(leases) then None else Some(NotFound))
    {
      err := Reply(fault, if key in leases then None else Some(NotFound));
      if !fault.Rejected? {
        leases := leases - {key};
      }
    }

    method Patch(key: Key, ops: seq<PatchOp>, fault: Fault) returns (err: Option<Error>)
      modifies this
      ensures
        var patched := if key in old(leases) then ApplyPatch(old(leases)[key], ops) else None;
        && leases == (if !fault.Rejected? && patched.Some? then old(leases)[key := patched.value] else old(leases))
        && err == Reply(fault, if key !in old(leases) then Some(NotFound)
                               else if patched.None? then Some(PatchFailed)
                               else None)
    {
      if key !in leases {
        return Reply(fault, Some(NotFound));
      }
      var patched := ApplyPatch(leases[key], ops);
      if patched.None? {
        return Reply(fault, Some(PatchFailed));
      }
      if !fault.Rejected? {
        leases := leases[key := patched.value];
      }
      err := Reply(fault, None);
    }

    method Get(key: Key, fault: Fault) returns (r: Result<Lease, Error>)
      ensures r == if !fault.NoFault? then Err(Unavailable)
                   else if key in leases then Ok(leases[key])
                   else Err(NotFound)
    {
      if !fault.NoFault? {
        return Err(Unavailable);
      }
      r := if key in leases then Ok(leases[key]) else Err(NotFound);
    }
  }

  /** The registry of one entity type. Callers identify themselves only for the specification. */
  class Registry {
    const client: LeaseStore
    const entityType: string
    const sha1: string -> string

    constructor (client: LeaseStore, entityType: string, sha1: string -> string)
      ensures this.client == client && this.entityType == entityType && this.sha1 == sha1
    {
      this.client := client;
      this.entityType := entityType;
      this.sha1 := sha1;
    }

    method RegisterName(dryRun: bool, fault: Fault, namespace: string, name: string, owner: Owner)
      returns (err: Option<Error>)
      modifies client
      ensures forall caller ::
                var c := Call(caller, entityType, dryRun, fault, namespace, name, Register(owner));
                client.leases == Effect(sha1, old(client.leases), c) && err == Outcome(sha1, old(client.leases), c)
    {
      if dryRun {
        return None;
      }
      var hashedName := HashName(sha1, entityType, name);
      var lease := Lease(entityType, namespace, name, owner, Some(UNLOCKED));
      err := client.Create(Key(namespace, hashedName), lease, fault);
    }

    method DeregisterName(dryRun: bool, fault: Fault, namespace: string, name: string) returns (err: Option<Error>)
      modifies client
      ensures forall caller ::
                var c := Call(caller, entityType, dryRun, fault, namespace, name, Deregister);
                client.leases == Effect(sha1, old(client.leases), c) && err == Outcome(sha1, old(client.leases), c)
    {
      if dryRun {
        return None;
      }
      var key := Key(namespace, HashName(sha1, entityType, name));
      err := client.Delete(key, fault);
      if err == Some(NotFound) {
        err := None;
      }
      assert key !in old(client.leases) ==> old(client.leases) - {key} == old(client.leases);
    }

    method TryLockName(dryRun: bool, fault: Fault, namespace: string, name: string) returns (err: Option<Error>)
      modifies client
      ensures forall caller ::
                var c := Call(caller, entityType, dryRun, fault, namespace, name, TryLock);
                client.leases == Effect(sha1, old(client.leases), c) && err == Outcome(sha1, old(client.leases), c)
    {
      if dryRun {
        return None;
      }
      var key := Key(namespace, HashName(sha1, entityType, name));
      if key in client.leases {
        SwapPatchIsCompareAndSwap(client.leases[key], UNLOCKED, LOCKED);
      }
      err := client.Patch(key, SwapPatch(UNLOCKED, LOCKED), fault);
    }

    method UnlockName(dryRun: bool, fault: Fault, namespace: string, name: string) returns (err: Option<Error>)
      modifies client
      ensures forall caller ::
                var c := Call(caller, entityType, dryRun, fault, namespace, name, Unlock);
                client.leases == Effect(sha1, old(client.leases), c) && err == Outcome(sha1, old(client.leases), c)
    {
      if dryRun {
        return None;
      }
      var key := Key(namespace, HashName(sha1, entityType, name));
      if key in client.leases {
        SwapPatchIsCompareAndSwap(client.leases[key], LOCKED, UNLOCKED);
      }
      err := client.Patch(key, SwapPatch(LOCKED, UNLOCKED), fault);
    }

    method CheckNameOwnership(fault: Fault, namespace: string, name: string, owner: Owner)
      returns (r: Result<bool, Error>)
      ensures r == Owns(sha1, client.leases, fault, entityType, namespace, name, owner)
    {
      var lease := client.Get(Key(namespace, HashName(sha1, entityType, name)), fault);
      if lease.Err? {
        return Err(lease.error);
      }
      r := Ok(lease.value.owner.namespace == owner.namespace && lease.value.owner.name == owner.name);
    }
  }

  // ---------------------------------------------------------------- runs

  /** The leases after a run that started with none. */
  function After(sha1: string -> string, calls: seq<Call>): Leases {
    if calls == [] then map[]
    else
      var n := |calls| - 1;
      Effect(sha1, After(sha1, calls[..n]), calls[n])
  }

  /** Whether a call reports success; a dry run reports it without doing anything. */
  predicate Succeeded(sha1: string -> string, leases: Leases, c: Call) {
    !c.dryRun && Outcome(sha1, leases, c).None?
  }

  /**
    The locks (true) and unlocks (false) that a run performed on a lease since the lease was
    last created or deleted, as seen by the store or, when `reported`, by the callers.
   */
  function LockHistory(sha1: string -> string, calls: seq<Call>, k: Key, reported: bool): seq<bool> {
    if calls == [] then []
    else
      var n := |calls| - 1;
      var c, before := calls[n], After(sha1, calls[..n]);
      var history := LockHistory(sha1, calls[..n], k, reported);
      if KeyOfCall(sha1, c) != k || !(if reported then Succeeded(sha1, before, c) else Applied(sha1, before, c))
        then history
      else match c.op
        case Register(_) => []
        case Deregister => []
        case TryLock => history + [true]
        case Unlock => history + [false]
  }

  predicate Alternates(history: seq<bool>) {
    forall i :: 0 <= i < |history| ==> history[i] == (i % 2 == 0)
  }

  /** In every interleaving, locks and unlocks of one lease alternate, a lock first. */
  lemma {:induction false} LocksAlternate(sha1: string -> string, calls: seq<Call>, k: Key)
    ensures Alternates(LockHistory(sha1, calls, k, false))
    ensures k !in After(sha1, calls) ==> LockHistory(sha1, calls, k, false) == []
    ensures k in After(sha1, calls) ==>
              After(sha1, calls)[k].holder ==
              Some(if |LockHistory(sha1, calls, k, false)| % 2 == 0 then UNLOCKED else LOCKED)
  {
    if calls != [] {
      LocksAlternate(sha1, calls[..|calls| - 1], k);
    }
  }

  predicate NoReplyLost(sha1: string -> string, calls: seq<Call>, k: Key) {
    forall i :: 0 <= i < |calls| && KeyOfCall(sha1, calls[i]) == k ==> !calls[i].fault.ReplyLost?
  }

  /** Unless a reply is lost, the callers see what the store does. */
  lemma {:induction false} ReportedIsApplied(sha1: string -> string, calls: seq<Call>, k: Key)
    requires NoReplyLost(sha1, calls, k)
    ensures LockHistory(sha1, calls, k, true) == LockHistory(sha1, calls, k, false)
  {
    if calls != [] {
      var n := |calls| - 1;
      ReportedIsApplied(sha1, calls[..n], k);
      LocksAlternate(sha1, calls[..n], k);
      assert KeyOfCall(sha1, calls[n]) == k ==> !calls[n].fault.ReplyLost?;
    }
  }

  /** What the callers were told alternates, and tells them whether the lease is locked. */
  predicate InStep(sha1: string -> string, calls: seq<Call>, k: Key) {
    var told, leases := LockHistory(sha1, calls, k, true), After(sha1, calls);
    Alternates(told) && (k in leases ==> leases[k].holder == Some(if |told| % 2 == 0 then UNLOCKED else LOCKED))
  }

  /**
    A call that reaches the lease, whose reply is lost, and that locks, unlocks, or renews a lease last heard of
    as locked.
   */
  predicate Telling(sha1: string -> string, calls: seq<Call>, c: Call, k: Key) {
    && KeyOfCall(sha1, c) == k && c.fault.ReplyLost? && Applied(sha1, After(sha1, calls), c)
    && (c.op.TryLock? || c.op.Unlock? || (c.op.Register? && |LockHistory(sha1, calls, k, true)| % 2 == 1))
  }

  lemma InStepAfterIff(sha1: string -> string, calls: seq<Call>, c: Call, k: Key)
    requires InStep(sha1, calls, k)
    ensures InStep(sha1, calls + [c], k) <==> !Telling(sha1, calls, c, k)
  {
    var longer := calls + [c];
    assert longer[..|longer| - 1] == calls && longer[|longer| - 1] == c;
    LocksAlternate(sha1, calls, k);
  }

  predicate FaultFree(calls: seq<Call>) {
    forall i :: 0 <= i < |calls| ==> calls[i].fault.NoFault?
  }

  lemma {:induction false} FaultFreeStaysInStep(sha1: string -> string, calls: seq<Call>, more: seq<Call>, k: Key)
    requires InStep(sha1, calls, k) && FaultFree(more)
    ensures InStep(sha1, calls + more, k)
  {
    if more == [] {
      assert calls + more == calls;
    } else {
      var n := |more| - 1;
      FaultFreeStaysInStep(sha1, calls, more[..n], k);
      InStepAfterIff(sha1, calls + more[..n], more[n], k);
      assert calls + more == calls + more[..n] + [more[n]];
    }
  }

  /** The next call that the store would let through although the callers have been told otherwise. */
  lemma OutOfStepSurprises(sha1: string -> string, calls: seq<Call>, k: Key, c: Call)
    requires Alternates(LockHistory(sha1, calls, k, true)) && !InStep(sha1, calls, k)
    requires k in After(sha1, calls) && KeyOfCall(sha1, c) == k && c.fault.NoFault? && !c.dryRun
    requires c.op == if After(sha1, calls)[k].holder == Some(UNLOCKED) then TryLock else Unlock
    ensures !Alternates(LockHistory(sha1, calls + [c], k, true))
  {
    var longer, told := calls + [c], LockHistory(sha1, calls, k, true);
    assert longer[..|longer| - 1] == calls && longer[|longer| - 1] == c;
    LocksAlternate(sha1, calls, k);
    var after := LockHistory(sha1, longer, k, true);
    assert after == told + [c.op.TryLock?];
    assert after[|told|] == c.op.TryLock?;
  }

  /** The name and the type that a lease key belongs to in a run. */
  lemma {:induction false} LeaseHasCall(sha1: string -> string, calls: seq<Call>, k: Key) returns (c: Call)
    requires k in After(sha1, calls)
    ensures KeyOfCall(sha1, c) == k
  {
    var n := |calls| - 1;
    if k in After(sha1, calls[..n]) {
      c := LeaseHasCall(sha1, calls[..n], k);
    } else {
      c := calls[n];
    }
  }

  /** After any run, successes will alternate however it goes on without faults exactly when the callers are in step. */
  lemma SuccessesAlternateIff(sha1: string -> string, calls: seq<Call>, k: Key)
    ensures (forall more :: FaultFree(more) ==> Alternates(LockHistory(sha1, calls + more, k, true))) <==>
      InStep(sha1, calls, k)
  {
    if InStep(sha1, calls, k) {
      forall more | FaultFree(more)
        ensures Alternates(LockHistory(sha1, calls + more, k, true))
      {
        FaultFreeStaysInStep(sha1, calls, more, k);
      }
    } else if Alternates(LockHistory(sha1, calls, k, true)) {
      var c := LeaseHasCall(sha1, calls, k);
      var op := if After(sha1, calls)[k].holder == Some(UNLOCKED) then TryLock else Unlock;
      var d := c.(fault := NoFault, dryRun := false, op := op);
      OutOfStepSurprises(sha1, calls, k, d);
      assert FaultFree([d]);
    } else {
      assert calls + [] == calls && FaultFree([]);
    }
  }

  /** So the one call that can end the alternation of a run in step is one whose lost reply tells. */
  lemma LostReplyMattersIff(sha1: string -> string, calls: seq<Call>, c: Call, k: Key)
    requires InStep(sha1, calls, k)
    ensures (exists more :: FaultFree(more) && !Alternates(LockHistory(sha1, calls + [c] + more, k, true))) <==>
      Telling(sha1, calls, c, k)
  {
    InStepAfterIff(sha1, calls, c, k);
    SuccessesAlternateIff(sha1, calls + [c], k);
  }

  /** At every moment of a run. */
  predicate AlwaysInStep(sha1: string -> string, calls: seq<Call>, k: Key) {
    InStep(sha1, calls, k) && (calls == [] || AlwaysInStep(sha1, calls[..|calls| - 1], k))
  }

  predicate NeverTelling(sha1: string -> string, calls: seq<Call>, k: Key) {
    calls == [] ||
      (NeverTelling(sha1, calls[..|calls| - 1], k) && !Telling(sha1, calls[..|calls| - 1], calls[|calls| - 1], k))
  }

  /**
    Callers are in step all along, so that their successes alternate, exactly in the runs in which no lost reply
    tells.
   */
  lemma {:induction false} SuccessesAlternate(sha1: string -> string, calls: seq<Call>, k: Key)
    ensures AlwaysInStep(sha1, calls, k) <==> NeverTelling(sha1, calls, k)
    ensures NeverTelling(sha1, calls, k) ==> Alternates(LockHistory(sha1, calls, k, true))
  {
    if calls != [] {
      var n := |calls| - 1;
      SuccessesAlternate(sha1, calls[..n], k);
      assert calls[..n] + [calls[n]] == calls;
      if InStep(sha1, calls[..n], k) {
        InStepAfterIff(sha1, calls[..n], calls[n], k);
      }
    }
  }

  /** Such a run: the first success that anybody hears of is an unlock. */
  lemma LostReplyBreaksAlternation(sha1: string -> string, e: string, ns: string, n: string, owner: Owner, a: nat,
                                   b: nat)
    ensures
      var calls := [Call(a, e, false, NoFault, ns, n, Register(owner)), Call(a, e, false, ReplyLost, ns, n, TryLock),
                    Call(b, e, false, NoFault, ns, n, Unlock)];
      LockHistory(sha1, calls, KeyOf(sha1, e, ns, n), true) == [false]
  {
    var k := KeyOf(sha1, e, ns, n);
    var c0 := Call(a, e, false, NoFault, ns, n, Register(owner));
    var c1 := Call(a, e, false, ReplyLost, ns, n, TryLock);
    var c2 := Call(b, e, false, NoFault, ns, n, Unlock);
    var calls := [c0, c1, c2];
    assert calls[..2] == [c0, c1] && [c0, c1][..1] == [c0] && [c0][..0] == [];
    assert After(sha1, [c0]) == map[k := Lease(e, ns, n, owner, Some(UNLOCKED))];
    assert After(sha1, [c0, c1])[k].holder == Some(LOCKED);
    assert LockHistory(sha1, [c0, c1], k, true) == [];
  }

  // ---------------------------------------------------------------- mutual exclusion

  /** The callers that locked a lease and have not themselves released it, by unlocking or deleting it. */
  function Holders(sha1: string -> string, calls: seq<Call>, k: Key): set<nat> {
    if calls == [] then {}
    else
      var n := |calls| - 1;
      var c, holders := calls[n], Holders(sha1, calls[..n], k);
      if KeyOfCall(sha1, c) != k || !Applied(sha1, After(sha1, calls[..n]), c) then holders
      else match c.op
        case TryLock => holders + {c.caller}
        case Register(_) => holders
        case _ => holders - {c.caller}
  }

  /** A lease that somebody holds is released only by a holder. */
  predicate ReleasedByHolders(sha1: string -> string, calls: seq<Call>, k: Key) {
    forall i {:trigger calls[i]} :: 0 <= i < |calls| ==>
      var c, holders := calls[i], Holders(sha1, calls[..i], k);
      KeyOfCall(sha1, c) == k && Applied(sha1, After(sha1, calls[..i]), c) && (c.op.Unlock? || c.op.Deregister?) &&
        holders != {}
      ==> c.caller in holders
  }

  ghost predicate AtMostOne(holders: set<nat>) {
    holders == {} || exists h :: holders == {h}
  }

  /** Two callers never hold a lease at once, provided that nobody releases a lease for its holder. */
  lemma {:induction false} MutualExclusion(sha1: string -> string, calls: seq<Call>, k: Key)
    requires ReleasedByHolders(sha1, calls, k)
    ensures AtMostOne(Holders(sha1, calls, k))
    ensures Holders(sha1, calls, k) != {} <==> Holder(After(sha1, calls), k) == Some(LOCKED)
  {
    if calls != [] {
      var n := |calls| - 1;
      var c, before := calls[n], After(sha1, calls[..n]);
      forall i {:trigger calls[..n][i]} | 0 <= i < n
        ensures calls[..n][i] == calls[i] && calls[..n][..i] == calls[..i]
      {
      }
      MutualExclusion(sha1, calls[..n], k);
      LocksAlternate(sha1, calls[..n], k);
      if KeyOfCall(sha1, c) == k && Applied(sha1, before, c) {
        HoldersStep(sha1, before, c, Holders(sha1, calls[..n], k));
      }
    }
  }

  lemma HoldersStep(sha1: string -> string, leases: Leases, c: Call, holders: set<nat>)
    requires Applied(sha1, leases, c) && AtMostOne(holders)
    requires holders != {} <==> Holder(leases, KeyOfCall(sha1, c)) == Some(LOCKED)
    requires (c.op.Unlock? || c.op.Deregister?) && holders != {} ==> c.caller in holders
    ensures
      var next := match c.op
                  case TryLock => holders + {c.caller}
                  case Register(_) => holders
                  case _ => holders - {c.caller};
      && AtMostOne(next)
      && (next != {} <==> Holder(Effect(sha1, leases, c), KeyOfCall(sha1, c)) == Some(LOCKED))
  {
  }

  /** All along a run, at most one caller holds the lease, and the lease says locked exactly when one does. */
  ghost predicate Exclusive(sha1: string -> string, calls: seq<Call>, k: Key) {
    forall n :: 0 <= n <= |calls| ==>
      AtMostOne(Holders(sha1, calls[..n], k)) &&
        (Holders(sha1, calls[..n], k) != {} <==> Holder(After(sha1, calls[..n]), k) == Some(LOCKED))
  }

  /** A release by anybody else leaves a holder of a lease that is not locked. */
  lemma ForeignReleaseShows(sha1: string -> string, calls: seq<Call>, k: Key, i: nat)
    requires i < |calls|
    requires KeyOfCall(sha1, calls[i]) == k && Applied(sha1, After(sha1, calls[..i]), calls[i]) &&
      (calls[i].op.Unlock? || calls[i].op.Deregister?)
    requires Holders(sha1, calls[..i], k) != {} && calls[i].caller !in Holders(sha1, calls[..i], k)
    ensures Holders(sha1, calls[..i + 1], k) != {} && Holder(After(sha1, calls[..i + 1]), k) != Some(LOCKED)
  {
    assert calls[..i + 1][..i] == calls[..i];
    LocksAlternate(sha1, calls[..i], k);
  }

  /** Exclusion holds all along a run exactly when nobody releases a lease for its holder. */
  lemma MutualExclusionIff(sha1: string -> string, calls: seq<Call>, k: Key)
    ensures Exclusive(sha1, calls, k) <==> ReleasedByHolders(sha1, calls, k)
  {
    if ReleasedByHolders(sha1, calls, k) {
      forall n | 0 <= n <= |calls|
        ensures AtMostOne(Holders(sha1, calls[..n], k))
        ensures Holders(sha1, calls[..n], k) != {} <==> Holder(After(sha1, calls[..n]), k) == Some(LOCKED)
      {
        forall i {:trigger calls[..n][i]} | 0 <= i < n
          ensures calls[..n][i] == calls[i] && calls[..n][..i] == calls[..i]
        {
        }
        MutualExclusion(sha1, calls[..n], k);
      }
    }
    if Exclusive(sha1, calls, k) {
      forall i {:trigger calls[i]} | 0 <= i < |calls|
        && KeyOfCall(sha1, calls[i]) == k && Applied(sha1, After(sha1, calls[..i]), calls[i])
        && (calls[i].op.Unlock? || calls[i].op.Deregister?) && Holders(sha1, calls[..i], k) != {}
        ensures calls[i].caller in Holders(sha1, calls[..i], k)
      {
        if calls[i].caller !in Holders(sha1, calls[..i], k) {
          ForeignReleaseShows(sha1, calls, k, i);
          assert false;
        }
      }
    }
  }

  /**
    Neither unlocking nor deregistering asks who holds the lease, so in every registry any third
    caller's unlock lets a second holder in.
   */
  lemma ForeignReleaseBreaksExclusion(sha1: string -> string, e: string, ns: string, n: string, owner: Owner, a: nat,
                                      b: nat, c: nat)
    requires b != a && c != a
    ensures
      var calls := [Call(a, e, false, NoFault, ns, n, Register(owner)), Call(a, e, false, NoFault, ns, n, TryLock),
                    Call(b, e, false, NoFault, ns, n, Unlock), Call(c, e, false, NoFault, ns, n, TryLock)];
      Holders(sha1, calls, KeyOf(sha1, e, ns, n)) == {a, c}
  {
    var k := KeyOf(sha1, e, ns, n);
    var c0 := Call(a, e, false, NoFault, ns, n, Register(owner));
    var c1 := Call(a, e, false, NoFault, ns, n, TryLock);
    var c2 := Call(b, e, false, NoFault, ns, n, Unlock);
    var c3 := Call(c, e, false, NoFault, ns, n, TryLock);
    var calls := [c0, c1, c2, c3];
    assert calls[..3] == [c0, c1, c2] && [c0, c1, c2][..2] == [c0, c1] && [c0, c1][..1] == [c0] && [c0][..0] == [];
    assert After(sha1, [c0]) == map[k := Lease(e, ns, n, owner, Some(UNLOCKED))];
    assert After(sha1, [c0, c1])[k].holder == Some(LOCKED);
    assert After(sha1, [c0, c1, c2])[k].holder == Some(UNLOCKED);
    assert Holders(sha1, [c0], k) == {};
    assert Holders(sha1, [c0, c1], k) == {a};
    assert Holders(sha1, [c0, c1, c2], k) == {a};
  }

  // ---------------------------------------------------------------- ownership

  /**
    The owner of a name, told from the calls alone: the latest registration that reached the store
    while the name was free, unless a deregistration followed. No digest and no lease is involved.
   */
  function OwnerOf(calls: seq<Call>, entityType: string, namespace: string, name: string): Option<Owner> {
    if calls == [] then None
    else
      var n := |calls| - 1;
      var c, owner := calls[n], OwnerOf(calls[..n], entityType, namespace, name);
      if c.dryRun || c.fault.Rejected? || c.entityType != entityType || c.namespace != namespace || c.name != name
        then owner
      else match c.op
        case Register(o) => if owner.None? then Some(o) else owner
        case Deregister => None
        case _ => owner
  }

  lemma {:induction false} ColonFreeHashInput(e: string, n: string, f: string, m: string)
    requires ':' !in e && ':' !in f
    requires HashInput(e, n) == HashInput(f, m)
    ensures e == f && n == m
  {
    var s := HashInput(e, n);
    assert s[|e|] == ':' && s[..|e|] == e;
    assert s[|f|] == ':' && s[..|f|] == f;
    assert forall i :: 0 <= i < |f| ==> s[i] == f[i] && f[i] in f;
    assert forall i :: 0 <= i < |e| ==> s[i] == e[i] && e[i] in e;
    assert |e| == |f|;
    assert s[|e| + 2..] == n;
    assert s[|f| + 2..] == m;
  }

  lemma ColonFreeKeys(sha1: string -> string, e: string, ns: string, n: string, f: string, ms: string, m: string)
    requires Injective(sha1) && ':' !in e && ':' !in f
    requires KeyOf(sha1, e, ns, n) == KeyOf(sha1, f, ms, m)
    ensures e == f && ns == ms && n == m
  {
    var a, b := HashName(sha1, e, n), HashName(sha1, f, m);
    assert a[|HASHED_NAME_PREFIX|..] == sha1(HashInput(e, n));
    assert b[|HASHED_NAME_PREFIX|..] == sha1(HashInput(f, m));
    ColonFreeHashInput(e, n, f, m);
  }

  /** Two registries can meet on one lease exactly when the type of one, with its "::", begins the other's. */
  lemma RegistriesMeetIff(sha1: string -> string, e: string, f: string, ns: string)
    requires Injective(sha1)
    ensures (exists n, m :: KeyOf(sha1, e, ns, n) == KeyOf(sha1, f, ns, m)) <==>
      (e + "::" <= f + "::" || f + "::" <= e + "::")
  {
    if n, m :| KeyOf(sha1, e, ns, n) == KeyOf(sha1, f, ns, m) {
      var a, b := HashName(sha1, e, n), HashName(sha1, f, m);
      assert a[|HASHED_NAME_PREFIX|..] == sha1(HashInput(e, n));
      assert b[|HASHED_NAME_PREFIX|..] == sha1(HashInput(f, m));
      var s := HashInput(e, n);
      assert s[..|e| + 2] == e + "::";
      assert s[..|f| + 2] == f + "::";
    }
    if e + "::" <= f + "::" {
      var n := (f + "::")[|e| + 2..];
      assert HashInput(e, n) == HashInput(f, "");
      assert KeyOf(sha1, e, ns, n) == KeyOf(sha1, f, ns, "");
    } else if f + "::" <= e + "::" {
      var m := (e + "::")[|f| + 2..];
      assert HashInput(f, m) == HashInput(e, "");
      assert KeyOf(sha1, e, ns, "") == KeyOf(sha1, f, ns, m);
    }
  }

  /** A call changes the lease of its own name and no other; a dry run and a refused call change none. */
  lemma CallsAreIsolated(sha1: string -> string, leases: Leases, c: Call, e: string, ns: string, n: string)
    requires Injective(sha1) && ':' !in e && ':' !in c.entityType
    requires c.dryRun || c.fault.Rejected? || (e, ns, n) != (c.entityType, c.namespace, c.name)
    ensures
      var k, after := KeyOf(sha1, e, ns, n), Effect(sha1, leases, c);
      (k in after <==> k in leases) && (k in leases ==> after[k] == leases[k])
  {
    if KeyOf(sha1, e, ns, n) == KeyOfCall(sha1, c) {
      ColonFreeKeys(sha1, e, ns, n, c.entityType, c.namespace, c.name);
    }
  }

  predicate ColonFree(calls: seq<Call>) {
    forall i :: 0 <= i < |calls| ==> ':' !in calls[i].entityType
  }

  /** In every reachable state the lease of a name records exactly its owner; locking never disturbs it. */
  lemma {:induction false} LeaseRecordsOwner(sha1: string -> string, calls: seq<Call>, e: string, ns: string, n: string)
    requires Injective(sha1) && ColonFree(calls) && ':' !in e
    ensures
      var k, leases := KeyOf(sha1, e, ns, n), After(sha1, calls);
      OwnerOf(calls, e, ns, n) == if k in leases then Some(leases[k].owner) else None
  {
    if calls != [] {
      var m := |calls| - 1;
      LeaseRecordsOwner(sha1, calls[..m], e, ns, n);
      LocksAlternate(sha1, calls[..m], KeyOf(sha1, e, ns, n));
      var c := calls[m];
      if c.dryRun || c.fault.Rejected? || (e, ns, n) != (c.entityType, c.namespace, c.name) {
        CallsAreIsolated(sha1, After(sha1, calls[..m]), c, e, ns, n);
      }
    }
  }

  /** The ownership check answers true for exactly the owner, and "not found" for a free name. */
  lemma OwnershipCheckIsExact(sha1: string -> string, calls: seq<Call>, e: string, ns: string, n: string, owner: Owner)
    requires Injective(sha1) && ColonFree(calls) && ':' !in e
    ensures Owns(sha1, After(sha1, calls), NoFault, e, ns, n, owner) ==
            match OwnerOf(calls, e, ns, n)
            case None => Err(NotFound)
            case Some(o) => Ok(o == owner)
  {
    LeaseRecordsOwner(sha1, calls, e, ns, n);
  }

  /** Registration succeeds on exactly the free names, so a name never has two owners. */
  lemma RegistrationIsExclusive(sha1: string -> string, calls: seq<Call>, c: Call)
    requires Injective(sha1) && ColonFree(calls + [c]) && c.op.Register? && !c.dryRun
    ensures Outcome(sha1, After(sha1, calls), c).None? <==>
            c.fault.NoFault? && OwnerOf(calls, c.entityType, c.namespace, c.name).None?
    ensures Outcome(sha1, After(sha1, calls), c).None? ==>
            OwnerOf(calls + [c], c.entityType, c.namespace, c.name) == Some(c.op.owner)
  {
    assert (calls + [c])[|calls|] == c && (calls + [c])[..|calls|] == calls;
    assert ColonFree(calls) by {
      assert forall i :: 0 <= i < |calls| ==> (calls + [c])[i] == calls[i];
    }
    LeaseRecordsOwner(sha1, calls, c.entityType, c.namespace, c.name);
  }
}
