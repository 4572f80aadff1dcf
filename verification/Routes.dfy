/**
  Route destinations: adding, removing and reporting. The records that the API works with carry the same fields
  as the destinations of a route, but ports that the route leaves open are filled in from its status.
 */
module Routes {
  import opened Common

  datatype Desired = Desired(appGUID: string, processType: string, port: Option<int>, protocol: Option<string>)

  datatype Destination = Destination(guid: string, appGUID: string, processType: string, port: Option<int>,
    protocol: Option<string>)

  function Of(d: Destination): Desired {
    Desired(d.appGUID, d.processType, d.port, d.protocol)
  }

  predicate Contains(destinations: seq<Destination>, desired: Desired) {
    exists i :: 0 <= i < |destinations| && Of(destinations[i]) == desired
  }

  function Guids(destinations: seq<Destination>): set<string> {
    set i | 0 <= i < |destinations| :: destinations[i].guid
  }

  // ---------------------------------------------------------------- merging

  /** GUIDs come from a supply; `used` of them have been taken. */
  type Supply = nat -> string

  ghost predicate FreshFor(supply: Supply, used: nat, destinations: seq<Destination>) {
    && (forall i: nat, j: nat :: used <= i < j ==> supply(i) != supply(j))
    && forall i: nat, d :: used <= i && d in destinations ==> supply(i) != d.guid
  }

  function ToDestination(d: Desired, guid: string): Destination {
    Destination(guid, d.appGUID, d.processType, d.port, d.protocol)
  }

  function Merge(existing: seq<Destination>, desired: seq<Desired>, supply: Supply,
                 used: nat): (merged: seq<Destination>)
    ensures existing <= merged
  {
    if desired == [] then existing
    else
      var last := desired[|desired| - 1];
      var before := Merge(existing, desired[..|desired| - 1], supply, used);
      if Contains(before, last) then before
      else before + [ToDestination(last, supply(used + |before| - |existing|))]
  }

  lemma ContainsAppended(destinations: seq<Destination>, d: Destination, desired: Desired)
    ensures Contains(destinations + [d], desired) <==> Contains(destinations, desired) || desired == Of(d)
  {
    var all := destinations + [d];
    assert all[|destinations|] == d;
    if i :| 0 <= i < |destinations| && Of(destinations[i]) == desired {
      assert all[i] == destinations[i];
    }
  }

  lemma {:induction false} MergeCovers(existing: seq<Destination>, desired: seq<Desired>, supply: Supply, used: nat,
                                       d: Desired)
    ensures Contains(Merge(existing, desired, supply, used), d) <==> Contains(existing, d) || d in desired
  {
    if desired != [] {
      var n := |desired| - 1;
      var before := Merge(existing, desired[..n], supply, used);
      assert d in desired <==>
        d in desired[..n] || d == desired[n] by { assert desired == desired[..n] + [desired[n]]; }
      MergeCovers(existing, desired[..n], supply, used, d);
      if !Contains(before, desired[n]) {
        var added := ToDestination(desired[n], supply(used + |before| - |existing|));
        assert Merge(existing, desired, supply, used) == before + [added] && Of(added) == desired[n];
        ContainsAppended(before, added, d);
      }
    }
  }

  lemma {:induction false} MergeAdds(existing: seq<Destination>, desired: seq<Desired>, supply: Supply, used: nat)
    ensures
      var merged := Merge(existing, desired, supply, used);
      && (forall i :: |existing| <= i < |merged| ==>
            !Contains(existing, Of(merged[i])) && Of(merged[i]) in desired &&
              merged[i].guid == supply(used + i - |existing|))
      && (forall i, j :: |existing| <= i < j < |merged| ==> Of(merged[i]) != Of(merged[j]))
  {
    if desired != [] {
      var n := |desired| - 1;
      var before := Merge(existing, desired[..n], supply, used);
      MergeAdds(existing, desired[..n], supply, used);
      assert desired == desired[..n] + [desired[n]];
      MergeCovers(existing, desired[..n], supply, used, desired[n]);
      assert forall i :: |existing| <= i < |before| ==> Contains(before, Of(before[i]));
    }
  }

  /** A destination is one that is asked for, field by field. */
  predicate Serves(x: Destination, d: Desired) {
    x.appGUID == d.appGUID && x.processType == d.processType && x.port == d.port && x.protocol == d.protocol
  }

  lemma ContainsIff(destinations: seq<Destination>, d: Desired)
    ensures Contains(destinations, d) <==> exists i :: 0 <= i < |destinations| && Serves(destinations[i], d)
  {
    if i :| 0 <= i < |destinations| && Serves(destinations[i], d) {
      assert Of(destinations[i]) == d;
    }
  }

  lemma ServesIff(x: Destination, d: Desired)
    ensures Serves(x, d) <==> Of(x) == d
  {
  }

  lemma AddedIsAsked(existing: seq<Destination>, desired: seq<Desired>, supply: Supply, used: nat, i: nat)
    requires |existing| <= i < |Merge(existing, desired, supply, used)|
    ensures exists d :: d in desired && Serves(Merge(existing, desired, supply, used)[i], d)
  {
    MergeAdds(existing, desired, supply, used);
    var added := Merge(existing, desired, supply, used)[i];
    assert Of(added) in desired;
    ServesIff(added, Of(added));
  }

  lemma AddedOnce(existing: seq<Destination>, desired: seq<Desired>, supply: Supply, used: nat, i: nat, j: nat,
                  d: Desired)
    requires i < j < |Merge(existing, desired, supply, used)| && |existing| <= j
    requires Serves(Merge(existing, desired, supply, used)[i], d)
    ensures !Serves(Merge(existing, desired, supply, used)[j], d)
  {
    MergeAdds(existing, desired, supply, used);
    var merged := Merge(existing, desired, supply, used);
    ServesIff(merged[i], d);
    ServesIff(merged[j], d);
    if i < |existing| {
      assert Of(existing[i]) == d;
      assert !Contains(existing, Of(merged[j]));
    }
  }

  /** What merging adds: everything desired that is not there yet, once each, and nothing else. */
  lemma MergeAddsWhatIsMissing(existing: seq<Destination>, desired: seq<Desired>, supply: Supply, used: nat)
    ensures
      var merged := Merge(existing, desired, supply, used);
      && existing <= merged
      && (forall d :: Contains(merged, d) <==> Contains(existing, d) || d in desired)
      && (forall d :: d in desired ==> exists i :: 0 <= i < |merged| && Serves(merged[i], d))
      && (forall i :: |existing| <= i < |merged| ==> merged[i].guid == supply(used + i - |existing|))
      && (forall i :: |existing| <= i < |merged| ==> exists d :: d in desired && Serves(merged[i], d))
      && (forall i, j, d :: 0 <= i < j < |merged| && |existing| <= j && Serves(merged[i], d) ==> !Serves(merged[j], d))
  {
    var merged := Merge(existing, desired, supply, used);
    forall d ensures Contains(merged, d) <==> Contains(existing, d) || d in desired {
      MergeCovers(existing, desired, supply, used, d);
    }
    forall d | d in desired ensures exists i :: 0 <= i < |merged| && Serves(merged[i], d) {
      ContainsIff(merged, d);
    }
    forall i | |existing| <= i < |merged| ensures exists d :: d in desired && Serves(merged[i], d) {
      AddedIsAsked(existing, desired, supply, used, i);
    }
    forall i, j, d | 0 <= i < j < |merged| && |existing| <= j && Serves(merged[i], d)
      ensures !Serves(merged[j], d)
    {
      AddedOnce(existing, desired, supply, used, i, j, d);
    }
    MergeAdds(existing, desired, supply, used);
  }

  /** Merging adds nothing exactly when everything desired is there. */
  lemma MergeAddsNothingIff(existing: seq<Destination>, desired: seq<Desired>, supply: Supply, used: nat)
    ensures Merge(existing, desired, supply, used) == existing <==> forall d :: d in desired ==> Contains(existing, d)
  {
  }

  /** As long as nobody fills in ports, merging again adds nothing, whatever GUIDs are in supply by then. */
  lemma MergeTwice(existing: seq<Destination>, desired: seq<Desired>, supply: Supply, used: nat, supply': Supply,
                   used': nat)
    ensures var merged := Merge(existing, desired, supply, used);
      Merge(merged, desired, supply', used') == merged
  {
    MergeAddsWhatIsMissing(existing, desired, supply, used);
    MergeAddsNothingIff(Merge(existing, desired, supply, used), desired, supply', used');
  }

  // ---------------------------------------------------------------- what a record shows

  function FindEffective(guid: string, status: seq<Destination>): Option<Destination> {
    if status == [] then None
    else if status[0].guid == guid then Some(status[0])
    else FindEffective(guid, status[1..])
  }

  function Shown(d: Destination, status: seq<Destination>): Destination {
    if d.port.Some? then d
    else
      var effective := FindEffective(d.guid, status);
      if effective.None? then d else d.(protocol := effective.value.protocol, port := effective.value.port)
  }

  function Records(spec: seq<Destination>, status: seq<Destination>): (records: seq<Destination>)
    ensures |records| == |spec| && forall i :: 0 <= i < |spec| ==> records[i] == Shown(spec[i], status)
  {
    if spec == [] then [] else [Shown(spec[0], status)] + Records(spec[1..], status)
  }

  /** The status that the route controller computes: a destination whose port is open waits for its app's droplet. */
  function Effective(spec: seq<Destination>, droplets: map<string, seq<int>>): seq<Destination> {
    if spec == [] then []
    else
      var d := spec[0].(protocol := if spec[0].protocol.None? then Some("http1") else spec[0].protocol);
      var rest := Effective(spec[1..], droplets);
      if d.port.Some? then [d] + rest
      else if d.appGUID !in droplets then rest
      else
        var ports := droplets[d.appGUID];
        [d.(port := Some(if |ports| > 0 then ports[0] else 8080))] + rest
  }

  ghost predicate AllPorted(status: seq<Destination>) {
    forall i :: 0 <= i < |status| ==> status[i].port.Some?
  }

  lemma {:induction false} EffectiveIsPorted(spec: seq<Destination>, droplets: map<string, seq<int>>)
    ensures AllPorted(Effective(spec, droplets))
  {
    if spec != [] {
      EffectiveIsPorted(spec[1..], droplets);
    }
  }

  lemma {:induction false} FoundIsInStatus(guid: string, status: seq<Destination>)
    ensures FindEffective(guid, status).None? <==> guid !in Guids(status)
    ensures FindEffective(guid, status).Some? ==>
      FindEffective(guid, status).value in status && FindEffective(guid, status).value.guid == guid
  {
    if status != [] {
      FoundIsInStatus(guid, status[1..]);
      assert status == [status[0]] + status[1..];
      assert Guids(status) == {status[0].guid} + Guids(status[1..]) by {
        forall g | g in Guids(status) ensures g in {status[0].guid} + Guids(status[1..]) {
          var i :| 0 <= i < |status| && status[i].guid == g;
          if i > 0 {
            assert status[1..][i - 1].guid == g;
          }
        }
        forall g | g in Guids(status[1..]) ensures g in Guids(status) {
          var i :| 0 <= i < |status[1..]| && status[1..][i].guid == g;
          assert status[i + 1].guid == g;
        }
      }
    }
  }

  /** The first entry of the status with a GUID. */
  predicate FirstWith(status: seq<Destination>, guid: string, k: int) {
    0 <= k < |status| && status[k].guid == guid && forall j :: 0 <= j < k ==> status[j].guid != guid
  }

  lemma {:induction false} FoundIsFirst(guid: string, status: seq<Destination>, k: int)
    requires FirstWith(status, guid, k)
    ensures FindEffective(guid, status) == Some(status[k])
  {
    if k > 0 {
      assert forall j :: 0 <= j < k ==> status[1..][j] == status[j + 1];
      FoundIsFirst(guid, status[1..], k - 1);
    }
  }

  predicate DistinctGuids(spec: seq<Destination>) {
    forall i, j :: 0 <= i < j < |spec| ==> spec[i].guid != spec[j].guid
  }

  lemma {:induction false} EffectiveGuids(spec: seq<Destination>, droplets: map<string, seq<int>>, guid: string)
    requires forall d :: d in spec ==> d.guid != guid
    ensures FindEffective(guid, Effective(spec, droplets)).None?
  {
    if spec != [] {
      assert spec[0] in spec;
      EffectiveGuids(spec[1..], droplets, guid);
    }
  }

  /** What a destination is to come to: its protocol and port, or the first port of its app's droplet, or 8080. */
  predicate Completed(d: Destination, droplets: map<string, seq<int>>, e: Destination) {
    && e.guid == d.guid && e.appGUID == d.appGUID && e.processType == d.processType
    && e.protocol == (if d.protocol.Some? then d.protocol else Some("http1"))
    && (d.port.Some? ==> e.port == d.port)
    && (d.port.None? && d.appGUID in droplets ==>
          e.port == Some(if droplets[d.appGUID] == [] then 8080 else droplets[d.appGUID][0]))
  }

  lemma {:induction false} EffectiveMeaning(spec: seq<Destination>, droplets: map<string, seq<int>>, i: nat)
    requires DistinctGuids(spec) && i < |spec|
    ensures
      var found := FindEffective(spec[i].guid, Effective(spec, droplets));
      && (found.None? <==> spec[i].port.None? && spec[i].appGUID !in droplets)
      && (found.Some? ==> Completed(spec[i], droplets, found.value))
  {
    if i == 0 {
      forall d | d in spec[1..] ensures d.guid != spec[0].guid {
        var j :| 0 <= j < |spec| - 1 && spec[1..][j] == d;
        assert d == spec[j + 1];
      }
      EffectiveGuids(spec[1..], droplets, spec[0].guid);
    } else {
      EffectiveMeaning(spec[1..], droplets, i - 1);
    }
  }

  /**
    With a status that is up to date, a destination is shown as it is when it has a port or its app no droplet, and
    else with the port of the droplet.
   */
  lemma RecordsFollowDroplets(spec: seq<Destination>, droplets: map<string, seq<int>>, i: nat)
    requires DistinctGuids(spec) && i < |spec|
    ensures
      var shown := Records(spec, Effective(spec, droplets))[i];
      if spec[i].port.Some? || spec[i].appGUID !in droplets then shown == spec[i]
      else Completed(spec[i], droplets, shown)
  {
    EffectiveMeaning(spec, droplets, i);
    assert Records(spec, Effective(spec, droplets))[i] == Shown(spec[i], Effective(spec, droplets));
  }

  /** A destination is still shown as it was asked for unless it left its port open and the status has filled it in. */
  predicate StillOpen(spec: seq<Destination>, status: seq<Destination>, d: Desired) {
    exists i :: 0 <= i < |spec| && Of(spec[i]) == d && spec[i].guid !in Guids(status)
  }

  lemma ShownContainsIff(spec: seq<Destination>, status: seq<Destination>, d: Desired)
    requires AllPorted(status) && Contains(spec, d)
    ensures Contains(Records(spec, status), d) <==> d.port.Some? || StillOpen(spec, status, d)
  {
    var records := Records(spec, status);
    forall i | 0 <= i < |spec| ensures records[i] == Shown(spec[i], status) &&
      (spec[i].port.None? ==> (records[i].port.None? <==> spec[i].guid !in Guids(status))) {
      FoundIsInStatus(spec[i].guid, status);
    }
    if d.port.Some? {
      var i :| 0 <= i < |spec| && Of(spec[i]) == d;
      assert Of(records[i]) == d;
    } else if i :| 0 <= i < |spec| && Of(spec[i]) == d && spec[i].guid !in Guids(status) {
      FoundIsInStatus(spec[i].guid, status);
      assert Of(records[i]) == d;
    } else if j :| 0 <= j < |records| && Of(records[j]) == d {
      FoundIsInStatus(spec[j].guid, status);
      assert false;
    }
  }

  /**
    Asking again for what has been added adds nothing exactly when every destination asked for without a port
    is still open. Once the status has filled it in, asking again duplicates it.
   */
  lemma RemergeAddsNothingIff(existing: seq<Destination>, desired: seq<Desired>, supply: Supply, used: nat,
                              status: seq<Destination>, supply': Supply, used': nat)
    requires AllPorted(status)
    ensures
      var spec := Merge(existing, desired, supply, used);
      var records := Records(spec, status);
      Merge(records, desired, supply', used') == records <==>
        forall d :: d in desired && d.port.None? ==> StillOpen(spec, status, d)
  {
    var spec := Merge(existing, desired, supply, used);
    MergeAddsWhatIsMissing(existing, desired, supply, used);
    MergeAddsNothingIff(Records(spec, status), desired, supply', used');
    forall d | d in desired ensures Contains(Records(spec, status), d) <==> d.port.Some? || StillOpen(spec, status, d) {
      ShownContainsIff(spec, status, d);
    }
  }

  // ---------------------------------------------------------------- removing

  function Without(destinations: seq<Destination>, guid: string): seq<Destination> {
    Filter(destinations, Other(guid))
  }

  function Other(guid: string): Destination -> bool {
    (d: Destination) => d.guid != guid
  }

  function WithoutAll(destinations: seq<Destination>, guids: seq<string>): seq<Destination>
    decreases |guids|
  {
    if guids == [] then destinations else WithoutAll(Without(destinations, guids[0]), guids[1..])
  }

  lemma {:induction false} FilterAll<T>(s: seq<T>, p: T -> bool)
    requires forall x :: x in s ==> p(x)
    ensures Filter(s, p) == s
  {
    if s != [] {
      FilterAll(s[1..], p);
    }
  }

  lemma {:induction false} FilterConcat<T>(a: seq<T>, b: seq<T>, p: T -> bool)
    ensures Filter(a + b, p) == Filter(a, p) + Filter(b, p)
  {
    if a == [] {
      assert a + b == b;
    } else {
      var head := if p(a[0]) then [a[0]] else [];
      var x, y := Filter(a[1..], p), Filter(b, p);
      assert (a + b)[0] == a[0] && (a + b)[1..] == a[1..] + b;
      FilterConcat(a[1..], b, p);
      assert Filter(a + b, p) == head + (x + y);
      assert head + (x + y) == (head + x) + y;
    }
  }

  lemma {:induction false} WithoutShorterIff(destinations: seq<Destination>, guid: string)
    ensures |Without(destinations, guid)| <= |destinations|
    ensures |Without(destinations, guid)| == |destinations| <==> guid !in Guids(destinations)
    ensures guid !in Guids(destinations) ==> Without(destinations, guid) == destinations
  {
    if destinations != [] {
      var rest := destinations[1..];
      WithoutShorterIff(rest, guid);
      assert guid in Guids(destinations) <==> destinations[0].guid == guid || guid in Guids(rest) by {
        if i :| 0 <= i < |destinations| && destinations[i].guid == guid {
          assert i > 0 ==> rest[i - 1].guid == guid;
        }
        if i :| 0 <= i < |rest| && rest[i].guid == guid {
          assert destinations[i + 1].guid == guid;
        }
      }
    }
  }

  function GuidList(destinations: seq<Destination>): seq<string> {
    if destinations == [] then [] else [destinations[0].guid] + GuidList(destinations[1..])
  }

  ghost predicate Foreign(existing: seq<Destination>, guid: string) {
    forall d :: d in existing ==> d.guid != guid
  }

  lemma DropFirst<T>(first: T, rest: seq<T>, p: T -> bool)
    requires !p(first)
    ensures Filter([first] + rest, p) == Filter(rest, p)
  {
  }

  lemma RemoveFirst(existing: seq<Destination>, first: Destination, rest: seq<Destination>)
    requires Foreign(existing, first.guid) && Foreign(rest, first.guid)
    ensures Without(existing + ([first] + rest), first.guid) == existing + rest
  {
    var p := Other(first.guid);
    assert Filter(existing, p) == existing by { FilterAll(existing, p); }
    assert Filter(rest, p) == rest by { FilterAll(rest, p); }
    assert Filter([first] + rest, p) == rest by { DropFirst(first, rest, p); }
    FilterConcat(existing, [first] + rest, p);
  }

  lemma {:induction false} RemoveAdded(existing: seq<Destination>, added: seq<Destination>)
    requires forall i, j :: 0 <= i < j < |added| ==> added[i].guid != added[j].guid
    requires forall i :: 0 <= i < |added| ==> Foreign(existing, added[i].guid)
    ensures WithoutAll(existing + added, GuidList(added)) == existing
    decreases |added|
  {
    if added == [] {
      assert existing + added == existing;
    } else {
      var rest := added[1..];
      assert added == [added[0]] + rest;
      assert Foreign(rest, added[0].guid);
      RemoveFirst(existing, added[0], rest);
      RemoveAdded(existing, rest);
    }
  }

  /** Removing the destinations that a merge has added, by their fresh GUIDs, restores the list. */
  lemma RemovingUndoesMerging(existing: seq<Destination>, desired: seq<Desired>, supply: Supply, used: nat)
    requires FreshFor(supply, used, existing)
    ensures var merged := Merge(existing, desired, supply, used);
      WithoutAll(merged, GuidList(merged[|existing|..])) == existing
  {
    var merged := Merge(existing, desired, supply, used);
    var added := merged[|existing|..];
    MergeAddsWhatIsMissing(existing, desired, supply, used);
    assert merged == existing + added;
    forall i | 0 <= i < |added| ensures added[i].guid == supply(used + i) {
      assert added[i] == merged[|existing| + i];
    }
    assert forall i :: 0 <= i < |added| ==> Foreign(existing, added[i].guid);
    RemoveAdded(existing, added);
  }

  // ---------------------------------------------------------------- the repository

  /** Where a call fails: not at all, before the route is written, or after it when the record is put together. */
  datatype Fault = NoFault | BeforeWrite | AfterWrite

  datatype Error = Failed | NoSuchDestination

  class RouteRepo {
    var spec: seq<Destination>
    var status: seq<Destination>
    const supply: Supply
    var used: nat

    constructor (spec: seq<Destination>, status: seq<Destination>, supply: Supply)
      ensures this.spec == spec && this.status == status && this.supply == supply && used == 0
    {
      this.spec, this.status, this.supply, this.used := spec, status, supply, 0;
    }

    method MergeDestinations(existing: seq<Destination>, desired: seq<Desired>) returns (destinations: seq<Destination>)
      modifies this`used
      ensures destinations == Merge(existing, desired, supply, old(used))
      ensures used == old(used) + |destinations| - |existing|
    {
      destinations := existing;
      for i := 0 to |desired|
        invariant destinations == Merge(existing, desired[..i], supply, old(used))
        invariant used == old(used) + |destinations| - |existing|
      {
        assert desired[..i + 1][..i] == desired[..i];
        if Contains(destinations, desired[i]) {
          continue;
        }
        destinations := destinations + [ToDestination(desired[i], supply(used))];
        used := used + 1;
      }
      assert desired[..|desired|] == desired;
    }

    /** The caller passes the records that it has read earlier; they replace whatever the route holds by now. */
    method AddDestinationsToRoute(existing: seq<Destination>, desired: seq<Desired>, fault: Fault)
      returns (r: Result<seq<Destination>, Error>)
      modifies this`spec, this`used
      ensures fault.BeforeWrite? ==> r == Err(Failed) && spec == old(spec)
      ensures !fault.BeforeWrite? ==> spec == Merge(existing, desired, supply, old(used))
      ensures fault.AfterWrite? ==> r == Err(Failed)
      ensures fault.NoFault? ==> r == Ok(Records(spec, status))
    {
      if fault.BeforeWrite? {
        return Err(Failed);
      }
      spec := MergeDestinations(existing, desired);
      if fault.AfterWrite? {
        return Err(Failed);
      }
      return Ok(Records(spec, status));
    }

    method RemoveDestinationFromRoute(guid: string, fault: Fault) returns (r: Result<seq<Destination>, Error>)
      modifies this`spec
      ensures guid !in Guids(old(spec)) ==>
        spec == old(spec) && r.Err? && (!fault.BeforeWrite? ==> r == Err(NoSuchDestination))
      ensures guid in Guids(old(spec)) ==>
        if fault.BeforeWrite? then r == Err(Failed) && spec == old(spec)
        else spec == Without(old(spec), guid) && r == if fault.AfterWrite?
          then Err(Failed) else Ok(Records(spec, status))
      ensures !fault.BeforeWrite? ==> forall d :: d in spec <==> d in old(spec) && d.guid != guid
    {
      WithoutShorterIff(spec, guid);
      forall d ensures d in Without(spec, guid) <==> d in spec && d.guid != guid {
        FilterIn(spec, Other(guid), d);
      }
      if fault.BeforeWrite? {
        return Err(Failed);
      }
      var updated := Without(spec, guid);
      if |updated| == |spec| {
        return Err(NoSuchDestination);
      }
      spec := updated;
      if fault.AfterWrite? {
        return Err(Failed);
      }
      return Ok(Records(spec, status));
    }
  }

  /** An add that works from records read earlier keeps a destination added since only if those records had it. */
  lemma StaleAddKeepsIff(read: seq<Destination>, desired: seq<Desired>, supply: Supply, used: nat, d: Destination)
    requires forall i: nat :: used <= i ==> supply(i) != d.guid
    ensures d in Merge(read, desired, supply, used) <==> d in read
  {
  }

  /** Adding writes what was shown back into the route, so a port that followed the droplet is fixed from then on. */
  lemma AddFixesPorts(spec: seq<Destination>, status: seq<Destination>, desired: seq<Desired>, supply: Supply,
                      used: nat, i: nat)
    requires AllPorted(status) && i < |spec|
    ensures
      var after := Merge(Records(spec, status), desired, supply, used);
      i < |after| && after[i].guid == spec[i].guid
      && (after[i].port.None? <==> spec[i].port.None? && spec[i].guid !in Guids(status))
      && (spec[i].port.Some? || spec[i].guid !in Guids(status) ==> after[i] == spec[i])
      && forall k :: spec[i].port.None? && FirstWith(status, spec[i].guid, k) ==>
           after[i] == spec[i].(port := status[k].port, protocol := status[k].protocol)
  {
    forall k | FirstWith(status, spec[i].guid, k)
      ensures FindEffective(spec[i].guid, status) == Some(status[k])
    {
      FoundIsFirst(spec[i].guid, status, k);
    }
    FoundIsInStatus(spec[i].guid, status);
    var records := Records(spec, status);
    assert records <= Merge(records, desired, supply, used);
    assert records[i] == Shown(spec[i], status);
  }
}
