/**
  Deleting a service offering, with or without purging its plans, their instances and their bindings.
  Store calls are atomic; a store that is not reliable may refuse any of them.
 */
module Purge {
  import opened Common
  import L = ListOptions

  const OFFERING_GUID_LABEL := "korifi.cloudfoundry.org/rel-service-offering-guid"
  const PLAN_GUID_LABEL := "korifi.cloudfoundry.org/plan-guid"
  const INSTANCE_GUID_LABEL := "korifi.cloudfoundry.org/service-instance-guid"
  const BINDING_FINALIZER := "cfServiceBinding.korifi.cloudfoundry.org"
  const INSTANCE_FINALIZER := "cfServiceInstance.korifi.cloudfoundry.org"

  // ---------------------------------------------------------------- the store

  datatype Kind = Offering | Plan | Instance | Binding

  datatype Ref = Ref(kind: Kind, namespace: string, name: string)

  function OfferingRef(scope: Scope, guid: string): Ref {
    Ref(Offering, scope.root, guid)
  }

  datatype Object = Object(labels: L.Labels, fields: L.Labels, finalizers: set<string>, deleting: bool)

  type Store = map<Ref, Object>

  datatype Error = NotFound | Refused | BadList(error: L.Error)

  function AsListed(ref: Ref, o: Object): L.Listed {
    L.Listed(ref.namespace, o.labels, o.fields)
  }

  function Look(s: Store, ref: Ref): Option<Object> {
    if ref in s then Some(s[ref]) else None
  }

  function Put(s: Store, ref: Ref, o: Option<Object>): Store {
    if o.None? then s - {ref} else s[ref := o.value]
  }

  /** What a delete makes of an object: finalizers keep it, marked as being deleted. */
  function Removed(o: Object): Option<Object> {
    if o.finalizers == {} then None else Some(o.(deleting := true))
  }

  /** What taking a finalizer off makes of an object: one being deleted goes with its last finalizer. */
  function Stripped(o: Object, finalizer: string): Option<Object> {
    var left := o.(finalizers := o.finalizers - {finalizer});
    if left.deleting && left.finalizers == {} then None else Some(left)
  }

  function StrippedAndRemoved(o: Object): Option<Object> {
    var stripped := Stripped(o, INSTANCE_FINALIZER);
    if stripped.None? then None else Removed(stripped.value)
  }

  function StrippedBinding(o: Object): Option<Object> {
    Stripped(o, BINDING_FINALIZER)
  }

  predicate Halfway(o: Object, now: Option<Object>) {
    now == Stripped(o, INSTANCE_FINALIZER) || now == StrippedAndRemoved(o)
  }

  /** `after` is `before` with `f` applied to the objects in `done`. */
  ghost predicate Mapped(before: Store, after: Store, done: set<Ref>, f: Object -> Option<Object>) {
    forall ref :: Look(after, ref) == if ref in done && ref in before then f(before[ref]) else Look(before, ref)
  }

  lemma MappedStep(before: Store, mid: Store, after: Store, done: set<Ref>, ref: Ref, f: Object -> Option<Object>)
    requires Mapped(before, mid, done, f) && ref in before && ref !in done
    requires after == Put(mid, ref, f(before[ref]))
    ensures Mapped(before, after, done + {ref}, f)
  {
  }

  /** `after` is `before` with `f` applied to some of the objects in `some`. */
  ghost predicate Partly(before: Store, after: Store, some: set<Ref>, f: Object -> Option<Object>) {
    forall ref :: Look(after, ref) == Look(before, ref) ||
      (ref in some && ref in before && Look(after, ref) == f(before[ref]))
  }

  lemma MappedIsPartly(before: Store, after: Store, done: set<Ref>, some: set<Ref>, f: Object -> Option<Object>)
    requires Mapped(before, after, done, f) && done <= some
    ensures Partly(before, after, some, f)
  {
  }

  ghost function Firsts(refs: seq<Ref>, n: nat): set<Ref>
    requires n <= |refs|
  {
    set ref | ref in refs[..n]
  }

  lemma FirstsStep(refs: seq<Ref>, n: nat)
    requires n < |refs| && Distinct(refs)
    ensures refs[n] in refs && refs[n] !in Firsts(refs, n)
    ensures Firsts(refs, n + 1) == Firsts(refs, n) + {refs[n]} <= Elements(refs)
    ensures Firsts(refs, |refs|) == Elements(refs)
  {
  }

  function Names(refs: seq<Ref>, n: nat): seq<string>
    requires n <= |refs|
  {
    seq(n, i requires 0 <= i < n => refs[i].name)
  }

  lemma NamesAreNames(refs: seq<Ref>, all: set<Ref>)
    requires all == Elements(refs)
    ensures (set name | name in Names(refs, |refs|)) == set ref | ref in all :: ref.name
    ensures Firsts(refs, |refs|) == all
  {
    var names := Names(refs, |refs|);
    forall ref | ref in all ensures ref.name in names {
      var i :| 0 <= i < |refs| && refs[i] == ref;
      assert names[i] == ref.name;
    }
    assert refs[..|refs|] == refs;
  }

  // ---------------------------------------------------------------- which objects a purge is about

  /** Kubernetes has no namespace with an empty name. */
  type Namespace = s: string | s != "" witness "cf"

  datatype Scope = Scope(root: Namespace, spaces: Result<seq<string>, L.Error>)

  predicate Labelled(o: Object, key: string, values: set<string>) {
    key in o.labels && o.labels[key] in values
  }

  predicate Visible(scope: Scope, o: Object) {
    scope.spaces.Ok? && L.InSpaces(o.labels, scope.spaces.value)
  }

  predicate IsPlan(s: Store, scope: Scope, guid: string, ref: Ref) {
    ref in s && ref.kind.Plan? && ref.namespace == scope.root && Labelled(s[ref], OFFERING_GUID_LABEL, {guid})
  }

  function Plans(s: Store, scope: Scope, guid: string): set<Ref> {
    set ref | ref in s && IsPlan(s, scope, guid, ref)
  }

  function PlanNames(s: Store, scope: Scope, guid: string): set<string> {
    set ref | ref in Plans(s, scope, guid) :: ref.name
  }

  predicate IsVisibleInstance(s: Store, scope: Scope, ref: Ref) {
    ref in s && ref.kind.Instance? && Visible(scope, s[ref])
  }

  /** The instances that a purge does remove. An empty list of plans drops the filter. */
  predicate IsTarget(s: Store, scope: Scope, guid: string, ref: Ref) {
    IsVisibleInstance(s, scope, ref) &&
      (PlanNames(s, scope, guid) == {} || Labelled(s[ref], PLAN_GUID_LABEL, PlanNames(s, scope, guid)))
  }

  function Targets(s: Store, scope: Scope, guid: string): set<Ref> {
    set ref | ref in s && IsTarget(s, scope, guid, ref)
  }

  function TargetNames(s: Store, scope: Scope, guid: string): set<string> {
    set ref | ref in Targets(s, scope, guid) :: ref.name
  }

  predicate IsTargetBinding(s: Store, scope: Scope, guid: string, ref: Ref) {
    ref in s && ref.kind.Binding? && Visible(scope, s[ref]) &&
      Labelled(s[ref], INSTANCE_GUID_LABEL, TargetNames(s, scope, guid))
  }

  function TargetBindings(s: Store, scope: Scope, guid: string): set<Ref> {
    set ref | ref in s && IsTargetBinding(s, scope, guid, ref)
  }

  /** The store that a purge that succeeds leaves, object by object. */
  function Purged(s: Store, scope: Scope, guid: string, ref: Ref): Option<Object> {
    if IsPlan(s, scope, guid, ref) then Removed(s[ref])
    else if IsTarget(s, scope, guid, ref) then StrippedAndRemoved(s[ref])
    else if IsTargetBinding(s, scope, guid, ref) then StrippedBinding(s[ref])
    else Look(s, ref)
  }

  /** How far a purge that fails can have taken an object. */
  predicate Reached(s: Store, scope: Scope, guid: string, ref: Ref, now: Option<Object>) {
    || now == Look(s, ref)
    || now == Purged(s, scope, guid, ref)
    || (IsTarget(s, scope, guid, ref) && now == Stripped(s[ref], INSTANCE_FINALIZER))
  }

  /** An instance already being deleted, with Korifi's finalizer as its last, vanishes before it can be deleted. */
  predicate Vanishes(o: Object) {
    o.deleting && o.finalizers <= {INSTANCE_FINALIZER}
  }

  predicate Queryable(syntax: L.Syntax, key: string, values: set<string>) {
    values == {} || (syntax.validKey(key) && forall v :: v in values ==> syntax.validValue(v))
  }

  predicate NoTargetVanishes(s: Store, scope: Scope, guid: string) {
    forall ref :: ref in Targets(s, scope, guid) ==> !Vanishes(s[ref])
  }

  /** The label queries of a purge are well formed. */
  predicate QueriesAccepted(syntax: L.Syntax, s: Store, scope: Scope, guid: string) {
    && Queryable(syntax, OFFERING_GUID_LABEL, {guid})
    && Queryable(syntax, PLAN_GUID_LABEL, PlanNames(s, scope, guid))
    && Queryable(syntax, INSTANCE_GUID_LABEL, TargetNames(s, scope, guid))
    && L.SpacesUsable(syntax, scope.spaces)
  }

  lemma QueryableIff(syntax: L.Syntax, key: string, values: seq<string>)
    ensures Queryable(syntax, key, set v | v in values) <==> L.Well(syntax, L.WithLabelIn(key, values))
    ensures Queryable(syntax, key, set v | v in values) <==> L.Well(syntax, L.WithLabelStrictlyIn(key, values))
    ensures values == [] <==> (set v | v in values) == {}
  {
    var all := set v | v in values;
    assert values != [] ==> values[0] in all;
    assert forall i :: 0 <= i < |values| ==> values[i] in all;
  }

  ghost predicate OneOption(syntax: L.Syntax, o: L.ListOption, labels: L.Labels) {
    var unpacked := L.Unpack(syntax, [o]);
    && (unpacked.Ok? <==> L.Well(syntax, o))
    && (unpacked.Ok? ==> (L.MeetsAll(labels, unpacked.value.requirements) <==> L.Asks(o, labels)))
    && (unpacked.Ok? && !o.InNamespace? && !o.MatchingFields? ==>
      unpacked.value.namespace == "" && unpacked.value.fieldSelector.None?)
    && (L.AsksAll([o], labels) <==> L.Asks(o, labels))
  }

  lemma OneOptionMeaning(syntax: L.Syntax, o: L.ListOption, labels: L.Labels)
    ensures OneOption(syntax, o, labels)
  {
    L.UnpackMeaning(syntax, [o], labels);
    assert o in [o];
    if L.Unpack(syntax, [o]).Ok? && !o.InNamespace? && !o.MatchingFields? {
      L.LastOptionCounts(syntax, [o]);
      L.UnconfinedHasNoNamespace([o]);
    }
  }

  // ---------------------------------------------------------------- the repository

  lemma OtherKindsStay(before: Store, after: Store, scope: Scope, guid: string)
    requires Mapped(before, after, Plans(before, scope, guid), Removed)
    ensures forall ref: Ref :: !ref.kind.Plan? ==> Look(after, ref) == Look(before, ref)
    ensures forall ref: Ref :: !ref.kind.Plan? ==> (ref in after <==> ref in before)
  {
  }

  ghost predicate IsPurged(before: Store, after: Store, scope: Scope, guid: string) {
    forall ref :: Look(after, ref) == Purged(before, scope, guid, ref)
  }

  ghost predicate IsReached(before: Store, after: Store, scope: Scope, guid: string) {
    forall ref :: Reached(before, scope, guid, ref, Look(after, ref))
  }

  /** The instances and bindings that are found once the plans are gone are those of the store as it was. */
  lemma FoundAreTargets(before: Store, planless: Store, scope: Scope, guid: string, instances: set<Ref>)
    requires Mapped(before, planless, Plans(before, scope, guid), Removed)
    requires forall ref :: ref in instances <==>
      (IsVisibleInstance(planless, scope, ref) &&
        (PlanNames(before, scope, guid) == {} ||
          Labelled(planless[ref], PLAN_GUID_LABEL, PlanNames(before, scope, guid))))
    ensures instances == Targets(before, scope, guid)
  {
  }

  lemma FoundAreTargetBindings(before: Store, planless: Store, scope: Scope, guid: string, bindings: set<Ref>)
    requires Mapped(before, planless, Plans(before, scope, guid), Removed)
    requires forall ref :: ref in bindings <==>
      ref in planless && ref.kind.Binding? && Visible(scope, planless[ref]) &&
        Labelled(planless[ref], INSTANCE_GUID_LABEL, TargetNames(before, scope, guid))
    ensures bindings == TargetBindings(before, scope, guid)
  {
  }

  lemma PlansReached(before: Store, after: Store, scope: Scope, guid: string)
    requires Partly(before, after, Plans(before, scope, guid), Removed)
    ensures IsReached(before, after, scope, guid)
  {
  }

  lemma BindingsReached(before: Store, planless: Store, after: Store, scope: Scope, guid: string)
    requires Mapped(before, planless, Plans(before, scope, guid), Removed)
    requires Partly(planless, after, TargetBindings(before, scope, guid), StrippedBinding)
    ensures IsReached(before, after, scope, guid)
  {
  }

  lemma InstancesReached(before: Store, planless: Store, stripped: Store, after: Store, scope: Scope, guid: string)
    requires Mapped(before, planless, Plans(before, scope, guid), Removed)
    requires Mapped(planless, stripped, TargetBindings(before, scope, guid), StrippedBinding)
    requires forall ref :: ref in Targets(before, scope, guid) ==> ref in stripped
    requires forall ref ::
      Look(after, ref) == Look(stripped, ref) ||
      (ref in Targets(before, scope, guid) && Halfway(stripped[ref], Look(after, ref)))
    ensures IsReached(before, after, scope, guid)
  {
  }

  lemma AllPurged(before: Store, planless: Store, stripped: Store, after: Store, scope: Scope, guid: string)
    requires Mapped(before, planless, Plans(before, scope, guid), Removed)
    requires Mapped(planless, stripped, TargetBindings(before, scope, guid), StrippedBinding)
    requires Mapped(stripped, after, Targets(before, scope, guid), StrippedAndRemoved)
    ensures IsPurged(before, after, scope, guid)
  {
  }

  lemma TargetsStay(before: Store, planless: Store, stripped: Store, scope: Scope, guid: string)
    requires Mapped(before, planless, Plans(before, scope, guid), Removed)
    requires Mapped(planless, stripped, TargetBindings(before, scope, guid), StrippedBinding)
    ensures forall ref :: ref in Targets(before, scope, guid) ==> ref in stripped && stripped[ref] == before[ref]
  {
  }

  class OfferingRepo {
    const scope: Scope
    const syntax: L.Syntax
    const reliable: bool
    var objects: Store

    constructor (scope: Scope, syntax: L.Syntax, reliable: bool, objects: Store)
      ensures this.scope == scope && this.syntax == syntax && this.reliable == reliable && this.objects == objects
    {
      this.scope, this.syntax, this.reliable, this.objects := scope, syntax, reliable, objects;
    }

    method Delete(ref: Ref) returns (err: Option<Error>)
      modifies this`objects
      ensures err.None? ==> ref in old(objects) && objects == Put(old(objects), ref, Removed(old(objects)[ref]))
      ensures err.Some? ==> objects == old(objects) && (reliable ==> ref !in objects)
    {
      var up := Up(reliable);
      if !up {
        return Some(Refused);
      } else if ref !in objects {
        return Some(NotFound);
      }
      objects := Put(objects, ref, Removed(objects[ref]));
      return None;
    }

    method PatchAwayFinalizer(ref: Ref, finalizer: string) returns (err: Option<Error>)
      modifies this`objects
      ensures err.None? ==>
        ref in old(objects) && objects == Put(old(objects), ref, Stripped(old(objects)[ref], finalizer))
      ensures err.Some? ==> objects == old(objects) && (reliable ==> ref !in objects)
    {
      var up := Up(reliable);
      if !up {
        return Some(Refused);
      } else if ref !in objects {
        return Some(NotFound);
      }
      objects := Put(objects, ref, Stripped(objects[ref], finalizer));
      return None;
    }

    /** The objects of a kind that meet the options, in an order of the store's own. */
    method List(kind: Kind, opts: L.ClientOptions) returns (r: Result<seq<Ref>, Error>)
      ensures r.Err? ==> !reliable
      ensures r.Ok? ==> Distinct(r.value)
      ensures r.Ok? ==> forall ref :: ref in r.value <==>
        ref in objects && ref.kind == kind && L.Returned(opts, AsListed(ref, objects[ref]))
    {
      var up := Up(reliable);
      if !up {
        return Err(Refused);
      }
      var left := set ref | ref in objects && ref.kind == kind && L.Returned(opts, AsListed(ref, objects[ref]));
      ghost var all := left;
      var refs: seq<Ref> := [];
      while left != {}
        invariant forall ref :: ref in refs <==> ref in all && ref !in left
        invariant left <= all
        invariant Distinct(refs)
        decreases |left|
      {
        var ref :| ref in left;
        refs, left := refs + [ref], left - {ref};
      }
      return Ok(refs);
    }

    method ListInRoot(kind: Kind, o: L.ListOption) returns (r: Result<seq<Ref>, Error>)
      requires !o.InNamespace? && !o.MatchingFields?
      ensures r.Err? && reliable ==> !L.Well(syntax, o)
      ensures r.Ok? ==> L.Well(syntax, o) && Distinct(r.value)
      ensures r.Ok? ==> forall ref :: ref in r.value <==>
        ref in objects && ref.kind == kind && ref.namespace == scope.root && L.Asks(o, objects[ref].labels)
    {
      forall labels ensures OneOption(syntax, o, labels) { OneOptionMeaning(syntax, o, labels); }
      assert OneOption(syntax, o, map[]);
      var unpacked := L.UnpackListOptions(syntax, [o]);
      if unpacked.Err? {
        return Err(BadList(unpacked.error));
      }
      r := List(kind, L.AsClientListOptions(unpacked.value).(namespace := scope.root));
      assert forall ref :: ref in objects ==> OneOption(syntax, o, objects[ref].labels);
    }

    method ListInSpaces(kind: Kind, o: L.ListOption) returns (r: Result<seq<Ref>, Error>)
      requires !o.InNamespace? && !o.MatchingFields?
      ensures r.Err? && reliable ==> !(L.Well(syntax, o) && L.SpacesUsable(syntax, scope.spaces))
      ensures r.Ok? ==> L.Well(syntax, o) && L.SpacesUsable(syntax, scope.spaces) && Distinct(r.value)
      ensures r.Ok? ==> forall ref :: ref in r.value <==>
        ref in objects && ref.kind == kind && Visible(scope, objects[ref]) && L.Asks(o, objects[ref].labels)
    {
      forall labels ensures OneOption(syntax, o, labels) { OneOptionMeaning(syntax, o, labels); }
      assert OneOption(syntax, o, map[]);
      var unpacked := L.UnpackListOptions(syntax, [o]);
      if unpacked.Err? {
        return Err(BadList(unpacked.error));
      }
      var filtered := L.ApplySpaceFilter(syntax, L.AsClientListOptions(unpacked.value), scope.spaces);
      if filtered.Err? {
        return Err(BadList(filtered.error));
      }
      r := List(kind, filtered.value);
      forall ref | ref in objects
        ensures L.Returned(filtered.value, AsListed(ref, objects[ref])) <==>
                Visible(scope, objects[ref]) && L.Asks(o, objects[ref].labels)
      {
        L.SpaceScopedListIsExact(syntax, [o], scope.spaces, AsListed(ref, objects[ref]));
        L.UnconfinedHasNoNamespace([o]);
        assert OneOption(syntax, o, objects[ref].labels);
      }
    }

    method DeleteServicePlans(guid: string) returns (r: Result<seq<string>, Error>)
      modifies this`objects
      ensures r.Ok? ==> Mapped(old(objects), objects, Plans(old(objects), scope, guid), Removed)
      ensures r.Ok? ==> (set name | name in r.value) == PlanNames(old(objects), scope, guid)
      ensures r.Ok? ==> Queryable(syntax, OFFERING_GUID_LABEL, {guid})
      ensures r.Err? ==> Partly(old(objects), objects, Plans(old(objects), scope, guid), Removed)
      ensures r.Err? && reliable ==> !Queryable(syntax, OFFERING_GUID_LABEL, {guid})
    {
      ghost var before := objects;
      var planGUIDs: seq<string> := [];
      var plans := ListInRoot(Plan, L.WithLabel(OFFERING_GUID_LABEL, guid));
      if plans.Err? {
        return Err(plans.error);
      }
      var refs := plans.value;
      assert forall ref :: ref in refs <==> ref in Plans(before, scope, guid);
      for i := 0 to |refs|
        invariant Mapped(before, objects, Firsts(refs, i), Removed)
        invariant planGUIDs == Names(refs, i)
      {
        ghost var mid := objects;
        FirstsStep(refs, i);
        assert Look(mid, refs[i]) == Look(before, refs[i]);
        planGUIDs := planGUIDs + [refs[i].name];
        var err := Delete(refs[i]);
        if err.Some? {
          MappedIsPartly(before, objects, Firsts(refs, i), Plans(before, scope, guid), Removed);
          return Err(err.value);
        }
        MappedStep(before, mid, objects, Firsts(refs, i), refs[i], Removed);
      }
      NamesAreNames(refs, Plans(before, scope, guid));
      return Ok(planGUIDs);
    }

    method FetchServiceInstances(planGUIDs: seq<string>) returns (r: Result<seq<Ref>, Error>)
      ensures var names := set name | name in planGUIDs;
        && (r.Err? && reliable ==> !(Queryable(syntax, PLAN_GUID_LABEL, names) && L.SpacesUsable(syntax, scope.spaces)))
        && (r.Ok? ==>
          Queryable(syntax, PLAN_GUID_LABEL, names) && L.SpacesUsable(syntax, scope.spaces) && Distinct(r.value))
        && (r.Ok? ==> forall ref :: ref in r.value <==>
              IsVisibleInstance(objects, scope, ref) && (names == {} || Labelled(objects[ref], PLAN_GUID_LABEL, names)))
    {
      QueryableIff(syntax, PLAN_GUID_LABEL, planGUIDs);
      r := ListInSpaces(Instance, L.WithLabelIn(PLAN_GUID_LABEL, planGUIDs));
    }

    method FetchServiceBindings(instanceGUIDs: seq<string>) returns (r: Result<seq<Ref>, Error>)
      ensures var names := set name | name in instanceGUIDs;
        && (r.Err? && reliable ==>
          !(Queryable(syntax, INSTANCE_GUID_LABEL, names) && L.SpacesUsable(syntax, scope.spaces)))
        && (r.Ok? ==>
          Queryable(syntax, INSTANCE_GUID_LABEL, names) && L.SpacesUsable(syntax, scope.spaces) && Distinct(r.value))
        && (r.Ok? ==> forall ref :: ref in r.value <==>
              ref in objects && ref.kind.Binding? && Visible(scope, objects[ref]) &&
                Labelled(objects[ref], INSTANCE_GUID_LABEL, names))
    {
      QueryableIff(syntax, INSTANCE_GUID_LABEL, instanceGUIDs);
      r := ListInSpaces(Binding, L.WithLabelStrictlyIn(INSTANCE_GUID_LABEL, instanceGUIDs));
    }

    method StripBindings(refs: seq<Ref>) returns (err: Option<Error>)
      requires Distinct(refs) && forall ref :: ref in refs ==> ref in objects
      modifies this`objects
      ensures err.None? ==> Mapped(old(objects), objects, Elements(refs), StrippedBinding)
      ensures err.Some? ==> !reliable && Partly(old(objects), objects, Elements(refs), StrippedBinding)
    {
      ghost var before := objects;
      ghost var all := Elements(refs);
      for i := 0 to |refs|
        invariant Mapped(before, objects, Firsts(refs, i), StrippedBinding)
      {
        ghost var mid := objects;
        FirstsStep(refs, i);
        assert Look(mid, refs[i]) == Look(before, refs[i]);
        err := PatchAwayFinalizer(refs[i], BINDING_FINALIZER);
        if err.Some? {
          MappedIsPartly(before, objects, Firsts(refs, i), all, StrippedBinding);
          return;
        }
        MappedStep(before, mid, objects, Firsts(refs, i), refs[i], StrippedBinding);
      }
      NamesAreNames(refs, all);
      err := None;
    }

    method RemoveInstances(refs: seq<Ref>) returns (err: Option<Error>)
      requires Distinct(refs) && forall ref :: ref in refs ==> ref in objects
      modifies this`objects
      ensures err.None? ==> Mapped(old(objects), objects, Elements(refs), StrippedAndRemoved)
      ensures err.None? ==> forall ref :: ref in refs ==> !Vanishes(old(objects)[ref])
      ensures err.Some? ==>
        forall ref :: Look(objects, ref) == Look(old(objects), ref) ||
          (ref in refs && Halfway(old(objects)[ref], Look(objects, ref)))
      ensures err.Some? && reliable ==> exists ref :: ref in refs && Vanishes(old(objects)[ref])
    {
      ghost var before := objects;
      ghost var all := Elements(refs);
      for i := 0 to |refs|
        invariant Mapped(before, objects, Firsts(refs, i), StrippedAndRemoved)
        invariant forall ref :: ref in Firsts(refs, i) ==> !Vanishes(before[ref])
      {
        ghost var mid := objects;
        FirstsStep(refs, i);
        assert Look(mid, refs[i]) == Look(before, refs[i]);
        err := PatchAwayFinalizer(refs[i], INSTANCE_FINALIZER);
        if err.Some? {
          return;
        }
        ghost var stripped := objects;
        err := Delete(refs[i]);
        if err.Some? {
          assert forall ref :: ref != refs[i] ==> Look(objects, ref) == Look(mid, ref);
          assert Halfway(before[refs[i]], Look(objects, refs[i]));
          return;
        }
        assert objects == Put(mid, refs[i], StrippedAndRemoved(before[refs[i]]));
        MappedStep(before, mid, objects, Firsts(refs, i), refs[i], StrippedAndRemoved);
      }
      NamesAreNames(refs, all);
      err := None;
    }

    method PurgeRelatedResources(guid: string) returns (err: Option<Error>)
      modifies this`objects
      ensures err.None? ==> IsPurged(old(objects), objects, scope, guid)
      ensures err.None? ==>
        QueriesAccepted(syntax, old(objects), scope, guid) && NoTargetVanishes(old(objects), scope, guid)
      ensures err.Some? ==> IsReached(old(objects), objects, scope, guid)
      ensures err.Some? && reliable ==>
        !(QueriesAccepted(syntax, old(objects), scope, guid) && NoTargetVanishes(old(objects), scope, guid))
    {
      ghost var before := objects;
      var planGUIDs := DeleteServicePlans(guid);
      if planGUIDs.Err? {
        PlansReached(before, objects, scope, guid);
        return Some(planGUIDs.error);
      }
      ghost var planless := objects;
      MappedIsPartly(before, planless, Plans(before, scope, guid), Plans(before, scope, guid), Removed);
      PlansReached(before, planless, scope, guid);
      var instances := FetchServiceInstances(planGUIDs.value);
      if instances.Err? {
        return Some(instances.error);
      }
      FoundAreTargets(before, planless, scope, guid, Elements(instances.value));
      NamesAreNames(instances.value, Targets(before, scope, guid));
      var bindings := FetchServiceBindings(Names(instances.value, |instances.value|));
      if bindings.Err? {
        return Some(bindings.error);
      }
      FoundAreTargetBindings(before, planless, scope, guid, Elements(bindings.value));
      err := StripBindings(bindings.value);
      if err.Some? {
        BindingsReached(before, planless, objects, scope, guid);
        return;
      }
      ghost var stripped := objects;
      TargetsStay(before, planless, stripped, scope, guid);
      assert forall ref :: ref in instances.value <==> ref in Targets(before, scope, guid);
      err := RemoveInstances(instances.value);
      if err.Some? {
        InstancesReached(before, planless, stripped, objects, scope, guid);
      } else {
        AllPurged(before, planless, stripped, objects, scope, guid);
      }
    }

    /** Exactly what is left, whether the call succeeds or fails, and exactly when it succeeds on a reliable store. */
    method DeleteOffering(guid: string, purge: bool) returns (err: Option<Error>)
      modifies this`objects
      ensures err.None? ==> OfferingRef(scope, guid) in old(objects) && forall ref ::
        Look(objects, ref) ==
        if ref == OfferingRef(scope, guid) then Removed(old(objects)[ref])
        else if purge then Purged(old(objects), scope, guid, ref)
        else Look(old(objects), ref)
      ensures err.Some? ==> if purge then IsReached(old(objects), objects, scope, guid) else objects == old(objects)
      ensures OfferingRef(scope, guid) !in old(objects) ==>
        objects == old(objects) && err.Some? && (reliable ==> err == Some(NotFound))
      ensures reliable ==>
        (err.None? <==>
         OfferingRef(scope, guid) in old(objects)
         && (purge ==>
           QueriesAccepted(syntax, old(objects), scope, guid) && NoTargetVanishes(old(objects), scope, guid)))
    {
      var offering := OfferingRef(scope, guid);
      var up := Up(reliable);
      if !up {
        return Some(Refused);
      } else if offering !in objects {
        return Some(NotFound);
      }
      ghost var before := objects;
      if purge {
        err := PurgeRelatedResources(guid);
        if err.Some? {
          return;
        }
        assert Look(objects, offering) == Purged(before, scope, guid, offering) == Look(before, offering);
      }
      err := Delete(offering);
    }
  }

  // ---------------------------------------------------------------- what a purge is for

  /** The instances of the offering's plans, and the bindings to them, as their labels say. */
  ghost predicate InstanceOf(s: Store, scope: Scope, guid: string, ref: Ref) {
    && ref in s && ref.kind.Instance? && Seen(scope, s[ref])
    && exists plan :: PlanOf(s, scope, guid, plan) && Says(s[ref], PLAN_GUID_LABEL, plan.name)
  }

  ghost predicate BindingOf(s: Store, scope: Scope, guid: string, ref: Ref) {
    && ref in s && ref.kind.Binding? && Seen(scope, s[ref])
    && exists instance :: InstanceOf(s, scope, guid, instance) && Says(s[ref], INSTANCE_GUID_LABEL, instance.name)
  }

  predicate PlanOf(s: Store, scope: Scope, guid: string, ref: Ref) {
    ref in s && ref.kind == Plan && ref.namespace == scope.root && Says(s[ref], OFFERING_GUID_LABEL, guid)
  }

  predicate Says(o: Object, key: string, value: string) {
    key in o.labels && o.labels[key] == value
  }

  /** An object carries the label of a space that the user may see. */
  predicate Seen(scope: Scope, o: Object) {
    scope.spaces.Ok? && exists space :: space in scope.spaces.value && Says(o, L.SPACE_GUID_LABEL, space)
  }

  lemma LabelsSay(s: Store, scope: Scope, guid: string)
    ensures forall ref :: IsPlan(s, scope, guid, ref) <==> PlanOf(s, scope, guid, ref)
    ensures forall o :: Visible(scope, o) <==> Seen(scope, o)
  {
  }

  /** A purge is about exactly the instances of the offering unless there is no plan and some instance to see. */
  lemma PurgeIsExactIff(s: Store, scope: Scope, guid: string)
    ensures (forall ref :: ref in Targets(s, scope, guid) <==> InstanceOf(s, scope, guid, ref)) <==>
            (exists plan :: PlanOf(s, scope, guid, plan)) ||
            forall ref :: ref in s && ref.kind == Instance ==> !Seen(scope, s[ref])
  {
    LabelsSay(s, scope, guid);
    assert forall ref :: IsVisibleInstance(s, scope, ref) <==> ref in s && ref.kind == Instance && Seen(scope, s[ref]);
    if plan :| PlanOf(s, scope, guid, plan) {
      assert IsPlan(s, scope, guid, plan);
      assert plan in Plans(s, scope, guid);
      assert plan.name in PlanNames(s, scope, guid);
    } else {
      assert Plans(s, scope, guid) == {};
      assert PlanNames(s, scope, guid) == {};
      assert forall ref :: ref in Targets(s, scope, guid) <==> IsVisibleInstance(s, scope, ref);
    }
  }

  /**
    A purge of an offering with a plan: its plans and their instances go, or are being deleted while another
    party's finalizer holds them; the bindings of those instances lose Korifi's finalizer and nothing else;
    every other object is as it was.
   */
  lemma PurgeOfOfferingWithPlan(s: Store, scope: Scope, guid: string, plan: Ref, ref: Ref)
    requires PlanOf(s, scope, guid, plan)
    ensures var after := Purged(s, scope, guid, ref);
      if PlanOf(s, scope, guid, ref) then
        if s[ref].finalizers == {} then after.None? else after == Some(s[ref].(deleting := true))
      else if InstanceOf(s, scope, guid, ref) then
        if s[ref].finalizers <= {INSTANCE_FINALIZER} then after.None?
        else after == Some(s[ref].(finalizers := s[ref].finalizers - {INSTANCE_FINALIZER}, deleting := true))
      else if BindingOf(s, scope, guid, ref) then
        if s[ref].deleting && s[ref].finalizers <= {BINDING_FINALIZER} then after.None?
        else after == Some(s[ref].(finalizers := s[ref].finalizers - {BINDING_FINALIZER}))
      else after == Look(s, ref)
  {
    PurgeIsExactIff(s, scope, guid);
    LabelsSay(s, scope, guid);
    assert BindingOf(s, scope, guid, ref) <==> IsTargetBinding(s, scope, guid, ref);
  }

  /**
    A purge that has deleted the plans and then fails is not safe to repeat: the next one is about every instance
    in sight.
   */
  lemma RetryTargetsEveryInstance(s: Store, mid: Store, scope: Scope, guid: string)
    requires Mapped(s, mid, Plans(s, scope, guid), Removed)
    requires forall plan :: plan in Plans(s, scope, guid) ==> s[plan].finalizers == {}
    ensures forall ref :: ref in Targets(mid, scope, guid) <==> IsVisibleInstance(s, scope, ref)
  {
    assert Plans(mid, scope, guid) == {} by {
      forall ref ensures ref !in Plans(mid, scope, guid) {
        assert Look(mid, ref) == if ref in Plans(s, scope, guid) then Removed(s[ref]) else Look(s, ref);
      }
    }
    assert PlanNames(mid, scope, guid) == {};
    OtherKindsStay(s, mid, scope, guid);
    forall ref ensures ref in Targets(mid, scope, guid) <==> IsVisibleInstance(s, scope, ref) {
      assert ref.kind.Instance? ==> Look(mid, ref) == Look(s, ref);
    }
  }

  /** A purge that fails, wherever it does, changes no labels and brings nothing into being. */
  lemma ReachedKeepsLabels(s: Store, mid: Store, scope: Scope, guid: string, ref: Ref)
    requires IsReached(s, mid, scope, guid) && ref in mid
    ensures ref in s && mid[ref].labels == s[ref].labels
  {
    assert Reached(s, scope, guid, ref, Look(mid, ref));
  }

  lemma ReachedPlansAreOwn(s: Store, mid: Store, scope: Scope, guid: string)
    requires IsReached(s, mid, scope, guid)
    ensures Plans(mid, scope, guid) <= Plans(s, scope, guid)
  {
    forall plan | plan in Plans(mid, scope, guid) ensures plan in Plans(s, scope, guid) {
      ReachedKeepsLabels(s, mid, scope, guid, plan);
    }
  }

  /** Repeating a purge that failed touches no instance but the offering's own. */
  ghost predicate RetryIsSafe(s: Store, mid: Store, scope: Scope, guid: string) {
    forall ref :: ref in Targets(mid, scope, guid) ==> InstanceOf(s, scope, guid, ref)
  }

  /** And it misses none of those that are left. */
  ghost predicate RetryIsComplete(s: Store, mid: Store, scope: Scope, guid: string) {
    forall ref :: ref in mid && InstanceOf(s, scope, guid, ref) ==> ref in Targets(mid, scope, guid)
  }

  /**
    After a purge that failed at any point, a repeated one stays with the offering's own instances exactly when
    some plan is still there or no other instance is in sight; and it finds all of them that are left exactly
    when no plan is there or each of them is of one that is.
   */
  lemma RetryIsSafeIff(s: Store, mid: Store, scope: Scope, guid: string)
    requires IsReached(s, mid, scope, guid)
    ensures RetryIsSafe(s, mid, scope, guid) <==>
            Plans(mid, scope, guid) != {} ||
            forall ref :: IsVisibleInstance(mid, scope, ref) ==> InstanceOf(s, scope, guid, ref)
    ensures RetryIsComplete(s, mid, scope, guid) <==>
            Plans(mid, scope, guid) == {} ||
            forall ref :: ref in mid && InstanceOf(s, scope, guid, ref) ==>
              Labelled(mid[ref], PLAN_GUID_LABEL, PlanNames(mid, scope, guid))
  {
    forall ref | ref in mid ensures ref in s && mid[ref].labels == s[ref].labels {
      ReachedKeepsLabels(s, mid, scope, guid, ref);
    }
    if plan :| plan in Plans(mid, scope, guid) {
      assert plan.name in PlanNames(mid, scope, guid);
      ReachedPlansAreOwn(s, mid, scope, guid);
      forall ref | ref in Targets(mid, scope, guid) ensures InstanceOf(s, scope, guid, ref) {
        OwnOfPlan(s, mid, scope, guid, ref);
      }
    } else {
      assert PlanNames(mid, scope, guid) == {};
    }
  }

  lemma OwnOfPlan(s: Store, mid: Store, scope: Scope, guid: string, ref: Ref)
    requires Plans(mid, scope, guid) <= Plans(s, scope, guid)
    requires ref in mid && ref in s && mid[ref].labels == s[ref].labels && IsVisibleInstance(mid, scope, ref)
    requires Labelled(mid[ref], PLAN_GUID_LABEL, PlanNames(mid, scope, guid))
    ensures InstanceOf(s, scope, guid, ref)
  {
    var p :| p in Plans(mid, scope, guid) && p.name == mid[ref].labels[PLAN_GUID_LABEL];
    LabelsSay(s, scope, guid);
    assert IsPlan(s, scope, guid, p) && Says(s[ref], PLAN_GUID_LABEL, p.name);
  }

  /** A plan is still there after the plans were deleted exactly when a finalizer holds it. */
  lemma PlanStaysIff(s: Store, mid: Store, scope: Scope, guid: string, plan: Ref)
    requires Mapped(s, mid, Plans(s, scope, guid), Removed)
    ensures plan in Plans(mid, scope, guid) <==> plan in Plans(s, scope, guid) && s[plan].finalizers != {}
  {
    assert Look(mid, plan) == if plan in Plans(s, scope, guid) && plan in s then Removed(s[plan]) else Look(s, plan);
  }
}
