/**
  Visibility of a service plan: a type and, for the type "organization", a list of orgs that is
  kept sorted and without duplicates. Removal edits the list's backing array while ranging over it.
 */
module PlanVisibility {
  import opened Common

  const ADMIN := "admin"
  const PUBLIC := "public"
  const ORGANIZATION := "organization"

  // ---------------------------------------------------------------- sort and compact

  /** Go compares strings by their bytes; the empty string comes first. */
  predicate Less(a: string, b: string) {
    b != [] && (a == [] || a[0] < b[0] || (a[0] == b[0] && Less(a[1..], b[1..])))
  }

  lemma {:induction false} LessIsTotal(a: string, b: string)
    ensures Less(a, b) || a == b || Less(b, a)
    ensures !(Less(a, b) && (a == b || Less(b, a)))
  {
    if a != [] && b != [] {
      LessIsTotal(a[1..], b[1..]);
      if a[1..] == b[1..] && a[0] == b[0] {
        assert a == [a[0]] + a[1..] == b;
      }
    }
  }

  lemma {:induction false} LessIsTransitive(a: string, b: string, c: string)
    requires Less(a, b) && Less(b, c)
    ensures Less(a, c)
  {
    if a != [] && a[0] == b[0] == c[0] {
      LessIsTransitive(a[1..], b[1..], c[1..]);
    }
  }

  /** They agree before position i, where one string ends or has the smaller byte. */
  predicate Precedes(a: string, b: string, i: nat) {
    i <= |a| && i < |b| && (forall j :: 0 <= j < i ==> a[j] == b[j]) && (i == |a| || a[i] < b[i])
  }

  /** One string comes before another when it is a beginning of it or has the smaller byte where they first differ. */
  lemma {:induction false} LessMeaning(a: string, b: string)
    ensures Less(a, b) <==> exists i :: Precedes(a, b, i)
  {
    if a != [] && b != [] && a[0] == b[0] {
      LessMeaning(a[1..], b[1..]);
      if i: nat :| Precedes(a[1..], b[1..], i) {
        assert Precedes(a, b, i + 1);
      }
      if i: nat :| Precedes(a, b, i) {
        assert Precedes(a[1..], b[1..], i - 1);
      }
    } else if b != [] {
      assert a == [] || a[0] < b[0] ==> Precedes(a, b, 0);
    }
  }

  predicate Sorted(s: seq<string>) {
    forall i, j :: 0 <= i < j < |s| ==> !Less(s[j], s[i])
  }

  predicate StrictlySorted(s: seq<string>) {
    forall i, j :: 0 <= i < j < |s| ==> Less(s[i], s[j])
  }

  lemma NoElements(s: seq<string>)
    ensures Elements(s) == {} <==> s == []
  {
    if s != [] {
      assert s[0] in Elements(s);
    }
  }

  function Insert(x: string, s: seq<string>): seq<string> {
    if s == [] || !Less(s[0], x) then [x] + s else [s[0]] + Insert(x, s[1..])
  }

  function Sort(s: seq<string>): seq<string> {
    if s == [] then [] else Insert(s[0], Sort(s[1..]))
  }

  /** The first element of every run of equal ones. */
  function Compact(s: seq<string>): seq<string> {
    if |s| <= 1 then s
    else if s[0] == s[1] then Compact(s[1..])
    else [s[0]] + Compact(s[1..])
  }

  function Uniq(s: seq<string>): seq<string> {
    Compact(Sort(s))
  }

  lemma {:induction false} InsertSorts(x: string, s: seq<string>)
    requires Sorted(s)
    ensures Sorted(Insert(x, s))
    ensures Elements(Insert(x, s)) == Elements(s) + {x}
  {
    if s == [] {
    } else if !Less(s[0], x) {
      forall j | 0 <= j < |s|
        ensures !Less(s[j], x)
      {
        if Less(s[j], x) {
          LessIsTotal(s[0], s[j]);
          if s[0] != s[j] {
            LessIsTransitive(s[0], s[j], x);
          }
        }
      }
    } else {
      var rest := Insert(x, s[1..]);
      InsertSorts(x, s[1..]);
      assert Elements(s) == {s[0]} + Elements(s[1..]);
      assert Insert(x, s) == [s[0]] + rest;
      assert Elements([s[0]] + rest) == {s[0]} + Elements(rest);
      LessIsTotal(s[0], x);
      forall j | 0 <= j < |rest|
        ensures !Less(rest[j], s[0])
      {
        assert rest[j] in Elements(rest);
      }
    }
  }

  lemma {:induction false} SortSorts(s: seq<string>)
    ensures Sorted(Sort(s))
    ensures Elements(Sort(s)) == Elements(s)
  {
    if s != [] {
      SortSorts(s[1..]);
      InsertSorts(s[0], Sort(s[1..]));
      assert Elements(s) == {s[0]} + Elements(s[1..]);
    }
  }

  lemma {:induction false} CompactIsStrict(s: seq<string>)
    requires Sorted(s)
    ensures StrictlySorted(Compact(s))
    ensures Elements(Compact(s)) == Elements(s)
  {
    if |s| > 1 {
      CompactIsStrict(s[1..]);
      assert Elements(s) == {s[0]} + Elements(s[1..]);
      if s[0] != s[1] {
        var rest := Compact(s[1..]);
        forall j | 0 <= j < |rest|
          ensures Less(s[0], rest[j])
        {
          assert rest[j] in Elements(s[1..]);
          var k :| 1 <= k < |s| && s[k] == rest[j];
          LessIsTotal(s[0], s[1]);
          LessIsTotal(s[0], s[k]);
          assert k > 1 ==> !Less(s[k], s[1]);
        }
      }
    }
  }

  /** Uniq keeps the elements and nothing of their order or number. */
  lemma UniqIsCanonical(s: seq<string>)
    ensures StrictlySorted(Uniq(s))
    ensures Elements(Uniq(s)) == Elements(s)
    ensures StrictlySorted(s) ==> Uniq(s) == s
    ensures forall t :: Elements(t) == Elements(s) ==> Uniq(t) == Uniq(s)
  {
    SortSorts(s);
    CompactIsStrict(Sort(s));
    if StrictlySorted(s) {
      StrictlySortedIsUnique(Uniq(s), s);
    }
    forall t | Elements(t) == Elements(s)
      ensures Uniq(t) == Uniq(s)
    {
      SortSorts(t);
      CompactIsStrict(Sort(t));
      StrictlySortedIsUnique(Uniq(t), Uniq(s));
    }
  }

  lemma HeadBounds(s: seq<string>, x: string)
    requires StrictlySorted(s) && x in s
    ensures s[0] == x || Less(s[0], x)
  {
  }

  lemma HeadIsLeast(s: seq<string>, t: seq<string>)
    requires StrictlySorted(s) && StrictlySorted(t) && Elements(s) == Elements(t) && s != [] && t != []
    ensures s[0] == t[0]
    ensures Elements(s[1..]) == Elements(t[1..])
  {
    assert s[0] in Elements(t) && t[0] in Elements(s);
    HeadBounds(t, s[0]);
    HeadBounds(s, t[0]);
    LessIsTotal(s[0], t[0]);
    assert s == [s[0]] + s[1..] && t == [t[0]] + t[1..];
    forall k | 0 < k < |s| ensures s[k] != s[0] { LessIsTotal(s[0], s[k]); }
    forall k | 0 < k < |t| ensures t[k] != t[0] { LessIsTotal(t[0], t[k]); }
    assert Elements(s[1..]) == Elements(s) - {s[0]};
    assert Elements(t[1..]) == Elements(t) - {t[0]};
  }

  lemma {:induction false} StrictlySortedIsUnique(s: seq<string>, t: seq<string>)
    requires StrictlySorted(s) && StrictlySorted(t) && Elements(s) == Elements(t)
    ensures s == t
  {
    NoElements(s);
    NoElements(t);
    if s != [] {
      HeadIsLeast(s, t);
      StrictlySortedIsUnique(s[1..], t[1..]);
      assert s == [s[0]] + s[1..] && t == [t[0]] + t[1..];
    }
  }

  // ---------------------------------------------------------------- removal while ranging

  /** What is left when an element that follows a removed one is never looked at. */
  function Skimmed(s: seq<string>, org: string): seq<string> {
    if s == [] then []
    else if s[0] != org then [s[0]] + Skimmed(s[1..], org)
    else if |s| == 1 then []
    else [s[1]] + Skimmed(s[2..], org)
  }

  function Differs(org: string): string -> bool {
    x => x != org
  }

  function Without(s: seq<string>, org: string): seq<string> {
    Filter(s, Differs(org))
  }

  /** The loop slices out of range. */
  predicate Panics(s: seq<string>, org: string) {
    s != [] && s[|s| - 1] == org && org in s[..|s| - 1]
  }

  predicate Adjacent(s: seq<string>, org: string) {
    exists i :: 0 <= i < |s| - 1 && s[i] == org && s[i + 1] == org
  }

  lemma AdjacentAfter(s: seq<string>, org: string, k: nat)
    requires k <= |s|
    ensures Adjacent(s[k..], org) <==> exists i :: k <= i < |s| - 1 && s[i] == org && s[i + 1] == org
  {
  }

  lemma {:induction false} SkimmedIsWithoutIff(s: seq<string>, org: string)
    ensures Skimmed(s, org) == Without(s, org) <==> !Adjacent(s, org)
  {
    if s == [] {
    } else if s[0] != org {
      SkimmedIsWithoutIff(s[1..], org);
      AdjacentAfter(s, org, 1);
      assert Skimmed(s, org)[1..] == Skimmed(s[1..], org);
      assert Without(s, org) == [s[0]] + Without(s[1..], org);
      assert Without(s, org)[1..] == Without(s[1..], org);
    } else if |s| == 1 {
      assert Without(s, org) == [];
    } else {
      SkimmedPair(s, org);
      if s[1] == org {
        assert org in Skimmed(s, org);
        FilterIn(s, Differs(org), org);
        assert Adjacent(s, org);
      } else {
        SkimmedIsWithoutIff(s[2..], org);
        AdjacentAfter(s, org, 2);
      }
    }
  }

  lemma SkimmedPair(s: seq<string>, org: string)
    requires |s| > 1 && s[0] == org
    ensures Skimmed(s, org) == [s[1]] + Skimmed(s[2..], org)
    ensures s[1] != org ==> Without(s, org) == [s[1]] + Without(s[2..], org)
    ensures s[1] != org ==> (Skimmed(s, org) == Without(s, org) <==> Skimmed(s[2..], org) == Without(s[2..], org))
  {
    assert s[1..][1..] == s[2..];
    if s[1] != org {
      assert Without(s, org) == Without(s[1..], org) == [s[1]] + Without(s[2..], org);
      assert Skimmed(s, org)[1..] == Skimmed(s[2..], org);
      assert Without(s, org)[1..] == Without(s[2..], org);
    }
  }

  /**
    Removal does what it is for exactly on lists in which the org neither repeats next to itself nor ends a list
    it also occurs earlier in.
   */
  lemma RemovalIsCorrectIff(s: seq<string>, org: string)
    ensures !Panics(s, org) && Skimmed(s, org) == Without(s, org) <==>
            !Adjacent(s, org) && (s != [] && s[|s| - 1] == org ==> org !in s[..|s| - 1])
    ensures Distinct(s) ==> !Panics(s, org) && Skimmed(s, org) == Without(s, org)
  {
    SkimmedIsWithoutIff(s, org);
  }

  lemma StrictlySortedIsDistinct(s: seq<string>)
    requires StrictlySorted(s)
    ensures Distinct(s)
  {
    forall i, j | 0 <= i < j < |s|
      ensures s[i] != s[j]
    {
      LessIsTotal(s[i], s[j]);
    }
  }

  /** The backing array after append(orgs[:i], orgs[i+1:]...) on its first `len` elements; the tail goes stale. */
  function Shifted(a: seq<string>, i: nat, len: nat): seq<string>
    requires i < len <= |a|
  {
    a[..i] + a[i + 1..len] + a[len - 1..]
  }

  /** The loop as a function of the array, the length and the index; None is a panic. */
  function RangeOver(a: seq<string>, len: nat, i: nat, org: string): Option<seq<string>>
    requires len <= |a| && i <= |a|
    decreases |a| - i
  {
    if i == |a| then Some(a[..len])
    else if a[i] != org then RangeOver(a, len, i + 1, org)
    else if i + 1 > len then None
    else RangeOver(Shifted(a, i, len), len - 1, i + 1, org)
  }

  /** What every removal leaves behind: one more copy of the last element. */
  function Copies(x: string, n: nat): (s: seq<string>)
    ensures |s| == n && forall k :: 0 <= k < n ==> s[k] == x
  {
    if n == 0 then [] else [x] + Copies(x, n - 1)
  }

  /** The loop at index i: what has settled in front, what of the list is to come, and how many removals there were. */
  datatype Loop = Loop(settled: seq<string>, rest: seq<string>, last: string, removed: nat, i: nat)

  predicate Consistent(l: Loop) {
    && |l.settled| <= l.i <= |l.settled| + |l.rest| + l.removed
    && (l.rest != [] ==> l.i == |l.settled| && l.last == l.rest[|l.rest| - 1])
  }

  function ArrayOf(l: Loop): seq<string> {
    l.settled + l.rest + Copies(l.last, l.removed)
  }

  function Continue(l: Loop, org: string): Option<seq<string>>
    requires Consistent(l)
  {
    RangeOver(ArrayOf(l), |l.settled| + |l.rest|, l.i, org)
  }

  /** How the loop will end: in a panic if it comes to read a stale copy of the org, or with the rest skimmed. */
  function Outcome(l: Loop, org: string): Option<seq<string>> {
    if l.last == org &&
      (if l.rest == [] then l.i < |l.settled| + l.removed else l.removed > 0 || org in l.rest[..|l.rest| - 1])
    then None
    else Some(l.settled + Skimmed(l.rest, org))
  }

  /** One turn at the first element to come: it settles, or it is removed and the next one settles unseen. */
  function Turn(l: Loop, org: string): Loop
    requires l.rest != []
  {
    if l.rest[0] != org then Loop(l.settled + [l.rest[0]], l.rest[1..], l.last, l.removed, l.i + 1)
    else if |l.rest| == 1 then Loop(l.settled, [], l.last, l.removed + 1, l.i + 1)
    else Loop(l.settled + [l.rest[1]], l.rest[2..], l.last, l.removed + 1, l.i + 1)
  }

  lemma ShiftedParts(settled: seq<string>, rest: seq<string>, tail: seq<string>)
    requires rest != []
    ensures Shifted(settled + rest + tail, |settled|, |settled| + |rest|) ==
      settled + rest[1..] + ([rest[|rest| - 1]] + tail)
  {
  }

  lemma Regroup(a: seq<string>, b: seq<string>, c: seq<string>, d: seq<string>)
    ensures a + (b + c) + d == (a + b) + c + d
    ensures a + [] + d == a + d
  {
  }

  lemma {:induction false} RemovalShifts(l: Loop, org: string)
    requires Consistent(l) && l.rest != [] && l.rest[0] == org
    ensures Shifted(ArrayOf(l), l.i, l.i + |l.rest|) == ArrayOf(Turn(l, org))
  {
    var stale, t := Copies(l.last, l.removed + 1), Turn(l, org);
    ShiftedParts(l.settled, l.rest, Copies(l.last, l.removed));
    assert stale == [l.last] + Copies(l.last, l.removed);
    var shifted := Shifted(ArrayOf(l), l.i, l.i + |l.rest|);
    assert shifted == l.settled + l.rest[1..] + stale;
    if |l.rest| > 1 {
      assert l.rest[1..] == [l.rest[1]] + l.rest[2..];
      Regroup(l.settled, [l.rest[1]], l.rest[2..], stale);
    } else {
      assert l.rest[1..] == [];
    }
  }

  lemma TurnIsLoopTurn(l: Loop, org: string)
    requires Consistent(l) && l.rest != []
    ensures Consistent(Turn(l, org)) && Continue(l, org) == Continue(Turn(l, org), org)
  {
    assert ArrayOf(l)[l.i] == l.rest[0];
    if l.rest[0] != org {
      assert l.rest == [l.rest[0]] + l.rest[1..];
      assert ArrayOf(l) == ArrayOf(Turn(l, org));
    } else {
      RemovalShifts(l, org);
    }
  }

  lemma TurnKeepsOutcome(l: Loop, org: string)
    requires Consistent(l) && l.rest != []
    ensures Outcome(Turn(l, org), org) == Outcome(l, org)
  {
    var n, t := |l.rest|, Turn(l, org);
    assert t.settled + Skimmed(t.rest, org) == l.settled + Skimmed(l.rest, org);
    if l.rest[0] != org && n > 1 {
      assert t.rest[..n - 2] == l.rest[1..n - 1];
      assert l.rest[..n - 1] == [l.rest[0]] + l.rest[1..n - 1];
    } else if n > 1 {
      assert l.rest[..n - 1][0] == org;
    }
  }

  lemma {:induction false} ContinueIsOutcome(l: Loop, org: string)
    requires Consistent(l)
    ensures Continue(l, org) == Outcome(l, org)
    decreases |ArrayOf(l)| - l.i
  {
    if l.rest != [] {
      TurnIsLoopTurn(l, org);
      TurnKeepsOutcome(l, org);
      ContinueIsOutcome(Turn(l, org), org);
    } else if l.i < |ArrayOf(l)| {
      assert ArrayOf(l)[l.i] == Copies(l.last, l.removed)[l.i - |l.settled|];
      if l.last != org {
        ContinueIsOutcome(l.(i := l.i + 1), org);
      }
    } else {
      assert ArrayOf(l)[..|l.settled|] == l.settled == l.settled + Skimmed(l.rest, org);
    }
  }

  /** The loop panics or skims. */
  lemma RangeOverList(s: seq<string>, org: string)
    ensures RangeOver(s, |s|, 0, org) == if Panics(s, org) then None else Some(Skimmed(s, org))
  {
    var l := Loop([], s, if s == [] then "" else s[|s| - 1], 0, 0);
    ContinueIsOutcome(l, org);
    assert ArrayOf(l) == s && l.settled + Skimmed(s, org) == Skimmed(s, org);
  }

  // ---------------------------------------------------------------- the plan

  datatype Visibility = Visibility(vtype: string, orgs: seq<string>)

  datatype Request =
    | Apply(vtype: string, orgs: seq<string>)
    | Update(vtype: string, orgs: seq<string>)
    | Delete(org: string)

  /** Validation of a payload that becomes an Apply or Update; a missing type passes the check of its value. */
  predicate Validated(r: Request) {
    r.Delete? || (r.vtype in {"", ADMIN, PUBLIC, ORGANIZATION} && (r.vtype != ORGANIZATION <==> r.orgs == []))
  }

  function Serve(v: Visibility, r: Request): Visibility {
    match r
    case Apply(t, orgs) => Visibility(t, if t == ORGANIZATION then Uniq(v.orgs + orgs) else [])
    case Update(t, orgs) => Visibility(t, Uniq(orgs))
    case Delete(org) => if Panics(v.orgs, org) then v else Visibility(v.vtype, Skimmed(v.orgs, org))
  }

  /** A plan whose orgs are a slice: the first `len` elements of a backing array. */
  class ServicePlan {
    var vtype: string
    var backing: array<string>
    var len: nat

    ghost predicate Valid()
      reads this
    {
      len <= backing.Length
    }

    ghost function Value(): Visibility
      reads this, backing
      requires Valid()
    {
      Visibility(vtype, backing[..len])
    }

    constructor (v: Visibility)
      ensures Valid() && Value() == v && fresh(backing)
    {
      vtype := v.vtype;
      backing := new string[|v.orgs|](i requires 0 <= i < |v.orgs| => v.orgs[i]);
      len := |v.orgs|;
    }

    method SetOrgs(orgs: seq<string>)
      modifies this
      ensures Valid() && fresh(backing) && Value() == Visibility(old(vtype), orgs)
    {
      backing := new string[|orgs|](i requires 0 <= i < |orgs| => orgs[i]);
      len := |orgs|;
    }

    method ApplyVisibility(t: string, orgs: seq<string>)
      requires Valid()
      modifies this
      ensures Valid() && Value() == Serve(old(Value()), Apply(t, orgs))
    {
      vtype := t;
      SetOrgs(Uniq(backing[..len] + orgs));
      if t != ORGANIZATION {
        SetOrgs([]);
      }
    }

    method UpdateVisibility(t: string, orgs: seq<string>)
      requires Valid()
      modifies this
      ensures Valid() && Value() == Serve(old(Value()), Update(t, orgs))
    {
      vtype := t;
      SetOrgs(Uniq(orgs));
    }

    /** append(orgs[:i], orgs[i+1:]...), which fits the backing array. */
    method AppendAround(i: nat, ghost n: nat)
      requires Valid() && i < len <= n <= backing.Length
      modifies this`len, backing
      ensures Valid() && len == old(len) - 1
      ensures backing[..n] == Shifted(old(backing[..n]), i, old(len))
    {
      forall k | i <= k < len - 1 {
        backing[k] := backing[k + 1];
      }
      len := len - 1;
    }

    /** The range expression is evaluated once; its elements are read from the array as the loop goes. */
    method DeleteOrg(org: string) returns (panicked: bool)
      requires Valid()
      modifies this`len, backing
      ensures Valid() && vtype == old(vtype) && backing == old(backing)
      ensures panicked <==> Panics(old(backing[..len]), org)
      ensures !panicked ==> Value() == Serve(old(Value()), Delete(org))
    {
      ghost var s := backing[..len];
      RangeOverList(s, org);
      var n := len;
      for i := 0 to n
        invariant n == |s| <= backing.Length && len <= n
        invariant RangeOver(backing[..n], len, i, org) == RangeOver(s, |s|, 0, org)
      {
        if backing[i] == org {
          if i + 1 > len {
            return true;
          }
          AppendAround(i, n);
        }
      }
      assert backing[..n][..len] == backing[..len];
      return false;
    }
  }

  // ---------------------------------------------------------------- runs

  function After(init: Visibility, requests: seq<Request>): Visibility {
    if requests == [] then init
    else Serve(After(init, requests[..|requests| - 1]), requests[|requests| - 1])
  }

  predicate Invariant(v: Visibility) {
    StrictlySorted(v.orgs) && (v.vtype != ORGANIZATION ==> v.orgs == [])
  }

  /** What the list stands for. */
  datatype Abstract = Abstract(vtype: string, orgs: set<string>)

  function Meaning(v: Visibility): Abstract {
    Abstract(v.vtype, Elements(v.orgs))
  }

  function ServeAbstract(a: Abstract, r: Request): Abstract {
    match r
    case Apply(t, orgs) => Abstract(t, if t == ORGANIZATION then a.orgs + Elements(orgs) else {})
    case Update(t, orgs) => Abstract(t, Elements(orgs))
    case Delete(org) => a.(orgs := a.orgs - {org})
  }

  function AfterAbstract(init: Abstract, requests: seq<Request>): Abstract {
    if requests == [] then init
    else ServeAbstract(AfterAbstract(init, requests[..|requests| - 1]), requests[|requests| - 1])
  }

  lemma {:induction false} WithoutIsStrict(s: seq<string>, org: string)
    requires StrictlySorted(s)
    ensures StrictlySorted(Without(s, org)) && Elements(Without(s, org)) == Elements(s) - {org}
  {
    forall x
      ensures x in Without(s, org) <==> x in s && x != org
    {
      FilterIn(s, Differs(org), x);
    }
    if s != [] {
      WithoutIsStrict(s[1..], org);
      var rest := Without(s[1..], org);
      forall j | 0 <= j < |rest|
        ensures Less(s[0], rest[j])
      {
        FilterIn(s[1..], Differs(org), rest[j]);
        var k :| 1 <= k < |s| && s[k] == rest[j];
      }
    }
  }

  lemma ServeRefines(v: Visibility, r: Request)
    requires Invariant(v) && Validated(r)
    ensures Invariant(Serve(v, r))
    ensures Meaning(Serve(v, r)) == ServeAbstract(Meaning(v), r)
    ensures r.Delete? ==> !Panics(v.orgs, r.org)
  {
    match r
    case Apply(t, orgs) =>
      UniqIsCanonical(v.orgs + orgs);
      assert Elements(v.orgs + orgs) == Elements(v.orgs) + Elements(orgs);
    case Update(t, orgs) =>
      UniqIsCanonical(orgs);
      NoElements(orgs);
      NoElements(Uniq(orgs));
    case Delete(org) =>
      StrictlySortedIsDistinct(v.orgs);
      RemovalIsCorrectIff(v.orgs, org);
      WithoutIsStrict(v.orgs, org);
  }

  /**
    Over any sequence of validated requests the list refines a set: union, replacement, removal; and no removal
    panics.
   */
  lemma {:induction false} RunsRefine(init: Visibility, requests: seq<Request>)
    requires Invariant(init)
    requires forall i :: 0 <= i < |requests| ==> Validated(requests[i])
    ensures Invariant(After(init, requests))
    ensures Meaning(After(init, requests)) == AfterAbstract(Meaning(init), requests)
    ensures requests != [] && requests[|requests| - 1].Delete? ==>
              !Panics(After(init, requests[..|requests| - 1]).orgs, requests[|requests| - 1].org)
  {
    if requests != [] {
      var n := |requests| - 1;
      RunsRefine(init, requests[..n]);
      ServeRefines(After(init, requests[..n]), requests[n]);
    }
  }

  /**
    An Update keeps the invariant exactly when it gives orgs to no type but organization, whose list may also be
    empty.
   */
  lemma UpdateKeepsInvariantIff(v: Visibility, t: string, orgs: seq<string>)
    ensures Invariant(Serve(v, Update(t, orgs))) <==> (t != ORGANIZATION ==> orgs == [])
  {
    UniqIsCanonical(orgs);
    NoElements(orgs);
    NoElements(Uniq(orgs));
  }

  // ---------------------------------------------------------------- interleaved requests

  /**
    A request is served on a copy read earlier and sent as a merge patch, which carries only the
    fields that the request changed.
   */
  function Write(current: Visibility, seen: Visibility, r: Request): Visibility {
    var wanted := Serve(seen, r);
    Visibility(if wanted.vtype != seen.vtype then wanted.vtype else current.vtype,
               if wanted.orgs != seen.orgs then wanted.orgs else current.orgs)
  }

  datatype Interleaved = Interleaved(r: Request, seenAt: nat)

  /** All states of an interleaved run; each request has seen one of the earlier ones. */
  function States(init: Visibility, steps: seq<Interleaved>): (states: seq<Visibility>)
    ensures |states| == |steps| + 1
  {
    if steps == [] then [init]
    else
      var n := |steps| - 1;
      var states := States(init, steps[..n]);
      var seen := states[if steps[n].seenAt < n then steps[n].seenAt else n];
      states + [Write(states[n], seen, steps[n].r)]
  }

  /** Whatever the interleaving, the list stays strictly sorted, so no removal ever panics. */
  lemma {:induction false} InterleavedListsStaySorted(init: Visibility, steps: seq<Interleaved>)
    requires StrictlySorted(init.orgs)
    ensures forall i :: 0 <= i < |States(init, steps)| ==> StrictlySorted(States(init, steps)[i].orgs)
  {
    if steps != [] {
      var n := |steps| - 1;
      InterleavedListsStaySorted(init, steps[..n]);
      var states := States(init, steps[..n]);
      var seen := states[if steps[n].seenAt < n then steps[n].seenAt else n];
      assert StrictlySorted(Serve(seen, steps[n].r).orgs) by {
        match steps[n].r
        case Apply(t, orgs) => UniqIsCanonical(seen.orgs + orgs);
        case Update(t, orgs) => UniqIsCanonical(orgs);
        case Delete(org) =>
          StrictlySortedIsDistinct(seen.orgs);
          RemovalIsCorrectIff(seen.orgs, org);
          WithoutIsStrict(seen.orgs, org);
      }
    }
  }

  /** What makes a late write harmful: the type it takes for granted has changed, or the list it leaves alone has. */
  predicate Harmful(current: Visibility, seen: Visibility, r: Request) {
    var typeLost := seen.vtype == ORGANIZATION && current.vtype != ORGANIZATION;
    match r
    case Apply(t, orgs) =>
      if t == ORGANIZATION then typeLost && exists o :: o in orgs && o !in seen.orgs
      else t != seen.vtype && seen.orgs == [] && current.orgs != []
    case Update(t, orgs) =>
      if t == ORGANIZATION then typeLost && Elements(orgs) != Elements(seen.orgs)
      else t != seen.vtype && seen.orgs == [] && current.orgs != []
    case Delete(org) =>
      typeLost && org in seen.orgs && exists o :: o in seen.orgs && o != org
  }

  lemma ApplyIsSeenIff(seen: seq<string>, orgs: seq<string>)
    requires StrictlySorted(seen)
    ensures Uniq(seen + orgs) == seen <==> forall o :: o in orgs ==> o in seen
    ensures Uniq(seen + orgs) == [] ==> orgs == []
    ensures Uniq(orgs) == seen <==> Elements(orgs) == Elements(seen)
  {
    UniqIsCanonical(seen);
    UniqIsCanonical(seen + orgs);
    UniqIsCanonical(orgs);
    assert Elements(seen + orgs) == Elements(seen) + Elements(orgs);
    NoElements(Uniq(seen + orgs));
    NoElements(orgs);
    if forall o :: o in orgs ==> o in seen {
      assert Elements(seen + orgs) == Elements(seen);
    } else {
      var o :| o in orgs && o !in seen;
      assert o in Elements(seen + orgs);
    }
  }

  lemma WithoutIsSeenIff(seen: seq<string>, org: string)
    requires StrictlySorted(seen)
    ensures Without(seen, org) == seen <==> org !in seen
    ensures Without(seen, org) == [] <==> forall o :: o in seen ==> o == org
  {
    WithoutIsStrict(seen, org);
    if org in seen {
      assert org in Elements(seen) && org !in Elements(Without(seen, org));
    } else {
      assert Elements(seen) - {org} == Elements(seen);
      StrictlySortedIsUnique(Without(seen, org), seen);
    }
    NoElements(Without(seen, org));
    if Without(seen, org) == [] {
      forall o | o in seen ensures o == org {
        assert o != org ==> o in Elements(Without(seen, org));
      }
    } else {
      var o := Without(seen, org)[0];
      assert o in Elements(Without(seen, org));
    }
  }

  /**
    A write on current sight keeps the invariant. A late one breaks it exactly when it adds or removes orgs of
    a plan that is no longer for organizations, or changes the type of one that has got orgs in the meantime.
   */
  lemma WriteKeepsInvariantIff(current: Visibility, seen: Visibility, r: Request)
    requires Invariant(current) && Invariant(seen) && Validated(r)
    ensures seen == current ==> Write(current, seen, r) == Serve(current, r)
    ensures Invariant(Write(current, seen, r)) <==> !Harmful(current, seen, r)
  {
    ServeRefines(seen, r);
    match r
    case Apply(t, orgs) =>
      ApplyIsSeenIff(seen.orgs, orgs);
    case Update(t, orgs) =>
      ApplyIsSeenIff(seen.orgs, orgs);
      NoElements(orgs);
      NoElements(Uniq(orgs));
    case Delete(org) =>
      WithoutIsSeenIff(seen.orgs, org);
      StrictlySortedIsDistinct(seen.orgs);
      RemovalIsCorrectIff(seen.orgs, org);
  }

  /** Two requests served at once can leave a public plan with a list of orgs. */
  lemma LateWriteCanBreakInvariant()
    ensures
      var init := Visibility(ORGANIZATION, ["o"]);
      var steps := [Interleaved(Apply(PUBLIC, []), 0), Interleaved(Apply(ORGANIZATION, ["p"]), 0)];
      Invariant(init) && !Invariant(States(init, steps)[2])
  {
    var init := Visibility(ORGANIZATION, ["o"]);
    var a, b := Interleaved(Apply(PUBLIC, []), 0), Interleaved(Apply(ORGANIZATION, ["p"]), 0);
    assert [a, b][..1] == [a] && [a][..0] == [];
    assert States(init, [a]) == [init, Visibility(PUBLIC, [])];
    UniqIsCanonical(["o"] + ["p"]);
    var merged := Uniq(["o"] + ["p"]);
    assert "p" in Elements(["o"] + ["p"]);
    assert "p" in Elements(merged) && "p" !in ["o"];
    assert Write(Visibility(PUBLIC, []), init, b.r) == Visibility(PUBLIC, merged);
  }
}
