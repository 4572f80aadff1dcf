/**
  Retention: of a set of items that may go, all but the newest are deleted, up to a number. The sort is not
  stable, so nothing is known of items of the same second, and deletions can be pending when the next run begins.
 */
module Retention {
  import opened Common

  datatype Key = Key(namespace: string, name: string)

  // ---------------------------------------------------------------- keeping the newest

  type Times = map<Key, int>

  ghost predicate NoOlder(created: Times, newer: set<Key>, older: set<Key>)
    requires newer <= created.Keys && older <= created.Keys
  {
    forall k, d :: k in newer && d in older ==> created[k] >= created[d]
  }

  /** `deleted` leaves as many of the eligible items as are to be retained, and none older than one that went. */
  ghost predicate Trimmed(created: Times, eligible: set<Key>, retained: int, deleted: set<Key>) {
    && deleted <= eligible <= created.Keys
    && |eligible - deleted| == (if |eligible| < retained then |eligible| else retained)
    && NoOlder(created, eligible - deleted, deleted)
  }

  /** Every deleted item had as many to retain, no older than itself, that are still there. */
  ghost predicate PartlyTrimmed(created: Times, eligible: set<Key>, retained: int, deleted: set<Key>) {
    && deleted <= eligible <= created.Keys
    && (deleted == {} || exists top :: Outrank(created, top, eligible - deleted, retained, deleted))
  }

  ghost predicate Outrank(created: Times, top: set<Key>, kept: set<Key>, retained: int, deleted: set<Key>) {
    top <= kept <= created.Keys && deleted <= created.Keys && |top| == retained && NoOlder(created, top, deleted)
  }

  ghost predicate NewestFirst(created: Times, s: seq<Key>) {
    && Elements(s) <= created.Keys
    && forall i, j :: 0 <= i < j < |s| ==> s[i] in created && s[j] in created && created[s[i]] >= created[s[j]]
  }

  lemma {:induction false} ElementsCount(s: seq<Key>)
    requires Distinct(s)
    ensures |Elements(s)| == |s|
  {
    if s != [] {
      var n := |s| - 1;
      ElementsCount(s[..n]);
      assert s == s[..n] + [s[n]];
      assert Elements(s) == Elements(s[..n]) + {s[n]};
      assert s[n] !in s[..n];
    }
  }

  lemma {:induction false} SubsetSize(a: set<Key>, b: set<Key>)
    requires a <= b
    ensures |a| <= |b|
  {
    if k :| k in a {
      SubsetSize(a - {k}, b - {k});
    }
  }

  lemma {:induction false} SameSize(a: set<Key>, b: set<Key>)
    requires a <= b && |a| == |b|
    ensures a == b
  {
    if k :| k in b && k !in a {
      SubsetSize(a, b - {k});
    }
  }

  lemma CutOrder(created: Times, sorted: seq<Key>, at: nat, k: Key, d: Key)
    requires Distinct(sorted) && NewestFirst(created, sorted) && at <= |sorted|
    requires k in sorted[..at] && d in sorted[at..]
    ensures k in created && d in created && k != d && created[k] >= created[d]
  {
    var a :| 0 <= a < at && sorted[..at][a] == k;
    var b :| 0 <= b < |sorted| - at && sorted[at..][b] == d;
    assert sorted[a] == k && sorted[at + b] == d;
  }

  /** A cut of a list sorted newest first. */
  lemma Cut(created: Times, sorted: seq<Key>, at: nat)
    requires Distinct(sorted) && NewestFirst(created, sorted) && at <= |sorted|
    ensures Elements(sorted[..at]) <= Elements(sorted) && Elements(sorted[at..]) <= Elements(sorted)
    ensures Elements(sorted) - Elements(sorted[at..]) == Elements(sorted[..at])
    ensures |Elements(sorted[..at])| == at
    ensures NoOlder(created, Elements(sorted[..at]), Elements(sorted[at..]))
  {
    var top, gone := sorted[..at], sorted[at..];
    ElementsCount(top);
    assert Elements(sorted) == Elements(top) + Elements(gone) by { assert sorted == top + gone; }
    forall k, d | k in Elements(top) && d in Elements(gone)
      ensures k != d && created[k] >= created[d]
    {
      CutOrder(created, sorted, at, k, d);
    }
  }

  /** Deleting from position `retained` on of a list sorted newest first is trimming it. */
  lemma TailIsPartlyTrimmed(created: Times, sorted: seq<Key>, retained: nat, i: nat)
    requires Distinct(sorted) && NewestFirst(created, sorted)
    requires retained <= i <= |sorted|
    ensures PartlyTrimmed(created, Elements(sorted), retained, Elements(sorted[retained..i]))
  {
    Cut(created, sorted, retained);
    var top, gone := Elements(sorted[..retained]), Elements(sorted[retained..i]);
    assert sorted[retained..i] <= sorted[retained..];
    assert gone <= Elements(sorted[retained..]);
    assert Outrank(created, top, Elements(sorted) - gone, retained, gone);
  }

  lemma TailIsTrimmed(created: Times, sorted: seq<Key>, retained: nat)
    requires Distinct(sorted) && NewestFirst(created, sorted)
    ensures Trimmed(created, Elements(sorted), retained,
                    if retained < |sorted| then Elements(sorted[retained..]) else {})
  {
    ElementsCount(sorted);
    if retained < |sorted| {
      Cut(created, sorted, retained);
    } else {
      assert Elements(sorted) - {} == Elements(sorted);
    }
  }

  // ---------------------------------------------------------------- any trimming is some sort's

  lemma {:induction false} SortedListing(created: Times, items: set<Key>) returns (s: seq<Key>)
    requires items <= created.Keys
    ensures Distinct(s) && Elements(s) == items && NewestFirst(created, s)
  {
    if items == {} {
      s := [];
    } else {
      var oldest := Oldest(created, items);
      var rest := SortedListing(created, items - {oldest});
      s := rest + [oldest];
      forall i | 0 <= i < |rest| ensures rest[i] != oldest && created[rest[i]] >= created[oldest] {
        assert rest[i] in Elements(rest);
      }
      assert Elements(s) == Elements(rest) + {oldest};
      assert items - {oldest} + {oldest} == items;
    }
  }

  lemma {:induction false} Oldest(created: Times, items: set<Key>) returns (oldest: Key)
    requires {} < items <= created.Keys
    ensures oldest in items && forall k :: k in items ==> created[k] >= created[oldest]
  {
    var x :| x in items;
    if items == {x} {
      oldest := x;
    } else {
      var y := Oldest(created, items - {x});
      oldest := if created[x] < created[y] then x else y;
    }
  }

  lemma SortedConcat(created: Times, top: seq<Key>, gone: seq<Key>)
    requires Distinct(top) && Distinct(gone) && NewestFirst(created, top) && NewestFirst(created, gone)
    requires Elements(top) !! Elements(gone) && NoOlder(created, Elements(top), Elements(gone))
    ensures Distinct(top + gone) && NewestFirst(created, top + gone) &&
      Elements(top + gone) == Elements(top) + Elements(gone)
  {
    forall i, j | 0 <= i < j < |top + gone|
      ensures (top + gone)[i] != (top + gone)[j] && created[(top + gone)[i]] >= created[(top + gone)[j]]
    {
      if i < |top| <= j {
        assert top[i] in Elements(top) && gone[j - |top|] in Elements(gone);
      }
    }
  }

  /** Whatever meets the guarantee is what some order of the items, sorted newest first, leads to. */
  lemma TrimmedIsSomeSort(created: Times, items: set<Key>, retained: nat, deleted: set<Key>) returns (sorted: seq<Key>)
    requires Trimmed(created, items, retained, deleted)
    ensures Distinct(sorted) && Elements(sorted) == items && NewestFirst(created, sorted)
    ensures deleted == if retained < |sorted| then Elements(sorted[retained..]) else {}
  {
    var top := SortedListing(created, items - deleted);
    var gone := SortedListing(created, deleted);
    SortedConcat(created, top, gone);
    sorted := top + gone;
    assert items - deleted + deleted == items;
    ElementsCount(top);
    ElementsCount(sorted);
    if retained < |sorted| {
      assert sorted[|top|..] == gone;
    } else {
      SameSize(items - deleted, items);
      assert deleted == {};
    }
  }

  // ---------------------------------------------------------------- running again

  /** Of two sets of one size, one has a member that the other lacks when the other does. */
  lemma Exchange(a: set<Key>, b: set<Key>, k: Key) returns (t: Key)
    requires |b| <= |a| && k in b && k !in a
    ensures t in a && t !in b
  {
    if a <= b {
      assert a <= b - {k};
      SubsetSize(a, b - {k});
      assert false;
    }
    t :| t in a && t !in b;
  }

  lemma RerunOrder(created: Times, rest: set<Key>, top: set<Key>, retained: nat, first: set<Key>, second: set<Key>,
                   k: Key, d: Key)
    requires Outrank(created, top, rest, retained, first) && Trimmed(created, rest, retained, second)
    requires k in rest - second && d in first
    ensures created[k] >= created[d]
  {
    if k !in top {
      SubsetSize(top, rest);
      var t := Exchange(top, rest - second, k);
      assert t in second;
    }
  }

  lemma RerunNoOlder(created: Times, rest: set<Key>, top: set<Key>, retained: nat, first: set<Key>, second: set<Key>)
    requires Outrank(created, top, rest, retained, first) && Trimmed(created, rest, retained, second)
    ensures NoOlder(created, rest - second, first + second)
  {
    forall k, d | k in rest - second && d in first
      ensures created[k] >= created[d]
    {
      RerunOrder(created, rest, top, retained, first, second, k, d);
    }
  }

  /** A run that succeeds after one that failed on the way: the two together do what one run would have done. */
  lemma RerunCompletes(created: Times, eligible: set<Key>, retained: nat, first: set<Key>, second: set<Key>)
    requires PartlyTrimmed(created, eligible, retained, first)
    requires Trimmed(created, eligible - first, retained, second)
    ensures Trimmed(created, eligible, retained, first + second)
  {
    if first == {} {
      assert eligible - first == eligible;
      assert first + second == second;
    } else {
      var rest := eligible - first;
      var top :| Outrank(created, top, rest, retained, first);
      RerunNoOlder(created, rest, top, retained, first, second);
      SubsetSize(top, rest);
      SubsetSize(rest, eligible);
      assert eligible - (first + second) == rest - second;
    }
  }

  // ---------------------------------------------------------------- running again while deletions are pending

  function Newer(created: Times, items: set<Key>, p: Key): set<Key>
    requires items <= created.Keys && p in created
  {
    set k | k in items && created[k] > created[p]
  }

  /** Every pending item is outnumbered by strictly newer ones that nobody has asked to be deleted. */
  ghost predicate Outnumbered(created: Times, rest: set<Key>, pending: set<Key>, retained: int)
    requires rest <= created.Keys && pending <= created.Keys
  {
    forall p :: p in pending ==> |Newer(created, rest, p)| >= retained
  }

  /** An outnumbered item is asked for again by every further run. */
  lemma OutnumberedGoesAgain(created: Times, rest: set<Key>, pending: set<Key>, retained: nat, second: set<Key>, p: Key)
    requires Trimmed(created, rest + pending, retained, second)
    requires p in pending && |Newer(created, rest, p)| >= retained
    ensures p in second
  {
    var kept := rest + pending - second;
    if p in kept {
      var t := Exchange(Newer(created, rest, p), kept, p);
      assert false;
    }
  }

  lemma TrimmedRest(created: Times, rest: set<Key>, pending: set<Key>, retained: nat, second: set<Key>)
    requires Trimmed(created, rest + pending, retained, second) && rest !! pending && pending <= second
    requires pending != {} ==> |rest| >= retained
    ensures Trimmed(created, rest, retained, second - pending)
  {
    assert rest + pending - second == rest - (second - pending);
    SubsetSize(rest, rest + pending);
    if pending == {} {
      assert rest + pending == rest;
    }
  }

  lemma OutnumberedAllGo(created: Times, rest: set<Key>, pending: set<Key>, retained: nat, second: set<Key>)
    requires Trimmed(created, rest + pending, retained, second) && rest !! pending
    requires Outnumbered(created, rest, pending, retained)
    ensures Trimmed(created, rest, retained, second - pending) && pending <= second
  {
    forall p | p in pending ensures p in second && |rest| >= retained {
      OutnumberedGoesAgain(created, rest, pending, retained, second, p);
      SubsetSize(Newer(created, rest, p), rest);
    }
    TrimmedRest(created, rest, pending, retained, second);
  }

  lemma SameUnion(first: set<Key>, pending: set<Key>, second: set<Key>)
    requires pending <= first
    ensures first + (second - pending) == first + second
  {
  }

  lemma CompletesWithoutPending(created: Times, eligible: set<Key>, retained: nat, first: set<Key>, pending: set<Key>,
                                second: set<Key>)
    requires PartlyTrimmed(created, eligible, retained, first) && pending <= first
    requires Trimmed(created, eligible - first, retained, second - pending)
    ensures Trimmed(created, eligible, retained, first + second)
  {
    RerunCompletes(created, eligible, retained, first, second - pending);
    SameUnion(first, pending, second);
  }

  lemma OutnumberedRerunCompletes(created: Times, eligible: set<Key>, retained: nat, first: set<Key>, pending: set<Key>,
                                  second: set<Key>)
    requires PartlyTrimmed(created, eligible, retained, first) && pending <= first
    requires Outnumbered(created, eligible - first, pending, retained)
    requires Trimmed(created, eligible - first + pending, retained, second)
    ensures Trimmed(created, eligible, retained, first + second)
  {
    OutnumberedAllGo(created, eligible - first, pending, retained, second);
    CompletesWithoutPending(created, eligible, retained, first, pending, second);
  }

  /** Of two items of the same second, one kept and one deleted, either may be kept. */
  lemma TieCanGoEitherWay(created: Times, items: set<Key>, retained: nat, deleted: set<Key>, k: Key, p: Key)
    requires Trimmed(created, items, retained, deleted)
    requires k in items - deleted && p in deleted && created[k] == created[p]
    ensures Trimmed(created, items, retained, deleted - {p} + {k})
  {
    var swapped := deleted - {p} + {k};
    assert items - swapped == items - deleted - {k} + {p};
    assert |items - swapped| == |items - deleted|;
  }

  lemma SomeTrimming(created: Times, items: set<Key>, retained: nat) returns (deleted: set<Key>)
    requires items <= created.Keys
    ensures Trimmed(created, items, retained, deleted)
  {
    var sorted := SortedListing(created, items);
    TailIsTrimmed(created, sorted, retained);
    deleted := if retained < |sorted| then Elements(sorted[retained..]) else {};
  }

  /** An item that is not outnumbered is spared by some further run. */
  lemma SparedBySomeRun(created: Times, rest: set<Key>, pending: set<Key>, retained: nat, p: Key)
    returns (second: set<Key>, q: Key)
    requires rest + pending <= created.Keys && rest !! pending
    requires p in pending && |Newer(created, rest, p)| < retained
    ensures Trimmed(created, rest + pending, retained, second) && q in pending && q !in second
  {
    second := SomeTrimming(created, rest + pending, retained);
    var kept := rest + pending - second;
    if pending <= second {
      assert p in second && |kept| == retained by { SomethingDeleted(rest + pending, second, p); }
      var k := Spare(kept, Newer(created, rest, p));
      TieCanGoEitherWay(created, rest + pending, retained, second, k, p);
      second, q := second - {p} + {k}, p;
    } else {
      q :| q in pending && q !in second;
    }
  }

  lemma SomethingDeleted(items: set<Key>, deleted: set<Key>, p: Key)
    requires p in deleted && deleted <= items
    ensures |items - deleted| < |items|
  {
    SubsetSize(items - deleted, items - {p});
  }

  lemma Spare(a: set<Key>, b: set<Key>) returns (k: Key)
    requires |b| < |a|
    ensures k in a && k !in b
  {
    if a <= b {
      SubsetSize(a, b);
    }
    k :| k in a && k !in b;
  }

  lemma SparingKeepsFewer(created: Times, rest: set<Key>, pending: set<Key>, retained: nat, second: set<Key>, q: Key)
    requires Trimmed(created, rest + pending, retained, second) && rest !! pending && q in pending && q !in second
    ensures |rest - second| < retained
  {
    var kept := rest + pending - second;
    SubsetSize(rest - second, kept - {q});
  }

  lemma EnoughEligible(created: Times, eligible: set<Key>, retained: nat, first: set<Key>)
    requires PartlyTrimmed(created, eligible, retained, first) && first != {}
    ensures |eligible| >= retained
  {
    var top :| Outrank(created, top, eligible - first, retained, first);
    SubsetSize(top, eligible);
  }

  lemma SameDifference(items: set<Key>, first: set<Key>, second: set<Key>)
    ensures items - (first + second) == items - first - second
  {
  }

  lemma TooFewIsNotTrimmed(created: Times, eligible: set<Key>, retained: nat, deleted: set<Key>)
    requires |eligible - deleted| < retained <= |eligible|
    ensures !Trimmed(created, eligible, retained, deleted)
  {
  }

  /** A run that spares a pending item retains too few. */
  lemma SparingCostsOne(created: Times, eligible: set<Key>, retained: nat, first: set<Key>, pending: set<Key>,
                        second: set<Key>, q: Key)
    requires PartlyTrimmed(created, eligible, retained, first) && pending <= first
    requires Trimmed(created, eligible - first + pending, retained, second) && q in pending && q !in second
    ensures !Trimmed(created, eligible, retained, first + second)
  {
    SparingKeepsFewer(created, eligible - first, pending, retained, second, q);
    EnoughEligible(created, eligible, retained, first);
    SameDifference(eligible, first, second);
    TooFewIsNotTrimmed(created, eligible, retained, first + second);
  }

  /**
    After a run that deleted some of what it should, every further run, whatever its sort, completes the work
    exactly when each item whose deletion is pending is outnumbered.
   */
  lemma RerunCompletesIff(created: Times, eligible: set<Key>, retained: nat, first: set<Key>, pending: set<Key>)
    requires PartlyTrimmed(created, eligible, retained, first) && pending <= first
    ensures (forall second :: Trimmed(created, eligible - first + pending, retained, second) ==>
      Trimmed(created, eligible, retained, first + second)) <==>
            Outnumbered(created, eligible - first, pending, retained)
  {
    if Outnumbered(created, eligible - first, pending, retained) {
      forall second | Trimmed(created, eligible - first + pending, retained, second)
        ensures Trimmed(created, eligible, retained, first + second)
      {
        OutnumberedRerunCompletes(created, eligible, retained, first, pending, second);
      }
    } else {
      var p :| p in pending && |Newer(created, eligible - first, p)| < retained;
      var second, q := SparedBySomeRun(created, eligible - first, pending, retained, p);
      SparingCostsOne(created, eligible, retained, first, pending, second, q);
    }
  }

  ghost predicate NoTies(created: Times, a: set<Key>, b: set<Key>)
    requires a <= created.Keys && b <= created.Keys
  {
    forall k, p :: k in a && p in b ==> created[k] != created[p]
  }

  lemma TrimmedIsPartly(created: Times, eligible: set<Key>, retained: nat, first: set<Key>)
    requires Trimmed(created, eligible, retained, first)
    ensures PartlyTrimmed(created, eligible, retained, first)
    ensures first != {} ==> |eligible - first| == retained
  {
    if p :| p in first {
      SomethingDeleted(eligible, first, p);
      assert Outrank(created, eligible - first, eligible - first, retained, first);
    }
  }

  lemma OutnumberedMeansNoTies(created: Times, eligible: set<Key>, retained: nat, first: set<Key>, pending: set<Key>)
    requires Trimmed(created, eligible, retained, first) && pending <= first
    ensures Outnumbered(created, eligible - first, pending, retained) <==> NoTies(created, eligible - first, pending)
  {
    var rest := eligible - first;
    TrimmedIsPartly(created, eligible, retained, first);
    forall p | p in pending
      ensures |Newer(created, rest, p)| >= retained <==> Newer(created, rest, p) == rest
    {
      SubsetSize(Newer(created, rest, p), rest);
      if |Newer(created, rest, p)| >= retained {
        SameSize(Newer(created, rest, p), rest);
      }
    }
  }

  lemma NothingNewIff(created: Times, eligible: set<Key>, retained: nat, first: set<Key>, second: set<Key>)
    requires Trimmed(created, eligible, retained, first) && second <= eligible
    ensures Trimmed(created, eligible, retained, first + second) <==> second <= first
  {
    if second <= first {
      assert first + second == first;
    } else if Trimmed(created, eligible, retained, first + second) {
      SameSize(eligible - (first + second), eligible - first);
      assert false;
    }
  }

  /**
    After a run that did all it should, every further run asks for nothing new exactly when no item kept is of
    the same second as a pending one.
   */
  lemma RerunAsksNothingNewIff(created: Times, eligible: set<Key>, retained: nat, first: set<Key>, pending: set<Key>)
    requires Trimmed(created, eligible, retained, first) && pending <= first
    ensures (forall second :: Trimmed(created, eligible - first + pending, retained, second) ==> second <= first) <==>
            NoTies(created, eligible - first, pending)
  {
    TrimmedIsPartly(created, eligible, retained, first);
    OutnumberedMeansNoTies(created, eligible, retained, first, pending);
    RerunCompletesIff(created, eligible, retained, first, pending);
    forall second | Trimmed(created, eligible - first + pending, retained, second)
      ensures Trimmed(created, eligible, retained, first + second) <==> second <= first
    {
      NothingNewIff(created, eligible, retained, first, second);
    }
  }
}
