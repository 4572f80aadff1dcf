/**
  The two cleaners of an app: builds and packages beyond a retained number are deleted, but never those that
  the app's current droplet needs.
 */
module Cleaners {
  import opened Common
  import opened Retention

  // ---------------------------------------------------------------- the store

  /**
    A build or a package. It is ready when its Succeeded (a build) or Ready (a package) condition is true;
    `package` is the package that a build was made from. A finalizer holds an item back when it is deleted.
   */
  datatype Item = Item(app: string, created: int, ready: bool, package: string, held: bool, deleting: bool)

  type Items = map<Key, Item>

  function CreationTimes(items: Items): Times {
    map k | k in items :: items[k].created
  }

  predicate BelongsTo(items: Items, app: Key, k: Key) {
    k in items && k.namespace == app.namespace && items[k].app == app.name
  }

  /** What may be deleted for an app: all that is ready but the item of the given name. */
  function Eligible(items: Items, app: Key, current: string): set<Key> {
    set k | k in items && BelongsTo(items, app, k) && k.name != current && items[k].ready
  }

  function AfterDeletes(items: Items, deleted: set<Key>): Items {
    map k | k in items && (k in deleted ==> items[k].held) ::
      if k in deleted then items[k].(deleting := true) else items[k]
  }

  function Delete(items: Items, k: Key): Items
    requires k in items
  {
    if items[k].held then items[k := items[k].(deleting := true)] else items - {k}
  }

  lemma DeleteOneMore(items: Items, deleted: set<Key>, k: Key)
    requires k in items && k !in deleted
    ensures k in AfterDeletes(items, deleted)
    ensures Delete(AfterDeletes(items, deleted), k) == AfterDeletes(items, deleted + {k})
  {
  }

  /** The order that the library's sort gives a list; newest first, and otherwise its own. */
  type Order = (Times, seq<Key>) -> seq<Key>

  ghost predicate Sorts(order: Order) {
    forall created: Times, s: seq<Key> :: Distinct(s) && Elements(s) <= created.Keys ==>
      var sorted := order(created, s);
      Distinct(sorted) && Elements(sorted) == Elements(s) && NewestFirst(created, sorted)
  }

  datatype Outcome = Done | Failed | Panicked

  /** The state that a cleaner leaves: `deleted` is what it has asked to be deleted. */
  ghost predicate Cleaned(before: Items, after: Items, eligible: set<Key>, retained: int, o: Outcome,
                          deleted: set<Key>)
  {
    && after == AfterDeletes(before, deleted)
    && match o
       case Done => retained >= 0 && Trimmed(CreationTimes(before), eligible, retained, deleted)
       case Failed => PartlyTrimmed(CreationTimes(before), eligible, retained, deleted)
       case Panicked => retained < 0 && deleted == {}
  }

  lemma {:induction false} FilterAppend<T>(s: seq<T>, n: nat, p: T -> bool)
    requires n < |s|
    ensures Filter(s[..n + 1], p) == Filter(s[..n], p) + if p(s[n]) then [s[n]] else []
    decreases n
  {
    if n == 0 {
      assert s[..1] == [s[0]] && s[..1][1..] == [];
    } else {
      assert s[..n + 1][1..] == s[1..][..n] && s[..n][1..] == s[1..][..n - 1];
      FilterAppend(s[1..], n - 1, p);
    }
  }

  function MayGo(items: Items, current: string): Key -> bool {
    k => k in items && k.name != current && items[k].ready
  }

  lemma FilterIsEligible(items: Items, app: Key, current: string, listed: seq<Key>, kept: seq<Key>)
    requires Distinct(listed) && forall k :: k in listed <==> BelongsTo(items, app, k)
    requires kept == Filter(listed, MayGo(items, current))
    ensures Distinct(kept) && Elements(kept) == Eligible(items, app, current)
  {
    var p := MayGo(items, current);
    FilterDistinct(listed, p);
    forall k ensures k in kept <==> k in Eligible(items, app, current) {
      FilterIn(listed, p, k);
    }
  }

  lemma NextInTail(s: seq<Key>, from: nat, i: nat)
    requires Distinct(s) && from <= i < |s|
    ensures s[i] !in Elements(s[from..i]) && Elements(s[from..i + 1]) == Elements(s[from..i]) + {s[i]}
    ensures s[i] in Elements(s)
  {
  }

  ghost function Tail(sorted: seq<Key>, from: nat, i: nat): set<Key> {
    if from <= i <= |sorted| then Elements(sorted[from..i]) else {}
  }

  /** One more delete of the loop that deletes from position `from` on. */
  lemma TailStep(items: Items, sorted: seq<Key>, from: nat, i: nat)
    requires Distinct(sorted) && Elements(sorted) <= items.Keys && NewestFirst(CreationTimes(items), sorted)
    requires from <= i < |sorted|
    ensures sorted[i] in AfterDeletes(items, Tail(sorted, from, i))
    ensures Delete(AfterDeletes(items, Tail(sorted, from, i)), sorted[i]) ==
      AfterDeletes(items, Tail(sorted, from, i + 1))
    ensures Cleaned(items, AfterDeletes(items, Tail(sorted, from, i)), Elements(sorted), from, Failed,
      Tail(sorted, from, i))
  {
    TailIsPartlyTrimmed(CreationTimes(items), sorted, from, i);
    NextInTail(sorted, from, i);
    DeleteOneMore(items, Tail(sorted, from, i), sorted[i]);
  }

  lemma WholeTail(sorted: seq<Key>, from: nat, i: nat)
    requires |sorted| <= i && (i <= |sorted| || i == from) && from <= i
    ensures Tail(sorted, from, i) == if from < |sorted| then Elements(sorted[from..]) else {}
  {
  }

  lemma TailDone(items: Items, sorted: seq<Key>, from: nat, i: nat)
    requires Distinct(sorted) && NewestFirst(CreationTimes(items), sorted)
    requires |sorted| <= i && (i <= |sorted| || i == from) && from <= i
    ensures Cleaned(items, AfterDeletes(items, Tail(sorted, from, i)), Elements(sorted), from, Done,
      Tail(sorted, from, i))
  {
    WholeTail(sorted, from, i);
    TailIsTrimmed(CreationTimes(items), sorted, from);
  }

  class Collection {
    var items: Items
    const reliable: bool

    constructor (items: Items, reliable: bool)
      ensures this.items == items && this.reliable == reliable
    {
      this.items, this.reliable := items, reliable;
    }

    /** The names of the app's items, in no particular order. */
    method ListOf(app: Key) returns (keys: Option<seq<Key>>)
      ensures reliable ==> keys.Some?
      ensures keys.Some? ==> Distinct(keys.value) && forall k :: k in keys.value <==> BelongsTo(items, app, k)
    {
      var up := Up(reliable);
      if !up {
        return None;
      }
      var left := set k | k in items && BelongsTo(items, app, k);
      ghost var all := left;
      var found: seq<Key> := [];
      while left != {}
        invariant left <= all && forall k :: k in found <==> k in all - left
        invariant Distinct(found)
        decreases |left|
      {
        var k :| k in left;
        assert forall j :: 0 <= j < |found| ==> found[j] in found;
        found, left := found + [k], left - {k};
      }
      return Some(found);
    }

    method DeleteItem(k: Key) returns (ok: bool)
      requires k in items
      modifies this`items
      ensures items == if ok then Delete(old(items), k) else old(items)
      ensures reliable ==> ok
    {
      ok := Up(reliable);
      if ok {
        items := Delete(items, k);
      }
    }
  }

  class Cluster {
    var apps: map<Key, string>  // the name of the current droplet, or ""
    const builds: Collection
    const packages: Collection

    constructor (apps: map<Key, string>, builds: Collection, packages: Collection)
      ensures this.apps == apps && this.builds == builds && this.packages == packages
    {
      this.apps, this.builds, this.packages := apps, builds, packages;
    }
  }

  // ---------------------------------------------------------------- what the cleaners share

  method Deletable(items: Items, listed: seq<Key>, current: string) returns (deletable: seq<Key>)
    requires forall k :: k in listed ==> k in items
    ensures deletable == Filter(listed, MayGo(items, current))
  {
    deletable := [];
    for i := 0 to |listed|
      invariant deletable == Filter(listed[..i], MayGo(items, current))
    {
      assert listed[i] in listed;
      FilterAppend(listed, i, MayGo(items, current));
      if listed[i].name == current {
        continue;
      }
      if !items[listed[i]].ready {
        continue;
      }
      deletable := deletable + [listed[i]];
    }
    assert listed[..|listed|] == listed;
  }

  method DeleteBeyond(c: Collection, sorted: seq<Key>, retained: int) returns (o: Outcome, ghost deleted: set<Key>)
    requires Distinct(sorted) && Elements(sorted) <= c.items.Keys && NewestFirst(CreationTimes(c.items), sorted)
    modifies c`items
    ensures Cleaned(old(c.items), c.items, Elements(sorted), retained, o, deleted)
    ensures o.Panicked? <==> retained < 0
    ensures c.reliable ==> !o.Failed?
  {
    deleted := {};
    ghost var before := c.items;
    assert AfterDeletes(before, {}) == before;
    if retained < 0 {
      return Panicked, deleted;
    }
    var i := retained;
    while i < |sorted|
      invariant retained <= i
      invariant deleted == Tail(sorted, retained, i)
      invariant c.items == AfterDeletes(before, deleted)
      invariant i <= |sorted| || i == retained
    {
      TailStep(before, sorted, retained, i);
      var ok := c.DeleteItem(sorted[i]);
      if !ok {
        return Failed, deleted;
      }
      i := i + 1;
      deleted := Tail(sorted, retained, i);
    }
    TailDone(before, sorted, retained, i);
    o := Done;
  }

  method CleanCollection(c: Collection, app: Key, current: string, retained: int, order: Order)
    returns (o: Outcome, ghost deleted: set<Key>)
    requires Sorts(order)
    modifies c`items
    ensures Cleaned(old(c.items), c.items, Eligible(old(c.items), app, current), retained, o, deleted)
    ensures c.reliable ==> (o.Done? <==> retained >= 0) && (o.Panicked? <==> retained < 0)
  {
    assert AfterDeletes(c.items, {}) == c.items;
    var listed := c.ListOf(app);
    if listed.None? {
      return Failed, {};
    }
    var deletable := Deletable(c.items, listed.value, current);
    FilterIsEligible(c.items, app, current, listed.value, deletable);
    o, deleted := DeleteBeyond(c, order(CreationTimes(c.items), deletable), retained);
  }

  // ---------------------------------------------------------------- the cleaners

  /** The name of the package that the current droplet was built from; none when its build cannot be read. */
  function CurrentPackage(builds: Items, app: Key, droplet: string): Option<string> {
    if droplet == "" then Some("")
    else if Key(app.namespace, droplet) in builds then Some(builds[Key(app.namespace, droplet)].package)
    else None
  }

  function EligibleBuilds(apps: map<Key, string>, builds: Items, app: Key): set<Key> {
    if app in apps then Eligible(builds, app, apps[app]) else {}
  }

  predicate PackageKnown(apps: map<Key, string>, builds: Items, app: Key) {
    app in apps && CurrentPackage(builds, app, apps[app]).Some?
  }

  function EligiblePackages(apps: map<Key, string>, builds: Items, packages: Items, app: Key): set<Key> {
    if PackageKnown(apps, builds, app)
      then Eligible(packages, app, CurrentPackage(builds, app, apps[app]).value) else {}
  }

  /** What the cleaners may delete, told from the store. */
  lemma EligibleMeaning(apps: map<Key, string>, builds: Items, packages: Items, app: Key, k: Key)
    ensures k in EligibleBuilds(apps, builds, app) <==>
      && app in apps && k in builds && k.namespace == app.namespace && builds[k].app == app.name && builds[k].ready
      && k != Key(app.namespace, apps[app])
    ensures k in EligiblePackages(apps, builds, packages, app) <==>
      && app in apps && k in packages && k.namespace == app.namespace && packages[k].app == app.name
      && packages[k].ready
      && if apps[app] == "" then k.name != ""
         else Key(app.namespace, apps[app]) in builds && k.name != builds[Key(app.namespace, apps[app])].package
  {
  }

  /** All that is deleted is ready and the app's own; it goes, or is on its way out, and all else stays as it was. */
  ghost predicate DeletesOwn(before: Items, after: Items, app: Key, deleted: set<Key>) {
    && (forall k :: k in deleted ==>
          k in before && k.namespace == app.namespace && before[k].app == app.name && before[k].ready)
    && (forall k :: k in after ==> k in before && (k in deleted ==> before[k].held))
    && (forall k :: k in before && k !in deleted ==> k in after && after[k] == before[k])
    && (forall k :: k in deleted && before[k].held ==> k in after && after[k] == before[k].(deleting := true))
  }

  lemma CleanedDeletesOwn(before: Items, after: Items, app: Key, current: string, retained: int, o: Outcome,
                          deleted: set<Key>)
    requires Cleaned(before, after, Eligible(before, app, current), retained, o, deleted)
    ensures DeletesOwn(before, after, app, deleted) && Key(app.namespace, current) !in deleted
  {
    assert deleted <= Eligible(before, app, current);
  }

  class BuildCleaner {
    const cluster: Cluster
    const retainedBuilds: int
    const order: Order

    constructor (cluster: Cluster, retainedBuilds: int, order: Order)
      ensures this.cluster == cluster && this.retainedBuilds == retainedBuilds && this.order == order
    {
      this.cluster, this.retainedBuilds, this.order := cluster, retainedBuilds, order;
    }

    method Clean(app: Key) returns (o: Outcome, ghost deleted: set<Key>)
      requires Sorts(order)
      modifies cluster.builds`items
      ensures Cleaned(old(cluster.builds.items), cluster.builds.items,
                      EligibleBuilds(cluster.apps, old(cluster.builds.items), app), retainedBuilds, o, deleted)
      ensures cluster.builds.reliable ==>
        (o.Done? <==> app in cluster.apps && retainedBuilds >= 0) &&
          (o.Panicked? <==> app in cluster.apps && retainedBuilds < 0)
      ensures app !in cluster.apps ==> o.Failed?
      ensures DeletesOwn(old(cluster.builds.items), cluster.builds.items, app, deleted)
      ensures app in cluster.apps ==> Key(app.namespace, cluster.apps[app]) !in deleted
    {
      assert AfterDeletes(cluster.builds.items, {}) == cluster.builds.items;
      var up := Up(cluster.builds.reliable);
      if !up || app !in cluster.apps {
        return Failed, {};
      }
      o, deleted := CleanCollection(cluster.builds, app, cluster.apps[app], retainedBuilds, order);
      CleanedDeletesOwn(old(cluster.builds.items), cluster.builds.items, app, cluster.apps[app], retainedBuilds, o,
                        deleted);
    }
  }

  class PackageCleaner {
    const cluster: Cluster
    const retainedPackages: int
    const order: Order

    constructor (cluster: Cluster, retainedPackages: int, order: Order)
      ensures this.cluster == cluster && this.retainedPackages == retainedPackages && this.order == order
    {
      this.cluster, this.retainedPackages, this.order := cluster, retainedPackages, order;
    }

    method Clean(app: Key) returns (o: Outcome, ghost deleted: set<Key>)
      requires Sorts(order)
      modifies cluster.packages`items
      ensures Cleaned(old(cluster.packages.items), cluster.packages.items,
                      EligiblePackages(cluster.apps, old(cluster.builds.items), old(cluster.packages.items), app),
                        retainedPackages, o, deleted)
      ensures cluster.packages.reliable ==>
        (o.Done? <==> PackageKnown(cluster.apps, old(cluster.builds.items), app) && retainedPackages >= 0) &&
        (o.Panicked? <==> PackageKnown(cluster.apps, old(cluster.builds.items), app) && retainedPackages < 0)
      ensures !PackageKnown(cluster.apps, old(cluster.builds.items), app) ==> o.Failed?
      ensures DeletesOwn(old(cluster.packages.items), cluster.packages.items, app, deleted)
      ensures
        app in cluster.apps && cluster.apps[app] != "" &&
        Key(app.namespace, cluster.apps[app]) in old(cluster.builds.items) ==>
          Key(app.namespace, old(cluster.builds.items)[Key(app.namespace, cluster.apps[app])].package) !in deleted
    {
      assert AfterDeletes(cluster.packages.items, {}) == cluster.packages.items;
      var up := Up(cluster.packages.reliable);
      if !up || app !in cluster.apps {
        return Failed, {};
      }
      var currentPackage := "";
      var droplet := cluster.apps[app];
      if droplet != "" {
        up := Up(cluster.packages.reliable);
        if !up || Key(app.namespace, droplet) !in cluster.builds.items {
          return Failed, {};
        }
        currentPackage := cluster.builds.items[Key(app.namespace, droplet)].package;
      }
      o, deleted := CleanCollection(cluster.packages, app, currentPackage, retainedPackages, order);
      CleanedDeletesOwn(old(cluster.packages.items), cluster.packages.items, app, currentPackage, retainedPackages, o,
                        deleted);
    }
  }

  // ---------------------------------------------------------------- running a cleaner again

  function Pending(items: Items, deleted: set<Key>): set<Key> {
    set k | k in deleted && k in items && items[k].held
  }

  lemma EligibleAfterDeletes(items: Items, app: Key, current: string, deleted: set<Key>)
    requires deleted <= Eligible(items, app, current)
    ensures Eligible(AfterDeletes(items, deleted), app, current) ==
      Eligible(items, app, current) - deleted + Pending(items, deleted)
  {
  }

  lemma DeletesCompose(items: Items, first: set<Key>, second: set<Key>)
    ensures AfterDeletes(AfterDeletes(items, first), second) == AfterDeletes(items, first + second)
  {
  }

  /** What a further run finds, and how it judges it, seen from before the first run. */
  ghost predicate SeenAgain(before: Items, app: Key, current: string, retained: int, first: set<Key>,
                            second: set<Key>)
  {
    var mid := AfterDeletes(before, first);
    Trimmed(CreationTimes(mid), Eligible(mid, app, current), retained, second)
  }

  lemma SameTimes(created: Times, after: Times, eligible: set<Key>, retained: int, deleted: set<Key>)
    requires eligible <= after.Keys <= created.Keys && forall k :: k in eligible ==> created[k] == after[k]
    ensures Trimmed(created, eligible, retained, deleted) <==> Trimmed(after, eligible, retained, deleted)
  {
  }

  lemma SeenAgainIff(before: Items, app: Key, current: string, retained: int, first: set<Key>, second: set<Key>)
    requires first <= Eligible(before, app, current)
    ensures SeenAgain(before, app, current, retained, first, second) <==>
            Trimmed(CreationTimes(before), Eligible(before, app, current) - first +
              Pending(before, first), retained, second)
  {
    EligibleAfterDeletes(before, app, current, first);
    SameTimes(CreationTimes(before), CreationTimes(AfterDeletes(before, first)),
              Eligible(before, app, current) - first + Pending(before, first), retained, second);
  }

  /**
    After a run that failed half-way, every successful further run, whatever its sort, brings about what one run
    should exactly when each item that a finalizer still holds back is outnumbered by newer ones that stay.
   */
  lemma RerunFinishesTheWork(before: Items, app: Key, current: string, retained: nat, first: set<Key>)
    requires PartlyTrimmed(CreationTimes(before), Eligible(before, app, current), retained, first)
    ensures (forall second :: SeenAgain(before, app, current, retained, first, second) ==>
               Trimmed(CreationTimes(before), Eligible(before, app, current), retained, first + second)) <==>
            Outnumbered(CreationTimes(before), Eligible(before, app, current) - first, Pending(before, first), retained)
  {
    forall second
      ensures SeenAgain(before, app, current, retained, first, second) <==>
              Trimmed(CreationTimes(before), Eligible(before, app, current) - first +
                Pending(before, first), retained, second)
    {
      SeenAgainIff(before, app, current, retained, first, second);
    }
    RerunCompletesIff(CreationTimes(before), Eligible(before, app, current), retained, first, Pending(before, first));
  }

  /**
    After a run that succeeded, every further run asks for nothing new exactly when no item that stays is of the
    same second as one that a finalizer still holds back; with nothing held back that is always so.
   */
  lemma RerunAsksNothingNew(before: Items, app: Key, current: string, retained: nat, first: set<Key>)
    requires Trimmed(CreationTimes(before), Eligible(before, app, current), retained, first)
    ensures (forall second :: SeenAgain(before, app, current, retained, first, second) ==> second <= first) <==>
            NoTies(CreationTimes(before), Eligible(before, app, current) - first, Pending(before, first))
  {
    forall second
      ensures SeenAgain(before, app, current, retained, first, second) <==>
              Trimmed(CreationTimes(before), Eligible(before, app, current) - first +
                Pending(before, first), retained, second)
    {
      SeenAgainIff(before, app, current, retained, first, second);
    }
    RerunAsksNothingNewIff(CreationTimes(before), Eligible(before, app, current), retained, first,
      Pending(before, first));
  }

  /** A run that asks for nothing new changes nothing. */
  lemma NothingNewChangesNothing(before: Items, first: set<Key>, second: set<Key>)
    requires second <= first
    ensures AfterDeletes(AfterDeletes(before, first), second) == AfterDeletes(before, first)
  {
    DeletesCompose(before, first, second);
    assert first + second == first;
  }

  // ---------------------------------------------------------------- the current droplet is safe

  /**
    A cleaner at work, from one store call to the next: a package cleaner has read the app and not yet its build;
    a cleaner has read what is current; it has listed what it will delete, one item after the other.
   */
  datatype Cleaning =
    | AppRead(app: Key, droplet: string, retained: nat)
    | Reading(app: Key, ofBuilds: bool, current: string, retained: nat)
    | Deleting(ofBuilds: bool, targets: set<Key>)

  datatype World = World(apps: map<Key, string>, builds: Items, packages: Items, cleanings: map<nat, Cleaning>)

  function ItemsOf(w: World, ofBuilds: bool): Items {
    if ofBuilds then w.builds else w.packages
  }

  function WithItems(w: World, ofBuilds: bool, items: Items): World {
    if ofBuilds then w.(builds := items) else w.(packages := items)
  }

  function BuildKey(app: Key, droplet: string): Key {
    Key(app.namespace, droplet)
  }

  datatype Event =
    | AppFetched(run: nat, app: Key, ofBuilds: bool, retained: nat)
    | BuildFetched(run: nat)
    | ItemsListed(run: nat, targets: set<Key>)
    | ItemDeleted(run: nat, key: Key)
    | Ended(run: nat)
    | ItemGone(ofBuilds: bool, key: Key)
    | Rewritten(apps: map<Key, string>, builds: Items, packages: Items)

  predicate Fetches(w: World, run: nat) {
    run in w.cleanings && w.cleanings[run].AppRead? &&
      BuildKey(w.cleanings[run].app, w.cleanings[run].droplet) in w.builds
  }

  /** A cleaner that has read what is current goes on to delete what some sort puts beyond the retained number. */
  ghost predicate MayList(w: World, run: nat, targets: set<Key>) {
    && run in w.cleanings && w.cleanings[run].Reading?
    && var c := w.cleanings[run];
       var items := ItemsOf(w, c.ofBuilds);
       Trimmed(CreationTimes(items), Eligible(items, c.app, c.current), c.retained, targets)
  }

  predicate MayDelete(w: World, run: nat, k: Key) {
    && run in w.cleanings && w.cleanings[run].Deleting?
    && k in w.cleanings[run].targets && k in ItemsOf(w, w.cleanings[run].ofBuilds)
  }

  /** Between any two of a cleaner's steps other cleaners, finalizers and the rest of Korifi can do theirs. */
  ghost predicate Can(w: World, e: Event, app: Key) {
    match e
    case AppFetched(run, a, _, _) => run !in w.cleanings && a in w.apps
    case BuildFetched(run) => Fetches(w, run)
    case ItemsListed(run, targets) => MayList(w, run, targets)
    case ItemDeleted(run, k) => MayDelete(w, run, k)
    case Ended(run) => run in w.cleanings
    case ItemGone(ofBuilds, k) => k in ItemsOf(w, ofBuilds) && ItemsOf(w, ofBuilds)[k].deleting
    case Rewritten(apps, builds, packages) => Leaves(w, World(apps, builds, packages, w.cleanings), app)
  }

  /** The build cleaner spares the droplet's build; the package cleaner has to read it, if there is a droplet. */
  function Started(a: Key, droplet: string, ofBuilds: bool, retained: nat): Cleaning {
    if ofBuilds || droplet == "" then Reading(a, ofBuilds, droplet, retained) else AppRead(a, droplet, retained)
  }

  function After(w: World, e: Event): World {
    match e
    case AppFetched(run, a, ofBuilds, retained) =>
      if a !in w.apps then w else w.(cleanings := w.cleanings[run := Started(a, w.apps[a], ofBuilds, retained)])
    case BuildFetched(run) =>
      if !Fetches(w, run) then w
      else
        var c := w.cleanings[run];
        var package := w.builds[BuildKey(c.app, c.droplet)].package;
        w.(cleanings := w.cleanings[run := Reading(c.app, false, package, c.retained)])
    case ItemsListed(run, targets) =>
      if run !in w.cleanings || !w.cleanings[run].Reading? then w
      else w.(cleanings := w.cleanings[run := Deleting(w.cleanings[run].ofBuilds, targets)])
    case ItemDeleted(run, k) =>
      if !MayDelete(w, run, k) then w
      else WithItems(w, w.cleanings[run].ofBuilds, Delete(ItemsOf(w, w.cleanings[run].ofBuilds), k))
    case Ended(run) => w.(cleanings := w.cleanings - {run})
    case ItemGone(ofBuilds, k) => WithItems(w, ofBuilds, ItemsOf(w, ofBuilds) - {k})
    case Rewritten(apps, builds, packages) => World(apps, builds, packages, w.cleanings)
  }

  ghost predicate Runs(w: World, es: seq<Event>, app: Key)
    decreases |es|
  {
    es == [] || (Can(w, es[0], app) && Runs(After(w, es[0]), es[1..], app))
  }

  function Final(w: World, es: seq<Event>): World
    decreases |es|
  {
    if es == [] then w else Final(After(w, es[0]), es[1..])
  }

  predicate Kept(items: Items, app: Key, k: Key) {
    BelongsTo(items, app, k) && !items[k].deleting
  }

  /** The app's current droplet has its build and its package, neither on its way out, both the app's own. */
  predicate DropletIntact(w: World, app: Key, droplet: string) {
    && app in w.apps && w.apps[app] == droplet && droplet != ""
    && Kept(w.builds, app, BuildKey(app, droplet))
    && Kept(w.packages, app, Key(app.namespace, w.builds[BuildKey(app, droplet)].package))
  }

  /** The key of the build, or of the package, of the droplet. */
  function DropletKey(w: World, app: Key, droplet: string, ofBuilds: bool): Key
    requires DropletIntact(w, app, droplet)
  {
    if ofBuilds then BuildKey(app, droplet) else Key(app.namespace, w.builds[BuildKey(app, droplet)].package)
  }

  /** A cleaner at work has read of another droplet, or has listed the build or package of this one. */
  predicate Aims(w: World, app: Key, droplet: string, run: nat)
    requires DropletIntact(w, app, droplet)
  {
    run in w.cleanings && match w.cleanings[run]
      case AppRead(a, d, _) => a == app && d != droplet
      case Reading(a, ofBuilds, current, _) => a == app && current != DropletKey(w, app, droplet, ofBuilds).name
      case Deleting(ofBuilds, targets) => DropletKey(w, app, droplet, ofBuilds) in targets
  }

  predicate NobodyAims(w: World, app: Key, droplet: string)
    requires DropletIntact(w, app, droplet)
  {
    forall run :: run in w.cleanings ==> !Aims(w, app, droplet, run)
  }

  /**
    The rest of Korifi does anything, but that it leaves the app its droplet, and the droplet its build and
    package.
   */
  predicate Leaves(w: World, next: World, app: Key) {
    app in w.apps && app in next.apps && next.apps[app] == w.apps[app] &&
    var build := BuildKey(app, w.apps[app]);
    (Kept(w.builds, app, build) ==>
       Kept(next.builds, app, build) && next.builds[build].package == w.builds[build].package &&
       (Kept(w.packages, app, Key(app.namespace, w.builds[build].package)) ==>
          Kept(next.packages, app, Key(app.namespace, w.builds[build].package))))
  }

  lemma EventLeavesDroplet(w: World, e: Event, app: Key, droplet: string)
    requires DropletIntact(w, app, droplet) && NobodyAims(w, app, droplet) && Can(w, e, app)
    ensures DropletIntact(After(w, e), app, droplet) && NobodyAims(After(w, e), app, droplet)
  {
    if e.ItemsListed? && e.run in w.cleanings {
      assert !Aims(w, app, droplet, e.run);
    }
  }

  /**
    While an app keeps its droplet, no run of the cleaners, of any app, however they end and whatever happens
    between their steps, takes its build or package.
   */
  lemma {:induction false} CurrentDropletSurvives(w: World, es: seq<Event>, app: Key, droplet: string)
    requires DropletIntact(w, app, droplet) && NobodyAims(w, app, droplet) && Runs(w, es, app)
    ensures DropletIntact(Final(w, es), app, droplet)
    decreases |es|
  {
    if es != [] {
      EventLeavesDroplet(w, es[0], app, droplet);
      CurrentDropletSurvives(After(w, es[0]), es[1..], app, droplet);
    }
  }

  // ---------------------------------------------------------------- how a droplet can be lost

  lemma RunCons(w: World, e: Event, es: seq<Event>, app: Key)
    ensures Runs(w, [e] + es, app) <==> Can(w, e, app) && Runs(After(w, e), es, app)
    ensures Final(w, [e] + es) == Final(After(w, e), es)
  {
    assert ([e] + es)[1..] == es;
  }

  lemma AimedIsLost(w: World, app: Key, droplet: string, run: nat) returns (es: seq<Event>)
    requires DropletIntact(w, app, droplet) && Aims(w, app, droplet, run) && w.cleanings[run].Deleting?
    ensures Runs(w, es, app) && !DropletIntact(Final(w, es), app, droplet)
  {
    var e := ItemDeleted(run, DropletKey(w, app, droplet, w.cleanings[run].ofBuilds));
    RunCons(w, e, [], app);
    es := [e] + [];
  }

  lemma {:induction false} LongestName(keys: set<Key>) returns (n: nat)
    ensures forall k :: k in keys ==> |k.name| <= n
  {
    if k :| k in keys {
      n := LongestName(keys - {k});
      n := if |k.name| > n then |k.name| else n;
    } else {
      n := 0;
    }
  }

  lemma FreshKey(items: Items, namespace: string, current: string) returns (k: Key)
    ensures k !in items && k.namespace == namespace && k.name != current
  {
    var n := LongestName(items.Keys);
    k := Key(namespace, seq(n + |current| + 1, i => 'x'));
  }

  /** The rest of Korifi makes an item ready and adds a number of newer ready ones to the app. */
  lemma {:induction false} Crowd(items: Items, app: Key, k: Key, current: string, n: nat) returns (crowd: Items)
    requires k in items
    ensures k in crowd && crowd[k] == items[k].(ready := true)
    ensures forall x :: x in items && x != k ==> x in crowd && crowd[x] == items[x]
    ensures |Newer(CreationTimes(crowd), Eligible(crowd, app, current) - {k}, k)| >= n
  {
    if n == 0 {
      crowd := items[k := items[k].(ready := true)];
    } else {
      var fewer := Crowd(items, app, k, current, n - 1);
      var added := FreshKey(fewer, app.namespace, current);
      crowd := fewer[added := Item(app.name, items[k].created + 1, true, "", false, false)];
      OneMoreNewer(fewer, crowd, app, k, current, added);
    }
  }

  lemma OneMoreNewer(fewer: Items, crowd: Items, app: Key, k: Key, current: string, added: Key)
    requires k in fewer && added !in fewer && added.namespace == app.namespace && added.name != current
    requires crowd == fewer[added := Item(app.name, fewer[k].created + 1, true, "", false, false)]
    ensures |Newer(CreationTimes(crowd), Eligible(crowd, app, current) - {k}, k)| ==
            |Newer(CreationTimes(fewer), Eligible(fewer, app, current) - {k}, k)| + 1
  {
    assert Newer(CreationTimes(crowd), Eligible(crowd, app, current) - {k}, k) ==
           Newer(CreationTimes(fewer), Eligible(fewer, app, current) - {k}, k) + {added};
  }

  /** Once enough newer items are there, a cleaner that spares another name has to list the item. */
  lemma CrowdedOutIsListed(items: Items, app: Key, k: Key, current: string, retained: nat) returns (targets: set<Key>)
    requires k in Eligible(items, app, current)
    requires |Newer(CreationTimes(items), Eligible(items, app, current) - {k}, k)| >= retained
    ensures Trimmed(CreationTimes(items), Eligible(items, app, current), retained, targets) && k in targets
  {
    var rest := Eligible(items, app, current) - {k};
    targets := SomeTrimming(CreationTimes(items), Eligible(items, app, current), retained);
    assert rest + {k} == Eligible(items, app, current);
    OutnumberedGoesAgain(CreationTimes(items), rest, {k}, retained, targets, k);
  }

  /** The same world with more items, the droplet's kept. */
  lemma CrowdingLeaves(w: World, app: Key, droplet: string, ofBuilds: bool, crowd: Items)
    requires DropletIntact(w, app, droplet)
    requires var k, items := DropletKey(w, app, droplet, ofBuilds), ItemsOf(w, ofBuilds);
      k in crowd && crowd[k] == items[k].(ready := true) && forall x :: x in items && x != k ==>
        x in crowd && crowd[x] == items[x]
    ensures
      var next := WithItems(w, ofBuilds, crowd);
      Leaves(w, next, app) && DropletIntact(next, app, droplet)
      && DropletKey(next, app, droplet, ofBuilds) == DropletKey(w, app, droplet, ofBuilds)
  {
  }

  lemma CrowdedOutIsLost(w: World, app: Key, droplet: string, run: nat) returns (es: seq<Event>)
    requires DropletIntact(w, app, droplet) && Aims(w, app, droplet, run) && w.cleanings[run].Reading?
    requires var c, k := w.cleanings[run], DropletKey(w, app, droplet, w.cleanings[run].ofBuilds);
      && ItemsOf(w, c.ofBuilds)[k].ready
      && var items := ItemsOf(w, c.ofBuilds);
         |Newer(CreationTimes(items), Eligible(items, app, c.current) - {k}, k)| >= c.retained
    ensures Runs(w, es, app) && !DropletIntact(Final(w, es), app, droplet)
  {
    var c, k := w.cleanings[run], DropletKey(w, app, droplet, w.cleanings[run].ofBuilds);
    var targets := CrowdedOutIsListed(ItemsOf(w, c.ofBuilds), app, k, c.current, c.retained);
    var listed := After(w, ItemsListed(run, targets));
    var rest := AimedIsLost(listed, app, droplet, run);
    RunCons(w, ItemsListed(run, targets), rest, app);
    es := [ItemsListed(run, targets)] + rest;
  }

  lemma MisreadIsLost(w: World, app: Key, droplet: string, run: nat) returns (es: seq<Event>)
    requires DropletIntact(w, app, droplet) && Aims(w, app, droplet, run) && w.cleanings[run].Reading?
    ensures Runs(w, es, app) && !DropletIntact(Final(w, es), app, droplet)
  {
    var c := w.cleanings[run];
    var k := DropletKey(w, app, droplet, c.ofBuilds);
    var crowd := Crowd(ItemsOf(w, c.ofBuilds), app, k, c.current, c.retained);
    CrowdingLeaves(w, app, droplet, c.ofBuilds, crowd);
    var crowded := WithItems(w, c.ofBuilds, crowd);
    var rest := CrowdedOutIsLost(crowded, app, droplet, run);
    var rewrite := Rewritten(crowded.apps, crowded.builds, crowded.packages);
    assert After(w, rewrite) == crowded;
    RunCons(w, rewrite, rest, app);
    es := [rewrite] + rest;
  }

  /** A package cleaner that still goes by another droplet can be led to another package. */
  lemma OldDropletIsLost(w: World, app: Key, droplet: string, run: nat) returns (es: seq<Event>)
    requires DropletIntact(w, app, droplet) && Aims(w, app, droplet, run) && w.cleanings[run].AppRead?
    ensures Runs(w, es, app) && !DropletIntact(Final(w, es), app, droplet)
  {
    var c, package := w.cleanings[run], DropletKey(w, app, droplet, false).name;
    var other := Item(app.name, 0, false, package + "x", false, false);
    var next := w.(builds := w.builds[BuildKey(app, c.droplet) := other]);
    var fetched := After(next, BuildFetched(run));
    var rest := MisreadIsLost(fetched, app, droplet, run);
    RunCons(next, BuildFetched(run), rest, app);
    var rewrite := Rewritten(next.apps, next.builds, next.packages);
    assert After(w, rewrite) == next;
    RunCons(w, rewrite, [BuildFetched(run)] + rest, app);
    es := [rewrite] + ([BuildFetched(run)] + rest);
  }

  /** When a droplet has become current it is safe from then on exactly when no cleaner already at work aims at it. */
  lemma DropletIsSafeIff(w: World, app: Key, droplet: string)
    requires DropletIntact(w, app, droplet)
    ensures (forall es :: Runs(w, es, app) ==> DropletIntact(Final(w, es), app, droplet)) <==>
      NobodyAims(w, app, droplet)
  {
    if NobodyAims(w, app, droplet) {
      forall es | Runs(w, es, app)
        ensures DropletIntact(Final(w, es), app, droplet)
      {
        CurrentDropletSurvives(w, es, app, droplet);
      }
    } else {
      var run :| run in w.cleanings && Aims(w, app, droplet, run);
      var es: seq<Event>;
      match w.cleanings[run]
      case AppRead(_, _, _) => es := OldDropletIsLost(w, app, droplet, run);
      case Reading(_, _, _, _) => es := MisreadIsLost(w, app, droplet, run);
      case Deleting(_, _) => es := AimedIsLost(w, app, droplet, run);
    }
  }

  // ---------------------------------------------------------------- the cleaners take those steps

  function Deletes(run: nat, keys: seq<Key>): seq<Event> {
    if keys == [] then [] else [ItemDeleted(run, keys[0])] + Deletes(run, keys[1..])
  }

  /** Whatever a Clean has asked to be deleted, the steps of a cleaner can delete, one item at a time, in any order. */
  lemma {:induction false} DeletesOneByOne(w: World, app: Key, run: nat, keys: seq<Key>)
    requires run in w.cleanings && w.cleanings[run].Deleting? && Distinct(keys)
    requires forall k :: k in keys ==> k in w.cleanings[run].targets && k in ItemsOf(w, w.cleanings[run].ofBuilds)
    ensures Runs(w, Deletes(run, keys), app)
    ensures Final(w, Deletes(run, keys)) ==
            WithItems(w, w.cleanings[run].ofBuilds, AfterDeletes(ItemsOf(w, w.cleanings[run].ofBuilds), Elements(keys)))
    decreases |keys|
  {
    var ofBuilds := w.cleanings[run].ofBuilds;
    if keys == [] {
      assert AfterDeletes(ItemsOf(w, ofBuilds), Elements(keys)) == ItemsOf(w, ofBuilds);
    } else {
      var e, rest := ItemDeleted(run, keys[0]), keys[1..];
      assert keys == [keys[0]] + rest;
      assert Deletes(run, keys)[1..] == Deletes(run, rest);
      forall k | k in rest ensures k != keys[0] {
        var i :| 0 <= i < |rest| && rest[i] == k;
        assert keys[i + 1] == k;
      }
      DeletesOneByOne(After(w, e), app, run, rest);
      DeleteIsAfterDeletes(ItemsOf(w, ofBuilds), keys[0]);
      DeletesCompose(ItemsOf(w, ofBuilds), {keys[0]}, Elements(rest));
      assert Elements(keys) == {keys[0]} + Elements(rest);
    }
  }

  lemma DeleteIsAfterDeletes(items: Items, k: Key)
    requires k in items
    ensures Delete(items, k) == AfterDeletes(items, {k})
  {
  }

  lemma {:induction false} RunsConcat(w: World, es: seq<Event>, more: seq<Event>, app: Key)
    ensures Runs(w, es + more, app) <==> Runs(w, es, app) && Runs(Final(w, es), more, app)
    ensures Final(w, es + more) == Final(Final(w, es), more)
    decreases |es|
  {
    if es == [] {
      assert es + more == more;
    } else {
      assert (es + more)[1..] == es[1..] + more;
      RunsConcat(After(w, es[0]), es[1..], more, app);
    }
  }

  /** What a cleaner that is to delete `targets`, and deletes `keys` of them, does once it knows what is current. */
  function ListAndDelete(run: nat, targets: set<Key>, keys: seq<Key>): seq<Event> {
    [ItemsListed(run, targets)] + (Deletes(run, keys) + [Ended(run)])
  }

  lemma ListAndDeleteRuns(w: World, of: Key, run: nat, targets: set<Key>, keys: seq<Key>)
    requires MayList(w, run, targets) && Distinct(keys) && Elements(keys) <= targets
    ensures Runs(w, ListAndDelete(run, targets, keys), of)
    ensures var ofBuilds := w.cleanings[run].ofBuilds;
      Final(w, ListAndDelete(run, targets, keys)) ==
      WithItems(w, ofBuilds, AfterDeletes(ItemsOf(w, ofBuilds), Elements(keys))).(cleanings := w.cleanings - {run})
  {
    var listed := After(w, ItemsListed(run, targets));
    forall k | k in keys ensures k in targets && k in ItemsOf(w, w.cleanings[run].ofBuilds) {
      assert k in Elements(keys);
    }
    DeletesOneByOne(listed, of, run, keys);
    RunsConcat(listed, Deletes(run, keys), [Ended(run)], of);
    RunCons(Final(listed, Deletes(run, keys)), Ended(run), [], of);
    assert [Ended(run)] + [] == [Ended(run)];
    RunCons(w, ItemsListed(run, targets), Deletes(run, keys) + [Ended(run)], of);
    assert w.cleanings[run := listed.cleanings[run]] - {run} == w.cleanings - {run};
  }

  /** The targets of a cleaner that has deleted some of them: what it has deleted and what it had yet to delete. */
  lemma Targets(before: Items, after: Items, eligible: set<Key>, retained: nat, o: Outcome, deleted: set<Key>)
    returns (targets: set<Key>)
    requires Cleaned(before, after, eligible, retained, o, deleted)
    ensures Trimmed(CreationTimes(before), eligible, retained, targets) && deleted <= targets
    ensures o.Done? ==> targets == deleted
  {
    targets := deleted;
    if o.Failed? {
      var rest := SomeTrimming(CreationTimes(before), eligible - deleted, retained);
      RerunCompletes(CreationTimes(before), eligible, retained, deleted, rest);
      targets := deleted + rest;
    }
  }

  /**
    What Clean does when nothing comes between its calls is a run of the cleaner's steps, over the same store: it
    reads the app, and as a package cleaner the build of its droplet, lists, deletes one item after the other and ends.
   */
  lemma BuildCleanIsRun(w: World, app: Key, run: nat, retained: nat, o: Outcome, after: Items, deleted: set<Key>,
                        of: Key)
    returns (targets: set<Key>, keys: seq<Key>)
    requires run !in w.cleanings && app in w.apps
    requires Cleaned(w.builds, after, EligibleBuilds(w.apps, w.builds, app), retained, o, deleted)
    ensures Distinct(keys) && Elements(keys) == deleted <= targets && (o.Done? ==> targets == deleted)
    ensures var es := [AppFetched(run, app, true, retained)] + ListAndDelete(run, targets, keys);
      Runs(w, es, of) && Final(w, es) == w.(builds := after)
  {
    targets := Targets(w.builds, after, EligibleBuilds(w.apps, w.builds, app), retained, o, deleted);
    keys := SortedListing(CreationTimes(w.builds), deleted);
    var e := AppFetched(run, app, true, retained);
    ListAndDeleteRuns(After(w, e), of, run, targets, keys);
    RunCons(w, e, ListAndDelete(run, targets, keys), of);
  }

  function Fetch(w: World, app: Key, run: nat): seq<Event> {
    if app in w.apps && w.apps[app] == "" then [] else [BuildFetched(run)]
  }

  function PackageRead(w: World, app: Key, run: nat, retained: nat): World
    requires PackageKnown(w.apps, w.builds, app)
  {
    var current := CurrentPackage(w.builds, app, w.apps[app]).value;
    w.(cleanings := w.cleanings[run := Reading(app, false, current, retained)])
  }

  lemma FetchingReads(w: World, app: Key, run: nat, retained: nat, of: Key, rest: seq<Event>)
    requires run !in w.cleanings && PackageKnown(w.apps, w.builds, app)
    requires Runs(PackageRead(w, app, run, retained), rest, of)
    ensures Runs(w, [AppFetched(run, app, false, retained)] + (Fetch(w, app, run) + rest), of)
    ensures Final(w, [AppFetched(run, app, false, retained)] + (Fetch(w, app, run) + rest)) ==
            Final(PackageRead(w, app, run, retained), rest)
  {
    var e := AppFetched(run, app, false, retained);
    var read := After(w, e);
    RunCons(w, e, Fetch(w, app, run) + rest, of);
    if w.apps[app] == "" {
      assert Fetch(w, app, run) + rest == rest;
    } else {
      RunCons(read, BuildFetched(run), rest, of);
      assert read.cleanings[run := PackageRead(w, app, run, retained).cleanings[run]] ==
             PackageRead(w, app, run, retained).cleanings;
    }
  }

  lemma PackageReadDeletes(w: World, app: Key, run: nat, retained: nat, targets: set<Key>, keys: seq<Key>, of: Key)
    requires run !in w.cleanings && PackageKnown(w.apps, w.builds, app)
    requires Trimmed(CreationTimes(w.packages), EligiblePackages(w.apps, w.builds, w.packages, app), retained, targets)
    requires Distinct(keys) && Elements(keys) <= targets
    ensures Runs(PackageRead(w, app, run, retained), ListAndDelete(run, targets, keys), of)
    ensures Final(PackageRead(w, app, run, retained), ListAndDelete(run, targets, keys)) ==
            w.(packages := AfterDeletes(w.packages, Elements(keys)))
  {
    var read := PackageRead(w, app, run, retained);
    ListAndDeleteRuns(read, of, run, targets, keys);
    assert read.cleanings - {run} == w.cleanings;
  }

  lemma PackageCleanIsRun(w: World, app: Key, run: nat, retained: nat, o: Outcome, after: Items, deleted: set<Key>,
                          of: Key)
    returns (targets: set<Key>, keys: seq<Key>)
    requires run !in w.cleanings && app in w.apps
    requires w.apps[app] == "" || Key(app.namespace, w.apps[app]) in w.builds
    requires Cleaned(w.packages, after, EligiblePackages(w.apps, w.builds, w.packages, app), retained, o, deleted)
    ensures Distinct(keys) && Elements(keys) == deleted <= targets && (o.Done? ==> targets == deleted)
    ensures var rest := ListAndDelete(run, targets, keys);
      var es := [AppFetched(run, app, false, retained)] + (Fetch(w, app, run) + rest);
      Runs(w, es, of) && Final(w, es) == w.(packages := after)
  {
    targets := Targets(w.packages, after, EligiblePackages(w.apps, w.builds, w.packages, app), retained, o, deleted);
    keys := SortedListing(CreationTimes(w.packages), deleted);
    PackageReadDeletes(w, app, run, retained, targets, keys, of);
    FetchingReads(w, app, run, retained, of, ListAndDelete(run, targets, keys));
  }
}
