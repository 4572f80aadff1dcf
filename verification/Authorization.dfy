/**
  Service-account names, subjects and identities, and the two ways of asking in which
  namespaces an identity has a role binding: namespace by namespace, or all at once.
 */
module Authorization {
  import opened Common

  const SERVICE_ACCOUNT_PREFIX := "system:serviceaccount:"
  const SERVICE_ACCOUNT_KIND := "ServiceAccount"
  const USER_KIND := "User"

  datatype Identity = Identity(name: string, kind: string)
  datatype Subject = Subject(kind: string, name: string, namespace: string)
  datatype RoleBinding = RoleBinding(
    namespace: string,
    name: string,
    labels: map<string, string>,
    propagate: bool,
    subjects: seq<Subject>,
    roleRef: string)
  datatype Namespace = Namespace(name: string, labels: set<string>)

  datatype Error = NoIdentity | ListFailed | MalformedIdentity

  // ---------------------------------------------------------------- service-account names

  /** The segments of a string between separators. */
  function Split(s: string, sep: char): (segments: seq<string>)
    ensures |segments| >= 1
  {
    if s == [] then [""]
    else
      var rest := Split(s[1..], sep);
      if s[0] == sep then [""] + rest else [[s[0]] + rest[0]] + rest[1..]
  }

  lemma {:induction false} SplitSegmentsLackSeparator(s: string, sep: char)
    ensures forall i :: 0 <= i < |Split(s, sep)| ==> sep !in Split(s, sep)[i]
  {
    if s != [] {
      SplitSegmentsLackSeparator(s[1..], sep);
    }
  }

  lemma {:induction false} SplitWithoutSeparator(s: string, sep: char)
    requires sep !in s
    ensures Split(s, sep) == [s]
  {
    if s != [] {
      SplitWithoutSeparator(s[1..], sep);
      assert [s[0]] + s[1..] == s;
    }
  }

  lemma {:induction false} SplitConcat(a: string, b: string, sep: char)
    ensures Split(a + [sep] + b, sep) == Split(a, sep) + Split(b, sep)
  {
    var s := a + [sep] + b;
    if a == [] {
      assert s == [sep] + b;
      assert s[1..] == b;
    } else {
      assert s[1..] == a[1..] + [sep] + b;
      SplitConcat(a[1..], b, sep);
    }
  }

  lemma {:induction false} SplitIntoTwo(s: string, sep: char)
    requires |Split(s, sep)| == 2
    ensures s == Split(s, sep)[0] + [sep] + Split(s, sep)[1]
  {
    var rest := Split(s[1..], sep);
    if s[0] == sep {
      SplitIntoOne(s[1..], sep);
    } else {
      SplitIntoTwo(s[1..], sep);
    }
    assert s == [s[0]] + s[1..];
  }

  lemma {:induction false} SplitIntoOne(s: string, sep: char)
    requires |Split(s, sep)| == 1
    ensures s == Split(s, sep)[0]
  {
    if s != [] {
      SplitIntoOne(s[1..], sep);
      assert s == [s[0]] + s[1..];
    }
  }

  predicate HasServiceAccountPrefix(name: string) {
    SERVICE_ACCOUNT_PREFIX <= name
  }

  /** The last two segments of a name. */
  function ServiceAccountNSAndName(name: string): (string, string)
    requires |Split(name, ':')| >= 2
  {
    var segments := Split(name, ':');
    (segments[|segments| - 2], segments[|segments| - 1])
  }

  function ServiceAccountName(namespace: string, name: string): string {
    SERVICE_ACCOUNT_PREFIX + namespace + ":" + name
  }

  lemma SplitTwoHeads(a: string, b: string, rest: string, sep: char)
    requires sep !in a && sep !in b
    ensures Split(a + [sep] + (b + [sep] + rest), sep) == [a, b] + Split(rest, sep)
  {
    SplitConcat(a, b + [sep] + rest, sep);
    SplitConcat(b, rest, sep);
    SplitWithoutSeparator(a, sep);
    SplitWithoutSeparator(b, sep);
  }

  lemma SplitPrefixed(rest: string)
    ensures Split(SERVICE_ACCOUNT_PREFIX + rest, ':') == ["system", "serviceaccount"] + Split(rest, ':')
  {
    assert SERVICE_ACCOUNT_PREFIX + rest == "system" + [':'] + ("serviceaccount" + [':'] + rest);
    SplitTwoHeads("system", "serviceaccount", rest, ':');
  }

  /** A prefixed name always has the two segments that the parser takes without looking. */
  lemma PrefixedNameHasSegments(name: string)
    requires HasServiceAccountPrefix(name)
    ensures |Split(name, ':')| >= 3
  {
    var rest := name[|SERVICE_ACCOUNT_PREFIX|..];
    assert name == SERVICE_ACCOUNT_PREFIX + rest;
    SplitPrefixed(rest);
  }

  lemma SplitServiceAccountName(namespace: string, name: string)
    ensures Split(ServiceAccountName(namespace, name), ':') ==
            ["system", "serviceaccount"] + Split(namespace, ':') + Split(name, ':')
  {
    var rest := namespace + [':'] + name;
    assert ServiceAccountName(namespace, name) == SERVICE_ACCOUNT_PREFIX + rest;
    SplitPrefixed(rest);
    SplitConcat(namespace, name, ':');
  }

  /** Parsing gives back what was printed exactly when neither part holds a colon. */
  lemma ParsePrintedIff(namespace: string, name: string)
    ensures |Split(ServiceAccountName(namespace, name), ':')| >= 2
    ensures ServiceAccountNSAndName(ServiceAccountName(namespace, name)) == (namespace, name) <==>
            ':' !in namespace && ':' !in name
  {
    var full := ServiceAccountName(namespace, name);
    SplitServiceAccountName(namespace, name);
    SplitSegmentsLackSeparator(full, ':');
    if ':' !in namespace && ':' !in name {
      SplitWithoutSeparator(namespace, ':');
      SplitWithoutSeparator(name, ':');
    }
  }

  lemma PrintedHasFourSegments(namespace: string, name: string)
    requires ':' !in namespace && ':' !in name
    ensures |Split(ServiceAccountName(namespace, name), ':')| == 4
  {
    SplitServiceAccountName(namespace, name);
    SplitWithoutSeparator(namespace, ':');
    SplitWithoutSeparator(name, ':');
  }

  lemma FourSegmentsArePrinted(full: string)
    requires HasServiceAccountPrefix(full) && |Split(full, ':')| == 4
    ensures ServiceAccountName(Split(full, ':')[2], Split(full, ':')[3]) == full
  {
    var rest := full[|SERVICE_ACCOUNT_PREFIX|..];
    assert full == SERVICE_ACCOUNT_PREFIX + rest;
    SplitPrefixed(rest);
    SplitIntoTwo(rest, ':');
    assert Split(full, ':')[2..] == Split(rest, ':');
  }

  /** Printing gives back what was parsed exactly when the name has one colon after the prefix. */
  lemma PrintParsedIff(full: string)
    requires HasServiceAccountPrefix(full)
    ensures |Split(full, ':')| >= 2
    ensures
      var (namespace, name) := ServiceAccountNSAndName(full);
      ServiceAccountName(namespace, name) == full <==> |Split(full, ':')| == 4
  {
    PrefixedNameHasSegments(full);
    if |Split(full, ':')| == 4 {
      FourSegmentsArePrinted(full);
    } else {
      var (namespace, name) := ServiceAccountNSAndName(full);
      SplitSegmentsLackSeparator(full, ':');
      PrintedHasFourSegments(namespace, name);
    }
  }

  // ---------------------------------------------------------------- subjects

  function SameSubject(subject: Subject, identity: Identity): Result<bool, Error> {
    if identity.kind != subject.kind then Ok(false)
    else if identity.kind == SERVICE_ACCOUNT_KIND then
      if !HasServiceAccountPrefix(identity.name) then Err(MalformedIdentity)
      else
        PrefixedNameHasSegments(identity.name);
        var (namespace, name) := ServiceAccountNSAndName(identity.name);
        Ok(name == subject.name && namespace == subject.namespace)
    else Ok(identity.name == subject.name)
  }

  /** A service account whose name lacks the prefix. */
  predicate Malformed(identity: Identity) {
    identity.kind == SERVICE_ACCOUNT_KIND && !HasServiceAccountPrefix(identity.name)
  }

  lemma {:induction false} SplitLast(s: string, sep: char) returns (p: string)
    requires |Split(s, sep)| >= 2
    ensures s == p + [sep] + Split(s, sep)[|Split(s, sep)| - 1]
    ensures Split(p, sep) == Split(s, sep)[..|Split(s, sep)| - 1]
  {
    var rest := Split(s[1..], sep);
    assert s == [s[0]] + s[1..];
    if |rest| == 1 {
      SplitIntoOne(s[1..], sep);
      p := "";
    } else {
      var tail := SplitLast(s[1..], sep);
      p := [s[0]] + tail;
      assert p[1..] == tail;
      assert s == p + [sep] + rest[|rest| - 1];
    }
  }

  predicate EndsIn(s: string, suffix: string) {
    |suffix| <= |s| && s[|s| - |suffix|..] == suffix
  }

  lemma EndParses(q: string, namespace: string, name: string)
    requires ':' !in namespace && ':' !in name
    ensures |Split(q + [':'] + (namespace + [':'] + name), ':')| >= 3
    ensures ServiceAccountNSAndName(q + [':'] + (namespace + [':'] + name)) == (namespace, name)
  {
    SplitConcat(q, namespace + [':'] + name, ':');
    SplitConcat(namespace, name, ':');
    SplitWithoutSeparator(namespace, ':');
    SplitWithoutSeparator(name, ':');
  }

  lemma ParsedEnds(full: string) returns (q: string)
    requires |Split(full, ':')| >= 3
    ensures var (namespace, name) := ServiceAccountNSAndName(full);
      ':' !in namespace && ':' !in name && full == q + [':'] + (namespace + [':'] + name)
  {
    SplitSegmentsLackSeparator(full, ':');
    var p := SplitLast(full, ':');
    q := SplitLast(p, ':');
    var (namespace, name) := ServiceAccountNSAndName(full);
    assert full == p + [':'] + name && p == q + [':'] + namespace;
  }

  lemma EndsInIff(full: string, suffix: string)
    ensures EndsIn(full, suffix) <==> exists q :: full == q + suffix
  {
    if EndsIn(full, suffix) {
      assert full == full[..|full| - |suffix|] + suffix;
    }
  }

  /** What the parser takes from a name. */
  lemma LastTwoIff(full: string, namespace: string, name: string)
    requires |Split(full, ':')| >= 3
    ensures ServiceAccountNSAndName(full) == (namespace, name) <==>
            ':' !in namespace && ':' !in name && EndsIn(full, [':'] + (namespace + [':'] + name))
  {
    var suffix := [':'] + (namespace + [':'] + name);
    EndsInIff(full, suffix);
    if ServiceAccountNSAndName(full) == (namespace, name) {
      var q := ParsedEnds(full);
      assert full == q + suffix;
    }
    if ':' !in namespace && ':' !in name && EndsIn(full, suffix) {
      var q :| full == q + suffix;
      EndParses(q, namespace, name);
      assert full == q + [':'] + (namespace + [':'] + name);
    }
  }

  /**
    What the comparison decides, without parsing: equal kinds, and for service accounts how the identity's name
    ends.
   */
  lemma SameSubjectMeaning(subject: Subject, identity: Identity)
    ensures Malformed(identity) ==> (SameSubject(subject, identity).Err? <==> identity.kind == subject.kind)
    ensures Malformed(identity) && identity.kind != subject.kind ==> SameSubject(subject, identity) == Ok(false)
    ensures !Malformed(identity) ==>
      SameSubject(subject, identity) ==
      Ok(identity.kind == subject.kind &&
         if identity.kind == SERVICE_ACCOUNT_KIND
         then ':' !in subject.namespace && ':' !in subject.name &&
           EndsIn(identity.name, [':'] + (subject.namespace + [':'] + subject.name))
         else identity.name == subject.name)
    ensures !Malformed(identity) && identity.kind == SERVICE_ACCOUNT_KIND && |Split(identity.name, ':')| == 4 ==>
      (SameSubject(subject, identity) == Ok(true) <==>
       subject.kind == SERVICE_ACCOUNT_KIND && ':' !in subject.namespace && ':' !in subject.name
       && identity.name == ServiceAccountName(subject.namespace, subject.name))
  {
    if identity.kind == SERVICE_ACCOUNT_KIND && HasServiceAccountPrefix(identity.name) {
      PrefixedNameHasSegments(identity.name);
      LastTwoIff(identity.name, subject.namespace, subject.name);
      PrintParsedIff(identity.name);
      ParsePrintedIff(subject.namespace, subject.name);
    }
  }

  predicate Names(rb: RoleBinding, identity: Identity) {
    exists i :: 0 <= i < |rb.subjects| && SameSubject(rb.subjects[i], identity) == Ok(true)
  }

  predicate Trips(rb: RoleBinding, identity: Identity) {
    exists i :: 0 <= i < |rb.subjects| && SameSubject(rb.subjects[i], identity).Err?
  }

  // ---------------------------------------------------------------- the two questions

  function InNamespace(bindings: seq<RoleBinding>, namespace: string): seq<RoleBinding> {
    Filter(bindings, (rb: RoleBinding) => rb.namespace == namespace)
  }

  predicate AnyNames(bindings: seq<RoleBinding>, identity: Identity) {
    exists i :: 0 <= i < |bindings| && Names(bindings[i], identity)
  }

  predicate AnyTrips(bindings: seq<RoleBinding>, identity: Identity) {
    exists i :: 0 <= i < |bindings| && Trips(bindings[i], identity)
  }

  /** Whether some binding of the namespace names the identity; an error when one cannot be compared. */
  function Authorized(bindings: seq<RoleBinding>, identity: Identity, namespace: string): Result<bool, Error> {
    var local := InNamespace(bindings, namespace);
    if AnyTrips(local, identity) then Err(MalformedIdentity) else Ok(AnyNames(local, identity))
  }

  predicate Labelled(namespaces: seq<Namespace>, key: string, namespace: string) {
    exists i :: 0 <= i < |namespaces| && namespaces[i].name == namespace && key in namespaces[i].labels
  }

  /** The cluster as the privileged client lists it. */
  class Cluster {
    var roleBindings: seq<RoleBinding>
    var namespaces: seq<Namespace>

    constructor (roleBindings: seq<RoleBinding>, namespaces: seq<Namespace>)
      ensures this.roleBindings == roleBindings && this.namespaces == namespaces
    {
      this.roleBindings := roleBindings;
      this.namespaces := namespaces;
    }
  }

  class NamespacePermissions {
    const client: Cluster

    constructor (client: Cluster)
      ensures this.client == client
    {
      this.client := client;
    }

    method AuthorizedIn(identity: Identity, namespace: string, listFails: bool) returns (r: Result<bool, Error>)
      ensures r == if listFails then Err(ListFailed) else Authorized(client.roleBindings, identity, namespace)
    {
      if listFails {
        return Err(ListFailed);
      }
      var items := InNamespace(client.roleBindings, namespace);
      for i := 0 to |items|
        invariant forall k :: 0 <= k < i ==> !Names(items[k], identity) && !Trips(items[k], identity)
      {
        for j := 0 to |items[i].subjects|
          invariant forall k :: 0 <= k < j ==> SameSubject(items[i].subjects[k], identity) == Ok(false)
        {
          var isMatch := SameSubject(items[i].subjects[j], identity);
          NamedOrTripped(items, identity);
          if isMatch.Err? {
            assert Trips(items[i], identity);
            return Err(MalformedIdentity);
          }
          if isMatch.value {
            assert Names(items[i], identity);
            return Ok(true);
          }
        }
      }
      return Ok(false);
    }

    method GetAuthorizedNamespaces(caller: Result<Identity, Error>, orgSpaceLabel: string, bindingsFail: bool,
                                   namespacesFail: bool)
      returns (r: Result<map<string, bool>, Error>)
      ensures
        var bindings := client.roleBindings;
        if caller.Err? then r == Err(NoIdentity)
        else if bindingsFail || namespacesFail then r == Err(ListFailed)
        else if AnyTrips(bindings, caller.value) then r == Err(MalformedIdentity)
        else
          && r.Ok?
          && (forall ns :: ns in r.value ==> r.value[ns])
          && (forall ns :: ns in r.value <==>
                Labelled(client.namespaces, orgSpaceLabel, ns) && Granted(bindings, caller.value, ns))
    {
      if caller.Err? {
        return Err(NoIdentity);
      }
      var identity := caller.value;
      if bindingsFail || namespacesFail {
        return Err(ListFailed);
      }
      var bindings := client.roleBindings;

      var cfNamespaces: map<string, bool> := map[];
      for i := 0 to |client.namespaces|
        invariant forall ns :: ns in cfNamespaces <==>
          exists k :: 0 <= k < i && client.namespaces[k].name == ns && orgSpaceLabel in client.namespaces[k].labels
      {
        if orgSpaceLabel in client.namespaces[i].labels {
          cfNamespaces := cfNamespaces[client.namespaces[i].name := true];
        }
      }
      assert forall ns :: ns in cfNamespaces <==> Labelled(client.namespaces, orgSpaceLabel, ns);

      var authorized: map<string, bool> := map[];
      for i := 0 to |bindings|
        invariant forall ns :: ns in authorized ==> authorized[ns]
        invariant forall ns :: ns in authorized <==> ns in cfNamespaces && Granted(bindings[..i], identity, ns)
        invariant !AnyTrips(bindings[..i], identity)
      {
        var rb := bindings[i];
        ghost var before := authorized;
        for j := 0 to |rb.subjects|
          invariant authorized == before || authorized == before[rb.namespace := true]
          invariant rb.namespace in authorized <==>
            (rb.namespace in before ||
             (rb.namespace in cfNamespaces && exists k ::
               0 <= k < j && SameSubject(rb.subjects[k], identity) == Ok(true)))
          invariant forall k :: 0 <= k < j ==> SameSubject(rb.subjects[k], identity).Ok?
        {
          var isMatch := SameSubject(rb.subjects[j], identity);
          if isMatch.Err? {
            assert Trips(bindings[i], identity);
            return Err(MalformedIdentity);
          }
          if isMatch.value {
            if rb.namespace in cfNamespaces {
              authorized := authorized[rb.namespace := true];
            }
          }
        }
        assert !Trips(rb, identity);
        GrantedGrows(bindings, i, identity);
      }
      assert bindings[..|bindings|] == bindings;
      return Ok(authorized);
    }
  }

  predicate Granted(bindings: seq<RoleBinding>, identity: Identity, namespace: string) {
    exists i :: 0 <= i < |bindings| && bindings[i].namespace == namespace && Names(bindings[i], identity)
  }

  lemma GrantedGrows(bindings: seq<RoleBinding>, i: nat, identity: Identity)
    requires i < |bindings|
    ensures forall ns :: Granted(bindings[..i + 1], identity, ns) <==>
              Granted(bindings[..i], identity, ns) || (bindings[i].namespace == ns && Names(bindings[i], identity))
    ensures AnyTrips(bindings[..i + 1], identity) <==> AnyTrips(bindings[..i], identity) || Trips(bindings[i], identity)
  {
    var longer := bindings[..i + 1];
    assert longer == bindings[..i] + [bindings[i]];
    forall ns
      ensures Granted(longer, identity, ns) <==>
        Granted(bindings[..i], identity, ns) || (bindings[i].namespace == ns && Names(bindings[i], identity))
    {
      if k :| 0 <= k < i && bindings[..i][k].namespace == ns && Names(bindings[..i][k], identity) {
        assert longer[k] == bindings[..i][k];
      }
      if bindings[i].namespace == ns && Names(bindings[i], identity) {
        assert longer[i] == bindings[i];
      }
      if k :| 0 <= k < |longer| && longer[k].namespace == ns && Names(longer[k], identity) && k < i {
        assert bindings[..i][k] == longer[k];
      }
    }
    if k :| 0 <= k < i && Trips(bindings[..i][k], identity) {
      assert longer[k] == bindings[..i][k];
    }
    if Trips(bindings[i], identity) {
      assert longer[i] == bindings[i];
    }
    if k :| 0 <= k < |longer| && Trips(longer[k], identity) && k < i {
      assert bindings[..i][k] == longer[k];
    }
  }

  /**
    A malformed identity matches nothing and a well-formed one trips on nothing, so the order of a list is
    immaterial.
   */
  lemma NamedOrTripped(bindings: seq<RoleBinding>, identity: Identity)
    ensures AnyTrips(bindings, identity) ==> Malformed(identity)
    ensures AnyNames(bindings, identity) ==> !Malformed(identity)
  {
  }

  lemma GrantedInNamespace(bindings: seq<RoleBinding>, identity: Identity, namespace: string)
    ensures Granted(bindings, identity, namespace) <==> AnyNames(InNamespace(bindings, namespace), identity)
    ensures AnyTrips(InNamespace(bindings, namespace), identity) <==>
            exists i :: 0 <= i < |bindings| && bindings[i].namespace == namespace && Trips(bindings[i], identity)
  {
    var inside := (rb: RoleBinding) => rb.namespace == namespace;
    var local := Filter(bindings, inside);
    forall rb: RoleBinding
      ensures rb in local <==> rb in bindings && rb.namespace == namespace
    {
      FilterIn(bindings, inside, rb);
    }
    assert forall i :: 0 <= i < |local| ==> local[i] in local;
    assert forall i :: 0 <= i < |bindings| && bindings[i].namespace == namespace ==> bindings[i] in local;
  }

  /**
    The aggregated scan agrees with the direct check: a namespace is granted by the scan exactly when
    the direct check there says yes, and the scan fails exactly when some direct check does.
   */
  lemma ScanAgreesWithDirectCheck(bindings: seq<RoleBinding>, identity: Identity)
    ensures !AnyTrips(bindings, identity) ==>
              forall ns :: Authorized(bindings, identity, ns) == Ok(Granted(bindings, identity, ns))
    ensures AnyTrips(bindings, identity) <==> exists ns :: Authorized(bindings, identity, ns).Err?
  {
    forall ns
      ensures Authorized(bindings, identity, ns).Err? ==> AnyTrips(bindings, identity)
      ensures Authorized(bindings, identity, ns).Ok? ==>
        Authorized(bindings, identity, ns).value == Granted(bindings, identity, ns)
    {
      GrantedInNamespace(bindings, identity, ns);
    }
    if AnyTrips(bindings, identity) {
      var i :| 0 <= i < |bindings| && Trips(bindings[i], identity);
      GrantedInNamespace(bindings, identity, bindings[i].namespace);
      assert Authorized(bindings, identity, bindings[i].namespace).Err?;
    }
  }

  /** Some binding of the namespace has a subject that is the identity. */
  ghost predicate Bound(bindings: seq<RoleBinding>, identity: Identity, namespace: string) {
    exists rb, s :: rb in bindings && rb.namespace == namespace && s in rb.subjects &&
                    SameSubject(s, identity) == Ok(true)
  }

  /** And some has one that cannot be compared with it. */
  ghost predicate Stumbles(bindings: seq<RoleBinding>, identity: Identity, namespace: string) {
    exists rb, s :: rb in bindings && rb.namespace == namespace && s in rb.subjects && SameSubject(s, identity).Err?
  }

  lemma NamesIff(rb: RoleBinding, identity: Identity)
    ensures Names(rb, identity) <==> exists s :: s in rb.subjects && SameSubject(s, identity) == Ok(true)
    ensures Trips(rb, identity) <==> exists s :: s in rb.subjects && SameSubject(s, identity).Err?
  {
  }

  lemma GrantedIff(bindings: seq<RoleBinding>, identity: Identity, namespace: string)
    ensures Granted(bindings, identity, namespace) <==> Bound(bindings, identity, namespace)
  {
    forall rb | rb in bindings
      ensures Names(rb, identity) <==> exists s :: s in rb.subjects && SameSubject(s, identity) == Ok(true)
    {
      NamesIff(rb, identity);
    }
  }

  /** Both questions, told from the bindings as a set: the direct check, and where the scan may look. */
  lemma AuthorizedMeaning(bindings: seq<RoleBinding>, identity: Identity, namespace: string)
    ensures Authorized(bindings, identity, namespace) == Ok(true) <==> Bound(bindings, identity, namespace)
    ensures Authorized(bindings, identity, namespace).Err? <==> Stumbles(bindings, identity, namespace)
    ensures Granted(bindings, identity, namespace) <==> Bound(bindings, identity, namespace)
  {
    var local := InNamespace(bindings, namespace);
    GrantedIff(bindings, identity, namespace);
    GrantedInNamespace(bindings, identity, namespace);
    NamedOrTripped(local, identity);
    forall rb | rb in bindings
      ensures Trips(rb, identity) <==> exists s :: s in rb.subjects && SameSubject(s, identity).Err?
    {
      NamesIff(rb, identity);
    }
    assert AnyTrips(local, identity) <==> Stumbles(bindings, identity, namespace);
  }

  /** What the scan lists: namespaces with the label in which the identity is bound. */
  lemma LabelledMeaning(namespaces: seq<Namespace>, key: string, namespace: string)
    ensures Labelled(namespaces, key, namespace) <==>
            exists n :: n in namespaces && n.name == namespace && key in n.labels
  {
  }
}
