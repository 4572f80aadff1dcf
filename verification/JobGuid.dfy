/**
  Job GUIDs: an operation, '~' and the identifier of a resource. They are read back with an unanchored
  regular expression: a resource type, '.', a verb, '~' and an identifier, each a run over its own alphabet.
 */
module JobGuid {
  import opened Common

  predicate InType(c: char) {
    'a' <= c <= 'z' || c == '_' || c == '-'
  }

  predicate InVerb(c: char) {
    'a' <= c <= 'z' || c == '_'
  }

  predicate InIdentifier(c: char) {
    'A' <= c <= 'Z' || 'a' <= c <= 'z' || '0' <= c <= '9' || c == '-' || c == '.'
  }

  const LOWER := "abcdefghijklmnopqrstuvwxyz"
  const UPPER := "ABCDEFGHIJKLMNOPQRSTUVWXYZ"
  const DIGITS := "0123456789"

  lemma InLower(c: char)
    ensures c in LOWER <==> 'a' <= c <= 'z'
  {
    if 'a' <= c <= 'z' {
      assert LOWER[(c - 'a') as int] == c;
    }
  }

  lemma InUpper(c: char)
    ensures c in UPPER <==> 'A' <= c <= 'Z'
  {
    if 'A' <= c <= 'Z' {
      assert UPPER[(c - 'A') as int] == c;
    }
  }

  lemma InDigits(c: char)
    ensures c in DIGITS <==> '0' <= c <= '9'
  {
    if '0' <= c <= '9' {
      assert DIGITS[(c - '0') as int] == c;
    }
  }

  /** The classes of the expression, spelled out. */
  lemma Alphabets(c: char)
    ensures InType(c) <==> c in LOWER || c in "_-"
    ensures InVerb(c) <==> c in LOWER || c in "_"
    ensures InIdentifier(c) <==> c in UPPER || c in LOWER || c in DIGITS || c in "-."
  {
    InLower(c);
    InUpper(c);
    InDigits(c);
  }

  predicate Over(s: string, alphabet: char -> bool) {
    forall i :: 0 <= i < |s| ==> alphabet(s[i])
  }

  // ---------------------------------------------------------------- what the expression means

  /** Where the parts of a match lie: type [start, dot), verb [dot + 1, tilde), identifier [tilde + 1, end). */
  datatype Span = Span(start: nat, dot: nat, tilde: nat, end: nat)

  /** One of the ways in which the expression matches a part of the string. */
  predicate Matches(s: string, m: Span) {
    && m.start < m.dot && m.dot + 1 < m.tilde && m.tilde + 1 < m.end <= |s|
    && Over(s[m.start..m.dot], InType) && s[m.dot] == '.'
    && Over(s[m.dot + 1..m.tilde], InVerb) && s[m.tilde] == '~'
    && Over(s[m.tilde + 1..m.end], InIdentifier)
  }

  /** The leftmost match is preferred, and of those the one whose parts are the longest, the first part first. */
  predicate Preferred(m: Span, n: Span) {
    || m.start < n.start
    || (m.start == n.start &&
      (m.dot > n.dot || (m.dot == n.dot && (m.tilde > n.tilde || (m.tilde == n.tilde && m.end >= n.end)))))
  }

  ghost predicate IsTheMatch(s: string, m: Span) {
    Matches(s, m) && forall n :: Matches(s, n) ==> Preferred(m, n)
  }

  // ---------------------------------------------------------------- the parser

  datatype Job = Job(guid: string, kind: string, resourceGUID: string, resourceType: string)

  /** The end of the run over an alphabet that begins at `i`. */
  function RunEnd(s: string, i: nat, alphabet: char -> bool): (end: nat)
    requires i <= |s|
    ensures i <= end <= |s|
    ensures Over(s[i..end], alphabet)
    ensures end == |s| || !alphabet(s[end])
    decreases |s| - i
  {
    if i == |s| || !alphabet(s[i]) then i
    else
      var end := RunEnd(s, i + 1, alphabet);
      assert s[i..end] == [s[i]] + s[i + 1..end];
      end
  }

  function MatchAt(s: string, start: nat): (m: Option<Span>)
    requires start <= |s|
    ensures m.Some? ==> Matches(s, m.value) && m.value.start == start
  {
    var dot := RunEnd(s, start, InType);
    if dot == start || dot == |s| || s[dot] != '.' then None
    else
      var tilde := RunEnd(s, dot + 1, InVerb);
      if tilde == dot + 1 || tilde == |s| || s[tilde] != '~' then None
      else
        var end := RunEnd(s, tilde + 1, InIdentifier);
        if end == tilde + 1 then None else Some(Span(start, dot, tilde, end))
  }

  function FindMatch(s: string, from: nat): (m: Option<Span>)
    requires from <= |s|
    ensures m.Some? ==> Matches(s, m.value)
    decreases |s| - from
  {
    var m := MatchAt(s, from);
    if m.Some? || from == |s| then m else FindMatch(s, from + 1)
  }

  function JobOf(guid: string, m: Span): Job
    requires Matches(guid, m)
  {
    Job(guid, guid[m.start..m.tilde], guid[m.tilde + 1..m.end], guid[m.start..m.dot])
  }

  function JobFromGUID(guid: string): Option<Job> {
    var m := FindMatch(guid, 0);
    if m.None? then None else Some(JobOf(guid, m.value))
  }

  // ---------------------------------------------------------------- the parser refines the expression

  /** A run that is followed by something outside its alphabet can only be matched whole. */
  lemma RunIsForced(s: string, i: nat, j: nat, alphabet: char -> bool)
    requires i <= j <= |s| && Over(s[i..j], alphabet)
    ensures j <= RunEnd(s, i, alphabet)
    ensures j < |s| && !alphabet(s[j]) ==> j == RunEnd(s, i, alphabet)
  {
  }

  lemma {:induction false} RunsOfMatch(s: string, n: Span)
    requires Matches(s, n)
    ensures RunEnd(s, n.start, InType) == n.dot
    ensures RunEnd(s, n.dot + 1, InVerb) == n.tilde
    ensures n.end <= RunEnd(s, n.tilde + 1, InIdentifier)
  {
    assert !InType('.') && !InVerb('~');
    assert RunEnd(s, n.start, InType) == n.dot by { RunIsForced(s, n.start, n.dot, InType); }
    assert RunEnd(s, n.dot + 1, InVerb) == n.tilde by { RunIsForced(s, n.dot + 1, n.tilde, InVerb); }
    RunIsForced(s, n.tilde + 1, n.end, InIdentifier);
  }

  lemma MatchAtIsGreedy(s: string, start: nat, n: Span)
    requires start <= |s| && Matches(s, n) && n.start == start
    ensures MatchAt(s, start) == Some(n.(end := RunEnd(s, n.tilde + 1, InIdentifier)))
    ensures Preferred(MatchAt(s, start).value, n)
  {
    RunsOfMatch(s, n);
  }

  lemma {:induction false} FindMatchFinds(s: string, from: nat)
    requires from <= |s|
    ensures var m := FindMatch(s, from);
      if m.None? then forall n :: Matches(s, n) ==> n.start < from
      else Matches(s, m.value) && forall n :: Matches(s, n) && from <= n.start ==> Preferred(m.value, n)
    decreases |s| - from
  {
    forall n | Matches(s, n) && n.start == from
      ensures MatchAt(s, from).Some? && Preferred(MatchAt(s, from).value, n)
    {
      MatchAtIsGreedy(s, from, n);
    }
    if MatchAt(s, from).None? && from < |s| {
      FindMatchFinds(s, from + 1);
    }
  }

  /**
    The parser answers with the parts of the match that the expression prefers, and with nothing exactly when
    there is no match.
   */
  lemma ParserRefinesExpression(guid: string)
    ensures JobFromGUID(guid).None? <==> forall m :: !Matches(guid, m)
    ensures forall m :: IsTheMatch(guid, m) ==>
      JobFromGUID(guid) == Some(JobOf(guid, m))
    ensures JobFromGUID(guid).Some? ==> exists m :: IsTheMatch(guid, m)
  {
    FindMatchFinds(guid, 0);
    var found := FindMatch(guid, 0);
    if found.Some? {
      assert IsTheMatch(guid, found.value);
      forall m | IsTheMatch(guid, m) ensures m == found.value {
        assert Preferred(m, found.value) && Preferred(found.value, m);
      }
    }
  }

  // ---------------------------------------------------------------- round trips

  function Operation(resourceType: string, verb: string): string {
    resourceType + "." + verb
  }

  /** The GUID that a redirect to a job carries. */
  function JobGUID(resourceGUID: string, operation: string): string {
    operation + "~" + resourceGUID
  }

  predicate IsResourceType(s: string) {
    s != "" && Over(s, InType)
  }

  predicate IsVerb(s: string) {
    s != "" && Over(s, InVerb)
  }

  predicate IsIdentifier(s: string) {
    s != "" && Over(s, InIdentifier)
  }

  lemma {:induction false} FullMatchIsAt(s: string, m: Span)
    requires Matches(s, m) && (m.end == |s| || !InIdentifier(s[m.end]))
    ensures MatchAt(s, m.start) == Some(m)
  {
    MatchAtIsGreedy(s, m.start, m);
    RunIsForced(s, m.tilde + 1, m.end, InIdentifier);
  }

  /** A match at the start whose identifier cannot be extended is the one that the parser finds. */
  lemma {:induction false} FullMatchIsRead(s: string, m: Span)
    requires Matches(s, m) && m.start == 0 && (m.end == |s| || !InIdentifier(s[m.end]))
    ensures JobFromGUID(s) == Some(JobOf(s, m))
  {
    FullMatchIsAt(s, m);
  }

  /** Where the parts of a printed GUID lie, the identifier as far as its first `n` characters. */
  ghost predicate Laid(guid: string, m: Span, resourceType: string, verb: string, id: string) {
    && m.start <= m.dot < m.dot + 1 <= m.tilde < m.tilde + 1 <= m.end <= |guid|
    && guid[m.start..m.dot] == resourceType && guid[m.dot] == '.'
    && guid[m.dot + 1..m.tilde] == verb && guid[m.tilde] == '~'
    && guid[m.tilde + 1..m.end] == id
    && guid[m.start..m.tilde] == Operation(resourceType, verb)
  }

  function Layout(resourceType: string, verb: string, n: nat): Span {
    Span(0, |resourceType|, |resourceType| + 1 + |verb|, |resourceType| + 2 + |verb| + n)
  }

  lemma PrintedIsLaid(resourceType: string, verb: string, id: string, n: nat)
    requires n <= |id|
    ensures Laid(JobGUID(id, Operation(resourceType, verb)), Layout(resourceType, verb, n), resourceType, verb, id[..n])
    ensures var guid := JobGUID(id, Operation(resourceType, verb)); var m := Layout(resourceType, verb, n);
      if n == |id| then m.end == |guid| else m.end < |guid| && guid[m.end] == id[n]
  {
  }

  lemma LaidIsRead(guid: string, m: Span, resourceType: string, verb: string, id: string)
    requires Laid(guid, m, resourceType, verb, id) && m.start == 0
    requires IsResourceType(resourceType) && IsVerb(verb) && IsIdentifier(id)
    requires m.end == |guid| || !InIdentifier(guid[m.end])
    ensures JobFromGUID(guid) == Some(Job(guid, Operation(resourceType, verb), id, resourceType))
  {
    assert Matches(guid, m);
    FullMatchIsRead(guid, m);
  }

  /** The whole GUID is matched as far as the identifier's first run goes. */
  lemma PrintedIsMatched(resourceType: string, verb: string, id: string, n: nat)
    requires IsResourceType(resourceType) && IsVerb(verb)
    requires 0 < n <= |id| && Over(id[..n], InIdentifier) && (n == |id| || !InIdentifier(id[n]))
    ensures JobFromGUID(JobGUID(id, Operation(resourceType, verb))) ==
            Some(Job(JobGUID(id, Operation(resourceType, verb)), Operation(resourceType, verb), id[..n], resourceType))
  {
    var guid, m := JobGUID(id, Operation(resourceType, verb)), Layout(resourceType, verb, n);
    PrintedIsLaid(resourceType, verb, id, n);
    LaidIsRead(guid, m, resourceType, verb, id[..n]);
  }

  /**
    A job's type, operation and resource are read back exactly when the identifier is over the alphabet and not
    empty.
   */
  lemma PrintedIsParsedIff(resourceType: string, verb: string, id: string)
    requires IsResourceType(resourceType) && IsVerb(verb)
    ensures
      var guid := JobGUID(id, Operation(resourceType, verb));
      JobFromGUID(guid) == Some(Job(guid, Operation(resourceType, verb), id, resourceType)) <==> IsIdentifier(id)
  {
    if IsIdentifier(id) {
      assert id[..|id|] == id;
      PrintedIsMatched(resourceType, verb, id, |id|);
    } else if JobFromGUID(JobGUID(id, Operation(resourceType, verb))).Some? {
      ResourceIsIdentifier(JobGUID(id, Operation(resourceType, verb)));
    }
  }

  lemma ResourceIsIdentifier(guid: string)
    requires JobFromGUID(guid).Some?
    ensures IsIdentifier(JobFromGUID(guid).value.resourceGUID)
  {
  }

  lemma {:induction false} FoundIsMatchAt(s: string, from: nat, m: Span)
    requires from <= |s| && FindMatch(s, from) == Some(m)
    ensures m.start <= |s| && MatchAt(s, m.start) == Some(m)
    decreases |s| - from
  {
    if MatchAt(s, from).None? {
      FoundIsMatchAt(s, from + 1, m);
    }
  }

  lemma ExtendLeft(s: string, m: Span)
    requires Matches(s, m) && m.start > 0 && InType(s[m.start - 1])
    ensures Matches(s, m.(start := m.start - 1))
  {
  }

  /** Neither end of the match that is found could have been further out. */
  lemma FoundIsMaximal(s: string, m: Span)
    requires FindMatch(s, 0) == Some(m)
    ensures m.end < |s| ==> !InIdentifier(s[m.end])
    ensures m.start > 0 ==> !InType(s[m.start - 1])
  {
    FoundIsMatchAt(s, 0, m);
    if m.start > 0 && InType(s[m.start - 1]) {
      ExtendLeft(s, m);
      FindMatchFinds(s, 0);
      assert false;
    }
  }

  /** What the parts of a match say about the string. */
  lemma Reassembled(s: string, m: Span)
    requires Matches(s, m)
    ensures
      var job := JobOf(s, m);
      && s == s[..m.start] + JobGUID(job.resourceGUID, job.kind) + s[m.end..]
      && job.kind == Operation(job.resourceType, s[m.dot + 1..m.tilde])
      && IsResourceType(job.resourceType) && IsVerb(s[m.dot + 1..m.tilde]) && IsIdentifier(job.resourceGUID)
  {
  }

  /** Any GUID that is accepted contains the printed form of the job that it is read as, and cannot be read as more. */
  lemma AcceptedContainsPrinted(guid: string) returns (before: string, verb: string, after: string)
    requires JobFromGUID(guid).Some?
    ensures
      var job := JobFromGUID(guid).value;
      && guid == before + JobGUID(job.resourceGUID, job.kind) + after
      && job.kind == Operation(job.resourceType, verb)
      && IsResourceType(job.resourceType) && IsVerb(verb) && IsIdentifier(job.resourceGUID)
    ensures after == "" || !InIdentifier(after[0])
    ensures before == "" || !InType(before[|before| - 1])
  {
    var m := FindMatch(guid, 0).value;
    before, verb, after := guid[..m.start], guid[m.dot + 1..m.tilde], guid[m.end..];
    assert JobFromGUID(guid) == Some(JobOf(guid, m));
    Reassembled(guid, m);
    FoundIsMaximal(guid, m);
  }

  /** The pattern has no underscore in identifiers, so the identifier CUSTOM_ORG_ID is cut short. */
  lemma UnderscoreCutsIdentifier()
    ensures JobFromGUID(JobGUID("CUSTOM_ORG_ID", Operation("org", "delete"))) ==
            Some(Job(JobGUID("CUSTOM_ORG_ID", Operation("org", "delete")), "org.delete", "CUSTOM", "org"))
  {
    var id := "CUSTOM_ORG_ID";
    assert id[..6] == "CUSTOM";
    assert Operation("org", "delete") == "org.delete";
    assert IsResourceType("org");
    PrintedIsMatched("org", "delete", id, 6);
  }

  /** The operations that redirects name, by type and verb. */
  const OPERATIONS: seq<(string, string)> := [
    ("app", "delete"), ("org", "delete"), ("route", "delete"), ("space", "apply_manifest"), ("space", "delete"),
    ("space", "delete_unapped_routes"), ("domain", "delete"), ("role", "delete"), ("service_broker", "create"),
    ("service_broker", "delete"), ("service_broker", "update"), ("managed_service_instance", "create"),
    ("managed_service_instance", "delete"), ("managed_service_binding", "create"),
    ("managed_service_binding", "delete")]

  /** The names that Kubernetes gives to objects, UUIDs among them. */
  predicate IsObjectName(s: string) {
    s != "" && forall i :: 0 <= i < |s| ==> 'a' <= s[i] <= 'z' || '0' <= s[i] <= '9' || s[i] == '-' || s[i] == '.'
  }

  lemma OperationsAreWellFormed(i: nat)
    requires i < |OPERATIONS|
    ensures IsResourceType(OPERATIONS[i].0) && IsVerb(OPERATIONS[i].1)
  {
  }

  /** Whatever operation a redirect names, the job of any object is read back whole. */
  lemma RedirectsAreRead(i: nat, id: string)
    requires i < |OPERATIONS| && IsObjectName(id)
    ensures
      var operation := OPERATIONS[i].0 + "." + OPERATIONS[i].1;
      var guid := operation + "~" + id;
      JobFromGUID(guid) == Some(Job(guid, operation, id, OPERATIONS[i].0))
  {
    OperationsAreWellFormed(i);
    PrintedIsParsedIff(OPERATIONS[i].0, OPERATIONS[i].1, id);
  }
}
