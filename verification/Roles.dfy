/**
  Granting roles: the payload is turned into a message, the message into a role binding in
  an org or a space and another one in the root namespace, and bindings are listed as records.
 */
module Roles {
  import opened Common
  import opened Authorization

  const ROLE_GUID_LABEL := "cloudfoundry.org/role-guid"
  const PROPAGATED_FROM_LABEL := "cloudfoundry.org/propagated-from"
  const CF_USER := "cf_user"
  const BINDING_NAME_PREFIX := "cf-"

  datatype Level = NoLevel | OrgLevel | SpaceLevel
  datatype Role = Role(name: string, level: Level, propagate: bool)

  /** Configuration, and the org of every space. */
  datatype Config = Config(
    rootNamespace: string,
    mappings: map<string, Role>,
    orgOf: map<string, string>,
    sha256: string -> string)

  datatype Message = Message(guid: string, roleType: string, space: string, org: string, user: string, kind: string,
    saNamespace: string)

  datatype Record = Record(guid: string, roleType: string, space: string, org: string, user: string, kind: string)

  datatype Failure =
    | InvalidRoleType
    | SpaceNotFound
    | CheckFailed
    | NoOrgBinding
    | AlreadyHasRole
    | ServerError

  // ---------------------------------------------------------------- payload to message

  datatype Payload = Payload(roleType: string, space: Option<string>, org: Option<string>, username: string,
    origin: string, userGuid: string)

  /** The user name a payload asks for. */
  function RequestedUser(p: Payload): string {
    if p.userGuid != "" then p.userGuid
    else if p.origin != "" then p.origin + ":" + p.username
    else p.username
  }

  method ToMessage(p: Payload) returns (m: Message)
    ensures m == MessageOf(p)
  {
    m := Message("", p.roleType, "", "", "", "", "");
    if p.space.Some? {
      m := m.(space := p.space.value);
    }
    if p.org.Some? {
      m := m.(org := p.org.value);
    }
    m := m.(kind := USER_KIND, user := p.username);
    if p.origin != "" {
      m := m.(user := p.origin + ":" + m.user);
    }
    if p.userGuid != "" {
      m := m.(user := p.userGuid);
    }
    if HasServiceAccountPrefix(m.user) {
      PrefixedNameHasSegments(m.user);
      var (namespace, user) := ServiceAccountNSAndName(m.user);
      m := m.(kind := SERVICE_ACCOUNT_KIND, user := user, saNamespace := namespace);
    }
  }

  function MessageOf(p: Payload): Message {
    var space, org := if p.space.Some? then p.space.value else "", if p.org.Some? then p.org.value else "";
    var user := RequestedUser(p);
    if HasServiceAccountPrefix(user) then
      PrefixedNameHasSegments(user);
      var (saNamespace, saName) := ServiceAccountNSAndName(user);
      Message("", p.roleType, space, org, saName, SERVICE_ACCOUNT_KIND, saNamespace)
    else
      Message("", p.roleType, space, org, user, USER_KIND, "")
  }

  /** Which of a payload's fields a message takes, and what makes a service account of it. */
  lemma MessageMeaning(p: Payload)
    ensures
      var m := MessageOf(p);
      && m.roleType == p.roleType
      && (p.space == Some(m.space) || (p.space.None? && m.space == ""))
      && (p.org == Some(m.org) || (p.org.None? && m.org == ""))
      && (m.kind == "User" || m.kind == "ServiceAccount")
      && (m.kind == "User" ==> m.saNamespace == "")
    ensures
      var m := MessageOf(p);
      var asked := if m.kind == "User" then m.user else RequestedUser(p);
      && (m.kind == "ServiceAccount" <==> "system:serviceaccount:" <= asked)
      && (p.userGuid != "" ==> asked == p.userGuid)
      && (p.userGuid == "" && p.origin != "" ==> asked == p.origin + ":" + p.username)
      && (p.userGuid == "" && p.origin == "" ==> asked == p.username)
      && (m.kind == "ServiceAccount" ==> EndsIn(asked, [':'] + (m.saNamespace + [':'] + m.user)))
  {
    if HasServiceAccountPrefix(RequestedUser(p)) {
      PrefixedNameHasSegments(RequestedUser(p));
      LastTwoIff(RequestedUser(p), MessageOf(p).saNamespace, MessageOf(p).user);
    }
  }

  // ---------------------------------------------------------------- bindings

  function SubjectOf(m: Message): Subject {
    Subject(m.kind, m.user, m.saNamespace)
  }

  function IdentityOf(m: Message): Identity {
    if m.kind == SERVICE_ACCOUNT_KIND then Identity(ServiceAccountName(m.saNamespace, m.user), m.kind)
    else Identity(m.user, m.kind)
  }

  function QualifiedUser(saNamespace: string, user: string): string {
    if saNamespace != "" then saNamespace + "/" + user else user
  }

  function BindingName(sha256: string -> string, roleType: string, saNamespace: string, user: string): string {
    BINDING_NAME_PREFIX + sha256(roleType + "::" + QualifiedUser(saNamespace, user))
  }

  function CreateRoleBinding(cfg: Config, namespace: string, roleType: string, subject: Subject, guid: string,
                             role: Role): RoleBinding
  {
    RoleBinding(namespace, BindingName(cfg.sha256, roleType, subject.namespace, subject.name),
                map[ROLE_GUID_LABEL := guid], role.propagate, [subject], role.name)
  }

  function NamespaceOf(m: Message): string {
    if m.space != "" then m.space else m.org
  }

  datatype Key = Key(namespace: string, name: string)
  type Bindings = map<Key, RoleBinding>

  function KeyOf(rb: RoleBinding): Key {
    Key(rb.namespace, rb.name)
  }

  /** The binding that carries the role, in the org or the space. */
  function RoleBindingOf(cfg: Config, m: Message): RoleBinding
    requires m.roleType in cfg.mappings
  {
    CreateRoleBinding(cfg, NamespaceOf(m), m.roleType, SubjectOf(m), m.guid, cfg.mappings[m.roleType])
  }

  /** The binding in the root namespace that every user of the platform has. */
  function CfUserBindingOf(cfg: Config, m: Message, uuid: string): RoleBinding
    requires CF_USER in cfg.mappings
  {
    CreateRoleBinding(cfg, cfg.rootNamespace, CF_USER, SubjectOf(m), uuid, cfg.mappings[CF_USER].(propagate := false))
  }

  /** Some listing of the bindings. */
  ghost predicate Lists(items: seq<RoleBinding>, bindings: Bindings) {
    && (forall rb :: rb in items <==> KeyOf(rb) in bindings && bindings[KeyOf(rb)] == rb)
    && Distinct(items)
  }

  /** A subject has a binding in a namespace. */
  ghost predicate HasBinding(bindings: Bindings, identity: Identity, namespace: string) {
    exists k :: k in bindings && bindings[k].namespace == namespace && Names(bindings[k], identity)
  }

  lemma AuthorizedMeansHasBinding(items: seq<RoleBinding>, bindings: Bindings, identity: Identity, namespace: string)
    requires Lists(items, bindings) && WellKeyed(bindings)
    requires Authorized(items, identity, namespace).Ok?
    ensures Authorized(items, identity, namespace).value <==> HasBinding(bindings, identity, namespace)
  {
    GrantedInNamespace(items, identity, namespace);
    assert forall i :: 0 <= i < |items| ==> items[i] in items;
    if k :| k in bindings && bindings[k].namespace == namespace && Names(bindings[k], identity) {
      assert bindings[k] in items;
    }
    if i :| 0 <= i < |items| && items[i].namespace == namespace && Names(items[i], identity) {
      assert KeyOf(items[i]) in bindings;
    }
  }

  predicate WellKeyed(bindings: Bindings) {
    forall k :: k in bindings ==> KeyOf(bindings[k]) == k
  }

  /**
    The identity that a granted service account or user acts as matches its binding, unless a colon gets in the
    way.
   */
  lemma CreatedBindingNamesIdentityIff(rb: RoleBinding, m: Message)
    requires rb.subjects == [SubjectOf(m)]
    ensures !Trips(rb, IdentityOf(m))
    ensures Names(rb, IdentityOf(m)) <==> (m.kind == SERVICE_ACCOUNT_KIND ==> ':' !in m.saNamespace && ':' !in m.user)
  {
    if m.kind == SERVICE_ACCOUNT_KIND {
      ParsePrintedIff(m.saNamespace, m.user);
    }
    assert SameSubject(rb.subjects[0], IdentityOf(m)).Ok?;
  }

  lemma {:induction false} MessagesHoldNoColon(p: Payload)
    ensures
      var m := MessageOf(p);
      m.kind == SERVICE_ACCOUNT_KIND ==> ':' !in m.saNamespace && ':' !in m.user
  {
    var user := RequestedUser(p);
    SplitSegmentsLackSeparator(user, ':');
    if HasServiceAccountPrefix(user) {
      PrefixedNameHasSegments(user);
      var segments := Split(user, ':');
      assert ':' !in segments[|segments| - 2] && ':' !in segments[|segments| - 1];
    }
  }

  // ---------------------------------------------------------------- one call, step by step

  /** How far a call has come. */
  datatype Progress =
    | Begun(m: Message)
    | OrgChecked(m: Message)
    | RoleBound(m: Message)
    | Finished(m: Message, failure: Option<Failure>)

  /** Resolution of the role type, and of the space's org when a space role is asked for. */
  function CheckStep(cfg: Config, m: Message, check: Result<bool, Error>): Progress {
    if m.roleType !in cfg.mappings then Finished(m, Some(InvalidRoleType))
    else if m.space == "" then OrgChecked(m)
    else if m.space !in cfg.orgOf then Finished(m, Some(SpaceNotFound))
    else match check
      case Err(_) => Finished(m, Some(CheckFailed))
      case Ok(false) => Finished(m, Some(NoOrgBinding))
      case Ok(true) => OrgChecked(m)
  }

  /** The bindings after a create: an effective one adds the binding even when its reply is lost. */
  function Created(bindings: Bindings, rb: RoleBinding, fault: Fault): Bindings {
    if !fault.Rejected? && KeyOf(rb) !in bindings then bindings[KeyOf(rb) := rb] else bindings
  }

  function BindStep(cfg: Config, bindings: Bindings, m: Message, fault: Fault): (Bindings, Progress)
    requires m.roleType in cfg.mappings
  {
    var rb := RoleBindingOf(cfg, m);
    (Created(bindings, rb, fault),
     if !fault.NoFault? then Finished(m, Some(ServerError))
     else if KeyOf(rb) in bindings then Finished(m, Some(AlreadyHasRole))
     else RoleBound(m))
  }

  function CfUserStep(cfg: Config, bindings: Bindings, m: Message, uuid: string, fault: Fault): (Bindings, Progress) {
    if CF_USER !in cfg.mappings then (bindings, Finished(m, Some(InvalidRoleType)))
    else (Created(bindings, CfUserBindingOf(cfg, m, uuid), fault),
      Finished(m, if fault.NoFault? then None else Some(ServerError)))
  }

  /** What befalls the two creates of a call. */
  datatype Faults = Faults(bind: Fault, cfUser: Fault)

  const NO_FAULTS := Faults(NoFault, NoFault)

  /** A call that nobody interrupts. */
  function Grant(cfg: Config, bindings: Bindings, m: Message, check: Result<bool, Error>, uuid: string, faults: Faults)
    : (Bindings, Option<Failure>)
  {
    match CheckStep(cfg, m, check)
    case OrgChecked(_) =>
      var (bound, progress) := BindStep(cfg, bindings, m, faults.bind);
      if progress.Finished? then (bound, progress.failure)
      else
        var (final, last) := CfUserStep(cfg, bound, m, uuid, faults.cfUser);
        (final, if last.Finished? then last.failure else None)
    case other => (bindings, if other.Finished? then other.failure else None)
  }

  /** The name that a binding of a role type gets for the subject of a message. */
  function NameOf(cfg: Config, roleType: string, m: Message): string {
    var user := if m.saNamespace != "" then m.saNamespace + "/" + m.user else m.user;
    "cf-" + cfg.sha256(roleType + "::" + user)
  }

  /** A binding that is there field by field. */
  predicate Stands(bindings: Bindings, namespace: string, name: string, guid: string, propagate: bool, m: Message,
                   roleRef: string)
  {
    && Key(namespace, name) in bindings
    && var rb := bindings[Key(namespace, name)];
       && rb.namespace == namespace && rb.name == name
       && rb.labels == map["cloudfoundry.org/role-guid" := guid]
       && rb.propagate == propagate
       && rb.subjects == [Subject(m.kind, m.user, m.saNamespace)]
       && rb.roleRef == roleRef
  }

  /** What a grant that succeeds leaves: the role's binding, the platform user's if there was none, and nothing else. */
  ghost predicate GrantLeft(cfg: Config, before: Bindings, after: Bindings, m: Message, uuid: string) {
    var namespace := if m.space != "" then m.space else m.org;
    var role, cfUser := Key(namespace, NameOf(cfg, m.roleType, m)), Key(cfg.rootNamespace, NameOf(cfg, "cf_user", m));
    && m.roleType in cfg.mappings && "cf_user" in cfg.mappings
    && role !in before
    && Stands(after, namespace, role.name, m.guid, cfg.mappings[m.roleType].propagate, m, cfg.mappings[m.roleType].name)
    && cfUser in after
    && (cfUser !in before && cfUser != role ==>
          Stands(after, cfg.rootNamespace, cfUser.name, uuid, false, m, cfg.mappings["cf_user"].name))
    && (forall k :: k in before ==> k in after && after[k] == before[k])
    && (forall k :: k in after ==> k in before || k == role || k == cfUser)
  }

  lemma GrantLeaves(cfg: Config, bindings: Bindings, m: Message, check: Result<bool, Error>, uuid: string,
                    faults: Faults)
    requires Grant(cfg, bindings, m, check, uuid, faults).1.None?
    ensures GrantLeft(cfg, bindings, Grant(cfg, bindings, m, check, uuid, faults).0, m, uuid)
  {
  }

  /** What a grant answers, in the order in which things can go wrong, and what it has made by then. */
  lemma GrantAnswers(cfg: Config, bindings: Bindings, m: Message, check: Result<bool, Error>, uuid: string,
                     faults: Faults)
    ensures
      var (after, failure) := Grant(cfg, bindings, m, check, uuid, faults);
      var role := Key(if m.space != "" then m.space else m.org, NameOf(cfg, m.roleType, m));
      if m.roleType !in cfg.mappings then failure == Some(InvalidRoleType) && after == bindings
      else if m.space != "" && m.space !in cfg.orgOf then failure == Some(SpaceNotFound) && after == bindings
      else if m.space != "" && check.Err? then failure == Some(CheckFailed) && after == bindings
      else if m.space != "" && !check.value then failure == Some(NoOrgBinding) && after == bindings
      else if faults.bind.Rejected? then failure == Some(ServerError) && after == bindings
      else if faults.bind.ReplyLost? then failure == Some(ServerError) && role in after
      else if role in bindings then failure == Some(AlreadyHasRole) && after == bindings
      else if "cf_user" !in cfg.mappings then failure == Some(InvalidRoleType) && role in after
      else role in after && failure == if faults.cfUser.NoFault? then None else Some(ServerError)
  {
  }

  class RoleRepo {
    const cfg: Config
    var bindings: Bindings

    constructor (cfg: Config)
      ensures this.cfg == cfg && bindings == map[]
    {
      this.cfg := cfg;
      bindings := map[];
    }

    method Create(rb: RoleBinding, fault: Fault) returns (created: Result<bool, Failure>)
      modifies this`bindings
      ensures bindings == Created(old(bindings), rb, fault)
      ensures created == if fault.NoFault? then Ok(KeyOf(rb) !in old(bindings)) else Err(ServerError)
    {
      created := if fault.NoFault? then Ok(KeyOf(rb) !in bindings) else Err(ServerError);
      if !fault.Rejected? && KeyOf(rb) !in bindings {
        bindings := bindings[KeyOf(rb) := rb];
      }
    }

    /** `items` is what the authorization checker lists; the checker itself is NamespacePermissions. */
    method ValidateOrgRequirements(space: string, identity: Identity, items: seq<RoleBinding>, listFails: bool)
      returns (err: Option<Failure>)
      ensures err == Some(SpaceNotFound) <==> space !in cfg.orgOf
      ensures space in cfg.orgOf ==>
        var check := if listFails then Err(ListFailed) else Authorized(items, identity, cfg.orgOf[space]);
        err == if check.Err? then Some(CheckFailed) else if !check.value then Some(NoOrgBinding) else None
    {
      if space !in cfg.orgOf {
        return Some(SpaceNotFound);
      }
      var cluster := new Cluster(items, []);
      var checker := new NamespacePermissions(cluster);
      var hasOrgBinding := checker.AuthorizedIn(identity, cfg.orgOf[space], listFails);
      if hasOrgBinding.Err? {
        return Some(CheckFailed);
      }
      if !hasOrgBinding.value {
        return Some(NoOrgBinding);
      }
      return None;
    }

    method CreateRole(m: Message, items: seq<RoleBinding>, listFails: bool, uuid: string, faults: Faults)
      returns (r: Result<Record, Failure>)
      modifies this`bindings
      ensures
        var check := if listFails then Err(ListFailed)
          else Authorized(items, IdentityOf(m), if m.space in cfg.orgOf then cfg.orgOf[m.space] else "");
        var (after, failure) := Grant(cfg, old(bindings), m, check, uuid, faults);
        && bindings == after
        && r == match failure
                case Some(f) => Err(f)
                case None => Ok(Record(m.guid, m.roleType, m.space, m.org, m.user, m.kind))
      ensures r.Ok? ==> GrantLeft(cfg, old(bindings), bindings, m, uuid)
    {
      if m.roleType !in cfg.mappings {
        return Err(InvalidRoleType);
      }
      var identity := Identity(m.user, m.kind);
      if m.kind == SERVICE_ACCOUNT_KIND {
        identity := identity.(name := ServiceAccountName(m.saNamespace, m.user));
      }
      if m.space != "" {
        var err := ValidateOrgRequirements(m.space, identity, items, listFails);
        if err.Some? {
          return Err(err.value);
        }
      }
      var ns := m.space;
      if ns == "" {
        ns := m.org;
      }
      var created :=
        Create(CreateRoleBinding(cfg, ns, m.roleType, SubjectOf(m), m.guid, cfg.mappings[m.roleType]), faults.bind);
      if created.Err? {
        return Err(ServerError);
      }
      if !created.value {
        return Err(AlreadyHasRole);
      }
      if CF_USER !in cfg.mappings {
        return Err(InvalidRoleType);
      }
      var cfUser := cfg.mappings[CF_USER].(propagate := false);
      created := Create(CreateRoleBinding(cfg, cfg.rootNamespace, CF_USER, SubjectOf(m), uuid, cfUser), faults.cfUser);
      if created.Err? {
        return Err(ServerError);
      }
      r := Ok(Record(m.guid, m.roleType, m.space, m.org, m.user, m.kind));
    }
  }

  /** After a successful grant in an org, the identity is authorized there. */
  lemma GrantAuthorizes(cfg: Config, bindings: Bindings, m: Message, check: Result<bool, Error>, uuid: string,
                        items: seq<RoleBinding>)
    requires WellKeyed(bindings)
    requires m.kind == SERVICE_ACCOUNT_KIND ==> ':' !in m.saNamespace && ':' !in m.user
    requires Grant(cfg, bindings, m, check, uuid, NO_FAULTS).1.None?
    requires Lists(items, Grant(cfg, bindings, m, check, uuid, NO_FAULTS).0)
    ensures Authorized(items, IdentityOf(m), NamespaceOf(m)) == Ok(true)
  {
    var after := Grant(cfg, bindings, m, check, uuid, NO_FAULTS).0;
    var rb := RoleBindingOf(cfg, m);
    assert KeyOf(rb) in after && after[KeyOf(rb)] == rb;
    CreatedBindingNamesIdentityIff(rb, m);
    assert !Malformed(IdentityOf(m));
    NamedOrTripped(InNamespace(items, NamespaceOf(m)), IdentityOf(m));
    AuthorizedMeansHasBinding(items, after, IdentityOf(m), NamespaceOf(m));
  }

  predicate Passes(cfg: Config, m: Message, check: Result<bool, Error>) {
    CheckStep(cfg, m, check) == OrgChecked(m)
  }

  /**
    After a grant that failed, however it did, repeating it without faults completes it exactly when the check
    passes now, there is a cf_user role, and the first attempt neither found nor made the role binding: it was
    stopped by its own check, or its create was refused, and the name was free.
   */
  lemma RetryCompletesIff(cfg: Config, bindings: Bindings, m: Message, check: Result<bool, Error>, uuid: string,
                          faults: Faults,
                          check': Result<bool, Error>, uuid': string)
    requires Grant(cfg, bindings, m, check, uuid, faults).1.Some?
    ensures
      var after := Grant(cfg, bindings, m, check, uuid, faults).0;
      Grant(cfg, after, m, check', uuid', NO_FAULTS).1.None? <==>
      && Passes(cfg, m, check') && CF_USER in cfg.mappings
      && RoleKey(cfg, m) !in bindings && (faults.bind.Rejected? || !Passes(cfg, m, check))
  {
  }

  /**
    So once the role binding was made and the call failed, by whatever fault, every repetition is refused and
    changes nothing.
   */
  lemma PartialGrantIsStuck(cfg: Config, bindings: Bindings, m: Message, check: Result<bool, Error>, uuid: string,
                            faults: Faults,
                            check': Result<bool, Error>, uuid': string, faults': Faults)
    requires Passes(cfg, m, check) && RoleKey(cfg, m) !in bindings && !faults.bind.Rejected?
    requires Grant(cfg, bindings, m, check, uuid, faults).1.Some?
    ensures
      var after := Grant(cfg, bindings, m, check, uuid, faults).0;
      var (again, failure) := Grant(cfg, after, m, check', uuid', faults');
      again == after && failure.Some?
  {
  }

  // ---------------------------------------------------------------- interleaved calls

  datatype Step =
    | Begin(call: nat, m: Message)
    | Check(call: nat, items: seq<RoleBinding>, listFails: bool)
    | Bind(call: nat, fault: Fault)
    | BindCfUser(call: nat, uuid: string, fault: Fault)
    | Unbind(key: Key)

  /** What is remembered of a run for stating properties of it. */
  datatype Event =
    | OrgBindingSeen(call: nat, m: Message, org: string, bindings: Bindings)
    | BindingCreated(call: nat, m: Message, key: Key)

  datatype World = World(bindings: Bindings, calls: map<nat, Progress>, events: seq<Event>)

  /** A listing step must list the bindings there are; other steps are always possible. */
  ghost predicate Possible(w: World, step: Step) {
    step.Check? ==> Lists(step.items, w.bindings)
  }

  function Next(cfg: Config, w: World, step: Step): World {
    match step
    case Begin(call, m) =>
      if call in w.calls then w else w.(calls := w.calls[call := Begun(m)])
    case Check(call, items, listFails) =>
      if call !in w.calls || !w.calls[call].Begun? then w
      else
        var m := w.calls[call].m;
        var org := if m.space in cfg.orgOf then cfg.orgOf[m.space] else "";
        var check := if listFails then Err(ListFailed) else Authorized(items, IdentityOf(m), org);
        var progress := CheckStep(cfg, m, check);
        var seen := if progress.OrgChecked? && m.space != "" then [OrgBindingSeen(call, m, org, w.bindings)] else [];
        World(w.bindings, w.calls[call := progress], w.events + seen)
    case Bind(call, fault) =>
      if call !in w.calls || !w.calls[call].OrgChecked? || w.calls[call].m.roleType !in cfg.mappings then w
      else
        var m := w.calls[call].m;
        var (bindings, progress) := BindStep(cfg, w.bindings, m, fault);
        var created := if bindings != w.bindings then [BindingCreated(call, m, KeyOf(RoleBindingOf(cfg, m)))] else [];
        World(bindings, w.calls[call := progress], w.events + created)
    case BindCfUser(call, uuid, fault) =>
      if call !in w.calls || !w.calls[call].RoleBound? then w
      else
        var (bindings, progress) := CfUserStep(cfg, w.bindings, w.calls[call].m, uuid, fault);
        World(bindings, w.calls[call := progress], w.events)
    case Unbind(key) =>
      w.(bindings := w.bindings - {key})
  }

  /** A role binding is recorded as created by the step that adds it, and by no other. */
  lemma CreationIsRecorded(cfg: Config, w: World, call: nat, fault: Fault)
    ensures
      var next := Next(cfg, w, Bind(call, fault));
      if next.bindings == w.bindings then next.events == w.events
      else
        && call in w.calls
        && var m := w.calls[call].m;
           var key := Key(if m.space != "" then m.space else m.org, NameOf(cfg, m.roleType, m));
           && next.events == w.events + [BindingCreated(call, m, key)]
           && key !in w.bindings && key in next.bindings && next.bindings - {key} == w.bindings
  {
    assert w.events + [] == w.events;
    if call in w.calls {
      var m := w.calls[call].m;
      var key := Key(if m.space != "" then m.space else m.org, NameOf(cfg, m.roleType, m));
      var next := Next(cfg, w, Bind(call, fault));
      assert key !in w.bindings && next.bindings != w.bindings ==> next.bindings - {key} == w.bindings;
    }
  }

  function CheckOf(cfg: Config, m: Message, items: seq<RoleBinding>, listFails: bool): Result<bool, Error> {
    if listFails then Err(ListFailed)
    else Authorized(items, IdentityOf(m), if m.space in cfg.orgOf then cfg.orgOf[m.space] else "")
  }

  lemma FirstTwoSteps(cfg: Config, w: World, call: nat, m: Message, items: seq<RoleBinding>, listFails: bool)
    requires call !in w.calls
    ensures
      var checked := Next(cfg, Next(cfg, w, Begin(call, m)), Check(call, items, listFails));
      && checked.bindings == w.bindings && call in checked.calls
      && checked.calls[call] == CheckStep(cfg, m, CheckOf(cfg, m, items, listFails))
  {
  }

  lemma LastTwoSteps(cfg: Config, w: World, call: nat, uuid: string, faults: Faults)
    requires call in w.calls && w.calls[call].OrgChecked? && w.calls[call].m.roleType in cfg.mappings
    ensures
      var m, bound := w.calls[call].m, Next(cfg, w, Bind(call, faults.bind));
      var end := Next(cfg, bound, BindCfUser(call, uuid, faults.cfUser));
      var (bindings, progress) := BindStep(cfg, w.bindings, m, faults.bind);
      call in end.calls && (end.bindings, end.calls[call]) ==
        if progress.Finished? then (bindings, progress) else CfUserStep(cfg, bindings, m, uuid, faults.cfUser)
  {
  }

  lemma FinishedStays(cfg: Config, w: World, call: nat, uuid: string, faults: Faults)
    requires call in w.calls && w.calls[call].Finished?
    ensures Next(cfg, Next(cfg, w, Bind(call, faults.bind)), BindCfUser(call, uuid, faults.cfUser)) == w
  {
  }

  /** An uninterrupted call is its four steps. */
  lemma GrantIsFourSteps(cfg: Config, w: World, call: nat, m: Message, items: seq<RoleBinding>, listFails: bool,
                         uuid: string, faults: Faults)
    requires call !in w.calls
    ensures
      var checked := Next(cfg, Next(cfg, w, Begin(call, m)), Check(call, items, listFails));
      var bound := Next(cfg, checked, Bind(call, faults.bind));
      var end := Next(cfg, bound, BindCfUser(call, uuid, faults.cfUser));
      var (after, failure) := Grant(cfg, w.bindings, m, CheckOf(cfg, m, items, listFails), uuid, faults);
      end.bindings == after && call in end.calls && end.calls[call] == Finished(m, failure)
  {
    var checked := Next(cfg, Next(cfg, w, Begin(call, m)), Check(call, items, listFails));
    FirstTwoSteps(cfg, w, call, m, items, listFails);
    if checked.calls[call].OrgChecked? {
      LastTwoSteps(cfg, checked, call, uuid, faults);
    } else {
      FinishedStays(cfg, checked, call, uuid, faults);
    }
  }

  function After(cfg: Config, init: World, steps: seq<Step>): World {
    if steps == [] then init
    else Next(cfg, After(cfg, init, steps[..|steps| - 1]), steps[|steps| - 1])
  }

  ghost predicate Run(cfg: Config, init: World, steps: seq<Step>) {
    && init.calls == map[] && init.events == [] && WellKeyed(init.bindings)
    && forall i :: 0 <= i < |steps| ==> Possible(After(cfg, init, steps[..i]), steps[i])
  }

  /** The call has, before a given event, seen a binding of its subject in the parent org of its space. */
  ghost predicate SawOrgBinding(cfg: Config, events: seq<Event>, call: nat, m: Message) {
    exists i :: 0 <= i < |events| && events[i].OrgBindingSeen? && events[i].call == call && events[i].m == m &&
      m.space in cfg.orgOf && events[i].org == cfg.orgOf[m.space] &&
        HasBinding(events[i].bindings, IdentityOf(m), events[i].org)
  }

  ghost predicate Invariant(cfg: Config, w: World) {
    && WellKeyed(w.bindings)
    && (forall call :: call in w.calls && w.calls[call].OrgChecked? ==>
          var m := w.calls[call].m;
          m.roleType in cfg.mappings && (m.space != "" ==> SawOrgBinding(cfg, w.events, call, m)))
    && (forall j :: 0 <= j < |w.events| && w.events[j].BindingCreated? && w.events[j].m.space != "" ==>
          SawOrgBinding(cfg, w.events[..j], w.events[j].call, w.events[j].m))
  }

  lemma SawOrgBindingLater(cfg: Config, events: seq<Event>, more: seq<Event>, call: nat, m: Message)
    requires SawOrgBinding(cfg, events, call, m)
    ensures SawOrgBinding(cfg, events + more, call, m)
  {
    var i :| 0 <= i < |events| && events[i].OrgBindingSeen? && events[i].call == call && events[i].m == m &&
      m.space in cfg.orgOf && events[i].org == cfg.orgOf[m.space] &&
        HasBinding(events[i].bindings, IdentityOf(m), events[i].org);
    assert (events + more)[i] == events[i];
  }

  lemma InvariantStep(cfg: Config, w: World, step: Step)
    requires Invariant(cfg, w) && Possible(w, step)
    ensures Invariant(cfg, Next(cfg, w, step))
  {
    var next := Next(cfg, w, step);
    var more := next.events[|w.events|..];
    assert next.events == w.events + more;
    forall call | call in w.calls && w.calls[call].OrgChecked? && w.calls[call].m.space != ""
      ensures SawOrgBinding(cfg, next.events, call, w.calls[call].m)
    {
      SawOrgBindingLater(cfg, w.events, more, call, w.calls[call].m);
    }
    forall j | 0 <= j < |w.events|
      ensures next.events[j] == w.events[j] && next.events[..j] == w.events[..j]
    {
    }
    if more != [] {
      var j := |w.events|;
      assert next.events[..j] == w.events;
      assert next.events[j] == more[0];
      if step.Check? {
        CheckSawOrgBinding(cfg, w, step);
      }
    }
  }

  lemma CheckSawOrgBinding(cfg: Config, w: World, step: Step)
    requires WellKeyed(w.bindings) && step.Check? && Possible(w, step)
    requires step.call in w.calls && w.calls[step.call].Begun?
    ensures
      var m, next := w.calls[step.call].m, Next(cfg, w, step);
      next.calls[step.call].OrgChecked? && m.space != "" ==> SawOrgBinding(cfg, next.events, step.call, m)
  {
    var m, next := w.calls[step.call].m, Next(cfg, w, step);
    if next.calls[step.call].OrgChecked? && m.space != "" {
      var org := cfg.orgOf[m.space];
      assert Authorized(step.items, IdentityOf(m), org) == Ok(true);
      AuthorizedMeansHasBinding(step.items, w.bindings, IdentityOf(m), org);
      assert next.events[|w.events|] == OrgBindingSeen(step.call, m, org, w.bindings);
    }
  }

  lemma RunPrefix(cfg: Config, init: World, steps: seq<Step>)
    requires Run(cfg, init, steps) && steps != []
    ensures Run(cfg, init, steps[..|steps| - 1])
  {
    assert forall i :: 0 <= i < |steps| - 1 ==> steps[..|steps| - 1][..i] == steps[..i];
  }

  lemma {:induction false} InvariantHolds(cfg: Config, init: World, steps: seq<Step>)
    requires Run(cfg, init, steps)
    ensures Invariant(cfg, After(cfg, init, steps))
  {
    if steps != [] {
      var n := |steps| - 1;
      RunPrefix(cfg, init, steps);
      InvariantHolds(cfg, init, steps[..n]);
      InvariantStep(cfg, After(cfg, init, steps[..n]), steps[n]);
    }
  }

  /**
    Over every interleaving: whenever a call creates a role binding in a space, the same call has
    earlier seen, in the org that owns the space, a binding of the same subject.
   */
  lemma SpaceRolesFollowOrgRoles(cfg: Config, init: World, steps: seq<Step>, j: nat)
    requires Run(cfg, init, steps)
    requires j < |After(cfg, init, steps).events|
    requires After(cfg, init, steps).events[j].BindingCreated? && After(cfg, init, steps).events[j].m.space != ""
    ensures
      var events := After(cfg, init, steps).events;
      SawOrgBinding(cfg, events[..j], events[j].call, events[j].m)
  {
    InvariantHolds(cfg, init, steps);
  }

  /** Events bear the message of their call, and only messages that name a space lead to a sighting. */
  ghost predicate EventsFit(w: World) {
    forall e :: e in w.events ==>
      e.call in w.calls && w.calls[e.call].m == e.m && (e.OrgBindingSeen? ==> e.m.space != "")
  }

  lemma EventsFitStep(cfg: Config, w: World, step: Step)
    requires EventsFit(w)
    ensures EventsFit(Next(cfg, w, step))
  {
  }

  lemma {:induction false} EventsFitHolds(cfg: Config, init: World, steps: seq<Step>)
    requires Run(cfg, init, steps)
    ensures EventsFit(After(cfg, init, steps))
  {
    if steps != [] {
      RunPrefix(cfg, init, steps);
      EventsFitHolds(cfg, init, steps[..|steps| - 1]);
      EventsFitStep(cfg, After(cfg, init, steps[..|steps| - 1]), steps[|steps| - 1]);
    }
  }

  /**
    Over every interleaving, a binding is created after a sighting in the parent org by the same call exactly when
    the message names a space; whatever namespace an org role goes to, nobody has looked.
   */
  lemma CheckedIff(cfg: Config, init: World, steps: seq<Step>, j: nat)
    requires Run(cfg, init, steps)
    requires j < |After(cfg, init, steps).events| && After(cfg, init, steps).events[j].BindingCreated?
    ensures
      var events := After(cfg, init, steps).events;
      (exists i :: 0 <= i < j && events[i].OrgBindingSeen? && events[i].call == events[j].call) <==>
        events[j].m.space != ""
  {
    var events := After(cfg, init, steps).events;
    EventsFitHolds(cfg, init, steps);
    if i :| 0 <= i < j && events[i].OrgBindingSeen? && events[i].call == events[j].call {
      assert events[i] in events && events[j] in events;
    }
    if events[j].m.space != "" {
      SpaceRolesFollowOrgRoles(cfg, init, steps, j);
    }
  }

  /** The check is tied to the message's space: an "org" that is really a space gets a binding unchecked. */
  lemma OrgRolesAreUnchecked(cfg: Config, bindings: Bindings, m: Message, check: Result<bool, Error>, uuid: string)
    requires m.roleType in cfg.mappings && m.space == "" && m.org in cfg.orgOf
    requires KeyOf(RoleBindingOf(cfg, m)) !in bindings
    ensures
      var (after, _) := Grant(cfg, bindings, m, check, uuid, NO_FAULTS);
      exists k :: k in after && k !in bindings && k.namespace == m.org && after[k].subjects == [SubjectOf(m)]
  {
  }

  // ---------------------------------------------------------------- binding names

  /** Users without '/', and service accounts of a namespace that is not empty and has no '/'. */
  predicate Clean(s: Subject) {
    if s.kind == SERVICE_ACCOUNT_KIND then s.namespace != "" && '/' !in s.namespace
    else s.kind == USER_KIND && s.namespace == "" && '/' !in s.name
  }

  lemma HeadOfSeparated(a: string, x: string, b: string, y: string, sep: char)
    requires sep !in a && sep !in b
    requires a + [sep] + x == b + [sep] + y
    ensures a == b && x == y
  {
    var s := a + [sep] + x;
    assert s[|a|] == sep && s[|b|] == sep;
    assert forall i :: 0 <= i < |a| ==> s[i] == a[i] && a[i] in a;
    assert forall i :: 0 <= i < |b| ==> s[i] == b[i] && b[i] in b;
    assert |a| == |b|;
    assert s[..|a|] == a && s[..|b|] == b;
    assert s[|a| + 1..] == x && s[|b| + 1..] == y;
  }

  /** The qualified name of one reads as that of the other, whose name is longer and takes in more of the namespace. */
  predicate TakesIn(a: string, x: string, b: string, y: string) {
    if b == "" then a != "" && y == a + "/" + x
    else |a| > |b| && b + "/" <= a && y == a[|b| + 1..] + "/" + x
  }

  lemma QualifiedUsersMeetIff(a: string, x: string, b: string, y: string)
    ensures QualifiedUser(a, x) == QualifiedUser(b, y) <==>
      (a == b && x == y) || TakesIn(a, x, b, y) || TakesIn(b, y, a, x)
  {
    var p, q := QualifiedUser(a, x), QualifiedUser(b, y);
    if TakesIn(a, x, b, y) {
      Absorbs(a, x, b, y);
    } else if TakesIn(b, y, a, x) {
      Absorbs(b, y, a, x);
    } else if p == q {
      if |a| < |b| {
        Absorbed(b, y, a, x);
      } else if |b| < |a| {
        Absorbed(a, x, b, y);
      } else if a != "" {
        assert p[..|a|] == a && q[..|b|] == b && p[|a| + 1..] == x && q[|b| + 1..] == y;
      }
    }
  }

  lemma Absorbs(a: string, x: string, b: string, y: string)
    requires TakesIn(a, x, b, y)
    ensures QualifiedUser(a, x) == QualifiedUser(b, y)
  {
    if b != "" {
      assert a == b + "/" + a[|b| + 1..];
    }
  }

  lemma Absorbed(a: string, x: string, b: string, y: string)
    requires QualifiedUser(a, x) == QualifiedUser(b, y) && |b| < |a|
    ensures TakesIn(a, x, b, y)
  {
    var p := QualifiedUser(a, x);
    assert p[..|a|] == a;
    if b != "" {
      assert p[..|b| + 1] == b + "/";
      assert a[..|b| + 1] == b + "/";
      assert p[|b| + 1..] == a[|b| + 1..] + "/" + x;
      assert QualifiedUser(b, y)[|b| + 1..] == y;
    }
  }

  /** Exactly when two subjects, of any kind, share a binding name. */
  lemma BindingNamesMeetIff(sha256: string -> string, t: string, s: Subject, u: string, r: Subject)
    requires Injective(sha256) && ':' !in t && ':' !in u
    ensures BindingName(sha256, t, s.namespace, s.name) == BindingName(sha256, u, r.namespace, r.name) <==>
            t == u && ((s.namespace == r.namespace && s.name == r.name) ||
                       TakesIn(s.namespace, s.name, r.namespace, r.name) ||
                         TakesIn(r.namespace, r.name, s.namespace, s.name))
  {
    QualifiedUsersMeetIff(s.namespace, s.name, r.namespace, r.name);
    if BindingName(sha256, t, s.namespace, s.name) == BindingName(sha256, u, r.namespace, r.name) {
      var x, y := QualifiedUser(s.namespace, s.name), QualifiedUser(r.namespace, r.name);
      assert sha256(t + "::" + x) == BindingName(sha256, t, s.namespace, s.name)[|BINDING_NAME_PREFIX|..];
      assert sha256(u + "::" + y) == BindingName(sha256, u, r.namespace, r.name)[|BINDING_NAME_PREFIX|..];
      assert t + "::" + x == t + [':'] + ([':'] + x) && u + "::" + y == u + [':'] + ([':'] + y);
      HeadOfSeparated(t, [':'] + x, u, [':'] + y, ':');
      assert x == ([':'] + x)[1..] == y;
    }
  }

  /** So binding names tell role types apart, and, among clean subjects, the subjects. */
  lemma BindingNameInjective(sha256: string -> string, t: string, s: Subject, u: string, r: Subject)
    requires Injective(sha256) && ':' !in t && ':' !in u && Clean(s) && Clean(r)
    ensures BindingName(sha256, t, s.namespace, s.name) == BindingName(sha256, u, r.namespace, r.name) <==>
      t == u && s == r
  {
    BindingNamesMeetIff(sha256, t, s, u, r);
    SlashlessTakesNothingIn(s, r);
    SlashlessTakesNothingIn(r, s);
  }

  lemma SlashlessTakesNothingIn(s: Subject, r: Subject)
    requires Clean(s) && Clean(r)
    ensures !TakesIn(s.namespace, s.name, r.namespace, r.name)
  {
    assert (r.namespace + "/")[|r.namespace|] == '/';
    if r.namespace == "" && s.namespace != "" {
      assert (s.namespace + "/" + s.name)[|s.namespace|] == '/';
    }
  }

  predicate Collides(sha256: string -> string, roleType: string, s: Subject, user: string) {
    s.kind == SERVICE_ACCOUNT_KIND && Clean(s) &&
      BindingName(sha256, roleType, s.namespace, s.name) == BindingName(sha256, roleType, "", user)
  }

  lemma CollidingUserHasSlash(sha256: string -> string, roleType: string, s: Subject, user: string)
    requires Injective(sha256) && ':' !in roleType && Collides(sha256, roleType, s, user)
    ensures 0 < |s.namespace| < |user| && user[|s.namespace|] == '/' && '/' !in user[..|s.namespace|]
  {
    BindingNamesMeetIff(sha256, roleType, s, roleType, Subject(USER_KIND, user, ""));
    assert user == s.namespace + "/" + s.name;
    assert user[..|s.namespace|] == s.namespace;
  }

  lemma SlashedUserCollides(sha256: string -> string, roleType: string, user: string, i: nat)
    requires 0 < i < |user| && user[i] == '/' && '/' !in user[..i]
    ensures Collides(sha256, roleType, Subject(SERVICE_ACCOUNT_KIND, user[i + 1..], user[..i]), user)
  {
    assert QualifiedUser(user[..i], user[i + 1..]) == user;
  }

  /**
    A user shares a binding name with some clean service account exactly when the user's first slash does not
    come first.
   */
  lemma UserCanCollideWithServiceAccount(sha256: string -> string, roleType: string, user: string)
    requires Injective(sha256) && ':' !in roleType
    ensures (exists s :: Collides(sha256, roleType, s, user)) <==>
      exists i :: 0 < i < |user| && user[i] == '/' && '/' !in user[..i]
  {
    if s :| Collides(sha256, roleType, s, user) {
      CollidingUserHasSlash(sha256, roleType, s, user);
    }
    if i :| 0 < i < |user| && user[i] == '/' && '/' !in user[..i] {
      SlashedUserCollides(sha256, roleType, user, i);
    }
  }

  /** If a name is the binding name of some clean subject, the binding that bears it is that subject's. */
  ghost predicate NameTellsSubject(cfg: Config, rb: RoleBinding) {
    forall t, s: Subject {:trigger BindingName(cfg.sha256, t, s.namespace, s.name)} ::
      ':' !in t && Clean(s) && rb.name == BindingName(cfg.sha256, t, s.namespace, s.name) ==> rb.subjects == [s]
  }

  ghost predicate NamesTellSubjects(cfg: Config, bindings: Bindings) {
    forall k :: k in bindings ==> NameTellsSubject(cfg, bindings[k])
  }

  predicate CleanCalls(steps: seq<Step>) {
    forall i :: 0 <= i < |steps| && steps[i].Begin? ==> Clean(SubjectOf(steps[i].m))
  }

  predicate ColonFreeTypes(cfg: Config) {
    forall t :: t in cfg.mappings ==> ':' !in t
  }

  lemma CreatedNameTellsSubject(cfg: Config, namespace: string, t: string, s: Subject, guid: string, role: Role)
    requires Injective(cfg.sha256) && ':' !in t && Clean(s)
    ensures NameTellsSubject(cfg, CreateRoleBinding(cfg, namespace, t, s, guid, role))
  {
    var rb := CreateRoleBinding(cfg, namespace, t, s, guid, role);
    forall u, r: Subject {:trigger BindingName(cfg.sha256, u, r.namespace, r.name)} |
      ':' !in u && Clean(r) && rb.name == BindingName(cfg.sha256, u, r.namespace, r.name)
      ensures r == s
    {
      BindingNameInjective(cfg.sha256, t, s, u, r);
    }
  }

  ghost predicate CleanWorld(cfg: Config, w: World) {
    && NamesTellSubjects(cfg, w.bindings)
    && forall call :: call in w.calls ==> Clean(SubjectOf(w.calls[call].m))
  }

  lemma CleanWorldStep(cfg: Config, w: World, step: Step)
    requires ColonFreeTypes(cfg) && Injective(cfg.sha256) && CleanWorld(cfg, w)
    requires step.Begin? ==> Clean(SubjectOf(step.m))
    ensures CleanWorld(cfg, Next(cfg, w, step))
  {
    if step.Bind? && step.call in w.calls && w.calls[step.call].m.roleType in cfg.mappings {
      var m := w.calls[step.call].m;
      CreatedNameTellsSubject(cfg, NamespaceOf(m), m.roleType, SubjectOf(m), m.guid, cfg.mappings[m.roleType]);
    } else if step.BindCfUser? && step.call in w.calls && CF_USER in cfg.mappings {
      var m := w.calls[step.call].m;
      CreatedNameTellsSubject(cfg, cfg.rootNamespace, CF_USER, SubjectOf(m), step.uuid,
        cfg.mappings[CF_USER].(propagate := false));
    }
  }

  lemma {:induction false} RunsStayClean(cfg: Config, init: World, steps: seq<Step>)
    requires Run(cfg, init, steps) && CleanCalls(steps) && ColonFreeTypes(cfg) && Injective(cfg.sha256)
    requires NamesTellSubjects(cfg, init.bindings)
    ensures CleanWorld(cfg, After(cfg, init, steps))
  {
    if steps != [] {
      var n := |steps| - 1;
      RunPrefix(cfg, init, steps);
      RunsStayClean(cfg, init, steps[..n]);
      CleanWorldStep(cfg, After(cfg, init, steps[..n]), steps[n]);
    }
  }

  function RoleKey(cfg: Config, m: Message): Key {
    Key(NamespaceOf(m), BindingName(cfg.sha256, m.roleType, m.saNamespace, m.user))
  }

  function CfUserKey(cfg: Config, m: Message): Key {
    Key(cfg.rootNamespace, BindingName(cfg.sha256, CF_USER, m.saNamespace, m.user))
  }

  predicate Binds(bindings: Bindings, k: Key, m: Message) {
    k in bindings && bindings[k].subjects == [SubjectOf(m)]
  }

  predicate HasRole(w: World, call: nat, m: Message) {
    call in w.calls && (w.calls[call] == RoleBound(m) || w.calls[call] == Finished(m, None))
  }

  predicate HasSucceeded(w: World, call: nat, m: Message) {
    call in w.calls && w.calls[call] == Finished(m, None)
  }

  /** Nobody unbinds what a call has left behind, the role binding first and the cf_user binding last. */
  predicate NobodyUnbinds(cfg: Config, init: World, steps: seq<Step>, call: nat, m: Message) {
    steps == [] ||
    var n := |steps| - 1;
    var w := After(cfg, init, steps[..n]);
    && NobodyUnbinds(cfg, init, steps[..n], call, m)
    && (steps[n] == Unbind(RoleKey(cfg, m)) ==> !HasRole(w, call, m))
    && (steps[n] == Unbind(CfUserKey(cfg, m)) ==> !HasSucceeded(w, call, m))
  }

  lemma RoleLeftStep(cfg: Config, w: World, step: Step, call: nat, m: Message)
    requires HasRole(w, call, m) ==> Binds(w.bindings, RoleKey(cfg, m), m)
    requires step == Unbind(RoleKey(cfg, m)) ==> !HasRole(w, call, m)
    ensures HasRole(Next(cfg, w, step), call, m) ==> Binds(Next(cfg, w, step).bindings, RoleKey(cfg, m), m)
  {
  }

  lemma CfUserLeftStep(cfg: Config, w: World, step: Step, call: nat, m: Message)
    requires HasSucceeded(w, call, m) ==> Binds(w.bindings, CfUserKey(cfg, m), m)
    requires step == Unbind(CfUserKey(cfg, m)) ==> !HasSucceeded(w, call, m)
    requires CleanWorld(cfg, w) && WellKeyed(w.bindings)
    ensures HasSucceeded(Next(cfg, w, step), call, m) ==> Binds(Next(cfg, w, step).bindings, CfUserKey(cfg, m), m)
  {
    if CfUserKey(cfg, m) in w.bindings {
      assert NameTellsSubject(cfg, w.bindings[CfUserKey(cfg, m)]);
      assert ':' !in CF_USER;
    }
  }

  lemma {:induction false} RoleStaysLeft(cfg: Config, init: World, steps: seq<Step>, call: nat, m: Message)
    requires Run(cfg, init, steps) && NobodyUnbinds(cfg, init, steps, call, m)
    ensures HasRole(After(cfg, init, steps), call, m) ==> Binds(After(cfg, init, steps).bindings, RoleKey(cfg, m), m)
  {
    if steps != [] {
      var n := |steps| - 1;
      RunPrefix(cfg, init, steps);
      RoleStaysLeft(cfg, init, steps[..n], call, m);
      RoleLeftStep(cfg, After(cfg, init, steps[..n]), steps[n], call, m);
    }
  }

  lemma {:induction false} CfUserStaysLeft(cfg: Config, init: World, steps: seq<Step>, call: nat, m: Message)
    requires Run(cfg, init, steps) && CleanCalls(steps) && ColonFreeTypes(cfg) && Injective(cfg.sha256)
    requires NamesTellSubjects(cfg, init.bindings) && NobodyUnbinds(cfg, init, steps, call, m)
    ensures HasSucceeded(After(cfg, init, steps), call, m) ==>
      Binds(After(cfg, init, steps).bindings, CfUserKey(cfg, m), m)
  {
    if steps != [] {
      var n := |steps| - 1;
      RunPrefix(cfg, init, steps);
      CfUserStaysLeft(cfg, init, steps[..n], call, m);
      RunsStayClean(cfg, init, steps[..n]);
      InvariantHolds(cfg, init, steps[..n]);
      CfUserLeftStep(cfg, After(cfg, init, steps[..n]), steps[n], call, m);
    }
  }

  /**
    Over every interleaving of clean calls: every call that has succeeded has both the role binding and the
    cf_user binding of its subject, from then on, until somebody unbinds them.
   */
  lemma SuccessLeavesBoth(cfg: Config, init: World, steps: seq<Step>, call: nat, m: Message)
    requires Run(cfg, init, steps) && CleanCalls(steps) && ColonFreeTypes(cfg) && Injective(cfg.sha256)
    requires NamesTellSubjects(cfg, init.bindings)
    requires NobodyUnbinds(cfg, init, steps, call, m)
    requires HasSucceeded(After(cfg, init, steps), call, m)
    ensures Binds(After(cfg, init, steps).bindings, RoleKey(cfg, m), m)
    ensures Binds(After(cfg, init, steps).bindings, CfUserKey(cfg, m), m)
  {
    RoleStaysLeft(cfg, init, steps, call, m);
    CfUserStaysLeft(cfg, init, steps, call, m);
  }

  /**
    And so, in every later state and under every listing, the permission check in its namespace says yes to its
    identity.
   */
  lemma SuccessAuthorizes(cfg: Config, init: World, steps: seq<Step>, call: nat, m: Message, items: seq<RoleBinding>)
    requires Run(cfg, init, steps) && NobodyUnbinds(cfg, init, steps, call, m)
    requires HasSucceeded(After(cfg, init, steps), call, m)
    requires m.kind == SERVICE_ACCOUNT_KIND ==> ':' !in m.saNamespace && ':' !in m.user
    requires Lists(items, After(cfg, init, steps).bindings)
    ensures Authorized(items, IdentityOf(m), NamespaceOf(m)) == Ok(true)
  {
    var bindings, k := After(cfg, init, steps).bindings, RoleKey(cfg, m);
    RoleStaysLeft(cfg, init, steps, call, m);
    InvariantHolds(cfg, init, steps);
    CreatedBindingNamesIdentityIff(bindings[k], m);
    NamedOrTripped(InNamespace(items, NamespaceOf(m)), IdentityOf(m));
    assert !Malformed(IdentityOf(m));
    assert KeyOf(bindings[k]) == k;
    AuthorizedMeansHasBinding(items, bindings, IdentityOf(m), NamespaceOf(m));
  }

  /**
    Calls that need not be clean: when one succeeds its role binding is there, and its cf_user binding is its
    subject's exactly when the name was free or already bound to the subject.
   */
  lemma SuccessLeavesBothIff(cfg: Config, init: World, steps: seq<Step>, call: nat, uuid: string, m: Message)
    requires Run(cfg, init, steps) && NobodyUnbinds(cfg, init, steps, call, m)
    requires call in After(cfg, init, steps).calls && After(cfg, init, steps).calls[call] == RoleBound(m)
    requires CF_USER in cfg.mappings
    ensures
      var w := After(cfg, init, steps);
      var next := Next(cfg, w, BindCfUser(call, uuid, NoFault));
      && HasSucceeded(next, call, m)
      && Binds(next.bindings, RoleKey(cfg, m), m)
      && (Binds(next.bindings, CfUserKey(cfg, m), m) <==>
        (CfUserKey(cfg, m) in w.bindings ==> Binds(w.bindings, CfUserKey(cfg, m), m)))
  {
    RoleStaysLeft(cfg, init, steps, call, m);
  }

  // ---------------------------------------------------------------- listing

  predicate IsCFRole(cfg: Config, rb: RoleBinding) {
    && (PROPAGATED_FROM_LABEL in rb.labels ==> rb.labels[PROPAGATED_FROM_LABEL] == "")
    && exists t :: t in cfg.mappings && cfg.mappings[t].name == rb.roleRef
  }

  /** A binding that was propagated, or whose cluster role no type maps to, is not listed as a role. */
  lemma NotListed(cfg: Config, rb: RoleBinding)
    ensures "cloudfoundry.org/propagated-from" in rb.labels && rb.labels["cloudfoundry.org/propagated-from"] != "" ==>
      !IsCFRole(cfg, rb)
    ensures (forall t :: t in cfg.mappings ==> cfg.mappings[t].name != rb.roleRef) ==> !IsCFRole(cfg, rb)
  {
  }

  /** The role type of a cluster role; map iteration may meet any of those that share its name. */
  method GetCFRoleName(mappings: map<string, Role>, k8sRoleName: string) returns (r: string)
    ensures if exists t :: t in mappings && mappings[t].name == k8sRoleName
            then r in mappings && mappings[r].name == k8sRoleName
            else r == ""
  {
    var rest := mappings.Keys;
    while rest != {}
      invariant rest <= mappings.Keys
      invariant forall t :: t in mappings && t !in rest ==> mappings[t].name != k8sRoleName
      decreases |rest|
    {
      var t :| t in rest;
      if mappings[t].name == k8sRoleName {
        return t;
      }
      rest := rest - {t};
    }
    return "";
  }

  /** The record of a binding, given the role type that its cluster role was resolved to. */
  function RecordOf(cfg: Config, rb: RoleBinding, roleType: string): Record
    requires |rb.subjects| > 0
  {
    var subject := rb.subjects[0];
    var level := if roleType in cfg.mappings then cfg.mappings[roleType].level else NoLevel;
    Record(
      if ROLE_GUID_LABEL in rb.labels then rb.labels[ROLE_GUID_LABEL] else "",
      roleType,
      if level.SpaceLevel? then rb.namespace else "",
      if level.OrgLevel? then rb.namespace else "",
      if subject.kind == SERVICE_ACCOUNT_KIND
        then ServiceAccountName(subject.namespace, subject.name) else subject.name,
      subject.kind)
  }

  /** The records a binding can be listed as: one for each type that its cluster role may be resolved to. */
  ghost predicate ListedAs(cfg: Config, rb: RoleBinding, r: Record)
    requires |rb.subjects| > 0
  {
    exists t :: t in cfg.mappings && cfg.mappings[t].name == rb.roleRef && r == RecordOf(cfg, rb, t)
  }

  method ToRoleRecord(cfg: Config, rb: RoleBinding) returns (r: Record)
    requires |rb.subjects| > 0 && IsCFRole(cfg, rb)
    ensures ListedAs(cfg, rb, r)
  {
    var roleType := GetCFRoleName(cfg.mappings, rb.roleRef);
    r := RecordOf(cfg, rb, roleType);
  }

  /** Whether other types map to the cluster role of a type. */
  predicate Shared(mappings: map<string, Role>, roleType: string)
    requires roleType in mappings
  {
    exists t :: t in mappings && t != roleType && mappings[t].name == mappings[roleType].name
  }

  /**
    From payload to message to binding to record. The user comes back unchanged exactly when it is no
    service account or is a canonical one; the type, exactly when no other type shares its cluster role;
    and then org and space, exactly when the type's level fits them.
   */
  lemma PayloadRoundTrip(cfg: Config, p: Payload, guid: string)
    requires p.roleType in cfg.mappings
    requires MessageOf(p).space == "" || MessageOf(p).org == ""
    ensures
      var m := MessageOf(p).(guid := guid);
      var rb := RoleBindingOf(cfg, m);
      var level := cfg.mappings[p.roleType].level;
      && IsCFRole(cfg, rb)
      && (forall r :: ListedAs(cfg, rb, r) ==>
            && r.guid == guid && r.kind == m.kind
            && (r.user == RequestedUser(p) <==>
              (HasServiceAccountPrefix(RequestedUser(p)) ==> |Split(RequestedUser(p), ':')| == 4)))
      && ((forall r :: ListedAs(cfg, rb, r) ==> r.roleType == p.roleType) <==> !Shared(cfg.mappings, p.roleType))
      && (!Shared(cfg.mappings, p.roleType) ==>
            forall r :: ListedAs(cfg, rb, r) ==>
              (r.space == m.space && r.org == m.org <==>
               (m.space != "" ==> level.SpaceLevel?) && (m.org != "" ==> level.OrgLevel?)))
  {
    var m := MessageOf(p).(guid := guid);
    var rb := RoleBindingOf(cfg, m);
    assert p.roleType in cfg.mappings && cfg.mappings[p.roleType].name == rb.roleRef;
    if HasServiceAccountPrefix(RequestedUser(p)) {
      PrintParsedIff(RequestedUser(p));
    }
    if Shared(cfg.mappings, p.roleType) {
      var t :| t in cfg.mappings && t != p.roleType && cfg.mappings[t].name == rb.roleRef;
      assert ListedAs(cfg, rb, RecordOf(cfg, rb, t));
    }
  }
}
