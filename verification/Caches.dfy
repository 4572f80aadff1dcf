/** The identity cache and the platform-user cache, and the byte keys they use. */
module Caches {
  import opened Common
  import opened ExpiringCache

  type Byte = x: int | 0 <= x < 256

  /** Token and certificate data of a request, as bytes. */
  datatype Info = Info(token: seq<Byte>, certData: seq<Byte>)

  datatype RawIdentity = RawIdentity(name: seq<Byte>, kind: seq<Byte>)

  datatype Error = LookupFailed | InvalidInfo

  // The bytes of "User" and "ServiceAccount".
  const USER: seq<Byte> := [85, 115, 101, 114]
  const SERVICE_ACCOUNT: seq<Byte> := [83, 101, 114, 118, 105, 99, 101, 65, 99, 99, 111, 117, 110, 116]

  // ---------------------------------------------------------------- keys

  /** The SHA-256 digest of no input, which is what a fresh hasher appends to the bytes it is given. */
  const EMPTY_DIGEST: seq<Byte> := [
    0xe3, 0xb0, 0xc4, 0x42, 0x98, 0xfc, 0x1c, 0x14, 0x9a, 0xfb, 0xf4, 0xc8, 0x99, 0x6f, 0xb9, 0x24,
    0x27, 0xae, 0x41, 0xe4, 0x64, 0x9b, 0x93, 0x4c, 0xa4, 0x95, 0x99, 0x1b, 0x78, 0x52, 0xb8, 0x55]

  const DIGITS := "0123456789abcdef"

  function Hex(bytes: seq<Byte>): string {
    if bytes == [] then "" else [DIGITS[bytes[0] / 16], DIGITS[bytes[0] % 16]] + Hex(bytes[1..])
  }

  lemma {:induction false} HexIsInjective(a: seq<Byte>, b: seq<Byte>)
    requires Hex(a) == Hex(b)
    ensures a == b
  {
    if a != [] && b != [] {
      var x, y := Hex(a), Hex(b);
      assert x[0] == DIGITS[a[0] / 16] && y[0] == DIGITS[b[0] / 16];
      assert x[1] == DIGITS[a[0] % 16] && y[1] == DIGITS[b[0] % 16];
      assert x[2..] == Hex(a[1..]) && y[2..] == Hex(b[1..]);
      HexIsInjective(a[1..], b[1..]);
      DigitsAreDistinct(a[0] / 16, b[0] / 16);
      DigitsAreDistinct(a[0] % 16, b[0] % 16);
      assert a[0] == b[0];
      assert a == [a[0]] + a[1..] && b == [b[0]] + b[1..];
    }
  }

  lemma DigitsAreDistinct(i: nat, j: nat)
    requires i < 16 && j < 16 && DIGITS[i] == DIGITS[j]
    ensures i == j
  {
  }

  function Key(bytes: seq<Byte>): string {
    Hex(bytes + EMPTY_DIGEST)
  }

  lemma KeyIsInjective(a: seq<Byte>, b: seq<Byte>)
    ensures Key(a) == Key(b) <==> a == b
  {
    if Key(a) == Key(b) {
      HexIsInjective(a + EMPTY_DIGEST, b + EMPTY_DIGEST);
      assert a == (a + EMPTY_DIGEST)[..|a|] && b == (b + EMPTY_DIGEST)[..|b|];
    }
  }

  function InfoHash(info: Info): string {
    Key(info.token + info.certData)
  }

  function IdentityHash(id: RawIdentity): string {
    Key(id.name + id.kind)
  }

  predicate OneCredential(info: Info) {
    info.token == [] || info.certData == []
  }

  /** Infos with one credential share a key exactly when the credentials' bytes are the same, whichever kind each is. */
  lemma InfoKeysMeetIff(i: Info, j: Info)
    requires OneCredential(i) && OneCredential(j)
    ensures InfoHash(i) == InfoHash(j) <==>
            i == j || (i.token == j.certData && i.certData == j.token)
  {
    KeyIsInjective(i.token + i.certData, j.token + j.certData);
    assert i.token == [] ==> i.token + i.certData == i.certData;
    assert i.certData == [] ==> i.token + i.certData == i.token;
    assert j.token == [] ==> j.token + j.certData == j.certData;
    assert j.certData == [] ==> j.token + j.certData == j.token;
  }

  /** Identities of users and service accounts have keys of their own. */
  lemma IdentityKeysAreInjective(i: RawIdentity, j: RawIdentity)
    requires i.kind in {USER, SERVICE_ACCOUNT} && j.kind in {USER, SERVICE_ACCOUNT}
    ensures IdentityHash(i) == IdentityHash(j) <==> i == j
  {
    KeyIsInjective(i.name + i.kind, j.name + j.kind);
    var a, b := i.name + i.kind, j.name + j.kind;
    if a == b {
      assert a[|a| - 1] == i.kind[|i.kind| - 1] && b[|b| - 1] == j.kind[|j.kind| - 1];
      assert i.kind == j.kind;
      assert i.name == a[..|a| - |i.kind|] && j.name == b[..|b| - |j.kind|];
    }
  }

  /** The dispatch behind the identity cache: a token wins over a certificate. */
  function Inspect(info: Info, byToken: Result<RawIdentity, Error>,
                   byCert: Result<RawIdentity, Error>): Result<RawIdentity, Error>
  {
    if info.token != [] then byToken
    else if |info.certData| != 0 then byCert
    else Err(InvalidInfo)
  }

  /** So one cache entry can stand for a token and for a certificate, which are inspected differently. */
  lemma TokenAndCertCanShareAnEntry(b: seq<Byte>, byToken: Result<RawIdentity, Error>,
                                    byCert: Result<RawIdentity, Error>)
    requires b != [] && byToken != byCert
    ensures InfoHash(Info(b, [])) == InfoHash(Info([], b))
    ensures Inspect(Info([], b), byToken, byCert) == byCert
    ensures Inspect(Info([], []), byToken, byCert) == Err(InvalidInfo)
    ensures forall certData :: Inspect(Info(b, certData), byToken, byCert) == byToken
  {
    InfoKeysMeetIff(Info(b, []), Info([], b));
  }

  // ---------------------------------------------------------------- the two caches

  /** Identities are cached, errors are not. */
  const IDENTITIES: Config<Info, Result<RawIdentity, Error>> :=
    Config(InfoHash, (a: Result<RawIdentity, Error>) => a.Ok?)

  /** Only a positive answer is cached. */
  const CF_USERS: Config<RawIdentity, Result<bool, Error>> :=
    Config(IdentityHash, (a: Result<bool, Error>) => a == Ok(true))

  class CachingIdentityProvider {
    var identityCache: Cache<Result<RawIdentity, Error>>

    /** `ask` is the wrapped provider at this time. */
    method GetIdentity(info: Info, now: int, ask: Info -> Result<RawIdentity, Error>)
      returns (r: Result<RawIdentity, Error>)
      modifies this
      ensures
        var hit := Get(old(identityCache), InfoHash(info), now);
        && r == (if hit.Some? then hit.value else ask(info))
        && identityCache == if hit.None? && r.Ok?
          then Set(old(identityCache), InfoHash(info), r, now) else old(identityCache)
    {
      var hit := Get(identityCache, InfoHash(info), now);
      if hit.Some? {
        return hit.value;
      }
      r := ask(info);
      if r.Ok? {
        identityCache := Set(identityCache, InfoHash(info), r, now);
      }
    }
  }

  class CFUser {
    var cfUserCache: Cache<Result<bool, Error>>

    /** The cache holds nothing but positive answers. */
    predicate Valid()
      reads this
    {
      forall k :: k in cfUserCache ==> cfUserCache[k].value == Ok(true)
    }

    /** `authorizedIn` is the permission checker for the root namespace at this time. */
    method IsCFUser(identity: RawIdentity, now: int, authorizedIn: RawIdentity -> Result<bool, Error>)
      returns (r: Result<bool, Error>)
      requires Valid()
      modifies this
      ensures Valid()
      ensures
        var hit := Get(old(cfUserCache), IdentityHash(identity), now);
        && r == (if hit.Some? then Ok(true) else authorizedIn(identity))
        && cfUserCache == if hit.None? && r == Ok(true)
          then Set(old(cfUserCache), IdentityHash(identity), r, now) else old(cfUserCache)
    {
      var hit := Get(cfUserCache, IdentityHash(identity), now);
      if hit.Some? {
        return Ok(true);
      }
      var authorized := authorizedIn(identity);
      if authorized.Err? {
        return authorized;
      }
      if authorized.value {
        cfUserCache := Set(cfUserCache, IdentityHash(identity), Ok(true), now);
        return Ok(true);
      }
      return Ok(false);
    }
  }

  /** A call without delays is the steps Lookup, Answer and Store of the interleaved runs. */
  lemma CallIsThreeSteps<Q(!new), A(!new)>(cfg: Config<Q, A>, w: World<Q, A>, call: nat, q: Q, a: A)
    requires call !in w.pending
    ensures
      var end := Next(cfg, Next(cfg, Next(cfg, w, Lookup(call, q)), Answer(call, a)), Store(call));
      var hit := Get(w.cache, cfg.keyOf(q), w.now);
      && end.cache == (if hit.None? && cfg.cached(a) then Set(w.cache, cfg.keyOf(q), a, w.now) else w.cache)
      && end.pending == w.pending
      && end.log != [] && end.log[|end.log| - 1] == Replied(call, q, if hit.Some? then hit.value else a, w.now, w.now)
  {
  }

  /**
    Every identity answered is what the wrapped provider answered, to that call or, less than 120 seconds
    (and the time that storing it took) earlier, for an info with the same key bytes. Errors are never remembered.
   */
  lemma IdentityIsRecent(steps: seq<Step<Info, Result<RawIdentity, Error>>>, call: nat, info: Info,
                         a: Result<RawIdentity, Error>, since: int, at: int)
    requires Replied(call, info, a, since, at) in After(IDENTITIES, steps).log
    ensures
      var log := After(IDENTITIES, steps).log;
      || Fresh(log, InfoHash(info), call, info, a, since, at)
      || (a.Ok? && exists c, info': Info, answered, stored ::
            && Stored(InfoHash(info), a, answered, stored) in log
            && answered <= stored && at - answered < 120 + (stored - answered)
            && info'.token + info'.certData == info.token + info.certData
            && Answered(c, info', a, answered) in log)
  {
    RepliesAreJustified(IDENTITIES, steps, call, info, a, since, at);
    var log := After(IDENTITIES, steps).log;
    if !Fresh(log, InfoHash(info), call, info, a, since, at) {
      var c, info': Info, answered, stored :|
        && answered <= stored <= at < stored + TTL
        && Stored(IDENTITIES.keyOf(info), a, answered, stored) in log
        && IDENTITIES.keyOf(info') == IDENTITIES.keyOf(info)
        && Answered(c, info', a, answered) in log;
      KeyIsInjective(info'.token + info'.certData, info.token + info.certData);
      assert Stored(InfoHash(info), a, answered, stored) in log;
    }
  }

  /**
    And the surplus is real: an identity can be answered 120 seconds after it was last given exactly when storing
    takes any time.
   */
  lemma OutdatedIdentityIff(info: Info, id: RawIdentity, d: nat)
    ensures (exists steps, call, since, at :: StoredWithin(After(IDENTITIES, steps).log, d)
              && Replied(call, info, Ok(id), since, at) in After(IDENTITIES, steps).log
              && Outdated(IDENTITIES, After(IDENTITIES, steps).log, InfoHash(info), Ok(id), at)) <==> d > 0
  {
    OutdatedReplyIff(IDENTITIES, info, Ok(id), d);
  }

  /** Whoever is asked about is a user or a service account. */
  predicate ProperKinds(steps: seq<Step<RawIdentity, Result<bool, Error>>>) {
    forall i :: 0 <= i < |steps| && steps[i].Lookup? ==> steps[i].q.kind in {USER, SERVICE_ACCOUNT}
  }

  ghost predicate ProperWorld(w: World<RawIdentity, Result<bool, Error>>) {
    && (forall c :: c in w.pending ==> w.pending[c].q.kind in {USER, SERVICE_ACCOUNT})
    && (forall e :: e in w.log && (e.Answered? || e.Replied?) ==> e.q.kind in {USER, SERVICE_ACCOUNT})
  }

  lemma ProperStep(w: World<RawIdentity, Result<bool, Error>>, step: Step<RawIdentity, Result<bool, Error>>)
    requires ProperWorld(w) && (step.Lookup? ==> step.q.kind in {USER, SERVICE_ACCOUNT})
    ensures ProperWorld(Next(CF_USERS, w, step))
  {
  }

  lemma {:induction false} KindsStayProper(steps: seq<Step<RawIdentity, Result<bool, Error>>>)
    requires ProperKinds(steps)
    ensures ProperWorld(After(CF_USERS, steps))
  {
    if steps != [] {
      var n := |steps| - 1;
      KindsStayProper(steps[..n]);
      ProperStep(After(CF_USERS, steps[..n]), steps[n]);
    }
  }

  /**
    The user cache is wrong on the positive side only. A "no" or an error was answered to that very call,
    so a new grant shows at once. A "yes" was answered to that call or, less than 120 seconds (and the time
    that storing it took) earlier, about the same identity, so a revoked grant does not last longer.
   */
  lemma OnlyPositiveAnswersAreStale(steps: seq<Step<RawIdentity, Result<bool, Error>>>, call: nat, id: RawIdentity,
                                    a: Result<bool, Error>, since: int, at: int)
    requires ProperKinds(steps)
    requires Replied(call, id, a, since, at) in After(CF_USERS, steps).log
    ensures
      var log := After(CF_USERS, steps).log;
      || Fresh(log, IdentityHash(id), call, id, a, since, at)
      || (a == Ok(true) && exists c, answered, stored ::
            && Stored(IdentityHash(id), a, answered, stored) in log
            && answered <= stored && at - answered < 120 + (stored - answered)
            && Answered(c, id, Ok(true), answered) in log)
  {
    RepliesAreJustified(CF_USERS, steps, call, id, a, since, at);
    KindsStayProper(steps);
    var log := After(CF_USERS, steps).log;
    if !Fresh(log, IdentityHash(id), call, id, a, since, at) {
      var c, id', answered, stored :|
        && answered <= stored <= at < stored + TTL
        && Stored(CF_USERS.keyOf(id), a, answered, stored) in log
        && CF_USERS.keyOf(id') == CF_USERS.keyOf(id)
        && Answered(c, id', a, answered) in log;
      IdentityKeysAreInjective(id', id);
      assert Stored(IdentityHash(id), a, answered, stored) in log;
    }
  }

  /** A "yes" can outlive the 120 seconds exactly when storing it takes any time. */
  lemma OutdatedYesIff(id: RawIdentity, d: nat)
    ensures (exists steps, call, since, at :: StoredWithin(After(CF_USERS, steps).log, d)
              && Replied(call, id, Ok(true), since, at) in After(CF_USERS, steps).log
              && Outdated(CF_USERS, After(CF_USERS, steps).log, IdentityHash(id), Ok(true), at)) <==> d > 0
  {
    OutdatedReplyIff(CF_USERS, id, Ok(true), d);
  }
}
