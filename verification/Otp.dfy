// One-time passwords: request, verify, attempt counting and lockout over the expiring store.
module Otp {
  import opened Common
  import opened Redis

  // Seconds and attempts from the settings.
  datatype Config = Config(ttl: nat, maxAttempts: nat, lock: nat)

  predicate Usable(cfg: Config) {
    cfg.ttl > 0 && cfg.maxAttempts > 0 && cfg.lock > 0
  }

  datatype Value = Code(code: string, attempts: nat) | Lock

  // `WrongType` is the store's answer when a hash command meets a plain value.
  datatype Reply = Issued(code: string) | Accepted | Expired | Invalid | Locked | WrongType

  function CodeKey(phone: string): string {
    "otp:" + phone
  }

  function LockKey(phone: string): string {
    "otp:lock:" + phone
  }

  // ---- specification ------------------------------------------------------------------------

  function Request(store: Store<Value>, cfg: Config, phone: string, code: string, now: int): (Store<Value>, Reply) {
    var found := At(store, now);
    if LockKey(phone) in found then (found, Locked)
    else (found[CodeKey(phone) := Entry(Code(code, 0), now + cfg.ttl * SECOND)], Issued(code))
  }

  function Verify(store: Store<Value>, cfg: Config, phone: string, code: string, now: int): (Store<Value>, Reply) {
    var found, key := At(store, now), CodeKey(phone);
    if key !in found then (found, Expired)
    else if found[key].value.Lock? then (found, WrongType)
    else if found[key].value.code == code then (found - {key}, Accepted)
    else
      var attempts := found[key].value.attempts + 1;
      if attempts >= cfg.maxAttempts then
        ((found - {key})[LockKey(phone) := Entry(Lock, now + cfg.lock * SECOND)], Locked)
      else
        (found[key := Entry(Code(found[key].value.code, attempts), found[key].expires)], Invalid)
  }

  method RequestOtp(redis: RedisDb<Value>, cfg: Config, phone: string, code: string, now: int)
    returns (reply: Reply)
    modifies redis
    ensures (redis.store, reply) == Request(old(redis.store), cfg, phone, code, now)
  {
    var locked := redis.Exists(LockKey(phone), now);
    if locked {
      return Locked;
    }
    redis.Delete(CodeKey(phone));
    redis.SetEx(CodeKey(phone), Code(code, 0), now + cfg.ttl * SECOND);
    assert redis.store == At(old(redis.store), now)[CodeKey(phone) := Entry(Code(code, 0), now + cfg.ttl * SECOND)];
    return Issued(code);
  }

  method VerifyOtp(redis: RedisDb<Value>, cfg: Config, phone: string, code: string, now: int)
    returns (reply: Reply)
    modifies redis
    ensures (redis.store, reply) == Verify(old(redis.store), cfg, phone, code, now)
  {
    var key := CodeKey(phone);
    var stored := redis.Fetch(key, now);
    if stored.None? {
      return Expired;
    }
    if stored.value.Lock? {
      return WrongType;
    }
    if stored.value.code != code {
      var attempts := stored.value.attempts + 1;
      redis.Update(key, Code(stored.value.code, attempts));
      if attempts >= cfg.maxAttempts {
        redis.Delete(key);
        redis.SetEx(LockKey(phone), Lock, now + cfg.lock * SECOND);
        assert redis.store
            == (At(old(redis.store), now) - {key})[LockKey(phone) := Entry(Lock, now + cfg.lock * SECOND)];
        return Locked;
      }
      return Invalid;
    }
    redis.Delete(key);
    return Accepted;
  }

  // ---- keys ------------------------------------------------------------------------------------

  // Neither phone is the other with "lock:" in front.
  predicate Separate(p: string, q: string) {
    p != "lock:" + q && q != "lock:" + p
  }

  // Two phones share no key exactly when they differ and are separate.
  lemma KeysClashExactlyWhen(p: string, q: string)
    ensures {CodeKey(p), LockKey(p)} !! {CodeKey(q), LockKey(q)} <==> p != q && Separate(p, q)
    ensures CodeKey(p) != LockKey(p)
  {
    assert LockKey(p) == CodeKey("lock:" + p) && LockKey(q) == CodeKey("lock:" + q);
    CodeKeyInjective(p, q);
    CodeKeyInjective(p, "lock:" + q);
    CodeKeyInjective("lock:" + p, q);
    CodeKeyInjective("lock:" + p, "lock:" + q);
    CodeKeyInjective(p, "lock:" + p);
    assert ("lock:" + p)[5..] == p && ("lock:" + q)[5..] == q;
    assert |"lock:" + p| != |p|;
  }

  lemma CodeKeyInjective(p: string, q: string)
    ensures CodeKey(p) == CodeKey(q) <==> p == q
  {
    assert CodeKey(p)[4..] == p && CodeKey(q)[4..] == q;
  }

  // Normalised phone numbers start with '+', so any two are separate.
  lemma NormalisedPhonesAreSeparate(p: string, q: string)
    requires p != "" && q != "" && p[0] == '+' && q[0] == '+'
    ensures Separate(p, q)
  {
    assert ("lock:" + q)[0] == 'l' && ("lock:" + p)[0] == 'l';
  }

  // ---- observed histories ----------------------------------------------------------------------

  datatype Call =
    | AskCode(phone: string, code: string, now: int)
    | TryCode(phone: string, code: string, now: int)

  // What an onlooker sees of one request: the call and the reply.
  datatype Seen = Seen(call: Call, reply: Reply)

  function Answer(store: Store<Value>, cfg: Config, c: Call): (Store<Value>, Reply) {
    match c
    case AskCode(phone, code, now) => Request(store, cfg, phone, code, now)
    case TryCode(phone, code, now) => Verify(store, cfg, phone, code, now)
  }

  function Run(cfg: Config, cs: seq<Call>): Store<Value> {
    if cs == [] then map[] else Answer(Run(cfg, cs[..|cs| - 1]), cfg, cs[|cs| - 1]).0
  }

  function Observe(cfg: Config, cs: seq<Call>): seq<Seen> {
    if cs == [] then []
    else
      var front, c := cs[..|cs| - 1], cs[|cs| - 1];
      Observe(cfg, front) + [Seen(c, Answer(Run(cfg, front), cfg, c).1)]
  }

  // The latest request for `phone` that was not refused.
  function LastIssue(h: seq<Seen>, phone: string): Option<nat> {
    if h == [] then None
    else
      var s := h[|h| - 1];
      if s.call.AskCode? && s.call.phone == phone && s.reply.Issued? then Some(|h| - 1)
      else LastIssue(h[..|h| - 1], phone)
  }

  // The latest verify of `phone` that was answered "locked".
  function LastLockout(h: seq<Seen>, phone: string): Option<nat> {
    if h == [] then None
    else
      var s := h[|h| - 1];
      if s.call.TryCode? && s.call.phone == phone && s.reply.Locked? then Some(|h| - 1)
      else LastLockout(h[..|h| - 1], phone)
  }

  lemma {:induction false} LastIssueIsIssue(h: seq<Seen>, phone: string)
    ensures var i := LastIssue(h, phone);
            && (i.Some? ==> i.value < |h| && h[i.value].call.AskCode? && h[i.value].call.phone == phone
                            && h[i.value].reply.Issued?)
            && (forall j | (if i.Some? then i.value + 1 else 0) <= j < |h| ::
                  !(h[j].call.AskCode? && h[j].call.phone == phone && h[j].reply.Issued?))
  {
    if h != [] {
      LastIssueIsIssue(h[..|h| - 1], phone);
      assert forall j | 0 <= j < |h| - 1 :: h[..|h| - 1][j] == h[j];
    }
  }

  lemma {:induction false} LastLockoutIsLockout(h: seq<Seen>, phone: string)
    ensures var i := LastLockout(h, phone);
            && (i.Some? ==> i.value < |h| && h[i.value].call.TryCode? && h[i.value].call.phone == phone
                            && h[i.value].reply.Locked?)
            && (forall j | (if i.Some? then i.value + 1 else 0) <= j < |h| ::
                  !(h[j].call.TryCode? && h[j].call.phone == phone && h[j].reply.Locked?))
  {
    if h != [] {
      LastLockoutIsLockout(h[..|h| - 1], phone);
      assert forall j | 0 <= j < |h| - 1 :: h[..|h| - 1][j] == h[j];
    }
  }

  // Tries of `phone` after position `i` with a code other than `code`.
  function WrongTries(h: seq<Seen>, phone: string, i: nat, code: string): nat {
    if |h| <= i + 1 then 0
    else
      var c := h[|h| - 1].call;
      WrongTries(h[..|h| - 1], phone, i, code)
      + if c.TryCode? && c.phone == phone && c.code != code then 1 else 0
  }

  // Tries after position `i` that were counted against the code: refused as wrong or as the last.
  function Absorbed(h: seq<Seen>, phone: string, i: nat): nat {
    if |h| <= i + 1 then 0
    else
      var s := h[|h| - 1];
      Absorbed(h[..|h| - 1], phone, i)
      + if s.call.TryCode? && s.call.phone == phone && (s.reply.Invalid? || s.reply.Locked?) then 1 else 0
  }

  predicate AcceptedSince(h: seq<Seen>, phone: string, i: nat) {
    exists j | i < j < |h| :: h[j].call.TryCode? && h[j].call.phone == phone && h[j].reply.Accepted?
  }

  // The code a verify of `phone` at `t` must present, judged by the history alone: the one the
  // latest unrefused request returned, while it is young, unused and not tried too often.
  function OpenCode(h: seq<Seen>, cfg: Config, phone: string, t: int): Option<string> {
    LastIssueIsIssue(h, phone);
    match LastIssue(h, phone)
    case None => None
    case Some(i) =>
      if t < h[i].call.now + cfg.ttl * SECOND && !AcceptedSince(h, phone, i)
         && WrongTries(h, phone, i, h[i].reply.code) < cfg.maxAttempts
      then Some(h[i].reply.code) else None
  }

  // Whether `phone` is locked at `t`, judged by the history alone.
  predicate LockedOut(h: seq<Seen>, cfg: Config, phone: string, t: int) {
    LastLockoutIsLockout(h, phone);
    var j := LastLockout(h, phone);
    j.Some? && t < h[j.value].call.now + cfg.lock * SECOND
  }

  ghost predicate ClockRuns(cs: seq<Call>) {
    forall i, j | 0 <= i < j < |cs| :: cs[i].now <= cs[j].now
  }

  ghost predicate PhoneIsSeparate(cs: seq<Call>, phone: string) {
    forall i | 0 <= i < |cs| :: Separate(phone, cs[i].phone)
  }

  function SeenAt(cfg: Config, cs: seq<Call>, i: nat): Seen
    requires i < |cs|
  {
    Seen(cs[i], Answer(Run(cfg, cs[..i]), cfg, cs[i]).1)
  }

  lemma {:induction false} ObserveKeepsCalls(cfg: Config, cs: seq<Call>)
    ensures |Observe(cfg, cs)| == |cs|
    ensures forall i | 0 <= i < |cs| :: Observe(cfg, cs)[i] == SeenAt(cfg, cs, i)
  {
    if cs != [] {
      var front := cs[..|cs| - 1];
      ObserveKeepsCalls(cfg, front);
      forall i | 0 <= i < |cs| ensures Observe(cfg, cs)[i] == SeenAt(cfg, cs, i) {
        if i < |front| {
          assert front[..i] == cs[..i];
          assert SeenAt(cfg, front, i) == SeenAt(cfg, cs, i);
        }
      }
    }
  }
}
