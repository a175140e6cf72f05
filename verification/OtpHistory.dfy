// The OTP store refines a specification stated on the observed history alone.
module OtpHistory {
  import opened Common
  import opened Redis
  import opened Otp

  // ---- one more observation ---------------------------------------------------------------

  ghost predicate About(s: Seen, phone: string) {
    s.call.phone == phone
  }

  lemma HistoryGrows(h: seq<Seen>, s: Seen, phone: string)
    ensures LastIssue(h + [s], phone)
         == if s.call.AskCode? && About(s, phone) && s.reply.Issued? then Some(|h|) else LastIssue(h, phone)
    ensures LastLockout(h + [s], phone)
         == if s.call.TryCode? && About(s, phone) && s.reply.Locked? then Some(|h|) else LastLockout(h, phone)
  {
    assert (h + [s])[..|h + [s]| - 1] == h;
  }

  lemma CountsGrow(h: seq<Seen>, s: Seen, phone: string, i: nat, code: string)
    requires i < |h|
    ensures WrongTries(h + [s], phone, i, code)
         == WrongTries(h, phone, i, code)
            + if s.call.TryCode? && About(s, phone) && s.call.code != code then 1 else 0
    ensures Absorbed(h + [s], phone, i)
         == Absorbed(h, phone, i)
            + if s.call.TryCode? && About(s, phone) && (s.reply.Invalid? || s.reply.Locked?) then 1 else 0
    ensures AcceptedSince(h + [s], phone, i)
        <==> AcceptedSince(h, phone, i) || (s.call.TryCode? && About(s, phone) && s.reply.Accepted?)
  {
    var h' := h + [s];
    assert h'[..|h'| - 1] == h;
    assert h'[|h|] == s;
    if AcceptedSince(h, phone, i) {
      var j :| i < j < |h| && h[j].call.TryCode? && h[j].call.phone == phone && h[j].reply.Accepted?;
      assert h'[j] == h[j];
    }
  }

  // The open code after one more observation.
  function NextOpen(h: seq<Seen>, s: Seen, cfg: Config, phone: string, t: int): Option<string> {
    var was := OpenCode(h, cfg, phone, t);
    if s.call.AskCode? && s.call.phone == phone && s.reply.Issued? then
      if t < s.call.now + cfg.ttl * SECOND then Some(s.reply.code) else None
    else if was.None? || s.call.AskCode? || s.call.phone != phone then was
    else if s.reply.Accepted? then None
    else if s.call.code == was.value then was
    else if WrongTries(h, phone, LastIssue(h, phone).value, was.value) + 1 < cfg.maxAttempts then was
    else None
  }

  // What an observation does to the open code and the lockout.
  lemma OpenCodeGrows(h: seq<Seen>, s: Seen, cfg: Config, phone: string, t: int)
    requires Usable(cfg)
    ensures OpenCode(h + [s], cfg, phone, t) == NextOpen(h, s, cfg, phone, t)
    ensures LockedOut(h + [s], cfg, phone, t)
        <==> if s.call.TryCode? && About(s, phone) && s.reply.Locked? then t < s.call.now + cfg.lock * SECOND
             else LockedOut(h, cfg, phone, t)
  {
    var h' := h + [s];
    HistoryGrows(h, s, phone);
    LastIssueIsIssue(h, phone);
    LastIssueIsIssue(h', phone);
    LastLockoutIsLockout(h, phone);
    LastLockoutIsLockout(h', phone);
    if s.call.AskCode? && About(s, phone) && s.reply.Issued? {
      assert h'[|h|] == s;
      assert WrongTries(h', phone, |h|, s.reply.code) == 0;
    } else if LastIssue(h, phone).Some? {
      var i := LastIssue(h, phone).value;
      assert h'[i] == h[i];
      CountsGrow(h, s, phone, i, h[i].reply.code);
    }
  }

  // ---- the store against the history ----------------------------------------------------------

  ghost predicate CodeMatches(store: Store<Value>, h: seq<Seen>, cfg: Config, phone: string, t: int) {
    match OpenCode(h, cfg, phone, t)
    case None => Get(store, CodeKey(phone), t) == None
    case Some(code) =>
      LastIssue(h, phone).Some?
      && Get(store, CodeKey(phone), t)
         == Some(Code(code, WrongTries(h, phone, LastIssue(h, phone).value, code)))
  }

  ghost predicate LockMatches(store: Store<Value>, h: seq<Seen>, cfg: Config, phone: string, t: int) {
    && (LockedOut(h, cfg, phone, t) <==> Get(store, LockKey(phone), t).Some?)
    && (LockedOut(h, cfg, phone, t) ==> OpenCode(h, cfg, phone, t).None?)
  }

  // From `now` on, the store holds for `phone` exactly what the history says.
  ghost predicate Represents(store: Store<Value>, h: seq<Seen>, cfg: Config, phone: string, now: int) {
    forall t | now <= t :: CodeMatches(store, h, cfg, phone, t) && LockMatches(store, h, cfg, phone, t)
  }

  lemma StepForAnother(store: Store<Value>, h: seq<Seen>, cfg: Config, phone: string, before: int, c: Call)
    requires Usable(cfg) && Represents(store, h, cfg, phone, before) && before <= c.now
    requires c.phone != phone && Separate(phone, c.phone)
    ensures var (store', reply) := Answer(store, cfg, c);
            Represents(store', h + [Seen(c, reply)], cfg, phone, c.now)
  {
    var (store', reply) := Answer(store, cfg, c);
    KeysClashExactlyWhen(phone, c.phone);
    forall t | c.now <= t
      ensures CodeMatches(store', h + [Seen(c, reply)], cfg, phone, t)
      ensures LockMatches(store', h + [Seen(c, reply)], cfg, phone, t)
    {
      assert CodeMatches(store, h, cfg, phone, t) && LockMatches(store, h, cfg, phone, t);
      assert Get(store', CodeKey(phone), t) == Get(store, CodeKey(phone), t);
      assert Get(store', LockKey(phone), t) == Get(store, LockKey(phone), t);
      UnrelatedKeeps(h, Seen(c, reply), cfg, phone, t);
    }
  }

  lemma UnrelatedKeeps(h: seq<Seen>, s: Seen, cfg: Config, phone: string, t: int)
    requires Usable(cfg) && !About(s, phone)
    ensures OpenCode(h + [s], cfg, phone, t) == OpenCode(h, cfg, phone, t)
    ensures LockedOut(h + [s], cfg, phone, t) == LockedOut(h, cfg, phone, t)
    ensures LastIssue(h + [s], phone) == LastIssue(h, phone)
    ensures OpenCode(h, cfg, phone, t).Some? ==>
              var i, code := LastIssue(h, phone).value, OpenCode(h, cfg, phone, t).value;
              WrongTries(h + [s], phone, i, code) == WrongTries(h, phone, i, code)
  {
    OpenCodeGrows(h, s, cfg, phone, t);
    HistoryGrows(h, s, phone);
    LastIssueIsIssue(h, phone);
    if OpenCode(h, cfg, phone, t).Some? {
      CountsGrow(h, s, phone, LastIssue(h, phone).value, OpenCode(h, cfg, phone, t).value);
    }
  }

  lemma StepAsking(store: Store<Value>, h: seq<Seen>, cfg: Config, before: int, c: Call)
    requires Usable(cfg) && c.AskCode? && Represents(store, h, cfg, c.phone, before) && before <= c.now
    ensures var (store', reply) := Answer(store, cfg, c);
            Represents(store', h + [Seen(c, reply)], cfg, c.phone, c.now)
    ensures Answer(store, cfg, c).1 == if LockedOut(h, cfg, c.phone, c.now) then Locked else Issued(c.code)
  {
    var phone := c.phone;
    var (store', reply) := Answer(store, cfg, c);
    var s := Seen(c, reply);
    KeysClashExactlyWhen(phone, phone);
    assert LockMatches(store, h, cfg, phone, c.now);
    HistoryGrows(h, s, phone);
    LastIssueIsIssue(h, phone);
    LastLockoutIsLockout(h, phone);
    forall t | c.now <= t
      ensures CodeMatches(store', h + [s], cfg, phone, t) && LockMatches(store', h + [s], cfg, phone, t)
    {
      assert CodeMatches(store, h, cfg, phone, t) && LockMatches(store, h, cfg, phone, t);
      OpenCodeGrows(h, s, cfg, phone, t);
      assert Get(store', LockKey(phone), t) == Get(store, LockKey(phone), t);
      if reply.Issued? {
        assert WrongTries(h + [s], phone, |h|, s.reply.code) == 0;
      } else {
        OpenOnlyLoses(h, cfg, phone, c.now, t);
      }
    }
  }

  lemma StepTrying(store: Store<Value>, h: seq<Seen>, cfg: Config, before: int, c: Call)
    requires Usable(cfg) && c.TryCode? && Represents(store, h, cfg, c.phone, before) && before <= c.now
    ensures var (store', reply) := Answer(store, cfg, c);
            Represents(store', h + [Seen(c, reply)], cfg, c.phone, c.now)
    ensures var open := OpenCode(h, cfg, c.phone, c.now);
            var reply := Answer(store, cfg, c).1;
            if open.None? then reply == Expired
            else if open.value == c.code then reply == Accepted
            else
              LastIssue(h, c.phone).Some?
              && reply == if WrongTries(h, c.phone, LastIssue(h, c.phone).value, open.value) + 1 < cfg.maxAttempts
                          then Invalid else Locked
  {
    var phone := c.phone;
    var (store', reply) := Answer(store, cfg, c);
    var s := Seen(c, reply);
    KeysClashExactlyWhen(phone, phone);
    assert CodeMatches(store, h, cfg, phone, c.now) && LockMatches(store, h, cfg, phone, c.now);
    HistoryGrows(h, s, phone);
    LastIssueIsIssue(h, phone);
    LastLockoutIsLockout(h, phone);
    forall t | c.now <= t
      ensures CodeMatches(store', h + [s], cfg, phone, t) && LockMatches(store', h + [s], cfg, phone, t)
    {
      assert CodeMatches(store, h, cfg, phone, t) && LockMatches(store, h, cfg, phone, t);
      OpenCodeGrows(h, s, cfg, phone, t);
      OpenOnlyLoses(h, cfg, phone, c.now, t);
      if OpenCode(h, cfg, phone, t).Some? {
        CountsGrow(h, s, phone, LastIssue(h, phone).value, OpenCode(h, cfg, phone, t).value);
      }
    }
  }

  // As time passes without events an open code can only lapse.
  lemma OpenOnlyLoses(h: seq<Seen>, cfg: Config, phone: string, now: int, t: int)
    requires now <= t
    ensures OpenCode(h, cfg, phone, t).Some? ==> OpenCode(h, cfg, phone, now) == OpenCode(h, cfg, phone, t)
    ensures LockedOut(h, cfg, phone, t) ==> LockedOut(h, cfg, phone, now)
  {}

  lemma {:induction false} StoreRepresentsHistory(cfg: Config, cs: seq<Call>, phone: string)
    requires Usable(cfg) && ClockRuns(cs) && PhoneIsSeparate(cs, phone)
    ensures forall now | cs == [] || cs[|cs| - 1].now <= now ::
              Represents(Run(cfg, cs), Observe(cfg, cs), cfg, phone, now)
  {
    if cs != [] {
      var front, c := cs[..|cs| - 1], cs[|cs| - 1];
      StoreRepresentsHistory(cfg, front, phone);
      var store, h := Run(cfg, front), Observe(cfg, front);
      assert Represents(store, h, cfg, phone, c.now);
      if c.phone != phone {
        StepForAnother(store, h, cfg, phone, c.now, c);
      } else if c.AskCode? {
        StepAsking(store, h, cfg, c.now, c);
      } else {
        StepTrying(store, h, cfg, c.now, c);
      }
    }
  }

  // ---- the theorems --------------------------------------------------------------------------------

  // After any run, a verify is accepted exactly when the history has that code open: the latest
  // unrefused request returned it, it is younger than the TTL, no verify succeeded since, and fewer
  // than the maximum of wrong codes were tried since. Calls for other phones play no part.
  lemma AcceptedExactlyWhenOpen(cfg: Config, cs: seq<Call>, phone: string, code: string, t: int)
    requires Usable(cfg) && ClockRuns(cs) && PhoneIsSeparate(cs, phone)
    requires cs == [] || cs[|cs| - 1].now <= t
    ensures Verify(Run(cfg, cs), cfg, phone, code, t).1 == Accepted
            <==> OpenCode(Observe(cfg, cs), cfg, phone, t) == Some(code)
  {
    StoreRepresentsHistory(cfg, cs, phone);
    StepTrying(Run(cfg, cs), Observe(cfg, cs), cfg, t, TryCode(phone, code, t));
  }

  // And what any other verify is answered: expired when no code is open, and for a wrong code invalid
  // until it is the last try allowed, which locks.
  lemma WrongTriesAreAnswered(cfg: Config, cs: seq<Call>, phone: string, code: string, t: int)
    requires Usable(cfg) && ClockRuns(cs) && PhoneIsSeparate(cs, phone)
    requires cs == [] || cs[|cs| - 1].now <= t
    ensures var h, reply := Observe(cfg, cs), Verify(Run(cfg, cs), cfg, phone, code, t).1;
            match OpenCode(h, cfg, phone, t)
            case None => reply == Expired
            case Some(open) =>
              open != code ==>
                LastIssue(h, phone).Some?
                && reply == if WrongTries(h, phone, LastIssue(h, phone).value, open) + 1 < cfg.maxAttempts
                            then Invalid else Locked
  {
    StoreRepresentsHistory(cfg, cs, phone);
    StepTrying(Run(cfg, cs), Observe(cfg, cs), cfg, t, TryCode(phone, code, t));
  }

  // A request is refused exactly while a lockout is younger than the lock time.
  lemma RefusedExactlyWhenLocked(cfg: Config, cs: seq<Call>, phone: string, code: string, t: int)
    requires Usable(cfg) && ClockRuns(cs) && PhoneIsSeparate(cs, phone)
    requires cs == [] || cs[|cs| - 1].now <= t
    ensures Request(Run(cfg, cs), cfg, phone, code, t).1
         == if LockedOut(Observe(cfg, cs), cfg, phone, t) then Locked else Issued(code)
  {
    StoreRepresentsHistory(cfg, cs, phone);
    StepAsking(Run(cfg, cs), Observe(cfg, cs), cfg, t, AskCode(phone, code, t));
  }

  // In every reachable state a live lock means no live code.
  lemma LockExcludesCode(cfg: Config, cs: seq<Call>, phone: string, t: int)
    requires Usable(cfg) && ClockRuns(cs) && PhoneIsSeparate(cs, phone)
    requires cs == [] || cs[|cs| - 1].now <= t
    ensures Get(Run(cfg, cs), LockKey(phone), t).Some? ==> Get(Run(cfg, cs), CodeKey(phone), t).None?
  {
    StoreRepresentsHistory(cfg, cs, phone);
    assert Represents(Run(cfg, cs), Observe(cfg, cs), cfg, phone, t);
    assert CodeMatches(Run(cfg, cs), Observe(cfg, cs), cfg, phone, t);
    assert LockMatches(Run(cfg, cs), Observe(cfg, cs), cfg, phone, t);
  }

  lemma PrefixSettings(cs: seq<Call>, phone: string, k: nat)
    requires ClockRuns(cs) && PhoneIsSeparate(cs, phone) && k < |cs|
    ensures ClockRuns(cs[..k]) && PhoneIsSeparate(cs[..k], phone)
    ensures cs[..k] == [] || cs[..k][|cs[..k]| - 1].now <= cs[k].now
  {}

  // The first lockout after position `j` cannot hide one at `j`.
  lemma {:induction false} LaterLockoutIsLater(cfg: Config, cs: seq<Call>, phone: string, j: nat)
    requires ClockRuns(cs) && j < |cs| && cs[j].TryCode? && cs[j].phone == phone
    requires |Observe(cfg, cs)| == |cs| && Observe(cfg, cs)[j].reply == Locked
    requires forall i | 0 <= i < |cs| :: Observe(cfg, cs)[i].call == cs[i]
    ensures LastLockout(Observe(cfg, cs), phone).Some?
    ensures LastLockout(Observe(cfg, cs), phone).value < |cs|
    ensures cs[j].now <= cs[LastLockout(Observe(cfg, cs), phone).value].now
  {
    LastLockoutIsLockout(Observe(cfg, cs), phone);
    assert Observe(cfg, cs)[j].call == cs[j];
  }

  // Once a lock is installed, every request for the phone is refused and no verify succeeds until
  // the lock time is over - whatever is tried.
  lemma LockoutHolds(cfg: Config, cs: seq<Call>, phone: string, j: nat, k: nat)
    requires Usable(cfg) && ClockRuns(cs) && PhoneIsSeparate(cs, phone)
    requires j < k < |cs| && cs[j].TryCode? && cs[j].phone == phone && cs[k].phone == phone
    requires |Observe(cfg, cs)| == |cs| && Observe(cfg, cs)[j].reply == Locked
    requires cs[k].now < cs[j].now + cfg.lock * SECOND
    ensures Observe(cfg, cs)[k].reply == if cs[k].AskCode? then Locked else Expired
  {
    var front, t := cs[..k], cs[k].now;
    ObserveKeepsCalls(cfg, cs);
    ObserveKeepsCalls(cfg, front);
    PrefixSettings(cs, phone, k);
    assert front[..j] == cs[..j] && front[j] == cs[j];
    LaterLockoutIsLater(cfg, front, phone, j);
    StoreRepresentsHistory(cfg, front, phone);
    assert Represents(Run(cfg, front), Observe(cfg, front), cfg, phone, t);
    assert LockMatches(Run(cfg, front), Observe(cfg, front), cfg, phone, t);
    if cs[k].AskCode? {
      StepAsking(Run(cfg, front), Observe(cfg, front), cfg, t, cs[k]);
    } else {
      StepTrying(Run(cfg, front), Observe(cfg, front), cfg, t, cs[k]);
    }
  }

  // No code absorbs more than the maximum of wrong tries: the one that reaches it locks the phone.
  lemma {:induction false} CodeAbsorbsAtMostMax(cfg: Config, cs: seq<Call>, phone: string)
    requires Usable(cfg) && ClockRuns(cs) && PhoneIsSeparate(cs, phone)
    ensures var h := Observe(cfg, cs);
            LastIssue(h, phone).Some? ==>
              var i := LastIssue(h, phone).value;
              && i < |h| && h[i].reply.Issued?
              && Absorbed(h, phone, i) <= cfg.maxAttempts
              && Absorbed(h, phone, i) <= WrongTries(h, phone, i, h[i].reply.code)
  {
    if cs != [] {
      var front, c := cs[..|cs| - 1], cs[|cs| - 1];
      var store, h := Run(cfg, front), Observe(cfg, front);
      var s := Seen(c, Answer(store, cfg, c).1);
      CodeAbsorbsAtMostMax(cfg, front, phone);
      StoreRepresentsHistory(cfg, front, phone);
      HistoryGrows(h, s, phone);
      LastIssueIsIssue(h, phone);
      LastIssueIsIssue(h + [s], phone);
      if s.call.AskCode? && About(s, phone) && s.reply.Issued? {
        assert Absorbed(h + [s], phone, |h|) == 0;
      } else if LastIssue(h, phone).Some? {
        var i := LastIssue(h, phone).value;
        assert (h + [s])[i] == h[i];
        CountsGrow(h, s, phone, i, h[i].reply.code);
        if c.TryCode? && c.phone == phone {
          StepTrying(store, h, cfg, c.now, c);
        }
      }
    }
  }

  // An illustration, on phones that no schema lets through, of why the claims ask for separation:
  // the code key of "lock:x" is the lock key of "x", so a code asked for the one makes the store
  // refuse the other without a single wrong try.
  lemma ClashingPhoneIsRefused(cfg: Config)
    requires Usable(cfg)
    ensures var cs := [AskCode("lock:x", "1", 0), AskCode("x", "1", 0)];
            && ClockRuns(cs)
            && OpenCode(Observe(cfg, cs), cfg, "lock:x", 0) == Some("1")
            && |Observe(cfg, cs)| == 2 && Observe(cfg, cs)[1].reply == Locked
  {
    var cs := [AskCode("lock:x", "1", 0), AskCode("x", "1", 0)];
    assert cs[..1] == [cs[0]] && cs[..1][..0] == [];
    assert LockKey("x") == CodeKey("lock:x");
    ObserveKeepsCalls(cfg, cs);
    var h := Observe(cfg, cs);
    assert Run(cfg, cs[..1]) == Answer(Run(cfg, []), cfg, cs[0]).0;
    assert cs[..0] == [];
    assert h[..1][..0] == [] && |h| == 2;
    assert h[0].reply == Issued("1");
    assert LastIssue(h, "lock:x") == Some(0);
    assert WrongTries(h[..1], "lock:x", 0, "1") == 0;
  }
}
