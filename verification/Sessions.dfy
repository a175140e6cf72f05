// Refresh tokens: issue, rotate, log out, and revocation of every session on password reset.
//
// A raw token is supplied to each request that mints one; the hash is injective. Whether a supplied
// token is new is not assumed: the unique index on the hash refuses a repeat.
module Sessions {
  import opened Common

  const REFRESH_TTL := 2_592_000 * SECOND

  datatype Hash = Sha256(raw: string)

  datatype Token = Token(userId: nat, hash: Hash, expiresAt: int, revokedAt: Option<int>)

  datatype User = User(active: bool, passwordHash: string)

  // Users by id; mechanics log in without a user row.
  datatype Tables = Tables(users: map<nat, User>, tokens: seq<Token>)

  datatype Reply =
    | Minted(raw: string, stored: bool)
    | RefreshInvalid
    | AccountDisabled
    | IntegrityError
    | Revoked(rows: nat)

  // ---- queries over the token table ------------------------------------------------------------

  predicate Unrevoked(tk: Token) {
    tk.revokedAt.None?
  }

  // The row neither revoked nor expired with this hash.
  function ActiveRow(tokens: seq<Token>, hash: Hash, now: int): Option<nat> {
    if tokens == [] then None
    else
      var last := tokens[|tokens| - 1];
      if last.hash == hash && Unrevoked(last) && last.expiresAt > now then Some(|tokens| - 1)
      else ActiveRow(tokens[..|tokens| - 1], hash, now)
  }

  predicate HashTaken(tokens: seq<Token>, hash: Hash) {
    exists i | 0 <= i < |tokens| :: tokens[i].hash == hash
  }

  // UPDATE ... SET revoked_at = now WHERE token_hash = hash AND revoked_at IS NULL
  function RevokeHash(tokens: seq<Token>, hash: Hash, now: int): seq<Token> {
    seq(|tokens|, i requires 0 <= i < |tokens| =>
        if tokens[i].hash == hash && Unrevoked(tokens[i]) then tokens[i].(revokedAt := Some(now)) else tokens[i])
  }

  // UPDATE ... SET revoked_at = now WHERE user_id = userId AND revoked_at IS NULL
  function RevokeUser(tokens: seq<Token>, userId: nat, now: int): seq<Token> {
    seq(|tokens|, i requires 0 <= i < |tokens| =>
        if tokens[i].userId == userId && Unrevoked(tokens[i]) then tokens[i].(revokedAt := Some(now)) else tokens[i])
  }

  // How many sessions of a user are unrevoked.
  function OpenSessions(tokens: seq<Token>, userId: nat): nat {
    if tokens == [] then 0
    else
      var last := tokens[|tokens| - 1];
      OpenSessions(tokens[..|tokens| - 1], userId) + if last.userId == userId && Unrevoked(last) then 1 else 0
  }

  // How many unrevoked sessions of a user carry this hash.
  function Matching(tokens: seq<Token>, hash: Hash, userId: nat): nat {
    if tokens == [] then 0
    else
      var last := tokens[|tokens| - 1];
      Matching(tokens[..|tokens| - 1], hash, userId)
      + if last.hash == hash && last.userId == userId && Unrevoked(last) then 1 else 0
  }

  // The rows the two updates touch.
  function RowsOfHash(tokens: seq<Token>, hash: Hash): set<nat> {
    set i: nat | i < |tokens| && tokens[i].hash == hash && Unrevoked(tokens[i])
  }

  function RowsOfUser(tokens: seq<Token>, userId: nat): set<nat> {
    set i: nat | i < |tokens| && tokens[i].userId == userId && Unrevoked(tokens[i])
  }

  // `after` is `before` with exactly the rows in `touched` revoked at `now`.
  ghost predicate Stamps(before: seq<Token>, after: seq<Token>, touched: set<nat>, now: int) {
    && |after| == |before|
    && forall i: nat | i < |before| ::
         after[i] == if i in touched then before[i].(revokedAt := Some(now)) else before[i]
  }

  // ---- specification ------------------------------------------------------------------------------

  function IssueTokens(t: Tables, sub: nat, raw: string, now: int): (Tables, Reply) {
    if sub !in t.users then (t, Minted(raw, false))
    else if HashTaken(t.tokens, Sha256(raw)) then (t, IntegrityError)
    else (t.(tokens := t.tokens + [Token(sub, Sha256(raw), now + REFRESH_TTL, None)]), Minted(raw, true))
  }

  function RotateRefresh(t: Tables, raw: string, next: string, now: int): (Tables, Reply) {
    match ActiveRow(t.tokens, Sha256(raw), now)
    case None => (t, RefreshInvalid)
    case Some(i) =>
      ActiveRowIsActive(t.tokens, Sha256(raw), now);
      var user := t.tokens[i].userId;
      if user !in t.users || !t.users[user].active then (t, AccountDisabled)
      else
        var (t', reply) := IssueTokens(t.(tokens := RevokeHash(t.tokens, Sha256(raw), now)), user, next, now);
        if reply.IntegrityError? then (t, reply) else (t', reply)
  }

  function Logout(t: Tables, raw: Option<string>, now: int): (Tables, Reply) {
    if raw.None? || raw.value == "" then (t, Revoked(0))
    else
      var tokens := RevokeHash(t.tokens, Sha256(raw.value), now);
      (t.(tokens := tokens), Revoked(|RowsOfHash(t.tokens, Sha256(raw.value))|))
  }

  function ResetPassword(t: Tables, userId: nat, passwordHash: string, now: int): (Tables, Reply) {
    (Tables(if userId in t.users then t.users[userId := t.users[userId].(passwordHash := passwordHash)] else t.users,
            RevokeUser(t.tokens, userId, now)),
     Revoked(|RowsOfUser(t.tokens, userId)|))
  }

  lemma {:induction false} ActiveRowIsActive(tokens: seq<Token>, hash: Hash, now: int)
    ensures var i := ActiveRow(tokens, hash, now);
            && (i.Some? ==> i.value < |tokens| && tokens[i.value].hash == hash
                            && Unrevoked(tokens[i.value]) && now < tokens[i.value].expiresAt)
            && (i.None? ==> forall j | 0 <= j < |tokens| && tokens[j].hash == hash ::
                              !Unrevoked(tokens[j]) || tokens[j].expiresAt <= now)
  {
    if tokens != [] {
      ActiveRowIsActive(tokens[..|tokens| - 1], hash, now);
      assert forall j | 0 <= j < |tokens| - 1 :: tokens[..|tokens| - 1][j] == tokens[j];
    }
  }

  // ---- the store -------------------------------------------------------------------------------------

  class AuthDb {
    var users: map<nat, User>
    var tokens: seq<Token>

    ghost function View(): Tables
      reads this
    {
      Tables(users, tokens)
    }

    method SaveRefresh(userId: nat, hash: Hash, expiresAt: int) returns (ok: bool)
      modifies this`tokens
      ensures ok == !HashTaken(old(tokens), hash)
      ensures tokens == if ok then old(tokens) + [Token(userId, hash, expiresAt, None)] else old(tokens)
    {
      if HashTaken(tokens, hash) {
        return false;
      }
      tokens := tokens + [Token(userId, hash, expiresAt, None)];
      return true;
    }

    // The two updates visit the rows one by one and count those they stamp.
    method RevokeRefresh(hash: Hash, now: int) returns (rows: nat)
      modifies this`tokens
      ensures Stamps(old(tokens), tokens, RowsOfHash(old(tokens), hash), now)
      ensures rows == |RowsOfHash(old(tokens), hash)|
    {
      rows := 0;
      ghost var touched: set<nat> := {};
      for i := 0 to |tokens|
        invariant |tokens| == |old(tokens)|
        invariant forall k: nat :: k in touched <==> k < i && k in RowsOfHash(old(tokens), hash)
        invariant forall k | 0 <= k < i ::
                    tokens[k] == if k in touched then old(tokens)[k].(revokedAt := Some(now)) else old(tokens)[k]
        invariant forall k | i <= k < |tokens| :: tokens[k] == old(tokens)[k]
        invariant rows == |touched|
      {
        var tk := tokens[i];
        if tk.hash == hash && Unrevoked(tk) {
          tokens := tokens[i := tk.(revokedAt := Some(now))];
          rows := rows + 1;
          touched := touched + {i};
        }
      }
      assert touched == RowsOfHash(old(tokens), hash);
    }

    method RevokeAllUserRefresh(userId: nat, now: int) returns (rows: nat)
      modifies this`tokens
      ensures Stamps(old(tokens), tokens, RowsOfUser(old(tokens), userId), now)
      ensures rows == |RowsOfUser(old(tokens), userId)|
    {
      rows := 0;
      ghost var touched: set<nat> := {};
      for i := 0 to |tokens|
        invariant |tokens| == |old(tokens)|
        invariant forall k: nat :: k in touched <==> k < i && k in RowsOfUser(old(tokens), userId)
        invariant forall k | 0 <= k < i ::
                    tokens[k] == if k in touched then old(tokens)[k].(revokedAt := Some(now)) else old(tokens)[k]
        invariant forall k | i <= k < |tokens| :: tokens[k] == old(tokens)[k]
        invariant rows == |touched|
      {
        var tk := tokens[i];
        if tk.userId == userId && Unrevoked(tk) {
          tokens := tokens[i := tk.(revokedAt := Some(now))];
          rows := rows + 1;
          touched := touched + {i};
        }
      }
      assert touched == RowsOfUser(old(tokens), userId);
    }

    method UpdatePassword(userId: nat, passwordHash: string)
      modifies this`users
      ensures users.Keys == old(users).Keys
      ensures forall id <- users.Keys ::
                users[id] == if id == userId then old(users)[id].(passwordHash := passwordHash) else old(users)[id]
    {
      if userId in users {
        users := users[userId := users[userId].(passwordHash := passwordHash)];
      }
    }

    method DoIssue(sub: nat, raw: string, now: int) returns (reply: Reply)
      modifies this`tokens
      ensures (View(), reply) == IssueTokens(old(View()), sub, raw, now)
    {
      if sub in users {
        var ok := SaveRefresh(sub, Sha256(raw), now + REFRESH_TTL);
        if !ok {
          return IntegrityError;
        }
        return Minted(raw, true);
      }
      return Minted(raw, false);
    }

    method DoRotate(raw: string, next: string, now: int) returns (reply: Reply)
      modifies this`tokens
      ensures (View(), reply) == RotateRefresh(old(View()), raw, next, now)
    {
      var active := ActiveRow(tokens, Sha256(raw), now);
      if active.None? {
        return RefreshInvalid;
      }
      ActiveRowIsActive(tokens, Sha256(raw), now);
      var user := tokens[active.value].userId;
      if user !in users || !users[user].active {
        return AccountDisabled;
      }
      var saved := tokens;
      var _ := RevokeRefresh(Sha256(raw), now);
      assert tokens == RevokeHash(saved, Sha256(raw), now);
      reply := DoIssue(user, next, now);
      if reply.IntegrityError? {
        tokens := saved;
      }
    }

    method DoLogout(raw: Option<string>, now: int) returns (reply: Reply)
      modifies this`tokens
      ensures (View(), reply) == Logout(old(View()), raw, now)
    {
      if raw.None? || raw.value == "" {
        return Revoked(0);
      }
      var rows := RevokeRefresh(Sha256(raw.value), now);
      assert tokens == RevokeHash(old(tokens), Sha256(raw.value), now);
      return Revoked(rows);
    }

    method DoReset(userId: nat, passwordHash: string, now: int) returns (reply: Reply)
      modifies this
      ensures (View(), reply) == ResetPassword(old(View()), userId, passwordHash, now)
    {
      UpdatePassword(userId, passwordHash);
      var rows := RevokeAllUserRefresh(userId, now);
      assert tokens == RevokeUser(old(tokens), userId, now);
      assert users == ResetPassword(old(View()), userId, passwordHash, now).0.users;
      return Revoked(rows);
    }
  }

  // ---- runs --------------------------------------------------------------------------------------------

  // `Login` stands for every way to authenticate; `SetUser` creates or edits a user.
  datatype Event =
    | Login(sub: nat, raw: string, now: int)
    | Rotate(raw: string, next: string, now: int)
    | LogOut(cookie: Option<string>, now: int)
    | Reset(userId: nat, passwordHash: string, now: int)
    | SetUser(userId: nat, user: User)

  function Apply(t: Tables, e: Event): (Tables, Reply) {
    match e
    case Login(sub, raw, now) => IssueTokens(t, sub, raw, now)
    case Rotate(raw, next, now) => RotateRefresh(t, raw, next, now)
    case LogOut(raw, now) => Logout(t, raw, now)
    case Reset(userId, passwordHash, now) => ResetPassword(t, userId, passwordHash, now)
    case SetUser(userId, user) => (t.(users := t.users[userId := user]), Revoked(0))
  }

  function Run(t: Tables, es: seq<Event>): Tables {
    if es == [] then t else Apply(Run(t, es[..|es| - 1]), es[|es| - 1]).0
  }

  function ReplyAt(t: Tables, es: seq<Event>, i: nat): Reply
    requires i < |es|
  {
    Apply(Run(t, es[..i]), es[i]).1
  }

  lemma {:induction false} RunConcat(t: Tables, es: seq<Event>, fs: seq<Event>)
    ensures Run(t, es + fs) == Run(Run(t, es), fs)
  {
    if fs == [] {
      assert es + fs == es;
    } else {
      assert (es + fs)[..|es + fs| - 1] == es + fs[..|fs| - 1];
      RunConcat(t, es, fs[..|fs| - 1]);
    }
  }

  ghost predicate HashesUnique(tokens: seq<Token>) {
    forall i, j | 0 <= i < j < |tokens| :: tokens[i].hash != tokens[j].hash
  }

  // Rows are never removed and keep their columns; revocation is final.
  ghost predicate Ages(tokens: seq<Token>, tokens': seq<Token>) {
    |tokens| <= |tokens'| && forall i | 0 <= i < |tokens| ::
      && tokens'[i] == tokens[i].(revokedAt := tokens'[i].revokedAt)
      && (!Unrevoked(tokens[i]) ==> tokens'[i] == tokens[i])
  }

  lemma StepAges(t: Tables, e: Event)
    ensures Ages(t.tokens, Apply(t, e).0.tokens)
    ensures HashesUnique(t.tokens) ==> HashesUnique(Apply(t, e).0.tokens)
  {}

  // A revoked token never becomes active again, whatever follows.
  lemma {:induction false} RevocationIsFinal(t: Tables, es: seq<Event>)
    ensures Ages(t.tokens, Run(t, es).tokens)
    ensures HashesUnique(t.tokens) ==> HashesUnique(Run(t, es).tokens)
  {
    if es != [] {
      RevocationIsFinal(t, es[..|es| - 1]);
      StepAges(Run(t, es[..|es| - 1]), es[|es| - 1]);
    }
  }

  // ---- each refresh token works once ----------------------------------------------------------------------

  // A revoked row carries this hash.
  ghost predicate Spent(tokens: seq<Token>, hash: Hash) {
    exists k | 0 <= k < |tokens| :: tokens[k].hash == hash && !Unrevoked(tokens[k])
  }

  lemma SpentStaysSpent(tokens: seq<Token>, tokens': seq<Token>, hash: Hash)
    requires Spent(tokens, hash) && Ages(tokens, tokens')
    ensures Spent(tokens', hash)
  {
    var k :| 0 <= k < |tokens| && tokens[k].hash == hash && !Unrevoked(tokens[k]);
    assert tokens'[k] == tokens[k];
  }

  lemma SpentIsNotActive(tokens: seq<Token>, hash: Hash, now: int)
    requires HashesUnique(tokens) && Spent(tokens, hash)
    ensures ActiveRow(tokens, hash, now) == None
  {
    ActiveRowIsActive(tokens, hash, now);
  }

  lemma RotationSpendsTheToken(t: Tables, raw: string, next: string, now: int)
    requires RotateRefresh(t, raw, next, now).1.Minted?
    ensures Spent(RotateRefresh(t, raw, next, now).0.tokens, Sha256(raw))
  {
    ActiveRowIsActive(t.tokens, Sha256(raw), now);
    var k := ActiveRow(t.tokens, Sha256(raw), now).value;
    assert RotateRefresh(t, raw, next, now).0.tokens[k] == t.tokens[k].(revokedAt := Some(now));
  }

  // In any run, of all the rotations presenting one raw token at most one is accepted.
  lemma EachTokenRotatesAtMostOnce(t: Tables, es: seq<Event>, i: nat, j: nat)
    requires HashesUnique(t.tokens) && i < j < |es|
    requires es[i].Rotate? && es[j].Rotate? && es[i].raw == es[j].raw
    requires ReplyAt(t, es, i).Minted?
    ensures ReplyAt(t, es, j) == RefreshInvalid
  {
    var after, between := Run(t, es[..i + 1]), es[i + 1..j];
    RotationSpendsTheToken(Run(t, es[..i]), es[i].raw, es[i].next, es[i].now);
    assert es[..i + 1][..i] == es[..i];
    assert es[..i + 1] + between == es[..j];
    RunConcat(t, es[..i + 1], between);
    RevocationIsFinal(after, between);
    SpentStaysSpent(after.tokens, Run(t, es[..j]).tokens, Sha256(es[i].raw));
    RevocationIsFinal(t, es[..j]);
    SpentIsNotActive(Run(t, es[..j]).tokens, Sha256(es[j].raw), es[j].now);
  }

  // ---- what each request is answered ----------------------------------------------------------------------

  // Row `k` carries this hash and is neither revoked nor expired.
  predicate Presents(tokens: seq<Token>, hash: Hash, now: int, k: nat) {
    k < |tokens| && tokens[k].hash == hash && tokens[k].revokedAt == None && now < tokens[k].expiresAt
  }

  predicate Enabled(t: Tables, userId: nat) {
    userId in t.users && t.users[userId].active
  }

  ghost predicate Unused(tokens: seq<Token>, hash: Hash) {
    forall i | 0 <= i < |tokens| :: tokens[i].hash != hash
  }

  // Which answer a rotation gets: a new token exactly for a live token of an enabled user when the
  // new one's hash is unused; "disabled" for a live token of anyone else; "invalid" for no live token.
  // A refusal changes nothing.
  lemma RotationAnswers(t: Tables, raw: string, next: string, now: int)
    requires HashesUnique(t.tokens)
    ensures var (t', reply) := RotateRefresh(t, raw, next, now);
            var hash, free := Sha256(raw), Unused(t.tokens, Sha256(next));
            && (reply == RefreshInvalid <==> forall k: nat :: !Presents(t.tokens, hash, now, k))
            && (reply == AccountDisabled <==>
                  exists k: nat :: Presents(t.tokens, hash, now, k) && !Enabled(t, t.tokens[k].userId))
            && (reply == IntegrityError <==>
                  !free && exists k: nat :: Presents(t.tokens, hash, now, k) && Enabled(t, t.tokens[k].userId))
            && (reply == Minted(next, true) <==>
                  free && exists k: nat :: Presents(t.tokens, hash, now, k) && Enabled(t, t.tokens[k].userId))
            && (reply != Minted(next, true) ==> t' == t)
  {
    ActiveRowIsActive(t.tokens, Sha256(raw), now);
    RevokingKeepsHashes(t.tokens, Sha256(raw), now, Sha256(next));
    var found := ActiveRow(t.tokens, Sha256(raw), now);
    if found.Some? {
      assert Presents(t.tokens, Sha256(raw), now, found.value);
      assert forall k: nat :: Presents(t.tokens, Sha256(raw), now, k) ==> k == found.value;
    }
  }

  // An accepted rotation revokes the presented row at `now`, adds the new one for its user, thirty
  // days long, and touches no other.
  lemma RotationWrites(t: Tables, raw: string, next: string, now: int, k: nat)
    requires HashesUnique(t.tokens) && RotateRefresh(t, raw, next, now).1.Minted?
    requires Presents(t.tokens, Sha256(raw), now, k)
    ensures var t' := RotateRefresh(t, raw, next, now).0;
            && t'.users == t.users && |t'.tokens| == |t.tokens| + 1
            && t'.tokens[|t.tokens|]
               == Token(t.tokens[k].userId, Sha256(next), now + 30 * 86_400_000_000, None)
            && t'.tokens[k] == t.tokens[k].(revokedAt := Some(now))
            && forall i | 0 <= i < |t.tokens| && i != k :: t'.tokens[i] == t.tokens[i]
  {
    ActiveRowIsActive(t.tokens, Sha256(raw), now);
  }

  // A login of a known user adds one row, thirty days long, when its hash is unused; of anyone else
  // it adds none. Both are handed the raw token.
  lemma IssueAnswers(t: Tables, sub: nat, raw: string, now: int)
    ensures var (t', reply) := IssueTokens(t, sub, raw, now);
            if sub !in t.users then (t', reply) == (t, Minted(raw, false))
            else if Unused(t.tokens, Sha256(raw)) then
              && reply == Minted(raw, true) && t'.users == t.users
              && t'.tokens == t.tokens + [Token(sub, Sha256(raw), now + 30 * 86_400_000_000, None)]
            else (t', reply) == (t, IntegrityError)
  {}

  // A logout revokes the presented session if it is still unrevoked, and touches no other; no cookie,
  // or an empty one, does nothing.
  lemma LogoutAnswers(t: Tables, raw: Option<string>, now: int)
    ensures var (t', reply) := Logout(t, raw, now);
            && t'.users == t.users && |t'.tokens| == |t.tokens|
            && forall i | 0 <= i < |t.tokens| ::
                 t'.tokens[i] == if raw.Some? && raw.value != "" && t.tokens[i].hash == Sha256(raw.value)
                                    && t.tokens[i].revokedAt == None
                                 then t.tokens[i].(revokedAt := Some(now)) else t.tokens[i]
    ensures raw.None? || raw.value == "" ==> Logout(t, raw, now).1 == Revoked(0)
  {}

  // ---- a disabled user ----------------------------------------------------------------------------------

  ghost predicate NotReenabled(es: seq<Event>, userId: nat) {
    forall i | 0 <= i < |es| :: !(es[i].SetUser? && es[i].userId == userId && es[i].user.active)
  }

  lemma {:induction false} DisabledStaysDisabled(t: Tables, es: seq<Event>, userId: nat)
    requires !Enabled(t, userId) && NotReenabled(es, userId)
    ensures !Enabled(Run(t, es), userId)
  {
    if es != [] {
      DisabledStaysDisabled(t, es[..|es| - 1], userId);
    }
  }

  // Once a user is switched off, and until they are switched on again, no rotation of any of their
  // tokens is accepted, whatever else happens.
  lemma DisabledUsersDoNotRotate(t: Tables, es: seq<Event>, userId: nat, raw: string, next: string, now: int, k: nat)
    requires HashesUnique(t.tokens) && !Enabled(t, userId) && NotReenabled(es, userId)
    requires var tokens := Run(t, es).tokens; k < |tokens| && tokens[k].userId == userId && tokens[k].hash == Sha256(raw)
    ensures RotateRefresh(Run(t, es), raw, next, now)
         == (Run(t, es), if Presents(Run(t, es).tokens, Sha256(raw), now, k) then AccountDisabled else RefreshInvalid)
  {
    var end := Run(t, es);
    RevocationIsFinal(t, es);
    DisabledStaysDisabled(t, es, userId);
    RotationAnswers(end, raw, next, now);
    assert forall i: nat :: Presents(end.tokens, Sha256(raw), now, i) ==> i == k;
  }

  // ---- how long a login lasts -----------------------------------------------------------------------------

  // Row `k` is the session a login opened at `at`, still untouched, of an active user.
  ghost predicate SessionStands(t: Tables, k: nat, userId: nat, raw: string, at: int) {
    && k < |t.tokens| && t.tokens[k] == Token(userId, Sha256(raw), at + REFRESH_TTL, None)
    && userId in t.users && t.users[userId].active
  }

  // `e` neither presents the token nor resets or switches off its user.
  predicate LeavesAlone(e: Event, userId: nat, raw: string) {
    match e
    case Login(_, _, _) => true
    case Rotate(presented, _, _) => presented != raw
    case LogOut(cookie, _) => cookie != Some(raw)
    case Reset(id, _, _) => id != userId
    case SetUser(id, user) => id != userId || user.active
  }

  lemma {:induction false} SessionStandsAlong(t: Tables, es: seq<Event>, k: nat, userId: nat, raw: string, at: int)
    requires SessionStands(t, k, userId, raw, at)
    requires forall i | 0 <= i < |es| :: LeavesAlone(es[i], userId, raw)
    ensures SessionStands(Run(t, es), k, userId, raw, at)
  {
    if es != [] {
      SessionStandsAlong(t, es[..|es| - 1], k, userId, raw, at);
      assert LeavesAlone(es[|es| - 1], userId, raw);
    }
  }

  lemma ActiveRowIsThe(tokens: seq<Token>, k: nat, now: int)
    requires HashesUnique(tokens) && k < |tokens| && Unrevoked(tokens[k])
    ensures ActiveRow(tokens, tokens[k].hash, now) == if now < tokens[k].expiresAt then Some(k) else None
  {
    ActiveRowIsActive(tokens, tokens[k].hash, now);
  }

  // A login lasts exactly its thirty days: left alone, whatever everyone else does, its token
  // rotates at every instant before the end and at none after.
  lemma LoginLastsExactlyItsTerm(
    t: Tables, es: seq<Event>, userId: nat, raw: string, at: int, next: string, now: int)
    requires HashesUnique(t.tokens) && userId in t.users && t.users[userId].active
    requires IssueTokens(t, userId, raw, at).1.Minted?
    requires forall i | 0 <= i < |es| :: LeavesAlone(es[i], userId, raw)
    ensures var end := Run(IssueTokens(t, userId, raw, at).0, es);
            RotateRefresh(end, raw, next, now).1
            == if at + REFRESH_TTL <= now then RefreshInvalid
               else if HashTaken(end.tokens, Sha256(next)) then IntegrityError
               else Minted(next, true)
  {
    var t1, k := IssueTokens(t, userId, raw, at).0, |t.tokens|;
    var end := Run(t1, es);
    SessionStandsAlong(t1, es, k, userId, raw, at);
    StepAges(t, Login(userId, raw, at));
    RevocationIsFinal(t1, es);
    ActiveRowIsThe(end.tokens, k, now);
    RevokingKeepsHashes(end.tokens, Sha256(raw), now, Sha256(next));
  }

  lemma RevokingKeepsHashes(tokens: seq<Token>, hash: Hash, now: int, other: Hash)
    ensures HashTaken(RevokeHash(tokens, hash, now), other) <==> HashTaken(tokens, other)
  {
    if i :| 0 <= i < |tokens| && tokens[i].hash == other {
      assert RevokeHash(tokens, hash, now)[i].hash == other;
    }
  }

  // ---- chains are linear -------------------------------------------------------------------------------------

  // The token that started each token's chain: itself for a login, the rotated token's for a rotation.
  ghost function Roots(t: Tables, es: seq<Event>): (roots: seq<nat>)
    ensures |roots| == |Run(t, es).tokens|
  {
    if es == [] then seq(|t.tokens|, i => i)
    else
      var front, e := es[..|es| - 1], es[|es| - 1];
      var before, after, roots := Run(t, front), Run(t, es), Roots(t, front);
      if |after.tokens| == |before.tokens| then roots
      else if e.Login? then roots + [|before.tokens|]
      else
        ActiveRowIsActive(before.tokens, Sha256(e.raw), e.now);
        roots + [roots[ActiveRow(before.tokens, Sha256(e.raw), e.now).value]]
  }

  // At most one token of each chain is unrevoked, and roots are rows of the table.
  ghost predicate Linear(tokens: seq<Token>, roots: seq<nat>) {
    && |roots| == |tokens|
    && (forall i | 0 <= i < |roots| :: roots[i] < |tokens|)
    && (forall i, j | 0 <= i < j < |roots| && roots[i] == roots[j] :: !(Unrevoked(tokens[i]) && Unrevoked(tokens[j])))
  }

  lemma LinearAges(tokens: seq<Token>, tokens': seq<Token>, roots: seq<nat>)
    requires Linear(tokens, roots) && Ages(tokens, tokens') && |tokens| == |tokens'|
    ensures Linear(tokens', roots)
  {}

  // A rotation extends the chain of the token it revokes.
  lemma LinearRotation(tokens: seq<Token>, tokens': seq<Token>, roots: seq<nat>, k: nat)
    requires Linear(tokens, roots) && Ages(tokens, tokens') && |tokens'| == |tokens| + 1
    requires k < |tokens| && Unrevoked(tokens[k]) && !Unrevoked(tokens'[k])
    ensures Linear(tokens', roots + [roots[k]])
  {
    forall i | 0 <= i < |roots| && roots[i] == roots[k] ensures !Unrevoked(tokens'[i]) {
      assert i == k || !Unrevoked(tokens[i]);
    }
  }

  lemma LinearLogin(tokens: seq<Token>, tk: Token, roots: seq<nat>)
    requires Linear(tokens, roots)
    ensures Linear(tokens + [tk], roots + [|tokens|])
  {}

  // Following rotations from any login, every reachable state has at most one live token.
  lemma {:induction false} ChainsAreLinear(t: Tables, es: seq<Event>)
    ensures Linear(Run(t, es).tokens, Roots(t, es))
  {
    if es != [] {
      var front, e := es[..|es| - 1], es[|es| - 1];
      var before, after, roots := Run(t, front), Run(t, es), Roots(t, front);
      ChainsAreLinear(t, front);
      StepAges(before, e);
      if |after.tokens| == |before.tokens| {
        LinearAges(before.tokens, after.tokens, roots);
      } else if e.Login? {
        LinearLogin(before.tokens, after.tokens[|before.tokens|], roots);
      } else {
        ActiveRowIsActive(before.tokens, Sha256(e.raw), e.now);
        LinearRotation(before.tokens, after.tokens, roots, ActiveRow(before.tokens, Sha256(e.raw), e.now).value);
      }
    }
  }

  // ---- conservation ---------------------------------------------------------------------------------------------

  lemma {:induction false} RevokeHashCounts(tokens: seq<Token>, hash: Hash, now: int, userId: nat)
    ensures OpenSessions(RevokeHash(tokens, hash, now), userId) + Matching(tokens, hash, userId)
         == OpenSessions(tokens, userId)
  {
    if tokens != [] {
      var front := tokens[..|tokens| - 1];
      RevokeHashCounts(front, hash, now, userId);
      assert RevokeHash(tokens, hash, now)[..|tokens| - 1] == RevokeHash(front, hash, now);
    }
  }

  lemma {:induction false} RevokeUserCounts(tokens: seq<Token>, userId: nat, now: int, other: nat)
    ensures OpenSessions(RevokeUser(tokens, userId, now), other)
         == if other == userId then 0 else OpenSessions(tokens, other)
  {
    if tokens != [] {
      var front := tokens[..|tokens| - 1];
      RevokeUserCounts(front, userId, now, other);
      assert RevokeUser(tokens, userId, now)[..|tokens| - 1] == RevokeUser(front, userId, now);
    }
  }

  lemma {:induction false} RowsOfUserCount(tokens: seq<Token>, userId: nat)
    ensures |RowsOfUser(tokens, userId)| == OpenSessions(tokens, userId)
  {
    if tokens == [] {
      assert RowsOfUser(tokens, userId) == {};
    } else {
      var front, last := tokens[..|tokens| - 1], |tokens| - 1;
      RowsOfUserCount(front, userId);
      assert RowsOfUser(tokens, userId)
          == RowsOfUser(front, userId)
             + if tokens[last].userId == userId && Unrevoked(tokens[last]) then {last} else {};
    }
  }

  // A reset reports exactly the sessions it ended, leaves none, and sets that user's password alone.
  lemma ResetReportsWhatItEnds(t: Tables, userId: nat, passwordHash: string, now: int)
    ensures var (t', reply) := ResetPassword(t, userId, passwordHash, now);
            && reply == Revoked(OpenSessions(t.tokens, userId))
            && OpenSessions(t'.tokens, userId) == 0
            && t'.users.Keys == t.users.Keys
            && forall id <- t.users.Keys ::
                 && t'.users[id].active == t.users[id].active
                 && t'.users[id].passwordHash == if id == userId then passwordHash else t.users[id].passwordHash
  {
    RowsOfUserCount(t.tokens, userId);
    RevokeUserCounts(t.tokens, userId, now, userId);
  }

  lemma {:induction false} MatchingCounts(tokens: seq<Token>, hash: Hash, userId: nat, i: nat)
    requires HashesUnique(tokens) && i < |tokens| && tokens[i].hash == hash && Unrevoked(tokens[i])
    ensures Matching(tokens, hash, userId) == if tokens[i].userId == userId then 1 else 0
  {
    var front := tokens[..|tokens| - 1];
    if i == |tokens| - 1 {
      NothingMatches(front, hash, userId);
    } else {
      MatchingCounts(front, hash, userId, i);
    }
  }

  lemma {:induction false} NothingMatches(tokens: seq<Token>, hash: Hash, userId: nat)
    requires forall i | 0 <= i < |tokens| :: tokens[i].hash != hash
    ensures Matching(tokens, hash, userId) == 0
  {
    if tokens != [] {
      NothingMatches(tokens[..|tokens| - 1], hash, userId);
    }
  }

  lemma OpenSessionsGrow(tokens: seq<Token>, tk: Token, userId: nat)
    ensures OpenSessions(tokens + [tk], userId)
         == OpenSessions(tokens, userId) + if tk.userId == userId && Unrevoked(tk) then 1 else 0
  {
    assert (tokens + [tk])[..|tokens + [tk]| - 1] == tokens;
  }

  // A rotation replaces one session by another: every user keeps the number they had.
  lemma RotationConserves(t: Tables, raw: string, next: string, now: int, userId: nat)
    requires HashesUnique(t.tokens)
    ensures OpenSessions(RotateRefresh(t, raw, next, now).0.tokens, userId) == OpenSessions(t.tokens, userId)
  {
    var t' := RotateRefresh(t, raw, next, now).0;
    if t' != t {
      ActiveRowIsActive(t.tokens, Sha256(raw), now);
      var k := ActiveRow(t.tokens, Sha256(raw), now).value;
      MatchingCounts(t.tokens, Sha256(raw), userId, k);
      RevokeHashCounts(t.tokens, Sha256(raw), now, userId);
      OpenSessionsGrow(RevokeHash(t.tokens, Sha256(raw), now), t'.tokens[|t.tokens|], userId);
    }
  }

  // Logins of a user that stored a session.
  function Logins(t: Tables, es: seq<Event>, userId: nat): nat {
    if es == [] then 0
    else
      var e := es[|es| - 1];
      Logins(t, es[..|es| - 1], userId)
      + if e.Login? && e.sub == userId && ReplyAt(t, es, |es| - 1) == Minted(e.raw, true) then 1 else 0
  }

  // Logouts that hit an unrevoked session of a user.
  function LogoutHits(t: Tables, es: seq<Event>, userId: nat): nat {
    if es == [] then 0
    else
      var e := es[|es| - 1];
      LogoutHits(t, es[..|es| - 1], userId)
      + if e.LogOut? && e.cookie.Some? && e.cookie.value != ""
        then Matching(Run(t, es[..|es| - 1]).tokens, Sha256(e.cookie.value), userId) else 0
  }

  ghost predicate NoReset(es: seq<Event>, userId: nat) {
    forall i | 0 <= i < |es| :: !(es[i].Reset? && es[i].userId == userId)
  }

  lemma StepConserves(t: Tables, e: Event, userId: nat)
    requires HashesUnique(t.tokens) && !(e.Reset? && e.userId == userId)
    ensures var hits := if e.LogOut? && e.cookie.Some? && e.cookie.value != ""
                        then Matching(t.tokens, Sha256(e.cookie.value), userId) else 0;
            var logins := if e.Login? && e.sub == userId && Apply(t, e).1 == Minted(e.raw, true) then 1 else 0;
            OpenSessions(Apply(t, e).0.tokens, userId) + hits == OpenSessions(t.tokens, userId) + logins
  {
    match e {
      case Login(sub, raw, now) =>
        OpenSessionsGrow(t.tokens, Token(sub, Sha256(raw), now + REFRESH_TTL, None), userId);
      case Rotate(raw, next, now) => RotationConserves(t, raw, next, now, userId);
      case LogOut(cookie, now) =>
        if cookie.Some? {
          RevokeHashCounts(t.tokens, Sha256(cookie.value), now, userId);
        }
      case Reset(other, _, now) => RevokeUserCounts(t.tokens, other, now, userId);
      case SetUser(_, _) =>
    }
  }

  // Between resets: open sessions change by logins and by logouts that hit, and by nothing else.
  lemma {:induction false} SessionsAreConserved(t: Tables, es: seq<Event>, userId: nat)
    requires HashesUnique(t.tokens) && NoReset(es, userId)
    ensures OpenSessions(Run(t, es).tokens, userId) + LogoutHits(t, es, userId)
         == OpenSessions(t.tokens, userId) + Logins(t, es, userId)
  {
    if es != [] {
      SessionsAreConserved(t, es[..|es| - 1], userId);
      RevocationIsFinal(t, es[..|es| - 1]);
      StepConserves(Run(t, es[..|es| - 1]), es[|es| - 1], userId);
    }
  }

  // The open sessions of a user are the logins since the last reset minus the logouts that hit.
  lemma SessionsSinceLastReset(t: Tables, pre: seq<Event>, reset: Event, post: seq<Event>, userId: nat)
    requires HashesUnique(t.tokens) && reset.Reset? && reset.userId == userId && NoReset(post, userId)
    ensures OpenSessions(Run(t, pre + [reset] + post).tokens, userId)
         == Logins(Run(t, pre + [reset]), post, userId)
            - LogoutHits(Run(t, pre + [reset]), post, userId)
  {
    var es := pre + [reset];
    assert es[..|es| - 1] == pre;
    RevocationIsFinal(t, es);
    RevokeUserCounts(Run(t, pre).tokens, userId, reset.now, userId);
    RunConcat(t, es, post);
    SessionsAreConserved(Run(t, es), post, userId);
  }

  // After a reset no earlier token of that user is ever active again, and no one else is touched.
  lemma ResetKillsEveryEarlierToken(t: Tables, pre: seq<Event>, reset: Event, post: seq<Event>, userId: nat, i: nat)
    requires HashesUnique(t.tokens) && reset.Reset? && reset.userId == userId && i < |Run(t, pre).tokens|
    ensures var at, mid := Run(t, pre).tokens, Run(t, pre + [reset]).tokens;
            var end := Run(t, pre + [reset] + post).tokens;
            if at[i].userId == userId then
              i < |end| && !Unrevoked(end[i])
              && forall later :: ActiveRow(end, at[i].hash, later) == None
            else i < |mid| && mid[i] == at[i]
  {
    var es := pre + [reset];
    assert es[..|es| - 1] == pre;
    RunConcat(t, es, post);
    RevocationIsFinal(Run(t, es), post);
    var end := Run(t, es + post).tokens;
    RevocationIsFinal(t, es + post);
    var hash := Run(t, pre).tokens[i].hash;
    if Run(t, pre).tokens[i].userId == userId {
      assert end[i].hash == hash && !Unrevoked(end[i]);
      forall later ensures ActiveRow(end, hash, later) == None {
        SpentIsNotActive(end, hash, later);
      }
    }
  }
}
