/** Login sessions with rotating refresh tokens. Each operation is one atomic step over the
    session table; the store calls inside it may fail. */
module Sessions {
  import opened Prelude

  type Token = nat

  /** SHA-256 as an injective function of the token. */
  datatype Digest = Sha256(token: Token)

  datatype Session = Session(user: Uuid, refreshTokenHash: Digest, expiresAt: Time, isRevoked: bool)

  type Table = map<Uuid, Session>

  datatype AuthError = InvalidInput | NotFound | Unauthorized | StoreFailure

  /** Which calls of a refresh fail; `finish` stands for the steps after the new token is
      stored: signing the access token and reading the user. */
  datatype Faults = Faults(get: bool, revoke: bool, update: bool, finish: bool)

  predicate Live(t: Table, id: Uuid, now: Time) {
    id in t && !t[id].isRevoked && t[id].expiresAt > now
  }

  /** The refresh gets past its token check. */
  predicate Passes(t: Table, id: Uuid, token: Token, now: Time, f: Faults) {
    !f.get && Live(t, id, now) && t[id].refreshTokenHash == Sha256(token)
  }

  function Revoked(t: Table, id: Uuid): Table {
    if id in t then t[id := t[id].(isRevoked := true)] else t
  }

  function RevokedAll(t: Table, user: Uuid): Table {
    map id | id in t :: if t[id].user == user then t[id].(isRevoked := true) else t[id]
  }

  function Rotated(t: Table, id: Uuid, newToken: Token, expiresAt: Time): Table
    requires id in t
  {
    t[id := t[id].(refreshTokenHash := Sha256(newToken), expiresAt := expiresAt)]
  }

  function AfterRefresh(t: Table, id: Uuid, token: Token, newToken: Token, now: Time, ttl: Time, f: Faults): Table {
    if Passes(t, id, token, now, f) then
      if f.update then t else Rotated(t, id, newToken, now + ttl)
    else if !f.get && Live(t, id, now) && !f.revoke then Revoked(t, id)
    else t
  }

  class AuthService {
    var sessions: Table
    const refreshTTL: Time

    constructor (ttl: Time)
      ensures refreshTTL == ttl && sessions == map[]
    {
      refreshTTL, sessions := ttl, map[];
    }

    /** The tail of a login or registration: store a session for the freshly drawn token. */
    method OpenSession(user: Uuid, id: Uuid, token: Token, now: Time, fails: bool) returns (r: Result<Token, AuthError>)
      modifies this
      ensures r.Ok? <==> !fails && id !in old(sessions)
      ensures r.Ok? ==> r.value == token
      ensures sessions == if r.Ok? then old(sessions)[id := Session(user, Sha256(token), now + refreshTTL, false)]
                          else old(sessions)
    {
      if fails || id in sessions {
        return Err(StoreFailure);
      }
      sessions := sessions[id := Session(user, Sha256(token), now + refreshTTL, false)];
      return Ok(token);
    }

    method GetSessionByID(id: Uuid, now: Time, fails: bool) returns (r: Result<Session, AuthError>)
      ensures r.Ok? <==> !fails && Live(sessions, id, now)
      ensures r.Ok? ==> r.value == sessions[id]
      ensures r.Err? ==> r.error == if fails then StoreFailure else NotFound
    {
      if fails {
        return Err(StoreFailure);
      }
      if id !in sessions || sessions[id].isRevoked || sessions[id].expiresAt <= now {
        return Err(NotFound);
      }
      return Ok(sessions[id]);
    }

    method Refresh(id: Uuid, token: Token, newToken: Token, now: Time, f: Faults) returns (r: Result<Token, AuthError>)
      modifies this
      ensures sessions == old(AfterRefresh(sessions, id, token, newToken, now, refreshTTL, f))
      ensures r.Ok? <==> old(Passes(sessions, id, token, now, f)) && !f.update && !f.finish
      ensures r.Ok? ==> r.value == newToken
      ensures !f.get && !old(Live(sessions, id, now)) ==> r == Err(NotFound)
      ensures !f.get && old(Live(sessions, id, now)) && !old(Passes(sessions, id, token, now, f)) ==> r == Err(Unauthorized)
    {
      var found := GetSessionByID(id, now, f.get);
      if found.Err? {
        return Err(found.error);
      }
      var session := found.value;
      if session.isRevoked || now > session.expiresAt {
        return Err(Unauthorized);
      }
      if session.refreshTokenHash != Sha256(token) {
        if !f.revoke {
          sessions := sessions[id := sessions[id].(isRevoked := true)];
        }
        return Err(Unauthorized);
      }
      session := session.(refreshTokenHash := Sha256(newToken));
      session := session.(expiresAt := now + refreshTTL);
      if f.update {
        return Err(StoreFailure);
      }
      sessions := sessions[id := session];
      if f.finish {
        return Err(StoreFailure);
      }
      return Ok(newToken);
    }

    method Logout(id: Uuid, fails: bool) returns (r: Result<(), AuthError>)
      modifies this
      ensures r.Ok? <==> !fails && id in old(sessions)
      ensures sessions == if fails then old(sessions) else Revoked(old(sessions), id)
    {
      if fails {
        return Err(StoreFailure);
      }
      if id !in sessions {
        return Err(NotFound);
      }
      sessions := sessions[id := sessions[id].(isRevoked := true)];
      return Ok(());
    }

    method LogoutAll(user: Uuid, fails: bool) returns (r: Result<(), AuthError>)
      modifies this
      ensures r.Ok? <==> !fails
      ensures sessions == if fails then old(sessions) else RevokedAll(old(sessions), user)
    {
      if fails {
        return Err(StoreFailure);
      }
      sessions := map id | id in sessions ::
        if sessions[id].user == user && !sessions[id].isRevoked then sessions[id].(isRevoked := true) else sessions[id];
      return Ok(());
    }

    /** `user` is who the identity belongs to, if anyone; the password is stored first. */
    method PasswordReset(user: Option<Uuid>, identity: string, newPassword: string, storeFails: bool, revokeFails: bool)
      returns (r: Result<(), AuthError>)
      modifies this
      ensures r.Ok? <==> identity != "" && |newPassword| >= 8 && user.Some? && !storeFails && !revokeFails
      ensures sessions == if r.Ok? then RevokedAll(old(sessions), user.value) else old(sessions)
    {
      if identity == "" || newPassword == "" || |newPassword| < 8 {
        return Err(InvalidInput);
      }
      if user.None? {
        return Err(NotFound);
      }
      if storeFails {
        return Err(StoreFailure);
      }
      r := LogoutAll(user.value, revokeFails);
    }

    method ValidateSession(id: Uuid, user: Uuid, now: Time, fails: bool) returns (r: Result<Session, AuthError>)
      ensures r.Ok? <==> !fails && Live(sessions, id, now) && sessions[id].user == user
    {
      r := GetSessionByID(id, now, fails);
      if r.Ok? && r.value.user != user {
        return Err(Unauthorized);
      }
    }

    method CleanExpiredSessions(now: Time)
      modifies this
      ensures sessions == Cleaned(old(sessions), now)
    {
      sessions := Cleaned(sessions, now);
    }
  }

  function Cleaned(t: Table, now: Time): Table {
    map id | id in t && t[id].expiresAt >= now :: t[id]
  }

  // ---------------------------------------------------------------- runs

  datatype Event =
    | Open(user: Uuid, id: Uuid, token: Token, now: Time, fails: bool)
    | Refresh(id: Uuid, token: Token, newToken: Token, now: Time, faults: Faults)
    | Logout(id: Uuid, fails: bool)
      /** Logout everywhere, on request or after a password reset. */
    | RevokeUser(user: Uuid, fails: bool)
    | CleanExpired(now: Time)

  /** The table; the sessions ever opened; every token drawn; per session the token last
      handed out and stored; and the tokens exchanged for a new one, in order. */
  datatype World = World(sessions: Table, everOpened: set<Uuid>, drawn: set<Token>, last: map<Uuid, Token>, redeemed: seq<Token>)

  /** Ids and tokens are drawn at random, hence new. */
  predicate Enabled(w: World, e: Event) {
    match e
    case Open(_, id, token, _, _) => id !in w.everOpened && token !in w.drawn
    case Refresh(_, _, newToken, _, _) => newToken !in w.drawn
    case _ => true
  }

  predicate Redeems(w: World, e: Event) {
    e.Refresh? && Passes(w.sessions, e.id, e.token, e.now, e.faults) && !e.faults.update
  }

  function Apply(w: World, e: Event, ttl: Time): World {
    match e
    case Open(user, id, token, now, fails) =>
      if fails || id in w.sessions then w.(drawn := w.drawn + {token})
      else World(w.sessions[id := Session(user, Sha256(token), now + ttl, false)], w.everOpened + {id}, w.drawn + {token},
                 w.last[id := token], w.redeemed)
    case Refresh(id, token, newToken, now, f) =>
      World(AfterRefresh(w.sessions, id, token, newToken, now, ttl, f), w.everOpened, w.drawn + {newToken},
            if Redeems(w, e) then w.last[id := newToken] else w.last,
            w.redeemed + if Redeems(w, e) then [token] else [])
    case Logout(id, fails) => if fails then w else w.(sessions := Revoked(w.sessions, id))
    case RevokeUser(user, fails) => if fails then w else w.(sessions := RevokedAll(w.sessions, user))
    case CleanExpired(now) => w.(sessions := Cleaned(w.sessions, now))
  }

  predicate Feasible(w: World, es: seq<Event>, ttl: Time)
    decreases |es|
  {
    es == [] || (Enabled(w, es[0]) && Feasible(Apply(w, es[0], ttl), es[1..], ttl))
  }

  function Run(w: World, es: seq<Event>, ttl: Time): World
    decreases |es|
  {
    if es == [] then w else Run(Apply(w, es[0], ttl), es[1..], ttl)
  }

  const Empty := World(map[], {}, {}, map[], [])

  /** A stored hash is that of the token last handed out for the session. */
  ghost predicate HashesMatch(w: World) {
    forall id :: id in w.sessions ==>
      id in w.everOpened && id in w.last && w.last[id] in w.drawn && w.sessions[id].refreshTokenHash == Sha256(w.last[id])
  }

  /** No two sessions share a token, and an exchanged token is stored nowhere. */
  ghost predicate TokensSeparate(w: World) {
    && (forall i, j :: i in w.sessions && j in w.sessions && i != j ==>
          w.sessions[i].refreshTokenHash != w.sessions[j].refreshTokenHash)
    && (forall t, id :: t in w.redeemed && id in w.sessions ==> w.sessions[id].refreshTokenHash != Sha256(t))
    && (forall t :: t in w.redeemed ==> t in w.drawn)
  }

  ghost predicate NoRepeats(s: seq<Token>) {
    forall i, j :: 0 <= i < j < |s| ==> s[i] != s[j]
  }

  ghost predicate Inv(w: World) {
    HashesMatch(w) && TokensSeparate(w) && NoRepeats(w.redeemed)
  }

  /** A session that was opened and is revoked or gone. */
  predicate Dead(w: World, id: Uuid) {
    id in w.everOpened && (id !in w.sessions || w.sessions[id].isRevoked)
  }

  ghost predicate Evolves(w: World, w': World) {
    && (forall id :: Dead(w, id) ==> Dead(w', id))
    && (forall t :: t in w.redeemed ==> t in w'.redeemed)
  }

  lemma RefreshKeeps(w: World, e: Event, ttl: Time)
    requires Inv(w) && e.Refresh? && Enabled(w, e)
    ensures Inv(Apply(w, e, ttl)) && Evolves(w, Apply(w, e, ttl))
  {
    if Redeems(w, e) {
      RedeemKeeps(w, e, ttl);
    } else {
      var w' := Apply(w, e, ttl);
      assert w'.redeemed == w.redeemed;
      assert forall id :: id in w.sessions ==>
        id in w'.sessions && w'.sessions[id].refreshTokenHash == w.sessions[id].refreshTokenHash;
    }
  }

  lemma RedeemKeeps(w: World, e: Event, ttl: Time)
    requires Inv(w) && e.Refresh? && Enabled(w, e) && Redeems(w, e)
    ensures Inv(Apply(w, e, ttl)) && Evolves(w, Apply(w, e, ttl))
  {
    assert w.last[e.id] == e.token;
    assert e.token !in w.redeemed;
    assert Apply(w, e, ttl).sessions == Rotated(w.sessions, e.id, e.newToken, e.now + ttl);
  }

  lemma OpenKeeps(w: World, e: Event, ttl: Time)
    requires Inv(w) && e.Open? && Enabled(w, e)
    ensures Inv(Apply(w, e, ttl)) && Evolves(w, Apply(w, e, ttl))
  {
  }

  lemma RevokingKeeps(w: World, e: Event, ttl: Time)
    requires Inv(w) && (e.Logout? || e.RevokeUser? || e.CleanExpired?)
    ensures Inv(Apply(w, e, ttl)) && Evolves(w, Apply(w, e, ttl))
  {
  }

  lemma StepKeeps(w: World, e: Event, ttl: Time)
    requires Inv(w) && Enabled(w, e)
    ensures Inv(Apply(w, e, ttl)) && Evolves(w, Apply(w, e, ttl))
  {
    match e
    case Refresh(_, _, _, _, _) => RefreshKeeps(w, e, ttl);
    case Open(_, _, _, _, _) => OpenKeeps(w, e, ttl);
    case _ => RevokingKeeps(w, e, ttl);
  }

  /** Over any run every refresh token is exchanged at most once, and a revoked or deleted
      session never comes back. */
  lemma {:induction false} RunKeeps(w: World, es: seq<Event>, ttl: Time)
    requires Inv(w) && Feasible(w, es, ttl)
    ensures Inv(Run(w, es, ttl)) && Evolves(w, Run(w, es, ttl))
    decreases |es|
  {
    if es != [] {
      StepKeeps(w, es[0], ttl);
      RunKeeps(Apply(w, es[0], ttl), es[1..], ttl);
    }
  }

  /** In every reachable state a refresh passes its check exactly when the session is
      there, unrevoked and unexpired, and the token is the last one stored for it. */
  lemma PassesExactly(es: seq<Event>, ttl: Time, id: Uuid, token: Token, now: Time, f: Faults)
    requires Feasible(Empty, es, ttl) && !f.get
    ensures var w := Run(Empty, es, ttl);
      Passes(w.sessions, id, token, now, f) <==>
        && id in w.sessions && !w.sessions[id].isRevoked && w.sessions[id].expiresAt > now
        && id in w.last && token == w.last[id]
  {
    RunKeeps(Empty, es, ttl);
  }

  /** An exchanged token never passes again, in any session and any continuation. */
  lemma RedeemedTokenIsSpent(w: World, e: Event, es: seq<Event>, ttl: Time, id: Uuid, now: Time, f: Faults)
    requires Inv(w) && Enabled(w, e) && Redeems(w, e) && Feasible(Apply(w, e, ttl), es, ttl)
    ensures !Passes(Run(Apply(w, e, ttl), es, ttl).sessions, id, e.token, now, f)
  {
    StepKeeps(w, e, ttl);
    var w' := Apply(w, e, ttl);
    RunKeeps(w', es, ttl);
    assert w'.redeemed[|w'.redeemed| - 1] == e.token;
  }

  /** A wrong or stale token presented to a live session kills it exactly when the revoking
      update succeeds; its failure is ignored and leaves the session as it was. */
  lemma StaleTokenRevokes(w: World, e: Event, ttl: Time)
    requires Inv(w) && e.Refresh? && Enabled(w, e) && !e.faults.get && Live(w.sessions, e.id, e.now)
    requires e.token != w.last[e.id]
    ensures Dead(Apply(w, e, ttl), e.id) <==> !e.faults.revoke
    ensures e.faults.revoke ==> Apply(w, e, ttl).sessions == w.sessions
  {
  }

  /** A dead session is never accepted again, neither by a refresh nor by a validation. */
  lemma DeadIsFinal(w: World, es: seq<Event>, ttl: Time, id: Uuid, token: Token, now: Time, f: Faults)
    requires Inv(w) && Feasible(w, es, ttl) && Dead(w, id)
    ensures !Live(Run(w, es, ttl).sessions, id, now) && !Passes(Run(w, es, ttl).sessions, id, token, now, f)
  {
    RunKeeps(w, es, ttl);
  }

  /** Deleting expired sessions ends no session that still lives then or later. */
  lemma CleanupSparesLive(t: Table, id: Uuid, cleanedAt: Time, now: Time)
    requires cleanedAt <= now
    ensures Live(Cleaned(t, cleanedAt), id, now) <==> Live(t, id, now)
    ensures id in t && t[id].expiresAt < cleanedAt ==> id !in Cleaned(t, cleanedAt)
  {
  }

  /** Logging out everywhere, and so a password reset, kills exactly the user's sessions. */
  lemma RevokeUserKillsExactly(w: World, user: Uuid, id: Uuid, ttl: Time)
    requires Inv(w) && id in w.sessions
    ensures var w' := Apply(w, RevokeUser(user, false), ttl);
      && (w.sessions[id].user == user ==> Dead(w', id))
      && (w.sessions[id].user != user ==> w'.sessions[id] == w.sessions[id])
  {
  }

  /** Logging out kills exactly the one session. */
  lemma LogoutKillsExactly(w: World, id: Uuid, other: Uuid, ttl: Time)
    requires Inv(w) && other in w.sessions
    ensures var w' := Apply(w, Logout(id, false), ttl);
      if other == id then Dead(w', other) else other in w'.sessions && w'.sessions[other] == w.sessions[other]
  {
  }

  // ---------------------------------------------------------------- sessions from their events

  /** The world before the k-th event of a run. */
  function Before(w: World, es: seq<Event>, ttl: Time, k: nat): World
    requires k <= |es|
  {
    if k == 0 then w else Apply(Before(w, es, ttl, k - 1), es[k - 1], ttl)
  }

  ghost predicate EachEnabled(w: World, es: seq<Event>, ttl: Time) {
    forall k: nat :: k < |es| ==> Enabled(Before(w, es, ttl, k), es[k])
  }

  lemma {:induction false} RunSnoc(w: World, es: seq<Event>, e: Event, ttl: Time)
    ensures Run(w, es + [e], ttl) == Apply(Run(w, es, ttl), e, ttl)
    ensures Feasible(w, es + [e], ttl) <==> Feasible(w, es, ttl) && Enabled(Run(w, es, ttl), e)
    decreases |es|
  {
    if es == [] {
      assert [] + [e] == [e] && [e][1..] == [];
    } else {
      assert (es + [e])[1..] == es[1..] + [e];
      RunSnoc(Apply(w, es[0], ttl), es[1..], e, ttl);
    }
  }

  lemma RunPrefix(w: World, es: seq<Event>, ttl: Time, k: nat)
    requires k < |es|
    ensures Run(w, es[..k + 1], ttl) == Apply(Run(w, es[..k], ttl), es[k], ttl)
    ensures Feasible(w, es[..k + 1], ttl) <==> Feasible(w, es[..k], ttl) && Enabled(Run(w, es[..k], ttl), es[k])
  {
    assert es[..k] + [es[k]] == es[..k + 1];
    RunSnoc(w, es[..k], es[k], ttl);
  }

  lemma NothingRun(w: World, es: seq<Event>, ttl: Time)
    ensures Before(w, es, ttl, 0) == Run(w, es[..0], ttl)
  {
    assert es[..0] == [];
  }

  lemma OneStepMore(w: World, es: seq<Event>, ttl: Time, k: nat, here: World)
    requires k < |es| && Before(w, es, ttl, k) == here && Run(w, es[..k], ttl) == here
    ensures Before(w, es, ttl, k + 1) == Run(w, es[..k + 1], ttl)
  {
    assert Before(w, es, ttl, k + 1) == Apply(here, es[k], ttl);
    RunPrefix(w, es, ttl, k);
  }

  lemma BeforeIsRun(w: World, es: seq<Event>, ttl: Time, k: nat)
    requires k <= |es|
    ensures Before(w, es, ttl, k) == Run(w, es[..k], ttl)
  {
    NothingRun(w, es, ttl);
    for i := 0 to k
      invariant Before(w, es, ttl, i) == Run(w, es[..i], ttl)
    {
      OneStepMore(w, es, ttl, i, Before(w, es, ttl, i));
    }
  }

  lemma {:induction false} FeasibleIsEnabled(w: World, es: seq<Event>, ttl: Time, k: nat, j: nat)
    requires j < k <= |es| && Feasible(w, es[..k], ttl)
    ensures Enabled(Before(w, es, ttl, j), es[j])
  {
    RunPrefix(w, es, ttl, k - 1);
    if j < k - 1 {
      FeasibleIsEnabled(w, es, ttl, k - 1, j);
    } else {
      BeforeIsRun(w, es, ttl, j);
    }
  }

  /** The same run, seen by its steps. */
  lemma StepByStep(w: World, es: seq<Event>, ttl: Time)
    requires Feasible(w, es, ttl)
    ensures EachEnabled(w, es, ttl) && Before(w, es, ttl, |es|) == Run(w, es, ttl)
  {
    assert es[..|es|] == es;
    forall k: nat | k < |es|
      ensures Enabled(Before(w, es, ttl, k), es[k])
    {
      FeasibleIsEnabled(w, es, ttl, |es|, k);
    }
    BeforeIsRun(w, es, ttl, |es|);
  }

  predicate Opens(w: World, e: Event, id: Uuid) {
    e.Open? && e.id == id && !e.fails && id !in w.sessions
  }

  /** A refresh that got past the token check and stored its new token. */
  predicate Renews(w: World, e: Event, id: Uuid) {
    && e.Refresh? && e.id == id && !e.faults.get && !e.faults.update
    && id in w.sessions && !w.sessions[id].isRevoked && w.sessions[id].expiresAt > e.now
    && w.sessions[id].refreshTokenHash == Sha256(e.token)
  }

  /** The event stores a token and an expiry for the session. */
  predicate Stores(w: World, e: Event, id: Uuid) {
    Opens(w, e, id) || Renews(w, e, id)
  }

  /** The token stored by such an event, and its time. */
  function StoredToken(e: Event): Token {
    if e.Open? then e.token else if e.Refresh? then e.newToken else 0
  }

  function StoredAt(e: Event): Time {
    if e.Open? || e.Refresh? then e.now else 0
  }

  /** The event revokes the session: its logout, its user's, or a wrong token at a refresh. */
  predicate Revokes(w: World, e: Event, id: Uuid) {
    id in w.sessions &&
    match e
    case Open(_, _, _, _, _) => false
    case Refresh(rid, token, _, now, f) =>
      && rid == id && !f.get && !f.revoke && !w.sessions[id].isRevoked && w.sessions[id].expiresAt > now
      && w.sessions[id].refreshTokenHash != Sha256(token)
    case Logout(lid, fails) => lid == id && !fails
    case RevokeUser(user, fails) => w.sessions[id].user == user && !fails
    case CleanExpired(_) => false
  }

  predicate Deletes(w: World, e: Event, id: Uuid) {
    e.CleanExpired? && id in w.sessions && w.sessions[id].expiresAt < e.now
  }

  /** What one event makes of one session. */
  lemma SessionAfterStep(w: World, e: Event, ttl: Time, id: Uuid)
    ensures var t, t' := w.sessions, Apply(w, e, ttl).sessions;
      && (id in t' <==> Opens(w, e, id) || (id in t && !Deletes(w, e, id)))
      && (id in t' && Stores(w, e, id) ==>
            t'[id].expiresAt == StoredAt(e) + ttl && t'[id].refreshTokenHash == Sha256(StoredToken(e)))
      && (id in t' && !Stores(w, e, id) ==>
            t'[id].expiresAt == t[id].expiresAt && t'[id].refreshTokenHash == t[id].refreshTokenHash)
      && (id in t' ==> (t'[id].isRevoked <==> !Opens(w, e, id) && (t[id].isRevoked || Revokes(w, e, id))))
  {
  }

  function Opening(w: World, es: seq<Event>, ttl: Time, id: Uuid): nat -> bool {
    (k: nat) => k < |es| && Opens(Before(w, es, ttl, k), es[k], id)
  }

  function Deleting(w: World, es: seq<Event>, ttl: Time, id: Uuid): nat -> bool {
    (k: nat) => k < |es| && Deletes(Before(w, es, ttl, k), es[k], id)
  }

  function Revoking(w: World, es: seq<Event>, ttl: Time, id: Uuid): nat -> bool {
    (k: nat) => k < |es| && Revokes(Before(w, es, ttl, k), es[k], id)
  }

  function Present(w: World, es: seq<Event>, ttl: Time, id: Uuid): nat -> bool {
    (k: nat) => k <= |es| && id in Before(w, es, ttl, k).sessions
  }

  lemma PresentAt(w: World, es: seq<Event>, ttl: Time, id: Uuid, k: nat)
    requires k < |es|
    ensures Follows(k, Opening(w, es, ttl, id), Deleting(w, es, ttl, id), Present(w, es, ttl, id))
  {
    SessionAfterStep(Before(w, es, ttl, k), es[k], ttl, id);
  }

  /** A session is stored if and only if it was opened and not deleted as expired since. */
  lemma PresentExactly(es: seq<Event>, ttl: Time, id: Uuid)
    ensures id in Before(Empty, es, ttl, |es|).sessions <==>
            RaisedSince(|es|, Opening(Empty, es, ttl, id), Deleting(Empty, es, ttl, id))
  {
    var up, down, present := Opening(Empty, es, ttl, id), Deleting(Empty, es, ttl, id), Present(Empty, es, ttl, id);
    forall k: nat | k < |es|
      ensures Follows(k, up, down, present)
    {
      PresentAt(Empty, es, ttl, id, k);
    }
    SinceRaised(|es|, up, down, present);
  }

  /** The i-th event is the last of the first k to store a token for the session. */
  ghost predicate LastStore(w: World, es: seq<Event>, ttl: Time, id: Uuid, i: nat, k: nat)
    requires k <= |es|
  {
    && i < k && Stores(Before(w, es, ttl, i), es[i], id)
    && forall j: nat :: i < j < k ==> !Stores(Before(w, es, ttl, j), es[j], id)
  }

  /** If stored after k events, the session has what the i-th of them stored last. */
  ghost predicate StoredBy(es: seq<Event>, ttl: Time, id: Uuid, k: nat, i: nat)
    requires k <= |es|
  {
    var t := Before(Empty, es, ttl, k).sessions;
    id in t ==>
      LastStore(Empty, es, ttl, id, i, k) && t[id].expiresAt == StoredAt(es[i]) + ttl && t[id].refreshTokenHash == Sha256(StoredToken(es[i]))
  }

  lemma StoredStep(es: seq<Event>, ttl: Time, id: Uuid, k: nat, i: nat) returns (i': nat)
    requires k < |es| && StoredBy(es, ttl, id, k, i)
    ensures StoredBy(es, ttl, id, k + 1, i')
  {
    SessionAfterStep(Before(Empty, es, ttl, k), es[k], ttl, id);
    i' := if Stores(Before(Empty, es, ttl, k), es[k], id) then k else i;
  }

  /** A stored session has the token of the last event that stored one, and expires ttl
      after it: every refresh prolongs it anew. */
  lemma StoredByLast(es: seq<Event>, ttl: Time, id: Uuid) returns (i: nat)
    requires id in Before(Empty, es, ttl, |es|).sessions
    ensures LastStore(Empty, es, ttl, id, i, |es|)
    ensures Before(Empty, es, ttl, |es|).sessions[id].expiresAt == StoredAt(es[i]) + ttl
    ensures Before(Empty, es, ttl, |es|).sessions[id].refreshTokenHash == Sha256(StoredToken(es[i]))
  {
    i := 0;
    for k := 0 to |es|
      invariant StoredBy(es, ttl, id, k, i)
    {
      i := StoredStep(es, ttl, id, k, i);
    }
  }

  function RevokedBy(w: World, es: seq<Event>, ttl: Time, id: Uuid): nat -> bool {
    (k: nat) => k <= |es| && IsRevoked(Before(w, es, ttl, k), id)
  }

  predicate IsRevoked(w: World, id: Uuid) {
    id in w.sessions && w.sessions[id].isRevoked
  }

  lemma RevokedAt(w: World, es: seq<Event>, ttl: Time, id: Uuid, k: nat)
    requires k < |es|
    ensures Follows(k, Revoking(w, es, ttl, id), Deleting(w, es, ttl, id), RevokedBy(w, es, ttl, id))
  {
    SessionAfterStep(Before(w, es, ttl, k), es[k], ttl, id);
  }

  /** A session is stored as revoked if and only if some event revoked it and it has not been
      deleted since. */
  lemma RevokedExactly(es: seq<Event>, ttl: Time, id: Uuid)
    ensures IsRevoked(Before(Empty, es, ttl, |es|), id) <==>
            RaisedSince(|es|, Revoking(Empty, es, ttl, id), Deleting(Empty, es, ttl, id))
  {
    var up, down, revoked := Revoking(Empty, es, ttl, id), Deleting(Empty, es, ttl, id), RevokedBy(Empty, es, ttl, id);
    forall k: nat | k < |es|
      ensures Follows(k, up, down, revoked)
    {
      RevokedAt(Empty, es, ttl, id, k);
    }
    SinceRaised(|es|, up, down, revoked);
  }

  /** From the events alone: a token passes the check of a refresh at `now` if and only if the
      session was opened and not deleted since, nothing revoked it, and the last event that
      stored a token for it stored this one, less than ttl before now. */
  lemma PassesFromEvents(es: seq<Event>, ttl: Time, id: Uuid, token: Token, now: Time, f: Faults)
    requires Feasible(Empty, es, ttl) && !f.get
    ensures Passes(Run(Empty, es, ttl).sessions, id, token, now, f) <==>
      && RaisedSince(|es|, Opening(Empty, es, ttl, id), Deleting(Empty, es, ttl, id))
      && !RaisedSince(|es|, Revoking(Empty, es, ttl, id), Deleting(Empty, es, ttl, id))
      && exists i: nat :: LastStore(Empty, es, ttl, id, i, |es|) && token == StoredToken(es[i]) && now < StoredAt(es[i]) + ttl
  {
    StepByStep(Empty, es, ttl);
    PresentExactly(es, ttl, id);
    RevokedExactly(es, ttl, id);
    if id in Before(Empty, es, ttl, |es|).sessions {
      var i := StoredByLast(es, ttl, id);
      forall j: nat | LastStore(Empty, es, ttl, id, j, |es|)
        ensures j == i
      {
        OneLastStore(es, ttl, id, i, j);
      }
    }
  }

  lemma OneLastStore(es: seq<Event>, ttl: Time, id: Uuid, i: nat, j: nat)
    requires LastStore(Empty, es, ttl, id, i, |es|) && LastStore(Empty, es, ttl, id, j, |es|)
    ensures i == j
  {
  }

  /** A session as a renewal left it, or deleted because it expired before `at`. */
  predicate AsRenewed(w: World, id: Uuid, token: Token, expiry: Time, at: Time) {
    if id in w.sessions then
      && !w.sessions[id].isRevoked && w.sessions[id].expiresAt == expiry && w.sessions[id].refreshTokenHash == Sha256(token)
    else
      expiry < at
  }

  /** The event neither renews nor revokes the session, and deletes what expired before `at`. */
  predicate LeavesAlone(w: World, e: Event, id: Uuid, at: Time) {
    !Renews(w, e, id) && !Revokes(w, e, id) && (e.CleanExpired? ==> e.now <= at)
  }

  ghost predicate AllLeaveAlone(w: World, es: seq<Event>, ttl: Time, id: Uuid, at: Time)
    decreases |es|
  {
    es == [] || (LeavesAlone(w, es[0], id, at) && AllLeaveAlone(Apply(w, es[0], ttl), es[1..], ttl, id, at))
  }

  lemma {:induction false} StaysRenewed(w: World, es: seq<Event>, ttl: Time, id: Uuid, token: Token, expiry: Time, at: Time)
    requires Feasible(w, es, ttl) && AllLeaveAlone(w, es, ttl, id, at) && id in w.everOpened
    requires AsRenewed(w, id, token, expiry, at)
    ensures AsRenewed(Run(w, es, ttl), id, token, expiry, at)
    decreases |es|
  {
    if es != [] {
      SessionAfterStep(w, es[0], ttl, id);
      StaysRenewed(Apply(w, es[0], ttl), es[1..], ttl, id, token, expiry, at);
    }
  }

  /** After a renewal at `now`, with no later renewal or revocation of the session, the new
      token passes at any later time `at` if and only if that is before now + ttl. */
  lemma RenewalProlongs(w: World, e: Event, es: seq<Event>, ttl: Time, at: Time, f: Faults)
    requires Inv(w) && e.Refresh? && Enabled(w, e) && Renews(w, e, e.id)
    requires Feasible(Apply(w, e, ttl), es, ttl) && AllLeaveAlone(Apply(w, e, ttl), es, ttl, e.id, at) && !f.get
    ensures Passes(Run(Apply(w, e, ttl), es, ttl).sessions, e.id, e.newToken, at, f) <==> at < e.now + ttl
  {
    SessionAfterStep(w, e, ttl, e.id);
    StaysRenewed(Apply(w, e, ttl), es, ttl, e.id, e.newToken, e.now + ttl, at);
  }
}
