/** Presence in Redis: a record per user, the set of online users, and a heartbeat time per
    user for sweeping out the silent ones. Times are in seconds. Each call is one pipeline,
    which runs whole or fails without effect. */
module Presence {
  import opened Prelude

  const OFFLINE_TTL: Time := 86400

  datatype Record = Record(isOnline: bool, lastSeen: Time, expireAt: Time)

  datatype State = State(records: map<Uuid, Record>, online: set<Uuid>, heartbeats: map<Uuid, Time>)

  function WentOnline(s: State, user: Uuid, now: Time, ttl: Time): State {
    State(s.records[user := Record(true, now, now + ttl)], s.online + {user}, s.heartbeats[user := now])
  }

  function WentOffline(s: State, user: Uuid, now: Time): State {
    State(s.records[user := Record(false, now, now + OFFLINE_TTL)], s.online - {user}, s.heartbeats - {user})
  }

  /** A record past its expiry is gone, whether or not it is still listed. */
  predicate HasRecord(s: State, user: Uuid, now: Time) {
    user in s.records && now <= s.records[user].expireAt
  }

  function Beat(s: State, user: Uuid, now: Time, ttl: Time): State {
    s.(records := if HasRecord(s, user, now) then s.records[user := s.records[user].(expireAt := now + ttl)] else s.records,
       heartbeats := s.heartbeats[user := now])
  }

  /** Users whose last heartbeat is at or before the threshold. */
  function Stale(s: State, threshold: Time): set<Uuid> {
    set u | u in s.heartbeats && s.heartbeats[u] <= threshold
  }

  /** Several users taken offline at once. */
  function WentOfflineAll(s: State, users: set<Uuid>, now: Time): State {
    State(map u | u in s.records.Keys + users :: if u in users then Record(false, now, now + OFFLINE_TTL) else s.records[u],
          s.online - users, s.heartbeats - users)
  }

  class PresenceStore {
    var state: State
    const ttl: Time

    constructor (keyTTL: Time)
      ensures state == State(map[], {}, map[]) && ttl == if keyTTL == 0 then 300 else keyTTL
    {
      state := State(map[], {}, map[]);
      ttl := if keyTTL == 0 then 300 else keyTTL;
    }

    method SetOnline(user: Uuid, now: Time, fails: bool)
      modifies this
      ensures state == if fails then old(state) else WentOnline(old(state), user, now, ttl)
    {
      if !fails {
        state := state.(records := state.records[user := Record(true, now, now + ttl)]);
        state := state.(online := state.online + {user});
        state := state.(heartbeats := state.heartbeats[user := now]);
      }
    }

    method SetOffline(user: Uuid, now: Time, fails: bool)
      modifies this
      ensures state == if fails then old(state) else WentOffline(old(state), user, now)
    {
      if !fails {
        state := state.(records := state.records[user := Record(false, now, now + OFFLINE_TTL)]);
        state := state.(online := state.online - {user});
        state := state.(heartbeats := state.heartbeats - {user});
      }
    }

    method Heartbeat(user: Uuid, now: Time, fails: bool)
      modifies this
      ensures state == if fails then old(state) else Beat(old(state), user, now, ttl)
    {
      if !fails {
        if user in state.records && now <= state.records[user].expireAt {
          state := state.(records := state.records[user := state.records[user].(expireAt := now + ttl)]);
        }
        state := state.(heartbeats := state.heartbeats[user := now]);
      }
    }

    /** Takes every stale user offline; `failing` are those for whom that call fails, which
        goes unnoticed. */
    method CleanupStalePresence(now: Time, maxAge: Time, readFails: bool, failing: set<Uuid>) returns (count: nat)
      modifies this
      ensures readFails ==> count == 0 && state == old(state)
      ensures !readFails ==> count == |Stale(old(state), now - maxAge)|
      ensures !readFails ==> state == WentOfflineAll(old(state), Stale(old(state), now - maxAge) - failing, now)
    {
      if readFails {
        return 0;
      }
      var threshold := now - maxAge;
      var staleUsers := Stale(state, threshold);
      var todo := staleUsers;
      while todo != {}
        invariant todo <= staleUsers
        invariant state == WentOfflineAll(old(state), staleUsers - todo - failing, now)
        decreases todo
      {
        var user :| user in todo;
        if user !in failing {
          OneMoreOffline(old(state), staleUsers - todo - failing, user, now);
          assert staleUsers - (todo - {user}) - failing == staleUsers - todo - failing + {user};
        } else {
          assert staleUsers - (todo - {user}) - failing == staleUsers - todo - failing;
        }
        todo := todo - {user};
        SetOffline(user, now, user in failing);
      }
      assert staleUsers - {} - failing == staleUsers - failing;
      return |staleUsers|;
    }
  }

  lemma OneMoreOffline(s: State, users: set<Uuid>, user: Uuid, now: Time)
    ensures WentOffline(WentOfflineAll(s, users, now), user, now) == WentOfflineAll(s, users + {user}, now)
  {
    var a, b := WentOffline(WentOfflineAll(s, users, now), user, now), WentOfflineAll(s, users + {user}, now);
    assert a.records == b.records;
    assert a.online == b.online;
    assert a.heartbeats == b.heartbeats;
  }

  // ---------------------------------------------------------------- what a cleanup achieves

  /** Every online user has a heartbeat, so silence is always noticed. */
  ghost predicate Inv(s: State) {
    forall u :: u in s.online ==> u in s.heartbeats
  }

  /** Nothing about the user differs. */
  ghost predicate Untouched(s: State, s': State, user: Uuid) {
    && (user in s'.online <==> user in s.online)
    && (user in s'.heartbeats <==> user in s.heartbeats)
    && (user in s.heartbeats ==> s'.heartbeats[user] == s.heartbeats[user])
    && (user in s'.records <==> user in s.records)
    && (user in s.records ==> s'.records[user] == s.records[user])
  }

  /** After a cleanup in which `failing` users could not be taken offline, every user still
      online has a heartbeat newer than the threshold or is among them, and users who were
      not stale are untouched. */
  lemma CleanupSweeps(s: State, now: Time, maxAge: Time, failing: set<Uuid>)
    requires Inv(s)
    ensures var s' := WentOfflineAll(s, Stale(s, now - maxAge) - failing, now);
      && Inv(s')
      && (forall u :: u in s'.online ==> s'.heartbeats[u] > now - maxAge || u in failing)
      && (forall u :: u !in Stale(s, now - maxAge) ==> Untouched(s, s', u))
  {
  }

  /** The reported number of stale users is the number of heartbeats removed exactly when
      none of the stale users failed to be taken offline. */
  lemma CountIsHonest(s: State, now: Time, maxAge: Time, failing: set<Uuid>)
    ensures var stale := Stale(s, now - maxAge);
      var s' := WentOfflineAll(s, stale - failing, now);
      |stale| == |s.heartbeats| - |s'.heartbeats| <==> stale !! failing
  {
    var stale := Stale(s, now - maxAge);
    RemovedCount(s.heartbeats, stale - failing);
    SplitCount(stale, failing);
  }

  lemma RemovedCount(m: map<Uuid, Time>, gone: set<Uuid>)
    requires gone <= m.Keys
    ensures |m - gone| == |m| - |gone|
  {
    assert (m - gone).Keys == m.Keys - gone;
  }

  lemma SplitCount(all: set<Uuid>, some: set<Uuid>)
    ensures |all| == |all - some| <==> all !! some
  {
    assert all == (all - some) + (all * some);
    assert all * some == {} <==> all !! some;
  }

  // ---------------------------------------------------------------- runs

  datatype Event =
    | Online(user: Uuid, now: Time)
    | Offline(user: Uuid, now: Time)
    | Pulse(user: Uuid, now: Time)
    | Sweep(now: Time, maxAge: Time, failing: set<Uuid>)

  function Apply(s: State, e: Event, ttl: Time): State {
    match e
    case Online(user, now) => WentOnline(s, user, now, ttl)
    case Offline(user, now) => WentOffline(s, user, now)
    case Pulse(user, now) => Beat(s, user, now, ttl)
    case Sweep(now, maxAge, failing) => WentOfflineAll(s, Stale(s, now - maxAge) - failing, now)
  }

  function Run(s: State, es: seq<Event>, ttl: Time): State {
    if es == [] then s else Apply(Run(s, es[..|es| - 1], ttl), es[|es| - 1], ttl)
  }

  predicate ShowsLife(e: Event, user: Uuid) {
    (e.Online? || e.Pulse?) && e.user == user
  }

  const Empty := State(map[], {}, map[])

  /** In every run the online users have heartbeats. */
  lemma {:induction false} OnlineHaveHeartbeats(es: seq<Event>, ttl: Time)
    ensures Inv(Run(Empty, es, ttl))
  {
    if es != [] {
      OnlineHaveHeartbeats(es[..|es| - 1], ttl);
    }
  }

  /** Whether an event in this state takes the user offline. */
  predicate TakesOff(s: State, e: Event, user: Uuid) {
    match e
    case Offline(u, _) => u == user
    case Sweep(now, maxAge, failing) => user in Stale(s, now - maxAge) && user !in failing
    case _ => false
  }

  /** The i-th event is the user's last going online, and nothing took them off since. */
  ghost predicate OnlineSince(es: seq<Event>, ttl: Time, i: nat, user: Uuid) {
    && i < |es| && es[i].Online? && es[i].user == user
    && forall j :: i < j < |es| ==> !TakesOff(Run(Empty, es[..j], ttl), es[j], user)
  }

  lemma OnlineAfterStep(s: State, e: Event, ttl: Time, user: Uuid)
    ensures user in Apply(s, e, ttl).online <==> (e.Online? && e.user == user) || (user in s.online && !TakesOff(s, e, user))
  {
  }

  lemma OnlineSinceSnoc(es: seq<Event>, e: Event, ttl: Time, i: nat, user: Uuid)
    ensures OnlineSince(es + [e], ttl, i, user) <==>
            if i == |es| then e.Online? && e.user == user
            else OnlineSince(es, ttl, i, user) && !TakesOff(Run(Empty, es, ttl), e, user)
  {
    var longer := es + [e];
    assert longer[..|es|] == es;
    assert forall j :: 0 <= j < |es| ==> longer[..j] == es[..j];
  }

  lemma {:induction false} SinceMeansOnline(es: seq<Event>, ttl: Time, i: nat, user: Uuid)
    requires OnlineSince(es, ttl, i, user)
    ensures user in Run(Empty, es, ttl).online
  {
    var front, last := es[..|es| - 1], es[|es| - 1];
    assert es == front + [last];
    OnlineSinceSnoc(front, last, ttl, i, user);
    OnlineAfterStep(Run(Empty, front, ttl), last, ttl, user);
    if i < |front| {
      SinceMeansOnline(front, ttl, i, user);
    }
  }

  lemma {:induction false} OnlineMeansSince(es: seq<Event>, ttl: Time, user: Uuid) returns (i: nat)
    requires user in Run(Empty, es, ttl).online
    ensures OnlineSince(es, ttl, i, user)
  {
    var front, last := es[..|es| - 1], es[|es| - 1];
    assert es == front + [last];
    OnlineAfterStep(Run(Empty, front, ttl), last, ttl, user);
    if last.Online? && last.user == user {
      i := |front|;
    } else {
      i := OnlineMeansSince(front, ttl, user);
    }
    OnlineSinceSnoc(front, last, ttl, i, user);
  }

  /** The online set is exactly who went online and has not been taken off since. */
  lemma OnlineExactly(es: seq<Event>, ttl: Time, user: Uuid)
    ensures user in Run(Empty, es, ttl).online <==> exists i: nat :: OnlineSince(es, ttl, i, user)
  {
    if user in Run(Empty, es, ttl).online {
      var i := OnlineMeansSince(es, ttl, user);
    } else if i: nat :| OnlineSince(es, ttl, i, user) {
      SinceMeansOnline(es, ttl, i, user);
    }
  }

  /** The i-th event is the user's last sign of life in the run. */
  ghost predicate LastSign(es: seq<Event>, i: nat, user: Uuid) {
    && i < |es| && ShowsLife(es[i], user)
    && forall j :: i < j < |es| ==> !ShowsLife(es[j], user)
  }

  /** A heartbeat is the time of the user's last sign of life. */
  lemma {:induction false} HeartbeatIsLastSign(es: seq<Event>, ttl: Time, user: Uuid)
    requires user in Run(Empty, es, ttl).heartbeats
    ensures exists i: nat :: LastSign(es, i, user) && es[i].now == Run(Empty, es, ttl).heartbeats[user]
  {
    var front, last := es[..|es| - 1], es[|es| - 1];
    if ShowsLife(last, user) {
      assert LastSign(es, |es| - 1, user);
    } else {
      HeartbeatIsLastSign(front, ttl, user);
      var i: nat :| LastSign(front, i, user) && front[i].now == Run(Empty, front, ttl).heartbeats[user];
      assert LastSign(es, i, user);
    }
  }

  // ---------------------------------------------------------------- the records

  /** The event writes the user's record anew: going online or offline, or being swept. */
  predicate Writes(s: State, e: Event, user: Uuid) {
    (e.Online? && e.user == user) || TakesOff(s, e, user)
  }

  /** What one event makes of one record. */
  lemma RecordAfterStep(s: State, e: Event, ttl: Time, user: Uuid)
    ensures var r, r' := s.records, Apply(s, e, ttl).records;
      && (user in r' <==> user in r || Writes(s, e, user))
      && (Writes(s, e, user) && e.Online? ==> r'[user] == Record(true, e.now, e.now + ttl))
      && (Writes(s, e, user) && !e.Online? ==> r'[user] == Record(false, e.now, e.now + 86400))
      && (user in r && !Writes(s, e, user) ==>
            r'[user] == if e.Pulse? && e.user == user && e.now <= r[user].expireAt then r[user].(expireAt := e.now + ttl) else r[user])
  {
  }

  lemma RunStep(es: seq<Event>, k: nat, ttl: Time)
    requires k < |es|
    ensures Run(Empty, es[..k + 1], ttl) == Apply(Run(Empty, es[..k], ttl), es[k], ttl)
  {
    assert es[..k + 1][..k] == es[..k];
  }

  /** The i-th of the first k events wrote the user's record, and none has since. */
  ghost predicate LastWrite(es: seq<Event>, ttl: Time, user: Uuid, i: nat, k: nat)
    requires k <= |es|
  {
    && i < k && Writes(Run(Empty, es[..i], ttl), es[i], user)
    && forall j: nat :: i < j < k ==> !Writes(Run(Empty, es[..j], ttl), es[j], user)
  }

  ghost predicate WrittenBy(es: seq<Event>, ttl: Time, user: Uuid, i: nat, k: nat)
    requires k <= |es|
  {
    var records := Run(Empty, es[..k], ttl).records;
    user in records ==>
      LastWrite(es, ttl, user, i, k) && records[user].isOnline == es[i].Online? && records[user].lastSeen == es[i].now
  }

  lemma WrittenStep(es: seq<Event>, ttl: Time, user: Uuid, i: nat, k: nat) returns (i': nat)
    requires k < |es| && WrittenBy(es, ttl, user, i, k)
    ensures WrittenBy(es, ttl, user, i', k + 1)
  {
    RunStep(es, k, ttl);
    RecordAfterStep(Run(Empty, es[..k], ttl), es[k], ttl, user);
    i' := if Writes(Run(Empty, es[..k], ttl), es[k], user) then k else i;
  }

  /** Over every run a record says online if and only if the last event that wrote it was a
      going online, and gives the time of that event as last seen. */
  lemma RecordIsLastWrite(es: seq<Event>, ttl: Time, user: Uuid) returns (i: nat)
    requires user in Run(Empty, es, ttl).records
    ensures LastWrite(es, ttl, user, i, |es|)
    ensures Run(Empty, es, ttl).records[user].isOnline <==> es[i].Online?
    ensures Run(Empty, es, ttl).records[user].lastSeen == es[i].now
  {
    assert es[..0] == [] && es[..|es|] == es;
    i := 0;
    for k := 0 to |es|
      invariant WrittenBy(es, ttl, user, i, k)
    {
      i := WrittenStep(es, ttl, user, i, k);
    }
  }

  /** The records and the online set never disagree. */
  lemma {:induction false} RecordsAgree(es: seq<Event>, ttl: Time, user: Uuid)
    ensures var s := Run(Empty, es, ttl); user in s.online <==> user in s.records && s.records[user].isOnline
  {
    if es != [] {
      var front, last := es[..|es| - 1], es[|es| - 1];
      RecordsAgree(front, ttl, user);
      RecordAfterStep(Run(Empty, front, ttl), last, ttl, user);
      OnlineAfterStep(Run(Empty, front, ttl), last, ttl, user);
    }
  }
}
