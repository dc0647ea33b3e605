/** The per-user connection limiter of the WebSocket hub: a pruned log of recent
    connection times, swept by a background cleanup. Times are in nanoseconds. */
module ConnectionLimiter {
  import opened Prelude

  const MINUTE: Time := 60_000_000_000
  const RETENTION: Time := 10 * MINUTE
  const MAX_PER_WINDOW := 10

  type Logs = map<Uuid, seq<Time>>

  datatype Event =
    | Connect(user: Uuid, at: Time)
    | Cleanup(at: Time)

  function IsAfter(cutoff: Time): Time -> bool {
    t => t > cutoff
  }

  function LogOf(logs: Logs, user: Uuid): seq<Time> {
    if user in logs then logs[user] else []
  }

  /** The entries of a user's log that are younger than `age`. */
  function Recent(logs: Logs, user: Uuid, now: Time, age: Time): seq<Time> {
    Select(LogOf(logs, user), IsAfter(now - age))
  }

  function Admits(logs: Logs, user: Uuid, now: Time): bool {
    |Recent(logs, user, now, MINUTE)| < MAX_PER_WINDOW
  }

  function Next(logs: Logs, e: Event): Logs {
    match e
    case Connect(user, at) =>
      if Admits(logs, user, at) then logs[user := Recent(logs, user, at, MINUTE) + [at]] else logs
    case Cleanup(at) =>
      map user | user in logs && Recent(logs, user, at, RETENTION) != [] :: Recent(logs, user, at, RETENTION)
  }

  class WebSocketRateLimiter {
    var connectionsPerUser: Logs

    constructor ()
      ensures connectionsPerUser == map[]
    {
      connectionsPerUser := map[];
    }

    method AllowConnection(userID: Uuid, now: Time) returns (allowed: bool)
      modifies this
      ensures allowed == old(Admits(connectionsPerUser, userID, now))
      ensures connectionsPerUser == Next(old(connectionsPerUser), Connect(userID, now))
    {
      var validConnections := KeepAfter(LogOf(connectionsPerUser, userID), now - MINUTE);
      if |validConnections| >= MAX_PER_WINDOW {
        return false;
      }
      connectionsPerUser := connectionsPerUser[userID := validConnections + [now]];
      return true;
    }

    method RunCleanup(now: Time)
      modifies this
      ensures connectionsPerUser == Next(old(connectionsPerUser), Cleanup(now))
    {
      ghost var before := connectionsPerUser;
      var todo := connectionsPerUser.Keys;
      while todo != {}
        invariant todo <= before.Keys
        invariant forall u :: u in connectionsPerUser <==>
          u in before && (u in todo || Recent(before, u, now, RETENTION) != [])
        invariant forall u :: u in connectionsPerUser ==>
          connectionsPerUser[u] == if u in todo then before[u] else Recent(before, u, now, RETENTION)
        decreases todo
      {
        var userID :| userID in todo;
        todo := todo - {userID};
        var valid := KeepAfter(connectionsPerUser[userID], now - RETENTION);
        if |valid| == 0 {
          connectionsPerUser := connectionsPerUser - {userID};
        } else {
          connectionsPerUser := connectionsPerUser[userID := valid];
        }
      }
    }
  }

  method KeepAfter(times: seq<Time>, cutoff: Time) returns (valid: seq<Time>)
    ensures valid == Select(times, IsAfter(cutoff))
  {
    valid := [];
    for i := 0 to |times|
      invariant valid == Select(times[..i], IsAfter(cutoff))
    {
      assert times[..i + 1] == times[..i] + [times[i]];
      SelectSnoc(times[..i], times[i], IsAfter(cutoff));
      if times[i] > cutoff {
        valid := valid + [times[i]];
      }
    }
    assert times[..|times|] == times;
  }

  // ---------------------------------------------------------------- runs

  predicate Chronological(es: seq<Event>) {
    forall i, j :: 0 <= i < j < |es| ==> es[i].at <= es[j].at
  }

  function Run(es: seq<Event>): Logs {
    if es == [] then map[] else Next(Run(es[..|es| - 1]), es[|es| - 1])
  }

  /** Every connection of `user` the limiter let through over the whole run.
      Nothing is ever dropped from this list. */
  function Accepted(es: seq<Event>, user: Uuid): seq<Time> {
    if es == [] then []
    else
      var front, last := es[..|es| - 1], es[|es| - 1];
      Accepted(front, user) +
      if Lets(Run(front), last, user) then [last.at] else []
  }

  predicate Lets(logs: Logs, e: Event, user: Uuid) {
    e.Connect? && e.user == user && Admits(logs, user, e.at)
  }

  /** One step changes what a recent enough cutoff sees of a user's log by the
      newly accepted connection only, whatever was pruned. */
  lemma StepSeenFrom(logs: Logs, e: Event, user: Uuid, cutoff: Time)
    requires cutoff >= e.at - MINUTE
    ensures Select(LogOf(Next(logs, e), user), IsAfter(cutoff)) ==
            Select(LogOf(logs, user), IsAfter(cutoff)) +
            Select(if Lets(logs, e, user) then [e.at] else [], IsAfter(cutoff))
  {
    var log := LogOf(logs, user);
    if Lets(logs, e, user) {
      SelectTwice(log, IsAfter(e.at - MINUTE), IsAfter(cutoff), IsAfter(cutoff));
      SelectConcat(Recent(logs, user, e.at, MINUTE), [e.at], IsAfter(cutoff));
    } else if e.Cleanup? {
      assert LogOf(Next(logs, e), user) == Recent(logs, user, e.at, RETENTION);
      SelectTwice(log, IsAfter(e.at - RETENTION), IsAfter(cutoff), IsAfter(cutoff));
    } else {
      assert LogOf(Next(logs, e), user) == log;
    }
  }

  /** After a cleanup every listed user has entries, all of them younger than the
      retention time, and whoever had such an entry is still listed. */
  lemma CleanupLeavesRecent(logs: Logs, at: Time, user: Uuid)
    ensures user in Next(logs, Cleanup(at)) <==> exists t :: t in LogOf(logs, user) && t > at - 600_000_000_000
    ensures forall t :: t in LogOf(Next(logs, Cleanup(at)), user) <==> t in LogOf(logs, user) && t > at - 600_000_000_000
  {
    SelectMembers(LogOf(logs, user), IsAfter(at - RETENTION));
    if user in Next(logs, Cleanup(at)) {
      assert Recent(logs, user, at, RETENTION)[0] in LogOf(logs, user);
    }
  }

  lemma StepStaysSmall(logs: Logs, e: Event, user: Uuid)
    requires |LogOf(logs, user)| <= MAX_PER_WINDOW
    ensures |LogOf(Next(logs, e), user)| <= MAX_PER_WINDOW
  {
    SelectMembers(LogOf(logs, user), IsAfter(e.at - RETENTION));
  }

  /** After any run, every cutoff no older than a minute before now sees the same
      of the pruned log as of the complete list of accepted connections. */
  lemma {:induction false} PrunedLogAgrees(es: seq<Event>, user: Uuid, now: Time, cutoff: Time)
    requires Chronological(es)
    requires forall e :: e in es ==> e.at <= now
    requires cutoff >= now - MINUTE
    ensures Select(LogOf(Run(es), user), IsAfter(cutoff)) == Select(Accepted(es, user), IsAfter(cutoff))
    ensures |LogOf(Run(es), user)| <= MAX_PER_WINDOW
  {
    if es != [] {
      var front, last := es[..|es| - 1], es[|es| - 1];
      assert es == front + [last];
      PrunedLogAgrees(front, user, now, cutoff);
      StepSeenFrom(Run(front), last, user, cutoff);
      StepStaysSmall(Run(front), last, user);
      SelectConcat(Accepted(front, user), if Lets(Run(front), last, user) then [last.at] else [], IsAfter(cutoff));
    }
  }

  /** Pruning never changes a decision: after any run the limiter answers exactly
      as a limiter that remembers every connection it ever accepted. */
  lemma DecidesAsFullHistory(es: seq<Event>, user: Uuid, now: Time)
    requires Chronological(es)
    requires forall e :: e in es ==> e.at <= now
    ensures Admits(Run(es), user, now) <==> Count(Accepted(es, user), IsAfter(now - 60_000_000_000)) < 10
    ensures |LogOf(Run(es), user)| <= 10
  {
    PrunedLogAgrees(es, user, now, now - MINUTE);
  }

  ghost predicate Spaced(h: seq<Time>) {
    && (forall i, j :: 0 <= i < j < |h| ==> h[i] <= h[j])
    && (forall i, j :: 0 <= i && j == i + MAX_PER_WINDOW && j < |h| ==> h[j] - h[i] >= MINUTE)
  }

  lemma SpacedSnoc(h: seq<Time>, now: Time)
    requires Spaced(h) && forall i :: 0 <= i < |h| ==> h[i] <= now
    requires Count(h, IsAfter(now - MINUTE)) < MAX_PER_WINDOW
    ensures Spaced(h + [now])
  {
    if |h| >= MAX_PER_WINDOW && h[|h| - MAX_PER_WINDOW] > now - MINUTE {
      TailCounts(h, MAX_PER_WINDOW, IsAfter(now - MINUTE));
    }
  }

  lemma OneMoreIsSpaced(es: seq<Event>, user: Uuid, now: Time)
    requires Chronological(es) && forall e :: e in es ==> e.at <= now
    requires Spaced(Accepted(es, user)) && forall i :: 0 <= i < |Accepted(es, user)| ==> Accepted(es, user)[i] <= now
    requires Admits(Run(es), user, now)
    ensures Spaced(Accepted(es, user) + [now])
  {
    DecidesAsFullHistory(es, user, now);
    SpacedSnoc(Accepted(es, user), now);
  }

  /** Accepted connections are listed in order, and any eleven consecutive ones
      span at least a minute. */
  lemma {:induction false} AcceptedAreSpaced(es: seq<Event>, user: Uuid, now: Time)
    requires Chronological(es)
    requires forall e :: e in es ==> e.at <= now
    ensures Spaced(Accepted(es, user))
    ensures forall i :: 0 <= i < |Accepted(es, user)| ==> Accepted(es, user)[i] <= now
  {
    if es != [] {
      var front, last := es[..|es| - 1], es[|es| - 1];
      AcceptedAreSpaced(front, user, last.at);
      if Lets(Run(front), last, user) {
        OneMoreIsSpaced(front, user, last.at);
        assert Accepted(es, user) == Accepted(front, user) + [last.at];
      } else {
        assert Accepted(es, user) == Accepted(front, user);
      }
    }
  }

  lemma TailCounts(h: seq<Time>, k: nat, p: Time -> bool)
    requires k <= |h|
    requires forall i :: |h| - k <= i < |h| ==> p(h[i])
    ensures Count(h, p) >= k
  {
    if k > 0 {
      TailCounts(h[..|h| - 1], k - 1, p);
    }
  }

  function Within(from: Time, until: Time): Time -> bool {
    t => from <= t < until
  }

  function WithinLeftOpen(from: Time, until: Time): Time -> bool {
    t => from < t <= until
  }

  /** No half-open minute, open on either side, holds more than ten accepted
      connections of one user. */
  lemma AtMostTenPerMinute(es: seq<Event>, user: Uuid, from: Time)
    requires Chronological(es)
    ensures Count(Accepted(es, user), Within(from, from + 60_000_000_000)) <= 10
    ensures Count(Accepted(es, user), WithinLeftOpen(from, from + 60_000_000_000)) <= 10
  {
    AcceptedAreSpaced(es, user, if es == [] then 0 else es[|es| - 1].at);
    SpacedWindow(Accepted(es, user), Within(from, from + MINUTE));
    SpacedWindow(Accepted(es, user), WithinLeftOpen(from, from + MINUTE));
  }

  lemma {:induction false} SpacedWindow(h: seq<Time>, window: Time -> bool)
    requires Spaced(h)
    requires forall a, b :: window(a) && window(b) ==> b - a < MINUTE
    ensures Count(h, window) <= MAX_PER_WINDOW
  {
    SelectMembers(h, window);
    if |h| > MAX_PER_WINDOW {
      var last := h[|h| - 1];
      SpacedWindow(h[..|h| - 1], window);
      if window(last) {
        var cut := |h| - MAX_PER_WINDOW;
        assert h == h[..cut] + h[cut..];
        SelectConcat(h[..cut], h[cut..], window);
        assert h[cut - 1] <= last - MINUTE;
        CountNone(h[..cut], window);
        SelectMembers(h[cut..], window);
      }
    }
  }
}
