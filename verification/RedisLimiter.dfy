/** The Redis rate limiter: one counter key per subject, created by the first accepted
    action and dropped when its time to live runs out. Times are in milliseconds,
    windows in whole seconds. */
module RedisLimiter {
  import opened Prelude
  import opened EpochBound

  /** A Redis string key holding a counter, with its expiry time if it has one. */
  datatype Key = Absent | Live(count: int, expireAt: Option<Time>)

  /** `remaining` and `resetIn` as reported to the caller; `resetIn` in seconds. */
  datatype Reply = Reply(allowed: bool, remaining: int, resetIn: int)

  /** Redis drops a key once the clock has passed its expiry time. */
  function Visible(key: Key, now: Time): Key {
    if key.Live? && key.expireAt.Some? && now > key.expireAt.value then Absent else key
  }

  function Current(key: Key): int {
    if key.Live? then key.count else 0
  }

  /** The TTL command: -2 without a key, -1 without an expiry, and otherwise a number of
      seconds. How Redis rounds it is left open: `reading` is any such number. */
  function Ttl(key: Key, reading: nat): int {
    if key.Absent? then -2 else if key.expireAt.None? then -1 else reading
  }

  function Expiring(key: Key, now: Time, seconds: int): Key {
    if key.Absent? || seconds <= 0 then Absent else Live(key.count, Some(now + 1000 * seconds))
  }

  function Accepts(key: Key, limit: int, now: Time): bool {
    Current(Visible(key, now)) < limit
  }

  /** Whether an accepted action restarts the expiry. */
  predicate Restarts(key: Key, window: int, now: Time, reading: nat) {
    Ttl(Visible(key, now), reading) < 0 || Ttl(Visible(key, now), reading) == window
  }

  function NextKey(key: Key, limit: int, window: int, now: Time, reading: nat): Key {
    var k := Visible(key, now);
    if !Accepts(key, limit, now) then k
    else if Restarts(key, window, now, reading) then Expiring(Live(Current(k) + 1, None), now, window)
    else Live(Current(k) + 1, k.expireAt)
  }

  class RateLimiter {
    var key: Key

    constructor ()
      ensures key == Absent
    {
      key := Absent;
    }

    method Get(now: Time) returns (value: Option<int>)
      modifies this
      ensures key == old(Visible(key, now))
      ensures value == if key.Live? then Some(key.count) else None
    {
      key := Visible(key, now);
      value := if key.Live? then Some(key.count) else None;
    }

    method Incr()
      modifies this
      ensures key == old(Live(Current(key) + 1, if key.Live? then key.expireAt else None))
    {
      key := if key.Live? then key.(count := key.count + 1) else Live(1, None);
    }

    method Expire(now: Time, seconds: int)
      modifies this
      ensures key == old(Expiring(key, now, seconds))
    {
      key := Expiring(key, now, seconds);
    }

    /** The Lua script, one atomic step. */
    method CheckLimit(limit: int, window: int, now: Time, reading: nat) returns (reply: Reply)
      modifies this
      ensures key == old(NextKey(key, limit, window, now, reading))
      ensures reply.allowed == old(Accepts(key, limit, now))
      ensures reply.remaining == if reply.allowed then limit - old(Current(Visible(key, now))) - 1 else 0
      ensures reply.resetIn == var ttl := old(Ttl(Visible(key, now), reading)); if ttl < 0 then window else ttl
    {
      var value := Get(now);
      var current := 0;
      if value.Some? {
        current := value.value;
      }
      var ttl := Ttl(key, reading);
      if ttl < 0 {
        ttl := window;
      }
      if current < limit {
        Incr();
        if ttl == window {
          Expire(now, window);
        }
        reply := Reply(true, limit - current - 1, ttl);
      } else {
        reply := Reply(false, 0, ttl);
      }
    }

    method GetStatus(limit: int, window: int, now: Time, reading: nat) returns (reply: Reply)
      modifies this
      ensures key == old(Visible(key, now))
      ensures reply == old(Status(key, limit, window, now, reading))
    {
      var value := Get(now);
      var current := 0;
      if value.Some? {
        current := value.value;
      }
      var ttl := window;
      if Ttl(key, reading) > 0 {
        ttl := Ttl(key, reading);
      }
      reply := Reply(current < limit, limit - current, ttl);
    }

    /** The status read just before a check foretells it: the same decision, one action
        fewer remaining, and the same reset time except in the last rounded-down second
        of a key's life, when the status reports a whole window instead. */
    method StatusThenCheck(limit: int, window: int, now: Time, reading: nat) returns (status: Reply, reply: Reply)
      requires window > 0
      modifies this
      ensures reply.allowed == status.allowed
      ensures reply.remaining == if status.allowed then status.remaining - 1 else 0
      ensures status.allowed <==> status.remaining > 0
      ensures reply.resetIn == status.resetIn <==> old(Ttl(Visible(key, now), reading)) != 0
    {
      status := GetStatus(limit, window, now, reading);
      reply := CheckLimit(limit, window, now, reading);
    }
  }

  function Status(key: Key, limit: int, window: int, now: Time, reading: nat): Reply {
    var k := Visible(key, now);
    Reply(Current(k) < limit, limit - Current(k), if Ttl(k, reading) > 0 then Ttl(k, reading) else window)
  }

  // ---------------------------------------------------------------- runs

  /** One call of the script: when, and what TTL would read if the key has an expiry. */
  datatype Call = Call(at: Time, reading: nat)

  predicate Chronological(calls: seq<Call>) {
    forall i, j :: 0 <= i < j < |calls| ==> calls[i].at <= calls[j].at
  }

  /** The key, the moments it was created, and the accepted calls with the life of the
      key that counted them. */
  datatype Trace = Trace(key: Key, births: seq<Time>, allowed: seq<Hit>)

  function Extend(t: Trace, limit: int, window: int, call: Call): Trace {
    var accepted := Accepts(t.key, limit, call.at);
    var births := t.births + if accepted && Visible(t.key, call.at).Absent? then [call.at] else [];
    Trace(NextKey(t.key, limit, window, call.at, call.reading), births,
          t.allowed + if accepted then [Hit(call.at, if births == [] then 0 else |births| - 1)] else [])
  }

  function Run(limit: int, window: int, calls: seq<Call>): Trace {
    if calls == [] then Trace(Absent, [], [])
    else Extend(Run(limit, window, calls[..|calls| - 1]), limit, window, calls[|calls| - 1])
  }

  /** At most `limit` acceptances per life of the key, every life outlasts the window and
      begins with an acceptance. */
  ghost predicate Recorded(births: seq<Time>, allowed: seq<Hit>, limit: nat, width: Time, now: Time) {
    && Metered(births, allowed, width, limit)
    && Opened(births, allowed)
    && forall h :: h in allowed ==> h.at <= now
  }

  /** The counter counts the acceptances of the current life, which ends no sooner than one
      window after it began. */
  ghost predicate KeyMatches(key: Key, births: seq<Time>, allowed: seq<Hit>, width: Time, now: Time) {
    if births == [] then key == Absent
    else
      && births[|births| - 1] <= now
      && key.Live? && key.expireAt.Some? && key.expireAt.value >= births[|births| - 1] + width
      && key.count == Count(allowed, Pays(|births| - 1)) > 0
  }

  ghost predicate Sound(t: Trace, limit: nat, width: Time, now: Time) {
    Recorded(t.births, t.allowed, limit, width, now) && KeyMatches(t.key, t.births, t.allowed, width, now)
  }

  lemma BirthRecorded(births: seq<Time>, allowed: seq<Hit>, limit: nat, width: Time, now: Time)
    requires limit > 0 && Recorded(births, allowed, limit, width, now)
    requires births != [] ==> births[|births| - 1] + width <= now
    ensures Recorded(births + [now], allowed + [Hit(now, |births|)], limit, width, now)
    ensures Count(allowed + [Hit(now, |births|)], Pays(|births|)) == 1
  {
    OpenEpoch(births, allowed, width, limit, now);
    AddHit(births + [now], allowed, width, limit, now);
    OpenedSnoc(births, allowed, now);
  }

  lemma ExpiredKey(key: Key, births: seq<Time>, allowed: seq<Hit>, width: Time, now: Time)
    requires KeyMatches(key, births, allowed, width, now) && Visible(key, now).Absent?
    ensures births != [] ==> births[|births| - 1] + width <= now
  {
  }

  lemma BornKey(births: seq<Time>, allowed: seq<Hit>, width: Time, now: Time)
    requires Count(allowed + [Hit(now, |births|)], Pays(|births|)) == 1
    ensures KeyMatches(Live(1, Some(now + width)), births + [now], allowed + [Hit(now, |births|)], width, now)
  {
    assert |births + [now]| - 1 == |births|;
  }

  lemma BirthSound(t: Trace, limit: nat, width: Time, now: Time)
    requires limit > 0 && Sound(t, limit, width, now) && Visible(t.key, now).Absent?
    ensures Sound(Trace(Live(1, Some(now + width)), t.births + [now], t.allowed + [Hit(now, |t.births|)]), limit, width, now)
  {
    ExpiredKey(t.key, t.births, t.allowed, width, now);
    BirthRecorded(t.births, t.allowed, limit, width, now);
    BornKey(t.births, t.allowed, width, now);
  }

  lemma LaterRecorded(births: seq<Time>, allowed: seq<Hit>, limit: nat, width: Time, now: Time)
    requires Recorded(births, allowed, limit, width, now)
    requires births != [] && births[|births| - 1] <= now && Count(allowed, Pays(|births| - 1)) < limit
    ensures Recorded(births, allowed + [Hit(now, |births| - 1)], limit, width, now)
    ensures Count(allowed + [Hit(now, |births| - 1)], Pays(|births| - 1)) == Count(allowed, Pays(|births| - 1)) + 1
  {
    AddHit(births, allowed, width, limit, now);
  }

  lemma LaterSound(t: Trace, limit: nat, width: Time, now: Time, expireAt: Time)
    requires Sound(t, limit, width, now) && t.key.Live? && t.key.count < limit && expireAt >= t.births[|t.births| - 1] + width
    ensures Sound(Trace(Live(t.key.count + 1, Some(expireAt)), t.births, t.allowed + [Hit(now, |t.births| - 1)]),
                  limit, width, now)
  {
    LaterRecorded(t.births, t.allowed, limit, width, now);
  }

  lemma ExtendSound(t: Trace, limit: nat, window: int, width: Time, call: Call)
    requires window > 0 && width == 1000 * window && limit > 0 && Sound(t, limit, width, call.at)
    ensures Sound(Extend(t, limit, window, call), limit, width, call.at)
  {
    if Visible(t.key, call.at).Absent? {
      BirthSound(t, limit, width, call.at);
      BirthTrace(t, limit, window, call);
    } else if Accepts(t.key, limit, call.at) {
      var expireAt := if Restarts(t.key, window, call.at, call.reading) then call.at + width else t.key.expireAt.value;
      LaterSound(t, limit, width, call.at, expireAt);
      LaterTrace(t, limit, window, call, expireAt);
    } else {
      assert Extend(t, limit, window, call) == t;
    }
  }

  lemma BirthTrace(t: Trace, limit: nat, window: int, call: Call)
    requires window > 0 && limit > 0 && Visible(t.key, call.at).Absent?
    ensures Extend(t, limit, window, call) ==
            Trace(Live(1, Some(call.at + 1000 * window)), t.births + [call.at], t.allowed + [Hit(call.at, |t.births|)])
  {
  }

  lemma LaterTrace(t: Trace, limit: nat, window: int, call: Call, expireAt: Time)
    requires window > 0 && t.births != [] && Visible(t.key, call.at).Live? && t.key.expireAt.Some? && t.key.count < limit
    requires expireAt == if Restarts(t.key, window, call.at, call.reading) then call.at + 1000 * window else t.key.expireAt.value
    ensures Extend(t, limit, window, call) ==
            Trace(Live(t.key.count + 1, Some(expireAt)), t.births, t.allowed + [Hit(call.at, |t.births| - 1)])
  {
  }

  lemma {:induction false} RunSound(limit: nat, window: int, width: Time, calls: seq<Call>, now: Time)
    requires window > 0 && width == 1000 * window && limit > 0
    requires Chronological(calls) && forall i :: 0 <= i < |calls| ==> calls[i].at <= now
    ensures Sound(Run(limit, window, calls), limit, width, now)
  {
    if calls != [] {
      var front, last := calls[..|calls| - 1], calls[|calls| - 1];
      RunSound(limit, window, width, front, last.at);
      ExtendSound(Run(limit, window, front), limit, window, width, last);
      Later(Run(limit, window, calls), limit, width, last.at, now);
    }
  }

  lemma Later(t: Trace, limit: nat, width: Time, before: Time, now: Time)
    requires Sound(t, limit, width, before) && before <= now
    ensures Sound(t, limit, width, now)
  {
  }

  /** Whatever the TTL readings, a half-open stretch as long as the window holds fewer
      than 2 * limit acceptances, and any stretch fewer than limit * (1 + ceil(span/window)). */
  lemma AcceptedInAnySpan(limit: nat, window: int, calls: seq<Call>, width: Time, from: Time, span: nat)
    requires window > 0 && limit > 0 && Chronological(calls) && width == 1000 * window
    ensures Count(Run(limit, window, calls).allowed, Within(from, from + span)) < (1 + CeilDiv(span, width)) * limit
    ensures Count(Run(limit, window, calls).allowed, Within(from, from + width)) < 2 * limit
  {
    var t := Run(limit, window, calls);
    RunSound(limit, window, width, calls, if calls == [] then 0 else calls[|calls| - 1].at);
    AnySpanOpened(t.births, t.allowed, width, limit, from, span);
  }

  /** Counting from the first acceptance, the bound with the floor holds. */
  lemma AcceptedSinceFirst(limit: nat, window: int, calls: seq<Call>, width: Time, span: nat)
    requires window > 0 && limit > 0 && Chronological(calls) && width == 1000 * window
    requires Run(limit, window, calls).births != []
    requires forall i :: 0 <= i < |calls| ==> calls[i].at <= Run(limit, window, calls).births[0] + span
    ensures |Run(limit, window, calls).allowed| <= (1 + span / width) * limit
  {
    var t := Run(limit, window, calls);
    RunSound(limit, window, width, calls, t.births[0] + span);
    FromTheStart(t.births, t.allowed, width, limit, span);
  }

  // ---------------------------------------------------------------- the bound is reached

  /** `n` calls at the same instant, all with the same TTL reading. */
  function Burst(n: nat, at: Time, reading: nat): seq<Call> {
    Repeat(n, Call(at, reading))
  }

  lemma RunSnoc(limit: nat, window: int, before: seq<Call>, call: Call)
    ensures Run(limit, window, before + [call]) == Extend(Run(limit, window, before), limit, window, call)
  {
    assert (before + [call])[..|before|] == before;
  }

  /** `n` calls in a row at the same instant, from a given record. */
  function Repeated(t: Trace, limit: int, window: int, n: nat, call: Call): Trace {
    if n == 0 then t else Extend(Repeated(t, limit, window, n - 1, call), limit, window, call)
  }

  lemma {:induction false} RunRepeated(limit: nat, window: int, before: seq<Call>, n: nat, call: Call)
    ensures Run(limit, window, before + Repeat(n, call)) == Repeated(Run(limit, window, before), limit, window, n, call)
  {
    if n == 0 {
      assert before + Repeat(0, call) == before;
    } else {
      RunRepeated(limit, window, before, n - 1, call);
      RepeatSnoc(before, n, call);
      RunSnoc(limit, window, before + Repeat(n - 1, call), call);
    }
  }

  /** An accepted call on a live key leaves the expiry alone, unless TTL reads a whole
      window, and then it is restarted to the value it has. */
  lemma OneMoreInBurst(limit: nat, window: int, call: Call, t: Trace)
    requires window > 0 && t.births != [] && UnmovedExpiry(t.key, window, call)
    requires t.key.count < limit
    ensures Extend(t, limit, window, call) ==
            Trace(Live(t.key.count + 1, t.key.expireAt), t.births, t.allowed + [Hit(call.at, |t.births| - 1)])
  {
    LaterTrace(t, limit, window, call, t.key.expireAt.value);
  }

  predicate UnmovedExpiry(key: Key, window: int, call: Call) {
    && key.Live? && key.expireAt.Some? && key.expireAt.value >= call.at
    && (call.reading == window ==> key.expireAt.value == call.at + 1000 * window)
  }

  lemma RepeatSnoc<T>(s: seq<T>, n: nat, x: T)
    requires n > 0
    ensures s + Repeat(n, x) == (s + Repeat(n - 1, x)) + [x]
  {
  }

  /** A burst at one instant on a live key uses up exactly what is left of its life. */
  lemma {:induction false} BurstAccepted(t: Trace, limit: nat, window: int, n: nat, call: Call)
    requires window > 0 && t.births != [] && UnmovedExpiry(t.key, window, call) && t.key.count + n <= limit
    ensures Repeated(t, limit, window, n, call) ==
            Trace(Live(t.key.count + n, t.key.expireAt), t.births, t.allowed + Repeat(n, Hit(call.at, |t.births| - 1)))
  {
    if n > 0 {
      BurstAccepted(t, limit, window, n - 1, call);
      OneMoreInBurst(limit, window, call, Repeated(t, limit, window, n - 1, call));
      RepeatSnoc(t.allowed, n, Hit(call.at, |t.births| - 1));
    }
  }

  /** One call, then the rest of the allowance at the very end of the key's life, then a
      fresh allowance a millisecond later. The TTL readings are those of a true clock: 0 at
      the end of a life, a whole window at its beginning. */
  function WorstCase(limit: nat, window: nat): seq<Call>
    requires limit > 0
  {
    [Call(0, window)] + Burst(limit - 1, 1000 * window, 0) +
    [Call(1000 * window + 1, window)] + Burst(limit - 1, 1000 * window + 1, window)
  }

  lemma RunBirth(limit: nat, window: nat, w: Time, before: seq<Call>, t: Trace, at: Time)
    requires limit > 0 && window > 0 && w == 1000 * window
    requires t == Run(limit, window, before) && Visible(t.key, at).Absent?
    ensures Run(limit, window, before + [Call(at, window)]) ==
            Trace(Live(1, Some(at + w)), t.births + [at], t.allowed + [Hit(at, |t.births|)])
  {
    RunSnoc(limit, window, before, Call(at, window));
    BirthTrace(t, limit, window, Call(at, window));
  }

  /** A call on an absent key, then a burst before the key expires: one whole allowance. */
  lemma LifeAccepted(limit: nat, window: nat, w: Time, before: seq<Call>, t: Trace, at: Time, late: Time, reading: nat)
    requires limit > 0 && window > 0 && w == 1000 * window && at <= late <= at + w
    requires reading == window ==> late == at
    requires t == Run(limit, window, before) && Visible(t.key, at).Absent?
    ensures Run(limit, window, before + [Call(at, window)] + Burst(limit - 1, late, reading)) ==
            Trace(Live(limit, Some(at + w)), t.births + [at],
                  t.allowed + [Hit(at, |t.births|)] + Repeat(limit - 1, Hit(late, |t.births|)))
  {
    RunBirth(limit, window, w, before, t, at);
    RunRepeated(limit, window, before + [Call(at, window)], limit - 1, Call(late, reading));
    BurstAccepted(Run(limit, window, before + [Call(at, window)]), limit, window, limit - 1, Call(late, reading));
  }

  /** The accepted calls of the worst case after its first. */
  function WorstTail(limit: nat, w: Time): seq<Hit>
    requires limit > 0
  {
    Repeat(limit - 1, Hit(w, 0)) + [Hit(w + 1, 1)] + Repeat(limit - 1, Hit(w + 1, 1))
  }

  lemma WorstCaseRun(limit: nat, window: nat, w: Time)
    requires limit > 0 && window > 0 && w == 1000 * window
    ensures Run(limit, window, WorstCase(limit, window)).allowed == [Hit(0, 0)] + WorstTail(limit, w)
  {
    var life := [Call(0, window)] + Burst(limit - 1, w, 0);
    var t := Trace(Live(limit, Some(w)), [0], [Hit(0, 0)] + Repeat(limit - 1, Hit(w, 0)));
    assert Run(limit, window, life) == t by {
      assert [] + [Call(0, window)] == [Call(0, window)];
      LifeAccepted(limit, window, w, [], Trace(Absent, [], []), 0, w, 0);
    }
    LifeAccepted(limit, window, w, life, t, w + 1, w + 1, window);
    Reassociate([Hit(0, 0)], Repeat(limit - 1, Hit(w, 0)), [Hit(w + 1, 1)], Repeat(limit - 1, Hit(w + 1, 1)));
  }

  lemma Reassociate<T>(a: seq<T>, b: seq<T>, c: seq<T>, d: seq<T>)
    ensures a + b + c + d == a + (b + c + d)
  {
  }

  lemma {:induction false} RepeatMembers<T>(n: nat, x: T)
    ensures forall i :: 0 <= i < n ==> Repeat(n, x)[i] == x
  {
    if n > 0 {
      RepeatMembers(n - 1, x);
    }
  }

  lemma WorstCaseChronological(limit: nat, window: nat)
    requires limit > 0 && window > 0
    ensures Chronological(WorstCase(limit, window))
  {
    RepeatMembers(limit - 1, Call(1000 * window, 0));
    RepeatMembers(limit - 1, Call(1000 * window + 1, window));
  }

  lemma TailAllInside(limit: nat, w: Time)
    requires limit > 0
    ensures Select(WorstTail(limit, w), Within(w, w + 2)) == WorstTail(limit, w)
  {
    RepeatMembers(limit - 1, Hit(w, 0));
    RepeatMembers(limit - 1, Hit(w + 1, 1));
    forall h | h in WorstTail(limit, w)
      ensures Within(w, w + 2)(h)
    {
      assert h == Hit(w, 0) || h == Hit(w + 1, 1);
    }
    CountAll(WorstTail(limit, w), Within(w, w + 2));
  }

  /** What TTL reads for a key that has an expiry: the remaining life in milliseconds,
      rounded to seconds. */
  predicate TrueReading(key: Key, call: Call) {
    var k := Visible(key, call.at);
    k.Live? && k.expireAt.Some? ==> call.reading == (k.expireAt.value - call.at + 500) / 1000
  }

  predicate TrueReadings(limit: int, window: int, calls: seq<Call>) {
    calls == [] ||
    var front, last := calls[..|calls| - 1], calls[|calls| - 1];
    TrueReadings(limit, window, front) && TrueReading(Run(limit, window, front).key, last)
  }

  lemma TrueSnoc(limit: nat, window: int, before: seq<Call>, call: Call)
    ensures TrueReadings(limit, window, before + [call]) <==>
            TrueReadings(limit, window, before) && TrueReading(Run(limit, window, before).key, call)
  {
    assert (before + [call])[..|before|] == before;
  }

  /** The calls with `n` more of one kind at the end. */
  function Lengthened(before: seq<Call>, n: nat, call: Call): seq<Call> {
    if n == 0 then before else Lengthened(before, n - 1, call) + [call]
  }

  lemma {:induction false} LengthenedIsRepeat(before: seq<Call>, n: nat, call: Call)
    ensures Lengthened(before, n, call) == before + Repeat(n, call)
  {
    if n > 0 {
      LengthenedIsRepeat(before, n - 1, call);
      RepeatSnoc(before, n, call);
    }
  }

  lemma KeyDuringBurst(limit: nat, window: int, before: seq<Call>, n: nat, call: Call, key: Key)
    requires window > 0 && Run(limit, window, before).births != [] && Run(limit, window, before).key == key
    requires UnmovedExpiry(key, window, call) && key.count + n <= limit && TrueReading(key, call)
    ensures TrueReading(Run(limit, window, Lengthened(before, n, call)).key, call)
  {
    LengthenedIsRepeat(before, n, call);
    RunRepeated(limit, window, before, n, call);
    BurstAccepted(Run(limit, window, before), limit, window, n, call);
    SameReading(key.count, key.count + n, key.expireAt, call);
  }

  lemma SameReading(a: int, b: int, expireAt: Option<Time>, call: Call)
    ensures TrueReading(Live(a, expireAt), call) <==> TrueReading(Live(b, expireAt), call)
  {
  }

  ghost predicate TrueAfter(limit: nat, window: int, before: seq<Call>, m: nat, call: Call) {
    TrueReading(Run(limit, window, Lengthened(before, m, call)).key, call)
  }

  lemma {:induction false} TrueBurst(limit: nat, window: int, before: seq<Call>, n: nat, call: Call)
    requires TrueReadings(limit, window, before)
    requires forall m: nat :: m < n ==> TrueAfter(limit, window, before, m, call)
    ensures TrueReadings(limit, window, Lengthened(before, n, call))
  {
    if n > 0 {
      TrueBurst(limit, window, before, n - 1, call);
      assert TrueAfter(limit, window, before, n - 1, call);
      TrueSnoc(limit, window, Lengthened(before, n - 1, call), call);
    }
  }

  /** One life of a key, read by a true clock, keeps the readings true. */
  lemma TrueLife(limit: nat, window: nat, w: Time, before: seq<Call>, t: Trace, at: Time, late: Time, reading: nat)
    requires limit > 0 && window > 0 && w == 1000 * window && at <= late <= at + w
    requires reading == (at + w - late + 500) / 1000 && (reading == window ==> late == at)
    requires t == Run(limit, window, before) && Visible(t.key, at).Absent? && TrueReadings(limit, window, before)
    ensures TrueReadings(limit, window, before + [Call(at, window)] + Burst(limit - 1, late, reading))
  {
    RunBirth(limit, window, w, before, t, at);
    TrueSnoc(limit, window, before, Call(at, window));
    var born, call := before + [Call(at, window)], Call(late, reading);
    forall m: nat | m < limit - 1
      ensures TrueAfter(limit, window, born, m, call)
    {
      KeyDuringBurst(limit, window, born, m, call, Live(1, Some(at + w)));
    }
    TrueBurst(limit, window, born, limit - 1, call);
    LengthenedIsRepeat(before + [Call(at, window)], limit - 1, Call(late, reading));
  }

  lemma WorstCaseIsTrue(limit: nat, window: nat, w: Time)
    requires limit > 0 && window > 0 && w == 1000 * window
    ensures TrueReadings(limit, window, WorstCase(limit, window))
  {
    var life := [Call(0, window)] + Burst(limit - 1, w, 0);
    var t := Trace(Live(limit, Some(w)), [0], [Hit(0, 0)] + Repeat(limit - 1, Hit(w, 0)));
    assert Run(limit, window, life) == t && TrueReadings(limit, window, life) by {
      assert [] + [Call(0, window)] == [Call(0, window)];
      LifeAccepted(limit, window, w, [], Trace(Absent, [], []), 0, w, 0);
      TrueLife(limit, window, w, [], Trace(Absent, [], []), 0, w, 0);
    }
    TrueLife(limit, window, w, life, t, w + 1, w + 1, window);
  }

  /** The bound 2 * limit - 1 is reached within two milliseconds, for every limit and
      window, in a run whose TTL readings are all true. */
  lemma WorstCaseReached(limit: nat, window: nat, w: Time)
    requires limit > 0 && window > 0 && w == 1000 * window
    ensures Chronological(WorstCase(limit, window)) && TrueReadings(limit, window, WorstCase(limit, window))
    ensures Count(Run(limit, window, WorstCase(limit, window)).allowed, Within(w, w + 2)) == 2 * limit - 1
  {
    WorstCaseRun(limit, window, w);
    SelectConcat([Hit(0, 0)], WorstTail(limit, w), Within(w, w + 2));
    WorstCaseChronological(limit, window);
    WorstCaseIsTrue(limit, window, w);
    TailAllInside(limit, w);
    CountNone([Hit(0, 0)], Within(w, w + 2));
  }

  // ---------------------------------------------------------------- exactly when the promised bounds hold

  /** What a sliding window would promise of a stretch that starts at `from`. */
  ghost predicate WindowKept(limit: nat, window: nat, calls: seq<Call>, from: Time) {
    Chronological(calls) ==> Count(Run(limit, window, calls).allowed, Within(from, from + 1000 * window)) <= limit
  }

  /** The script keeps the promise of a sliding window, over every run and stretch, if and
      only if the limit is 1. */
  lemma SlidingWindowExactly(limit: nat, window: nat)
    requires limit > 0 && window > 0
    ensures (forall calls: seq<Call>, from: Time :: WindowKept(limit, window, calls, from)) <==> limit == 1
  {
    var w := 1000 * window;
    if limit == 1 {
      forall calls: seq<Call>, from: Time
        ensures WindowKept(limit, window, calls, from)
      {
        if Chronological(calls) {
          AcceptedInAnySpan(limit, window, calls, w, from, w);
        }
      }
    } else {
      var calls := WorstCase(limit, window);
      WorstCaseReached(limit, window, w);
      CountMono(Run(limit, window, calls).allowed, Within(w, w + 2), Within(w, w + w));
      assert !WindowKept(limit, window, calls, w);
    }
  }

  ghost predicate FloorKept(limit: nat, window: nat, width: Time, calls: seq<Call>, from: Time, span: nat)
    requires width > 0
  {
    Chronological(calls) ==>
      Count(Run(limit, window, calls).allowed, Within(from, from + span)) <= (1 + span / width) * limit
  }

  lemma CeilNextToFloor(span: nat, width: nat)
    requires width > 0
    ensures CeilDiv(span, width) <= 1 + span / width
  {
    FloorCovers(span, width);
    var covered := 1 + span / width;
    if covered + 1 <= CeilDiv(span, width) {
      TotalGrows(covered + 1, CeilDiv(span, width), width);
    }
  }

  lemma FloorAtOne(window: nat, width: Time, calls: seq<Call>, from: Time, span: nat)
    requires window > 0 && width == 1000 * window
    ensures FloorKept(1, window, width, calls, from, span)
  {
    if Chronological(calls) {
      AcceptedInAnySpan(1, window, calls, width, from, span);
      CeilNextToFloor(span, width);
    }
  }

  lemma NoWholeWidth(width: Time, limit: nat)
    requires width > 2
    ensures (1 + 2 / width) * limit == limit
  {
    assert 2 / width == 0;
  }

  lemma FloorFails(limit: nat, window: nat, width: Time)
    requires limit > 1 && window > 0 && width == 1000 * window
    ensures !FloorKept(limit, window, width, WorstCase(limit, window), width, 2)
  {
    WorstCaseReached(limit, window, width);
    NoWholeWidth(width, limit);
  }

  /** And likewise the bound with the floor on arbitrary stretches. */
  lemma FloorBoundExactly(limit: nat, window: nat, width: Time)
    requires limit > 0 && window > 0 && width == 1000 * window
    ensures (forall calls: seq<Call>, from: Time, span: nat :: FloorKept(limit, window, width, calls, from, span)) <==> limit == 1
  {
    if limit == 1 {
      forall calls: seq<Call>, from: Time, span: nat
        ensures FloorKept(limit, window, width, calls, from, span)
      {
        FloorAtOne(window, width, calls, from, span);
      }
    } else {
      FloorFails(limit, window, width);
    }
  }

  /** A window under one second reaches the script as 0 (a negative one as itself). EXPIRE
      then deletes the key at once, and every call is accepted, whatever the limit. */
  lemma {:induction false} SubSecondWindowNeverLimits(limit: nat, window: int, calls: seq<Call>)
    requires limit > 0 && window <= 0
    ensures Run(limit, window, calls).key == Absent
    ensures |Run(limit, window, calls).allowed| == |calls|
  {
    if calls != [] {
      SubSecondWindowNeverLimits(limit, window, calls[..|calls| - 1]);
    }
  }

  /** Without a positive limit nothing is ever accepted, whatever the window. */
  lemma {:induction false} NoLimitAcceptsNothing(limit: int, window: int, calls: seq<Call>)
    requires limit <= 0
    ensures Run(limit, window, calls) == Trace(Absent, [], [])
  {
    if calls != [] {
      NoLimitAcceptsNothing(limit, window, calls[..|calls| - 1]);
    }
  }
}
