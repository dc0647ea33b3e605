/** The token counter each WebSocket client carries: one allowance per message class,
    all topped up together. Times are in nanoseconds. */
module ClientLimiter {
  import opened Prelude
  import opened EpochBound

  const MINUTE: Time := 60_000_000_000

  datatype MsgClass = Typing | ReadReceipt | Presence | CallSignal | Ping

  function MaxOf(c: MsgClass): nat {
    match c
    case Typing => 60
    case ReadReceipt => 120
    case Presence => 30
    case CallSignal => 120
    case Ping => 60
  }

  function ClassOf(msgType: string): Option<MsgClass> {
    if msgType == "typing:start" || msgType == "typing:stop" then Some(Typing)
    else if msgType == "read" then Some(ReadReceipt)
    else if msgType == "presence" then Some(Presence)
    else if msgType == "call" then Some(CallSignal)
    else if msgType == "ping" then Some(Ping)
    else None
  }

  /** Tokens left per class, and when they were last topped up. */
  datatype Limiter = Limiter(typing: nat, readReceipt: nat, presence: nat, callSignal: nat, ping: nat, lastRefill: Time) {
    function Left(c: MsgClass): nat {
      match c
      case Typing => typing
      case ReadReceipt => readReceipt
      case Presence => presence
      case CallSignal => callSignal
      case Ping => ping
    }

    function Spend(c: MsgClass): Limiter
      requires Left(c) > 0
    {
      match c
      case Typing => this.(typing := typing - 1)
      case ReadReceipt => this.(readReceipt := readReceipt - 1)
      case Presence => this.(presence := presence - 1)
      case CallSignal => this.(callSignal := callSignal - 1)
      case Ping => this.(ping := ping - 1)
    }
  }

  function Full(now: Time): Limiter {
    Limiter(60, 120, 30, 120, 60, now)
  }

  function Refill(s: Limiter, now: Time): Limiter {
    if now - s.lastRefill >= MINUTE then Full(now) else s
  }

  /** The class whose allowance pays for the message, if there is one with a token left. */
  function Payer(s: Limiter, msgType: string, now: Time): Option<MsgClass> {
    var cls := ClassOf(msgType);
    if cls.Some? && Refill(s, now).Left(cls.value) > 0 then cls else None
  }

  /** What the limiter answers. */
  predicate Answer(s: Limiter, msgType: string, now: Time) {
    Payer(s, msgType, now).Some?
  }

  function Next(s: Limiter, msgType: string, now: Time): Limiter {
    var payer := Payer(s, msgType, now);
    if payer.Some? then Refill(s, now).Spend(payer.value) else Refill(s, now)
  }

  class ClientRateLimiter {
    var typingTokens: nat
    var readReceiptTokens: nat
    var presenceTokens: nat
    var callTokens: nat
    var pingTokens: nat
    var lastRefill: Time

    function State(): Limiter
      reads this
    {
      Limiter(typingTokens, readReceiptTokens, presenceTokens, callTokens, pingTokens, lastRefill)
    }

    constructor (now: Time)
      ensures State() == Full(now)
    {
      typingTokens := 60;
      readReceiptTokens := 120;
      presenceTokens := 30;
      callTokens := 120;
      pingTokens := 60;
      lastRefill := now;
    }

    method Allow(msgType: string, now: Time) returns (allowed: bool)
      modifies this
      ensures allowed == old(Answer(State(), msgType, now))
      ensures State() == old(Next(State(), msgType, now))
    {
      var elapsed := now - lastRefill;
      if elapsed >= MINUTE {
        RefillTokens();
        lastRefill := now;
      }
      if msgType == "typing:start" || msgType == "typing:stop" {
        if typingTokens > 0 {
          typingTokens := typingTokens - 1;
          return true;
        }
      } else if msgType == "read" {
        if readReceiptTokens > 0 {
          readReceiptTokens := readReceiptTokens - 1;
          return true;
        }
      } else if msgType == "presence" {
        if presenceTokens > 0 {
          presenceTokens := presenceTokens - 1;
          return true;
        }
      } else if msgType == "call" {
        if callTokens > 0 {
          callTokens := callTokens - 1;
          return true;
        }
      } else if msgType == "ping" {
        if pingTokens > 0 {
          pingTokens := pingTokens - 1;
          return true;
        }
      }
      return false;
    }

    method RefillTokens()
      modifies this
      ensures State() == Full(old(lastRefill))
    {
      typingTokens := 60;
      readReceiptTokens := 120;
      presenceTokens := 30;
      callTokens := 120;
      pingTokens := 60;
    }
  }

  // ---------------------------------------------------------------- runs

  datatype Call = Call(msgType: string, at: Time)

  predicate Chronological(born: Time, calls: seq<Call>) {
    && (forall i :: 0 <= i < |calls| ==> born <= calls[i].at)
    && (forall i, j :: 0 <= i < j < |calls| ==> calls[i].at <= calls[j].at)
  }

  /** A run seen from one message class: the limiter, the moments its allowances were
      full (creation, then every refill), and the allowed calls of the class, each with
      the refill that paid for it. */
  datatype Trace = Trace(limiter: Limiter, born: Time, refills: seq<Time>, allowed: seq<Hit>) {
    function Starts(): seq<Time> {
      [born] + refills
    }
  }

  function Extend(t: Trace, call: Call, c: MsgClass): Trace {
    var refills := t.refills + if call.at - t.limiter.lastRefill >= MINUTE then [call.at] else [];
    var paid := Payer(t.limiter, call.msgType, call.at) == Some(c);
    Trace(Next(t.limiter, call.msgType, call.at), t.born, refills,
          t.allowed + if paid then [Hit(call.at, |refills|)] else [])
  }

  function Run(born: Time, calls: seq<Call>, c: MsgClass): Trace {
    if calls == [] then Trace(Full(born), born, [], [])
    else Extend(Run(born, calls[..|calls| - 1], c), calls[|calls| - 1], c)
  }

  /** What is left and what was spent since the last refill make up the allowance. */
  ghost predicate Conserved(t: Trace, c: MsgClass) {
    t.limiter.Left(c) + Count(t.allowed, Pays(|t.refills|)) == MaxOf(c)
  }

  ghost predicate Sound(t: Trace, c: MsgClass, now: Time) {
    && Conserved(t, c)
    && t.limiter.lastRefill == t.Starts()[|t.refills|] <= now
    && (forall h :: h in t.allowed ==> h.at <= now)
    && Metered(t.Starts(), t.allowed, MINUTE, MaxOf(c))
  }

  /** What the refill part of a call does to the record. */
  function Refilled(t: Trace, now: Time): Trace {
    if now - t.limiter.lastRefill >= MINUTE then t.(limiter := Full(now), refills := t.refills + [now]) else t
  }

  lemma RefilledSound(t: Trace, c: MsgClass, now: Time)
    requires Sound(t, c, now)
    ensures Sound(Refilled(t, now), c, now)
  {
    if now - t.limiter.lastRefill >= MINUTE {
      OpenEpoch(t.Starts(), t.allowed, MINUTE, MaxOf(c), now);
      assert Refilled(t, now).Starts() == t.Starts() + [now];
    }
  }

  lemma PaidSound(t: Trace, c: MsgClass, now: Time)
    requires Sound(t, c, now) && t.limiter.Left(c) > 0
    ensures Sound(t.(limiter := t.limiter.Spend(c), allowed := t.allowed + [Hit(now, |t.refills|)]), c, now)
  {
    AddHit(t.Starts(), t.allowed, MINUTE, MaxOf(c), now);
  }

  lemma OtherPaidSound(t: Trace, c: MsgClass, other: MsgClass, now: Time)
    requires Sound(t, c, now) && other != c && t.limiter.Left(other) > 0
    ensures Sound(t.(limiter := t.limiter.Spend(other)), c, now)
  {
    assert t.limiter.Spend(other).Left(c) == t.limiter.Left(c);
  }

  /** A call is a refill step followed by a payment step, either of which may do nothing. */
  lemma ExtendInTwoSteps(t: Trace, call: Call, c: MsgClass)
    ensures var r, payer := Refilled(t, call.at), Payer(t.limiter, call.msgType, call.at);
      && (payer.Some? ==> r.limiter.Left(payer.value) > 0)
      && Extend(t, call, c) ==
         if payer.None? then r
         else if payer.value == c then r.(limiter := r.limiter.Spend(c), allowed := r.allowed + [Hit(call.at, |r.refills|)])
         else r.(limiter := r.limiter.Spend(payer.value))
  {
    assert Refilled(t, call.at).limiter == Refill(t.limiter, call.at);
  }

  lemma ExtendSound(t: Trace, call: Call, c: MsgClass)
    requires Sound(t, c, call.at)
    ensures Sound(Extend(t, call, c), c, call.at)
  {
    RefilledSound(t, c, call.at);
    ExtendInTwoSteps(t, call, c);
    var payer := Payer(t.limiter, call.msgType, call.at);
    if payer == Some(c) {
      PaidSound(Refilled(t, call.at), c, call.at);
    } else if payer.Some? {
      OtherPaidSound(Refilled(t, call.at), c, payer.value, call.at);
    }
  }

  lemma {:induction false} RunSound(born: Time, calls: seq<Call>, c: MsgClass, now: Time)
    requires Chronological(born, calls) && born <= now && forall i :: 0 <= i < |calls| ==> calls[i].at <= now
    ensures Sound(Run(born, calls, c), c, now) && Run(born, calls, c).born == born
  {
    if calls != [] {
      var last := calls[|calls| - 1];
      RunSound(born, calls[..|calls| - 1], c, last.at);
      ExtendSound(Run(born, calls[..|calls| - 1], c), last, c);
    }
  }

  /** Conservation: in every run, the tokens a class has left plus the calls allowed to
      it since the last refill are exactly its allowance. */
  lemma TokensConserved(born: Time, calls: seq<Call>, c: MsgClass)
    requires Chronological(born, calls)
    ensures Conserved(Run(born, calls, c), c)
  {
    RunSound(born, calls, c, if calls == [] then born else calls[|calls| - 1].at);
  }

  /** Refills are at least a minute apart and each pays for one allowance at most. */
  lemma RunMetered(born: Time, calls: seq<Call>, c: MsgClass)
    requires Chronological(born, calls)
    ensures Metered(Run(born, calls, c).Starts(), Run(born, calls, c).allowed, MINUTE, MaxOf(c))
  {
    RunSound(born, calls, c, if calls == [] then born else calls[|calls| - 1].at);
  }

  /** Any stretch of time: at most 1 + ceil(span/minute) allowances per class. */
  lemma AllowedInAnySpan(born: Time, calls: seq<Call>, c: MsgClass, from: Time, span: nat)
    requires Chronological(born, calls)
    ensures Count(Run(born, calls, c).allowed, Within(from, from + span)) <= (1 + CeilDiv(span, MINUTE)) * MaxOf(c)
  {
    RunMetered(born, calls, c);
    AnySpan(Run(born, calls, c).Starts(), Run(born, calls, c).allowed, MINUTE, MaxOf(c), from, span);
  }

  /** No half-open minute sees more than two allowances of a class. */
  lemma AllowedInAnyMinute(born: Time, calls: seq<Call>, c: MsgClass, from: Time)
    requires Chronological(born, calls)
    ensures Count(Run(born, calls, c).allowed, Within(from, from + MINUTE)) <= 2 * MaxOf(c)
  {
    RunMetered(born, calls, c);
    AnySpan(Run(born, calls, c).Starts(), Run(born, calls, c).allowed, MINUTE, MaxOf(c), from, MINUTE);
  }

  /** From creation: at most 1 + floor(span/minute) allowances per class. */
  lemma AllowedSinceCreation(born: Time, calls: seq<Call>, c: MsgClass, span: nat)
    requires Chronological(born, calls) && forall i :: 0 <= i < |calls| ==> calls[i].at <= born + span
    ensures |Run(born, calls, c).allowed| <= (1 + span / MINUTE) * MaxOf(c)
  {
    RunSound(born, calls, c, born + span);
    FromTheStart(Run(born, calls, c).Starts(), Run(born, calls, c).allowed, MINUTE, MaxOf(c), span);
  }

  // ---------------------------------------------------------------- the limiter's answers

  /** A call and what the limiter answered. */
  datatype Answered = Answered(msgType: string, at: Time, allowed: bool)

  function LimiterAfter(born: Time, calls: seq<Call>): Limiter {
    if calls == [] then Full(born)
    else
      var last := calls[|calls| - 1];
      Next(LimiterAfter(born, calls[..|calls| - 1]), last.msgType, last.at)
  }

  function Log(born: Time, calls: seq<Call>): seq<Answered> {
    if calls == [] then []
    else
      var front, last := calls[..|calls| - 1], calls[|calls| - 1];
      Log(born, front) + [Answered(last.msgType, last.at, Answer(LimiterAfter(born, front), last.msgType, last.at))]
  }

  /** When all allowances were last topped up: at creation, or at the last call that came a
      minute or more after the top-up before it. */
  function LastTopUp(born: Time, log: seq<Answered>): Time {
    if log == [] then born
    else
      var before, last := LastTopUp(born, log[..|log| - 1]), log[|log| - 1];
      if last.at - before >= 60_000_000_000 then last.at else before
  }

  /** The calls from the last top-up on. */
  function SinceTopUp(born: Time, log: seq<Answered>): seq<Answered> {
    if log == [] then []
    else
      var front, last := log[..|log| - 1], log[|log| - 1];
      if last.at - LastTopUp(born, front) >= 60_000_000_000 then [last] else SinceTopUp(born, front) + [last]
  }

  /** The calls that count at `now`: none if a top-up is due. */
  function Counting(born: Time, log: seq<Answered>, now: Time): seq<Answered> {
    if now - LastTopUp(born, log) >= 60_000_000_000 then [] else SinceTopUp(born, log)
  }

  function AllowedOf(kinds: set<string>): Answered -> bool {
    (a: Answered) => a.allowed && a.msgType in kinds
  }

  /** The messages and maximum of each allowance, as the limits say them. */
  predicate Allowance(kinds: set<string>, most: nat) {
    || (kinds == {"typing:start", "typing:stop"} && most == 60)
    || (kinds == {"read"} && most == 120)
    || (kinds == {"presence"} && most == 30)
    || (kinds == {"call"} && most == 120)
    || (kinds == {"ping"} && most == 60)
  }

  function KindsOf(c: MsgClass): set<string> {
    match c
    case Typing => {"typing:start", "typing:stop"}
    case ReadReceipt => {"read"}
    case Presence => {"presence"}
    case CallSignal => {"call"}
    case Ping => {"ping"}
  }

  lemma ClassesAreKinds(c: MsgClass, msgType: string)
    ensures ClassOf(msgType) == Some(c) <==> msgType in KindsOf(c)
    ensures Allowance(KindsOf(c), MaxOf(c))
  {
  }

  lemma KindsOfOneClass(kinds: set<string>, most: nat) returns (c: MsgClass)
    requires Allowance(kinds, most)
    ensures kinds == KindsOf(c) && most == MaxOf(c)
  {
    if kinds == KindsOf(Typing) && most == 60 {
      c := Typing;
    } else if kinds == KindsOf(ReadReceipt) && most == 120 {
      c := ReadReceipt;
    } else if kinds == KindsOf(Presence) && most == 30 {
      c := Presence;
    } else if kinds == KindsOf(CallSignal) && most == 120 {
      c := CallSignal;
    } else {
      c := Ping;
    }
  }

  /** What the limiter holds is what the answers since the last top-up leave. */
  ghost predicate Agrees(s: Limiter, born: Time, log: seq<Answered>, c: MsgClass) {
    && s.lastRefill == LastTopUp(born, log)
    && s.Left(c) + Count(SinceTopUp(born, log), AllowedOf(KindsOf(c))) == MaxOf(c)
  }

  /** Topping up when it is due leaves what the counting calls leave. */
  lemma RefillAgrees(s: Limiter, born: Time, log: seq<Answered>, c: MsgClass, now: Time)
    requires Agrees(s, born, log, c)
    ensures Refill(s, now).Left(c) + Count(Counting(born, log, now), AllowedOf(KindsOf(c))) == MaxOf(c)
  {
  }

  lemma SpendAgrees(s: Limiter, c: MsgClass, msgType: string, now: Time)
    ensures Next(s, msgType, now).Left(c) ==
            Refill(s, now).Left(c) - if Answer(s, msgType, now) && msgType in KindsOf(c) then 1 else 0
    ensures Next(s, msgType, now).lastRefill == Refill(s, now).lastRefill
  {
    ClassesAreKinds(c, msgType);
  }

  lemma LogGrows(born: Time, log: seq<Answered>, a: Answered, c: MsgClass)
    ensures SinceTopUp(born, log + [a]) == Counting(born, log, a.at) + [a]
    ensures LastTopUp(born, log + [a]) == if a.at - LastTopUp(born, log) >= 60_000_000_000 then a.at else LastTopUp(born, log)
    ensures Count(SinceTopUp(born, log + [a]), AllowedOf(KindsOf(c))) ==
            Count(Counting(born, log, a.at), AllowedOf(KindsOf(c))) + if a.allowed && a.msgType in KindsOf(c) then 1 else 0
  {
    assert (log + [a])[..|log|] == log;
    assert [] + [a] == [a];
    SelectSnoc(Counting(born, log, a.at), a, AllowedOf(KindsOf(c)));
  }

  lemma AgreesStep(s: Limiter, born: Time, log: seq<Answered>, c: MsgClass, msgType: string, now: Time)
    requires Agrees(s, born, log, c)
    ensures Agrees(Next(s, msgType, now), born, log + [Answered(msgType, now, Answer(s, msgType, now))], c)
  {
    RefillAgrees(s, born, log, c, now);
    SpendAgrees(s, c, msgType, now);
    LogGrows(born, log, Answered(msgType, now, Answer(s, msgType, now)), c);
  }

  lemma {:induction false} LogAgrees(born: Time, calls: seq<Call>, c: MsgClass)
    ensures Agrees(LimiterAfter(born, calls), born, Log(born, calls), c)
  {
    if calls != [] {
      var front, last := calls[..|calls| - 1], calls[|calls| - 1];
      LogAgrees(born, front, c);
      AgreesStep(LimiterAfter(born, front), born, Log(born, front), c, last.msgType, last.at);
    }
  }

  /** The answer to a call of a listed kind: yes if and only if fewer calls of its allowance
      than the maximum were allowed among those that count. */
  lemma AnswerExactly(born: Time, calls: seq<Call>, kinds: set<string>, most: nat, msgType: string, now: Time)
    requires Allowance(kinds, most) && msgType in kinds
    ensures Answer(LimiterAfter(born, calls), msgType, now) <==>
            Count(Counting(born, Log(born, calls), now), AllowedOf(kinds)) < most
  {
    var c := KindsOfOneClass(kinds, most);
    ClassesAreKinds(c, msgType);
    LogAgrees(born, calls, c);
    RefillAgrees(LimiterAfter(born, calls), born, Log(born, calls), c, now);
  }

  /** The records of the bounds above and the logs of answers are of the same limiter. */
  lemma {:induction false} SameLimiter(born: Time, calls: seq<Call>, c: MsgClass)
    ensures Run(born, calls, c).limiter == LimiterAfter(born, calls)
  {
    if calls != [] {
      SameLimiter(born, calls[..|calls| - 1], c);
    }
  }

  /** The answer in a log is the limiter's answer to the calls before it. */
  lemma {:induction false} LogAt(born: Time, calls: seq<Call>, i: nat)
    requires i < |calls|
    ensures |Log(born, calls)| == |calls| && Log(born, calls)[..i] == Log(born, calls[..i])
    ensures Log(born, calls)[i] == Answered(calls[i].msgType, calls[i].at,
              Answer(LimiterAfter(born, calls[..i]), calls[i].msgType, calls[i].at))
  {
    var n := |calls| - 1;
    LogLength(born, calls);
    LogLength(born, calls[..n]);
    if i < n {
      assert calls[..n][..i] == calls[..i];
      LogAt(born, calls[..n], i);
      assert Log(born, calls)[..i] == Log(born, calls[..n])[..i];
    } else {
      assert Log(born, calls)[..n] == Log(born, calls[..n]);
    }
  }

  lemma {:induction false} LogLength(born: Time, calls: seq<Call>)
    ensures |Log(born, calls)| == |calls|
  {
    if calls != [] {
      LogLength(born, calls[..|calls| - 1]);
    }
  }

  /** Over every run each call is allowed if and only if its message is one of the six listed
      and fewer calls of its allowance than the maximum were allowed since the last top-up
      that counts then: 60 typing messages of either kind, 120 "read", 30 "presence",
      120 "call", 60 "ping". */
  lemma AllowsExactly(born: Time, calls: seq<Call>, i: nat)
    requires i < |calls|
    ensures var log := Log(born, calls);
      |log| == |calls| && log[i].msgType == calls[i].msgType && log[i].at == calls[i].at &&
      (log[i].allowed <==>
        var counting := Counting(born, log[..i], calls[i].at);
        || (calls[i].msgType in {"typing:start", "typing:stop"} && Count(counting, AllowedOf({"typing:start", "typing:stop"})) < 60)
        || (calls[i].msgType == "read" && Count(counting, AllowedOf({"read"})) < 120)
        || (calls[i].msgType == "presence" && Count(counting, AllowedOf({"presence"})) < 30)
        || (calls[i].msgType == "call" && Count(counting, AllowedOf({"call"})) < 120)
        || (calls[i].msgType == "ping" && Count(counting, AllowedOf({"ping"})) < 60))
  {
    LogAt(born, calls, i);
    var front, call := calls[..i], calls[i];
    if call.msgType in {"typing:start", "typing:stop"} {
      AnswerExactly(born, front, {"typing:start", "typing:stop"}, 60, call.msgType, call.at);
    } else if call.msgType == "read" {
      AnswerExactly(born, front, {"read"}, 120, call.msgType, call.at);
    } else if call.msgType == "presence" {
      AnswerExactly(born, front, {"presence"}, 30, call.msgType, call.at);
    } else if call.msgType == "call" {
      AnswerExactly(born, front, {"call"}, 120, call.msgType, call.at);
    } else if call.msgType == "ping" {
      AnswerExactly(born, front, {"ping"}, 60, call.msgType, call.at);
    }
  }

  // ---------------------------------------------------------------- a whole allowance can be used

  function Burst(n: nat, msgType: string, at: Time): seq<Call> {
    Repeat(n, Call(msgType, at))
  }

  /** While a burst within the first minute stays below the maximum, every call of it counts
      and was allowed. */
  lemma {:induction false} BurstCounts(born: Time, kinds: set<string>, most: nat, msgType: string, at: Time, n: nat)
    requires Allowance(kinds, most) && msgType in kinds && n <= most && at - born < 60_000_000_000
    ensures var log := Log(born, Burst(n, msgType, at));
      LastTopUp(born, log) == born && SinceTopUp(born, log) == Repeat(n, Answered(msgType, at, true))
  {
    if n > 0 {
      BurstCounts(born, kinds, most, msgType, at, n - 1);
      var before := Burst(n - 1, msgType, at);
      assert Burst(n, msgType, at)[..n - 1] == before;
      AllCount(Answered(msgType, at, true), kinds, n - 1);
      AnswerExactly(born, before, kinds, most, msgType, at);
      LogGrows(born, Log(born, before), Answered(msgType, at, true), Ping);
    }
  }

  lemma AllCount(a: Answered, kinds: set<string>, n: nat)
    requires a.allowed && a.msgType in kinds
    ensures Count(Repeat(n, a), AllowedOf(kinds)) == n
  {
    for i := 0 to n
      invariant Count(Repeat(i, a), AllowedOf(kinds)) == i
    {
      OneMoreCounts(Repeat(i, a), a, AllowedOf(kinds));
      assert Repeat(i + 1, a) == Repeat(i, a) + [a];
    }
  }

  lemma OneMoreCounts(log: seq<Answered>, a: Answered, p: Answered -> bool)
    requires p(a)
    ensures Count(log + [a], p) == Count(log, p) + 1
  {
    SelectSnoc(log, a, p);
  }

  /** A whole allowance can be used up at once: of calls of one listed kind in the first
      minute, at one instant, exactly the maximum is allowed and the next one is refused. */
  lemma WholeAllowance(born: Time, kinds: set<string>, most: nat, msgType: string, at: Time, n: nat)
    requires Allowance(kinds, most) && msgType in kinds && at - born < 60_000_000_000 && n <= most
    ensures Answer(LimiterAfter(born, Burst(n, msgType, at)), msgType, at) <==> n < most
  {
    BurstCounts(born, kinds, most, msgType, at, n);
    AllCount(Answered(msgType, at, true), kinds, n);
    AnswerExactly(born, Burst(n, msgType, at), kinds, most, msgType, at);
  }
}
