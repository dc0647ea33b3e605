/** Shared vocabulary: identities, optional and fallible values, and the one
    list function every query of the model is written with. */
module Prelude {
  /** A row, user, device or client identity. The backend draws these at random. */
  type Uuid = nat

  /** The all-zero identity that request validation rejects. */
  const NIL: Uuid := 0

  /** A point on the clock, or a duration. Each module names its unit. */
  type Time = int

  datatype Option<+T> = None | Some(value: T)

  datatype Result<+T, +E> = Ok(value: T) | Err(error: E)

  /** The elements of `s` that satisfy `p`, in order. */
  function Select<T>(s: seq<T>, p: T -> bool): seq<T> {
    if s == [] then []
    else Select(s[..|s| - 1], p) + if p(s[|s| - 1]) then [s[|s| - 1]] else []
  }

  function Count<T>(s: seq<T>, p: T -> bool): nat {
    |Select(s, p)|
  }

  lemma {:induction false} SelectMembers<T>(s: seq<T>, p: T -> bool)
    ensures |Select(s, p)| <= |s|
    ensures forall x | x in Select(s, p) :: x in s && p(x)
    ensures forall x | x in s && p(x) :: x in Select(s, p)
  {
    if s != [] {
      SelectMembers(s[..|s| - 1], p);
      assert s == s[..|s| - 1] + [s[|s| - 1]];
    }
  }

  lemma SelectSnoc<T>(s: seq<T>, x: T, p: T -> bool)
    ensures Select(s + [x], p) == Select(s, p) + (if p(x) then [x] else [])
  {
    assert (s + [x])[..|s|] == s;
  }

  lemma {:induction false} SelectConcat<T>(a: seq<T>, b: seq<T>, p: T -> bool)
    ensures Select(a + b, p) == Select(a, p) + Select(b, p)
  {
    if b == [] {
      assert a + b == a;
    } else {
      var front, last := b[..|b| - 1], b[|b| - 1];
      SelectConcat(a, front, p);
      assert a + b == (a + front) + [last];
      SelectSnoc(a + front, last, p);
      SelectSnoc(front, last, p);
      assert b == front + [last];
    }
  }

  lemma {:induction false} SelectTwice<T>(s: seq<T>, p: T -> bool, q: T -> bool, both: T -> bool)
    requires forall x :: x in s ==> (both(x) <==> p(x) && q(x))
    ensures Select(Select(s, p), q) == Select(s, both)
  {
    if s != [] {
      var front, last := s[..|s| - 1], s[|s| - 1];
      assert s == front + [last];
      SelectTwice(front, p, q, both);
      assert Select(front, p) + [] == Select(front, p);
      if p(last) {
        SelectSnoc(Select(front, p), last, q);
      }
    }
  }

  lemma {:induction false} SelectSame<T>(s: seq<T>, p: T -> bool, q: T -> bool)
    requires forall x :: x in s ==> (p(x) <==> q(x))
    ensures Select(s, p) == Select(s, q)
  {
    if s != [] {
      assert s == s[..|s| - 1] + [s[|s| - 1]];
      SelectSame(s[..|s| - 1], p, q);
    }
  }

  /** A count is at most the sum of counts that together cover it. */
  lemma {:induction false} CountUnion<T>(s: seq<T>, p: T -> bool, q: T -> bool, r: T -> bool)
    requires forall x :: x in s && p(x) ==> q(x) || r(x)
    ensures Count(s, p) <= Count(s, q) + Count(s, r)
  {
    if s != [] {
      assert s == s[..|s| - 1] + [s[|s| - 1]];
      CountUnion(s[..|s| - 1], p, q, r);
    }
  }

  /** Leaving out one counted element makes the count strictly smaller. */
  lemma {:induction false} CountStrict<T>(s: seq<T>, p: T -> bool, q: T -> bool, x: T)
    requires forall y :: y in s && p(y) ==> q(y)
    requires x in s && q(x) && !p(x)
    ensures Count(s, p) < Count(s, q)
  {
    var front, last := s[..|s| - 1], s[|s| - 1];
    assert s == front + [last];
    if x in front {
      CountStrict(front, p, q, x);
    } else {
      CountUnion(front, p, q, q => false);
      CountNone(front, q => false);
    }
  }

  lemma {:induction false} CountNone<T>(s: seq<T>, p: T -> bool)
    requires forall x :: x in s ==> !p(x)
    ensures Select(s, p) == []
  {
    if s != [] {
      assert s == s[..|s| - 1] + [s[|s| - 1]];
      CountNone(s[..|s| - 1], p);
    }
  }

  /** One step of a flag that may be raised or lowered. */
  ghost predicate Follows(k: nat, up: nat -> bool, down: nat -> bool, flag: nat -> bool) {
    flag(k + 1) <==> up(k) || (flag(k) && !down(k))
  }

  ghost predicate RaisedSince(n: nat, up: nat -> bool, down: nat -> bool) {
    exists i: nat :: i < n && up(i) && forall j: nat :: i < j < n ==> !down(j)
  }

  ghost predicate RaisedEver(n: nat, up: nat -> bool) {
    exists i: nat :: i < n && up(i)
  }

  lemma RaisedSinceStep(n: nat, up: nat -> bool, down: nat -> bool)
    ensures RaisedSince(n + 1, up, down) <==> up(n) || (RaisedSince(n, up, down) && !down(n))
  {
    if i: nat :| i < n && up(i) && forall j: nat :: i < j < n ==> !down(j) {
      if !down(n) {
        assert up(i) && forall j: nat :: i < j < n + 1 ==> !down(j);
      }
    }
    if up(n) {
      assert forall j: nat :: n < j < n + 1 ==> !down(j);
    }
  }

  /** A flag that is down at first is up after n steps if and only if some step raised it and
      none has lowered it since. */
  lemma {:induction false} SinceRaised(n: nat, up: nat -> bool, down: nat -> bool, flag: nat -> bool)
    requires !flag(0) && forall k: nat :: k < n ==> Follows(k, up, down, flag)
    ensures flag(n) <==> RaisedSince(n, up, down)
  {
    if n > 0 {
      SinceRaised(n - 1, up, down, flag);
      RaisedSinceStep(n - 1, up, down);
      assert Follows(n - 1, up, down, flag);
    }
  }

  lemma EverStep(n: nat, up: nat -> bool)
    ensures RaisedEver(n + 1, up) <==> RaisedEver(n, up) || up(n)
  {
  }

  /** Raising marks something that was not marked before, and marks stay. */
  ghost predicate Marks(k: nat, up: nat -> bool, mark: nat -> bool) {
    (up(k) ==> mark(k + 1) && !mark(k)) && (mark(k) ==> mark(k + 1))
  }

  ghost predicate Counts(k: nat, down: nat -> bool, flag: nat -> bool, lowered: nat -> nat) {
    lowered(k + 1) == lowered(k) + if flag(k) && down(k) then 1 else 0
  }

  lemma {:induction false} RaisedIsMarked(n: nat, up: nat -> bool, mark: nat -> bool)
    requires RaisedEver(n, up) && forall k: nat :: k < n ==> Marks(k, up, mark)
    ensures mark(n)
  {
    if n > 0 {
      assert Marks(n - 1, up, mark);
      if !up(n - 1) {
        RaisedIsMarked(n - 1, up, mark);
      }
    }
  }

  /** A flag that is raised at most once has been lowered, once, if and only if it was raised
      and is down. */
  lemma {:induction false} LoweredOnce(n: nat, up: nat -> bool, down: nat -> bool, flag: nat -> bool, mark: nat -> bool,
                                       lowered: nat -> nat)
    requires !flag(0) && lowered(0) == 0
    requires forall k: nat :: k < n ==> Follows(k, up, down, flag)
    requires forall k: nat :: k < n ==> Counts(k, down, flag, lowered)
    requires forall k: nat :: k < n ==> Marks(k, up, mark)
    ensures lowered(n) == if RaisedEver(n, up) && !flag(n) then 1 else 0
  {
    if n > 0 {
      var last := n - 1;
      LoweredOnce(last, up, down, flag, mark, lowered);
      SinceRaised(last, up, down, flag);
      assert Follows(last, up, down, flag) && Counts(last, down, flag, lowered) && Marks(last, up, mark);
      EverStep(last, up);
      if up(last) && RaisedEver(last, up) {
        RaisedIsMarked(last, up, mark);
      }
    }
  }

  /** `n` copies of one element. */
  function Repeat<T>(n: nat, x: T): (s: seq<T>)
    ensures |s| == n
  {
    if n == 0 then [] else Repeat(n - 1, x) + [x]
  }

  /** `n` times x, as repeated addition: keeps products out of proofs that only add. */
  function Total(n: nat, x: int): int {
    if n == 0 then 0 else Total(n - 1, x) + x
  }

  lemma {:induction false} TotalIsProduct(n: nat, x: int)
    ensures Total(n, x) == n * x
  {
    if n > 0 {
      TotalIsProduct(n - 1, x);
      assert (n - 1) * x + x == n * x;
    }
  }

  lemma {:induction false} TotalGrows(a: nat, b: nat, x: int)
    requires a <= b && x >= 0
    ensures Total(a, x) <= Total(b, x)
  {
    if a < b {
      TotalGrows(a, b - 1, x);
    }
  }

  /** The least number of blocks of `size` that cover `n`. */
  function CeilDiv(n: nat, size: nat): (blocks: nat)
    requires size > 0
    ensures n <= Total(blocks, size) < n + size
  {
    if n == 0 then 0 else 1 + CeilDiv(if n <= size then 0 else n - size, size)
  }

  lemma CeilDivIsLeast(n: nat, size: nat)
    requires size > 0
    ensures n <= CeilDiv(n, size) * size < n + size
  {
    TotalIsProduct(CeilDiv(n, size), size);
  }

  /** The quotient rounded down, plus one, covers more than `n`. */
  lemma FloorCovers(n: nat, size: nat)
    requires size > 0
    ensures n < Total(1 + n / size, size)
  {
    TotalIsProduct(1 + n / size, size);
  }
}
