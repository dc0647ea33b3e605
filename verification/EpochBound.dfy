/** What any counter that is topped up at most once per `width` guarantees about an
    arbitrary stretch of time. Both the per-client token counter and the Redis
    counter are instances: an epoch is the time between two top-ups. */
module EpochBound {
  import opened Prelude

  /** One allowed action: when it happened and the epoch that paid for it. */
  datatype Hit = Hit(at: Time, epoch: nat)

  function Within(from: Time, until: Time): Hit -> bool {
    (h: Hit) => from <= h.at < until
  }

  function Pays(epoch: nat): Hit -> bool {
    (h: Hit) => h.epoch == epoch
  }

  function PaysAmong(first: nat, n: nat): Hit -> bool {
    (h: Hit) => first <= h.epoch < first + n
  }

  function WithinPaidBy(from: Time, until: Time, epoch: nat): Hit -> bool {
    (h: Hit) => from <= h.at < until && h.epoch == epoch
  }

  /** Epoch i starts at starts[i]; starts lie at least `width` apart, hits fall
      inside their epoch, and no epoch pays for more than `cap`. */
  ghost predicate Metered(starts: seq<Time>, hits: seq<Hit>, width: Time, cap: nat) {
    && width > 0
    && (forall i :: 0 < i < |starts| ==> starts[i - 1] + width <= starts[i])
    && (forall h :: h in hits ==> InEpoch(starts, h))
    && (forall e: nat :: Count(hits, Pays(e)) <= cap)
  }

  predicate InEpoch(starts: seq<Time>, h: Hit) {
    && h.epoch < |starts|
    && starts[h.epoch] <= h.at
    && (h.epoch + 1 < |starts| ==> h.at <= starts[h.epoch + 1])
  }

  /** Every epoch begins with a hit of its own. */
  ghost predicate Opened(starts: seq<Time>, hits: seq<Hit>) {
    forall e :: 0 <= e < |starts| ==> Hit(starts[e], e) in hits
  }

  lemma OpenedSnoc(starts: seq<Time>, hits: seq<Hit>, now: Time)
    requires Opened(starts, hits)
    ensures Opened(starts + [now], hits + [Hit(now, |starts|)])
  {
  }

  lemma OpenEpoch(starts: seq<Time>, hits: seq<Hit>, width: Time, cap: nat, now: Time)
    requires Metered(starts, hits, width, cap)
    requires starts != [] ==> starts[|starts| - 1] + width <= now
    requires forall h :: h in hits ==> h.at <= now
    ensures Metered(starts + [now], hits, width, cap)
    ensures Count(hits, Pays(|starts|)) == 0
  {
    forall h | h in hits
      ensures InEpoch(starts + [now], h) && !Pays(|starts|)(h)
    {
      assert InEpoch(starts, h);
    }
    CountNone(hits, Pays(|starts|));
  }

  lemma AddHit(starts: seq<Time>, hits: seq<Hit>, width: Time, cap: nat, now: Time)
    requires Metered(starts, hits, width, cap)
    requires starts != [] && starts[|starts| - 1] <= now
    requires Count(hits, Pays(|starts| - 1)) < cap
    ensures Metered(starts, hits + [Hit(now, |starts| - 1)], width, cap)
    ensures Count(hits + [Hit(now, |starts| - 1)], Pays(|starts| - 1)) == Count(hits, Pays(|starts| - 1)) + 1
  {
    forall e: nat
      ensures Count(hits + [Hit(now, |starts| - 1)], Pays(e)) == Count(hits, Pays(e)) + if e == |starts| - 1 then 1 else 0
    {
      SelectSnoc(hits, Hit(now, |starts| - 1), Pays(e));
    }
  }

  lemma {:induction false} StartsApart(starts: seq<Time>, width: Time, i: nat, j: nat)
    requires forall k :: 0 < k < |starts| ==> starts[k - 1] + width <= starts[k]
    requires i <= j < |starts|
    ensures starts[i] + Total(j - i, width) <= starts[j]
  {
    if i < j {
      StartsApart(starts, width, i, j - 1);
    }
  }

  /** Starts less than `blocks` widths apart are fewer than `blocks` epochs apart. */
  lemma StartsClose(starts: seq<Time>, width: Time, i: nat, j: nat, blocks: nat)
    requires forall k :: 0 < k < |starts| ==> starts[k - 1] + width <= starts[k]
    requires i <= j < |starts| && width > 0 && starts[j] - starts[i] < Total(blocks, width)
    ensures j - i < blocks
  {
    StartsApart(starts, width, i, j);
    if blocks <= j - i {
      TotalGrows(blocks, j - i, width);
    }
  }

  /** `n` consecutive epochs pay for at most `n * cap`. */
  lemma {:induction false} EpochsPay(starts: seq<Time>, hits: seq<Hit>, width: Time, cap: nat, first: nat, n: nat)
    requires Metered(starts, hits, width, cap)
    ensures Count(hits, PaysAmong(first, n)) <= Total(n, cap)
  {
    if n == 0 {
      CountNone(hits, PaysAmong(first, n));
    } else {
      EpochsPay(starts, hits, width, cap, first, n - 1);
      CountUnion(hits, PaysAmong(first, n), PaysAmong(first, n - 1), Pays(first + n - 1));
    }
  }

  /** Hits less than `blocks` widths apart are paid by epochs at most `blocks` apart. */
  lemma EpochsOfSpan(starts: seq<Time>, hits: seq<Hit>, width: Time, g: Hit, h: Hit, blocks: nat)
    requires forall k :: 0 < k < |starts| ==> starts[k - 1] + width <= starts[k]
    requires InEpoch(starts, g) && InEpoch(starts, h) && width > 0
    requires h.at - g.at < Total(blocks, width)
    ensures h.epoch <= g.epoch + blocks
  {
    if h.epoch > g.epoch {
      StartsClose(starts, width, g.epoch + 1, h.epoch, blocks);
    }
  }

  /** The earliest epoch that pays for a hit in the stretch. */
  lemma {:induction false} EarliestPayer(hits: seq<Hit>, from: Time, until: Time) returns (first: Hit)
    requires Count(hits, Within(from, until)) > 0
    ensures first in hits && from <= first.at < until
    ensures forall h :: h in hits && from <= h.at < until ==> first.epoch <= h.epoch
  {
    var front, last := hits[..|hits| - 1], hits[|hits| - 1];
    assert hits == front + [last];
    if Count(front, Within(from, until)) == 0 {
      SelectMembers(front, Within(from, until));
      first := last;
    } else {
      first := EarliestPayer(front, from, until);
      if from <= last.at < until && last.epoch < first.epoch {
        first := last;
      }
    }
  }

  /** Any half-open stretch of length `span` holds at most cap * (1 + ceil(span/width))
      hits; in particular one of length `width` holds at most 2 * cap. */
  lemma AnySpan(starts: seq<Time>, hits: seq<Hit>, width: Time, cap: nat, from: Time, span: nat)
    requires Metered(starts, hits, width, cap)
    ensures Count(hits, Within(from, from + span)) <= (1 + CeilDiv(span, width)) * cap
    ensures Count(hits, Within(from, from + width)) <= 2 * cap
  {
    SpanPaid(starts, hits, width, cap, from, from + span, CeilDiv(span, width));
    TotalIsProduct(1 + CeilDiv(span, width), cap);
    WidthPaid(starts, hits, width, cap, from);
  }

  lemma WidthPaid(starts: seq<Time>, hits: seq<Hit>, width: Time, cap: nat, from: Time)
    requires Metered(starts, hits, width, cap)
    ensures Count(hits, Within(from, from + width)) <= 2 * cap
  {
    assert Total(1, width) == Total(0, width) + width && Total(2, cap) == Total(1, cap) + cap;
    SpanPaid(starts, hits, width, cap, from, from + width, 1);
  }

  lemma SpanPaid(starts: seq<Time>, hits: seq<Hit>, width: Time, cap: nat, from: Time, until: Time, blocks: nat)
    requires Metered(starts, hits, width, cap)
    requires until - from <= Total(blocks, width)
    ensures Count(hits, Within(from, until)) <= Total(1 + blocks, cap)
  {
    TotalGrows(0, 1 + blocks, cap);
    if Count(hits, Within(from, until)) > 0 {
      var first := EarliestPayer(hits, from, until);
      forall h | h in hits && from <= h.at < until
        ensures PaysAmong(first.epoch, 1 + blocks)(h)
      {
        EpochsOfSpan(starts, hits, width, first, h, blocks);
      }
      CountMono(hits, Within(from, until), PaysAmong(first.epoch, 1 + blocks));
      EpochsPay(starts, hits, width, cap, first.epoch, 1 + blocks);
    }
  }

  lemma CountMono(hits: seq<Hit>, p: Hit -> bool, q: Hit -> bool)
    requires forall h :: h in hits && p(h) ==> q(h)
    ensures Count(hits, p) <= Count(hits, q)
  {
    CountUnion(hits, p, q, (h: Hit) => false);
    CountNone(hits, (h: Hit) => false);
  }

  /** Counting from the first start, a closed stretch of length `span` holds at most
      cap * (1 + floor(span/width)) hits. */
  lemma FromTheStart(starts: seq<Time>, hits: seq<Hit>, width: Time, cap: nat, span: nat)
    requires Metered(starts, hits, width, cap)
    requires starts != []
    requires forall h :: h in hits ==> h.at <= starts[0] + span
    ensures |hits| <= (1 + span / width) * cap
  {
    FloorCovers(span, width);
    AllPaid(starts, hits, width, cap, span, 1 + span / width);
    TotalIsProduct(1 + span / width, cap);
  }

  lemma AllPaid(starts: seq<Time>, hits: seq<Hit>, width: Time, cap: nat, span: nat, n: nat)
    requires Metered(starts, hits, width, cap) && starts != []
    requires forall h :: h in hits ==> h.at <= starts[0] + span
    requires span < Total(n, width)
    ensures |hits| <= Total(n, cap)
  {
    forall h | h in hits
      ensures PaysAmong(0, n)(h)
    {
      assert InEpoch(starts, h);
      StartsClose(starts, width, 0, h.epoch, n);
    }
    CountAll(hits, PaysAmong(0, n));
    EpochsPay(starts, hits, width, cap, 0, n);
  }

  lemma {:induction false} CountAll(hits: seq<Hit>, p: Hit -> bool)
    requires forall h :: h in hits ==> p(h)
    ensures Select(hits, p) == hits
  {
    if hits != [] {
      CountAll(hits[..|hits| - 1], p);
      assert hits == hits[..|hits| - 1] + [hits[|hits| - 1]];
    }
  }

  /** When every epoch is opened by a hit of its own, one hit of the last bound is
      always missing: the opening hit of the earliest epoch lies outside. */
  lemma AnySpanOpened(starts: seq<Time>, hits: seq<Hit>, width: Time, cap: nat, from: Time, span: nat)
    requires Metered(starts, hits, width, cap) && cap > 0
    requires Opened(starts, hits)
    ensures Count(hits, Within(from, from + span)) < (1 + CeilDiv(span, width)) * cap
    ensures Count(hits, Within(from, from + width)) < 2 * cap
  {
    OpenedByHits(starts, hits, width, cap, from, from + span, CeilDiv(span, width));
    TotalIsProduct(1 + CeilDiv(span, width), cap);
    WidthOpened(starts, hits, width, cap, from);
  }

  lemma WidthOpened(starts: seq<Time>, hits: seq<Hit>, width: Time, cap: nat, from: Time)
    requires Metered(starts, hits, width, cap) && cap > 0 && Opened(starts, hits)
    ensures Count(hits, Within(from, from + width)) < 2 * cap
  {
    assert Total(1, width) == Total(0, width) + width && Total(2, cap) == Total(1, cap) + cap;
    OpenedByHits(starts, hits, width, cap, from, from + width, 1);
  }

  lemma OpenedByHits(starts: seq<Time>, hits: seq<Hit>, width: Time, cap: nat, from: Time, until: Time, blocks: nat)
    requires Metered(starts, hits, width, cap) && cap > 0
    requires Opened(starts, hits) && until - from <= Total(blocks, width)
    ensures Count(hits, Within(from, until)) < Total(1 + blocks, cap)
  {
    TotalGrows(0, blocks, cap);
    if Count(hits, Within(from, until)) > 0 {
      var first := EarliestPayer(hits, from, until);
      assert InEpoch(starts, first);
      if starts[first.epoch] < from {
        OpenedBefore(starts, hits, width, cap, from, until, blocks, first);
      } else {
        OpenedInside(starts, hits, width, cap, from, until, blocks, first);
      }
    }
  }

  /** If the earliest epoch opened before the stretch, its opening hit is not in it. */
  lemma OpenedBefore(starts: seq<Time>, hits: seq<Hit>, width: Time, cap: nat, from: Time, until: Time, blocks: nat, first: Hit)
    requires Metered(starts, hits, width, cap) && until - from <= Total(blocks, width)
    requires first in hits && from <= first.at < until && first.epoch < |starts|
    requires Hit(starts[first.epoch], first.epoch) in hits && starts[first.epoch] < from
    requires forall h :: h in hits && from <= h.at < until ==> first.epoch <= h.epoch
    ensures Count(hits, Within(from, until)) < Total(blocks, cap) + cap
  {
    var own := WithinPaidBy(from, until, first.epoch);
    forall h | h in hits && from <= h.at < until
      ensures own(h) || PaysAmong(first.epoch + 1, blocks)(h)
    {
      EpochsOfSpan(starts, hits, width, first, h, blocks);
    }
    CountUnion(hits, Within(from, until), own, PaysAmong(first.epoch + 1, blocks));
    EpochsPay(starts, hits, width, cap, first.epoch + 1, blocks);
    CountStrict(hits, own, Pays(first.epoch), Hit(starts[first.epoch], first.epoch));
  }

  /** If the earliest epoch opens inside the stretch, one epoch fewer pays for it. */
  lemma OpenedInside(starts: seq<Time>, hits: seq<Hit>, width: Time, cap: nat, from: Time, until: Time, blocks: nat, first: Hit)
    requires Metered(starts, hits, width, cap) && until - from <= Total(blocks, width)
    requires first in hits && first.epoch < |starts| && from <= starts[first.epoch]
    requires forall h :: h in hits && from <= h.at < until ==> first.epoch <= h.epoch
    ensures Count(hits, Within(from, until)) <= Total(blocks, cap)
  {
    forall h | h in hits && from <= h.at < until
      ensures PaysAmong(first.epoch, blocks)(h)
    {
      assert InEpoch(starts, h);
      StartsClose(starts, width, first.epoch, h.epoch, blocks);
    }
    CountMono(hits, Within(from, until), PaysAmong(first.epoch, blocks));
    EpochsPay(starts, hits, width, cap, first.epoch, blocks);
  }
}
