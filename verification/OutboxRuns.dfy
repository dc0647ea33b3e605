/** What the outbox guarantees over whole runs with one worker: inserts may fall between
    any two events the worker handles, and every call may fail. */
module OutboxRuns {
  import opened Prelude
  import opened Outbox

  datatype Event =
    | Insert(id: Uuid, createdAt: Time, decodable: bool)
    | Poll(batch: seq<Snapshot>)
    | Work(faults: Faults)

  ghost predicate Enabled(w: World, e: Event) {
    match e
    case Insert(id, _, _) => id !in w.rows
    case Poll(batch) => w.queue == [] && IsPendingBatch(w.rows, BATCH_SIZE, batch)
    case Work(_) => w.queue != []
  }

  function Apply(w: World, e: Event): World {
    match e
    case Insert(id, createdAt, decodable) => w.(rows := w.rows[id := Fresh(createdAt, decodable)])
    case Poll(batch) => w.(queue := batch)
    case Work(faults) => if w.queue == [] then w else Handle(w, faults)
  }

  ghost predicate Feasible(w: World, es: seq<Event>)
    decreases |es|
  {
    es == [] || (Enabled(w, es[0]) && Feasible(Apply(w, es[0]), es[1..]))
  }

  function Run(w: World, es: seq<Event>): World
    decreases |es|
  {
    if es == [] then w else Run(Apply(w, es[0]), es[1..])
  }

  const Empty := World(map[], [], [])

  // ---------------------------------------------------------------- what every state keeps

  ghost predicate NoRepeats(s: seq<Uuid>) {
    forall i, j :: 0 <= i < j < |s| ==> s[i] != s[j]
  }

  /** PENDING rows are untouched: never retried, never published. */
  ghost predicate PendingIsFresh(w: World) {
    && (forall id :: id in w.rows && w.rows[id].status == Pending ==> w.rows[id].retryCount == 0)
    && (forall id :: id in w.attempts ==> id in w.rows && w.rows[id].status != Pending)
  }

  /** The batch in hand is still PENDING and unchanged since the poll. */
  ghost predicate QueueIsCurrent(w: World) {
    && Distinct(w.queue)
    && (forall s :: s in w.queue ==> s.id in w.rows && w.rows[s.id] == s.row && s.row.status == Pending)
  }

  /** Only events that cannot be decoded ever fail; only published ones complete. */
  ghost predicate OutcomesExplained(w: World) {
    && (forall id :: id in w.rows && w.rows[id].status == Failed ==> !w.rows[id].decodable)
    && (forall id :: id in w.rows && w.rows[id].status == Completed ==> id in w.attempts)
  }

  ghost predicate Inv(w: World) {
    NoRepeats(w.attempts) && PendingIsFresh(w) && QueueIsCurrent(w) && OutcomesExplained(w)
  }

  /** How a later state may differ: more rows, more attempts, and a row changes only by
      leaving PENDING, with its event's identity kept. */
  ghost predicate Evolves(w: World, w': World) {
    && w.attempts <= w'.attempts
    && (forall id :: id in w.rows ==> id in w'.rows)
    && (forall id :: id in w.rows && w.rows[id].status != Pending ==> w'.rows[id] == w.rows[id])
    && (forall id :: id in w.rows ==>
          w'.rows[id].createdAt == w.rows[id].createdAt && w'.rows[id].decodable == w.rows[id].decodable)
  }

  lemma HandleKeeps(w: World, f: Faults)
    requires Inv(w) && w.queue != []
    ensures Inv(Handle(w, f)) && Evolves(w, Handle(w, f))
    ensures !f.claim ==> Handle(w, f).rows[w.queue[0].id].status != Pending
  {
    assert w.queue[0] in w.queue;
    HandleKeepsQueue(w, f);
  }

  lemma HandleKeepsQueue(w: World, f: Faults)
    requires QueueIsCurrent(w) && w.queue != []
    ensures QueueIsCurrent(Handle(w, f))
  {
    var s, w' := w.queue[0], Handle(w, f);
    forall q | q in w'.queue
      ensures q in w.queue && q.id != s.id
    {
      var i :| 0 <= i < |w'.queue| && w'.queue[i] == q;
      assert w.queue[i + 1] == q;
    }
    assert Distinct(w'.queue) by {
      forall i, j | 0 <= i < j < |w'.queue|
        ensures w'.queue[i].id != w'.queue[j].id
      {
        assert w.queue[i + 1].id != w.queue[j + 1].id;
      }
    }
  }

  lemma StepKeeps(w: World, e: Event)
    requires Inv(w) && Enabled(w, e)
    ensures Inv(Apply(w, e)) && Evolves(w, Apply(w, e))
  {
    if e.Work? {
      HandleKeeps(w, e.faults);
    }
  }

  /** Over any run: no event is passed to Publish twice, no row returns to PENDING, and a
      row that has left PENDING never changes again. */
  lemma {:induction false} RunKeeps(w: World, es: seq<Event>)
    requires Inv(w) && Feasible(w, es)
    ensures Inv(Run(w, es)) && Evolves(w, Run(w, es))
    decreases |es|
  {
    if es != [] {
      StepKeeps(w, es[0]);
      RunKeeps(Apply(w, es[0]), es[1..]);
    }
  }

  /** From an empty table, every event reaches Publish at most once. */
  lemma PublishedAtMostOnce(es: seq<Event>)
    requires Feasible(Empty, es)
    ensures NoRepeats(Run(Empty, es).attempts)
    ensures Inv(Run(Empty, es))
  {
    RunKeeps(Empty, es);
  }

  /** A publish failure is final. Whatever the retry and failure updates do, the row ends
      PROCESSING with one retry counted, if that update succeeds, and no continuation ever touches or
      publishes it again: the retry limit is never reached. */
  lemma FailedPublishIsNeverRetried(w: World, f: Faults, es: seq<Event>)
    requires Inv(w) && w.queue != [] && !f.claim && f.publish && w.queue[0].row.decodable
    requires Feasible(Handle(w, f), es)
    ensures var id, w', later := w.queue[0].id, Handle(w, f), Run(Handle(w, f), es);
      && w'.rows[id].status == Processing && w'.rows[id].retryCount == (if f.retry then 0 else 1)
      && w'.attempts[|w'.attempts| - 1] == id
      && id in later.rows && later.rows[id] == w'.rows[id]
      && w'.attempts <= later.attempts
      && (forall k :: |w'.attempts| <= k < |later.attempts| ==> later.attempts[k] != id)
  {
    assert w.queue[0] in w.queue;
    HandleKeeps(w, f);
    RunKeeps(Handle(w, f), es);
  }

  /** What becomes of one event, exactly: it is published unless the claim fails or it
      cannot be decoded; it completes when, further, publishing and the final update
      succeed; it fails only for not being decodable. */
  lemma HandledExactly(w: World, f: Faults)
    requires Inv(w) && w.queue != []
    ensures var id, row, w' := w.queue[0].id, w.queue[0].row, Handle(w, f);
      && w'.attempts == w.attempts + (if f.claim || !row.decodable then [] else [id])
      && (w'.rows[id].status == Completed <==> !f.claim && row.decodable && !f.publish && !f.complete)
      && (w'.rows[id].status == Completed ==> w'.rows[id].processedAt == Some(f.now))
      && (w'.rows[id].status == Failed <==> !f.claim && !row.decodable && !f.fail)
      && (w'.rows[id].status == Pending <==> f.claim)
      && (w'.rows[id].status == Failed ==> w'.rows[id].error == "failed to unmarshal")
      && (forall k :: k in w.rows && k != id ==> w'.rows[k] == w.rows[k])
  {
    assert w.queue[0] in w.queue;
  }

  /** Two workers that hold the same row, one after the other. */
  function HandledTwice(w: World, f: Faults, g: Faults): World
    requires w.queue != []
  {
    Handle(Handle(w, f).(queue := [w.queue[0]]), g)
  }

  /** With a second worker the guarantee is gone: a row both hold is published once at most
      if and only if one of the two claims fails or its payload cannot be decoded. */
  lemma TwoWorkersPublishTwice(w: World, f: Faults, g: Faults)
    requires Inv(w) && w.queue != []
    ensures NoRepeats(HandledTwice(w, f, g).attempts) <==> f.claim || g.claim || !w.queue[0].row.decodable
  {
    var id, n := w.queue[0].id, |w.attempts|;
    assert w.queue[0] in w.queue;
    var second := HandledTwice(w, f, g);
    assert id !in w.attempts;
    if f.claim || g.claim || !w.queue[0].row.decodable {
      assert second.attempts == w.attempts || second.attempts == w.attempts + [id];
    } else {
      assert second.attempts == w.attempts + [id] + [id];
      assert second.attempts[n] == second.attempts[n + 1];
    }
  }

  /** Any decodable event comes to that: insert it into an empty table, let both workers
      poll, and let every call succeed. */
  lemma TwoWorkersReachable(id: Uuid, createdAt: Time, f: Faults, g: Faults)
    requires !f.claim && !g.claim
    ensures var row := Outbox.Fresh(createdAt, true);
      var es := [Insert(id, createdAt, true), Poll([Snapshot(id, row)])];
      && Feasible(Empty, es) && Run(Empty, es).queue == [Snapshot(id, row)]
      && IsPendingBatch(Run(Empty, es).rows, BATCH_SIZE, [Snapshot(id, row)])
      && HandledTwice(Run(Empty, es), f, g).attempts == [id, id]
  {
    var row := Outbox.Fresh(createdAt, true);
    var poll := Poll([Snapshot(id, row)]);
    var es := [Insert(id, createdAt, true), poll];
    var inserted := Apply(Empty, es[0]);
    assert EligibleIds(inserted.rows) == {id};
    assert es[1..] == [poll] && [poll][1..] == [];
    assert IdsOf(poll.batch)[0] == id;
    assert Feasible(inserted, [poll]);
    assert Run(inserted, [poll]) == Apply(inserted, poll);
  }

  // ---------------------------------------------------------------- order

  /** Inserts carry non-decreasing creation times and every claim succeeds. */
  ghost predicate Orderly(w: World, es: seq<Event>)
    decreases |es|
  {
    es == [] ||
    (&& (es[0].Insert? ==> forall id :: id in w.rows ==> w.rows[id].createdAt <= es[0].createdAt)
     && (es[0].Work? ==> !es[0].faults.claim)
     && Orderly(Apply(w, es[0]), es[1..]))
  }

  ghost predicate InOrder(rows: Rows, ids: seq<Uuid>) {
    && (forall id :: id in ids ==> id in rows)
    && (forall i, j :: 0 <= i < j < |ids| ==> rows[ids[i]].createdAt <= rows[ids[j]].createdAt)
  }

  /** Everything published so far is no younger than anything still to be published, and
      everything in hand no younger than anything waiting. */
  ghost predicate Ordered(w: World) {
    && InOrder(w.rows, w.attempts)
    && OldestFirst(w.queue)
    && (forall a, id :: a in w.attempts && id in w.rows && w.rows[id].status == Pending ==>
          w.rows[a].createdAt <= w.rows[id].createdAt)
    && (forall s, id :: s in w.queue && id in w.rows && w.rows[id].status == Pending && id !in IdsOf(w.queue) ==>
          s.row.createdAt <= w.rows[id].createdAt)
  }

  /** The event in hand is no younger than anything still PENDING. */
  lemma HeadIsOldest(w: World, id: Uuid)
    requires Inv(w) && Ordered(w) && w.queue != []
    requires id in w.rows && w.rows[id].status == Pending
    ensures w.queue[0].row.createdAt <= w.rows[id].createdAt
  {
    assert w.queue[0] in w.queue;
    if id in IdsOf(w.queue) {
      var i :| 0 <= i < |w.queue| && IdsOf(w.queue)[i] == id;
      assert w.queue[i] in w.queue;
    }
  }

  lemma HandleKeepsAttemptOrder(w: World, f: Faults)
    requires Inv(w) && Ordered(w) && w.queue != [] && !f.claim
    ensures InOrder(Handle(w, f).rows, Handle(w, f).attempts)
  {
    assert w.queue[0] in w.queue;
    assert w.rows[w.queue[0].id].status == Pending;
  }

  lemma HandleKeepsQueueOrder(w: World, f: Faults)
    requires Inv(w) && Ordered(w) && w.queue != []
    ensures OldestFirst(Handle(w, f).queue)
    ensures forall s :: s in Handle(w, f).queue ==> s in w.queue
    ensures forall id :: id in IdsOf(w.queue) ==> id == w.queue[0].id || id in IdsOf(Handle(w, f).queue)
  {
    var rest := Handle(w, f).queue;
    assert IdsOf(w.queue) == [w.queue[0].id] + IdsOf(rest);
    forall i, j | 0 <= i < j < |rest|
      ensures rest[i].row.createdAt <= rest[j].row.createdAt
    {
      assert w.queue[i + 1].row.createdAt <= w.queue[j + 1].row.createdAt;
    }
  }

  lemma HandleKeepsOrder(w: World, f: Faults)
    requires Inv(w) && Ordered(w) && w.queue != [] && !f.claim
    ensures Ordered(Handle(w, f))
  {
    HandleKeeps(w, f);
    HandleKeepsAttemptOrder(w, f);
    HandleKeepsQueueOrder(w, f);
    assert w.queue[0] in w.queue;
    forall id | id in w.rows && w.rows[id].status == Pending
      ensures w.queue[0].row.createdAt <= w.rows[id].createdAt
    {
      HeadIsOldest(w, id);
    }
  }

  lemma StepKeepsOrder(w: World, e: Event)
    requires Inv(w) && Ordered(w) && Enabled(w, e) && Orderly(w, [e])
    ensures Ordered(Apply(w, e))
  {
    match e
    case Insert(id, createdAt, _) =>
      assert forall s :: s in w.queue ==> s.row.createdAt <= createdAt;
    case Poll(batch) =>
      forall id | id in w.rows && w.rows[id].status == Pending
        ensures id in EligibleIds(w.rows)
      {
      }
    case Work(f) =>
      HandleKeepsOrder(w, f);
  }

  lemma {:induction false} RunKeepsOrder(w: World, es: seq<Event>)
    requires Inv(w) && Ordered(w) && Feasible(w, es) && Orderly(w, es)
    ensures Ordered(Run(w, es))
    decreases |es|
  {
    if es != [] {
      StepKeeps(w, es[0]);
      StepKeepsOrder(w, es[0]);
      RunKeepsOrder(Apply(w, es[0]), es[1..]);
    }
  }

  /** With inserts in creation order and no failed claim, events are published in
      creation order across all batches, whatever else fails. */
  lemma PublishedInCreationOrder(es: seq<Event>)
    requires Feasible(Empty, es) && Orderly(Empty, es)
    ensures InOrder(Run(Empty, es).rows, Run(Empty, es).attempts)
  {
    RunKeepsOrder(Empty, es);
  }

  /** The k-th event inserts this row. */
  predicate Inserts(es: seq<Event>, k: nat, id: Uuid, createdAt: Time, decodable: bool) {
    k < |es| && es[k] == Insert(id, createdAt, decodable)
  }

  /** A row of a later state is an earlier one or was inserted since, with the creation time
      and payload it was inserted with. */
  lemma {:induction false} RowsAsInserted(w: World, es: seq<Event>, id: Uuid)
    requires Inv(w) && Feasible(w, es) && id in Run(w, es).rows
    ensures var row := Run(w, es).rows[id];
      || (id in w.rows && w.rows[id].createdAt == row.createdAt && w.rows[id].decodable == row.decodable)
      || exists k: nat :: Inserts(es, k, id, row.createdAt, row.decodable)
    decreases |es|
  {
    if es != [] {
      var w' := Apply(w, es[0]);
      StepKeeps(w, es[0]);
      RowsAsInserted(w', es[1..], id);
      var row := Run(w, es).rows[id];
      if k: nat :| Inserts(es[1..], k, id, row.createdAt, row.decodable) {
        assert Inserts(es, k + 1, id, row.createdAt, row.decodable);
      } else if id !in w.rows {
        assert Inserts(es, 0, id, row.createdAt, row.decodable);
      }
    }
  }

  /** So of any two published events, the one published first was not inserted with a later
      creation time. */
  lemma PublishedInInsertOrder(es: seq<Event>, i: nat, j: nat)
    requires Feasible(Empty, es) && Orderly(Empty, es) && i < j < |Run(Empty, es).attempts|
    ensures var first, second := Run(Empty, es).attempts[i], Run(Empty, es).attempts[j];
      exists a: nat, b: nat, s: Time, t: Time :: Inserts(es, a, first, s, true) && Inserts(es, b, second, t, true) && s <= t
  {
    PublishedInCreationOrder(es);
    PublishedAreDecodable(Empty, es);
    var w := Run(Empty, es);
    var first, second := w.attempts[i], w.attempts[j];
    assert first in w.attempts && second in w.attempts;
    RowsAsInserted(Empty, es, first);
    RowsAsInserted(Empty, es, second);
    assert w.rows[first].createdAt <= w.rows[second].createdAt;
  }

  ghost predicate OnlyDecodable(w: World) {
    forall id :: id in w.attempts ==> id in w.rows && w.rows[id].decodable
  }

  lemma {:induction false} PublishedAreDecodable(w: World, es: seq<Event>)
    requires Inv(w) && Feasible(w, es) && OnlyDecodable(w)
    ensures OnlyDecodable(Run(w, es))
    decreases |es|
  {
    if es != [] {
      StepKeeps(w, es[0]);
      if es[0].Work? {
        assert w.queue[0] in w.queue;
      }
      PublishedAreDecodable(Apply(w, es[0]), es[1..]);
    }
  }

  // ---------------------------------------------------------------- draining a backlog

  function WorkEvents(faults: seq<Faults>): seq<Event> {
    seq(|faults|, i requires 0 <= i < |faults| => Work(faults[i]))
  }

  /** A whole tick of the worker is a run of single steps, so all of the above covers it. */
  lemma {:induction false} BatchIsARun(w: World, faults: seq<Faults>)
    requires |faults| == |w.queue|
    ensures Feasible(w, WorkEvents(faults)) && Run(w, WorkEvents(faults)) == HandleAll(w, faults)
    decreases |faults|
  {
    if faults != [] {
      assert WorkEvents(faults)[1..] == WorkEvents(faults[1..]);
      BatchIsARun(Handle(w, faults[0]), faults[1..]);
    }
  }

  function PendingIds(rows: Rows): set<Uuid> {
    set id | id in rows && rows[id].status == Pending
  }

  /** One tick without inserts: what it polled and how each event went. */
  datatype Tick = Tick(batch: seq<Snapshot>, faults: seq<Faults>)

  ghost predicate TickFits(w: World, t: Tick) {
    && IsPendingBatch(w.rows, BATCH_SIZE, t.batch)
    && |t.faults| == |t.batch|
    && forall f :: f in t.faults ==> !f.claim
  }

  function AfterTick(w: World, t: Tick): World
    requires |t.faults| == |t.batch|
  {
    HandleAll(w.(queue := t.batch), t.faults)
  }

  /** Ticks that each poll what is pending then. */
  ghost predicate TicksFit(w: World, ts: seq<Tick>)
    decreases |ts|
  {
    ts == [] || (TickFits(w, ts[0]) && TicksFit(AfterTick(w, ts[0]), ts[1..]))
  }

  ghost function AfterTicks(w: World, ts: seq<Tick>): World
    requires TicksFit(w, ts)
    decreases |ts|
  {
    if ts == [] then w else AfterTicks(AfterTick(w, ts[0]), ts[1..])
  }

  lemma {:induction false} HandleAllDrains(w: World, faults: seq<Faults>)
    requires Inv(w) && |faults| == |w.queue| && forall f :: f in faults ==> !f.claim
    ensures Inv(HandleAll(w, faults)) && HandleAll(w, faults).queue == []
    ensures |PendingIds(HandleAll(w, faults).rows)| == |PendingIds(w.rows)| - |w.queue|
    decreases |faults|
  {
    if faults != [] {
      HandleKeeps(w, faults[0]);
      var w', id := Handle(w, faults[0]), w.queue[0].id;
      assert w.queue[0] in w.queue;
      assert PendingIds(w'.rows) == PendingIds(w.rows) - {id};
      HandleAllDrains(w', faults[1..]);
    }
  }

  lemma TickDrains(w: World, t: Tick)
    requires Inv(w) && w.queue == [] && TickFits(w, t)
    ensures Inv(AfterTick(w, t)) && AfterTick(w, t).queue == []
    ensures |PendingIds(AfterTick(w, t).rows)| ==
            if |PendingIds(w.rows)| <= BATCH_SIZE then 0 else |PendingIds(w.rows)| - BATCH_SIZE
  {
    assert EligibleIds(w.rows) == PendingIds(w.rows);
    StepKeeps(w, Poll(t.batch));
    HandleAllDrains(w.(queue := t.batch), t.faults);
  }

  /** With no inserts and no failed claim, k ticks take min(n, 100k) of n PENDING rows. */
  lemma {:induction false} BacklogDrains(w: World, ts: seq<Tick>)
    requires Inv(w) && w.queue == [] && TicksFit(w, ts)
    ensures var n := |PendingIds(w.rows)|;
      |PendingIds(AfterTicks(w, ts).rows)| == if n <= |ts| * BATCH_SIZE then 0 else n - |ts| * BATCH_SIZE
    decreases |ts|
  {
    if ts != [] {
      TickDrains(w, ts[0]);
      BacklogDrains(AfterTick(w, ts[0]), ts[1..]);
    }
  }

  lemma CoveredBy(n: nat, ticks: nat)
    ensures n <= ticks * BATCH_SIZE <==> ticks >= CeilDiv(n, BATCH_SIZE)
  {
    CeilDivIsLeast(n, BATCH_SIZE);
  }

  /** So the backlog is gone after exactly ceil(n/100) ticks and not before. */
  lemma BacklogGoneExactly(w: World, ts: seq<Tick>)
    requires Inv(w) && w.queue == [] && TicksFit(w, ts)
    ensures PendingIds(AfterTicks(w, ts).rows) == {} <==> |ts| >= CeilDiv(|PendingIds(w.rows)|, 100)
  {
    BacklogDrains(w, ts);
    CoveredBy(|PendingIds(w.rows)|, |ts|);
    assert |PendingIds(AfterTicks(w, ts).rows)| == 0 <==> PendingIds(AfterTicks(w, ts).rows) == {};
  }
}
