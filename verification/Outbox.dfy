/** The outbox table and the worker that polls it, claims a row, publishes its event and
    records the outcome. Every store or bus call may fail; a failed call has no effect. */
module Outbox {
  import opened Prelude

  const BATCH_SIZE := 100
  const MAX_RETRIES := 10

  datatype Status = Pending | Processing | Completed | Failed

  /** `decodable` says whether the payload unmarshals to the event its type announces. */
  datatype Row = Row(createdAt: Time, decodable: bool, status: Status, retryCount: nat, error: string,
                     processedAt: Option<Time>)

  type Rows = map<Uuid, Row>

  /** A row as the worker read it when it polled. */
  datatype Snapshot = Snapshot(id: Uuid, row: Row)

  /** Which of the calls made for one event fail, and the clock when they are made. */
  datatype Faults = Faults(claim: bool, publish: bool, retry: bool, fail: bool, complete: bool, now: Time)

  datatype StoreError = StoreError

  predicate Eligible(row: Row) {
    row.status == Pending && row.retryCount < MAX_RETRIES
  }

  function EligibleIds(rows: Rows): set<Uuid> {
    set id | id in rows && Eligible(rows[id])
  }

  function IdsOf(batch: seq<Snapshot>): seq<Uuid> {
    seq(|batch|, i requires 0 <= i < |batch| => batch[i].id)
  }

  ghost predicate Distinct(batch: seq<Snapshot>) {
    forall i, j :: 0 <= i < j < |batch| ==> batch[i].id != batch[j].id
  }

  ghost predicate OldestFirst(batch: seq<Snapshot>) {
    forall i, j :: 0 <= i < j < |batch| ==> batch[i].row.createdAt <= batch[j].row.createdAt
  }

  /** A possible answer to the polling query: eligible rows, oldest first, as many as the
      limit allows, none left out that is older than one returned. Ties are open. */
  ghost predicate IsPendingBatch(rows: Rows, limit: nat, batch: seq<Snapshot>) {
    && Distinct(batch)
    && OldestFirst(batch)
    && (forall s :: s in batch ==> s.id in rows && rows[s.id] == s.row && Eligible(s.row))
    && |batch| == (if |EligibleIds(rows)| < limit then |EligibleIds(rows)| else limit)
    && (forall s, id :: s in batch && id in EligibleIds(rows) && id !in IdsOf(batch) ==>
          s.row.createdAt <= rows[id].createdAt)
  }

  function WithStatus(rows: Rows, id: Uuid, status: Status): Rows {
    if id in rows then rows[id := rows[id].(status := status)] else rows
  }

  class OutboxRepository {
    var rows: Rows

    constructor ()
      ensures rows == map[]
    {
      rows := map[];
    }

    /** Inserts a fresh PENDING row, as saving an event to the outbox does. */
    method Create(id: Uuid, createdAt: Time, decodable: bool, fails: bool) returns (r: Result<(), StoreError>)
      modifies this
      ensures r.Ok? <==> !fails && id !in old(rows)
      ensures rows == if r.Ok? then old(rows)[id := Fresh(createdAt, decodable)] else old(rows)
    {
      if fails || id in rows {
        return Err(StoreError);
      }
      rows := rows[id := Fresh(createdAt, decodable)];
      return Ok(());
    }

    method GetPending(limit: nat, fails: bool) returns (r: Result<seq<Snapshot>, StoreError>)
      ensures r.Err? <==> fails
      ensures r.Ok? ==> IsPendingBatch(rows, limit, r.value)
      ensures r.Ok? ==> forall s :: s in r.value ==> s.row.status == Pending && s.row.retryCount < 10
    {
      if fails {
        return Err(StoreError);
      }
      var batch: seq<Snapshot> := [];
      var left := EligibleIds(rows);
      while left != {} && |batch| < limit
        invariant left <= EligibleIds(rows) && |batch| <= limit
        invariant |batch| + |left| == |EligibleIds(rows)|
        invariant Distinct(batch) && OldestFirst(batch)
        invariant forall s :: s in batch ==> s.id in rows && rows[s.id] == s.row && Eligible(s.row) && s.id !in left
        invariant forall id :: id in EligibleIds(rows) ==> id in left || id in IdsOf(batch)
        invariant forall s, id :: s in batch && id in left ==> s.row.createdAt <= rows[id].createdAt
        decreases left
      {
        var oldest := Oldest(rows, left);
        IdsSnoc(batch, Snapshot(oldest, rows[oldest]));
        batch := batch + [Snapshot(oldest, rows[oldest])];
        left := left - {oldest};
      }
      return Ok(batch);
    }

    method MarkProcessing(id: Uuid, fails: bool) returns (ok: bool)
      modifies this
      ensures ok == !fails
      ensures rows == if ok then WithStatus(old(rows), id, Processing) else old(rows)
    {
      if !fails && id in rows {
        rows := rows[id := rows[id].(status := Processing)];
      }
      ok := !fails;
    }

    method MarkCompleted(id: Uuid, now: Time, fails: bool)
      modifies this
      ensures rows == if !fails && id in old(rows)
                      then old(rows)[id := old(rows)[id].(status := Completed, processedAt := Some(now))] else old(rows)
    {
      if !fails && id in rows {
        rows := rows[id := rows[id].(status := Completed, processedAt := Some(now))];
      }
    }

    method MarkFailed(id: Uuid, errorMsg: string, fails: bool)
      modifies this
      ensures rows == if !fails && id in old(rows)
                      then old(rows)[id := old(rows)[id].(status := Failed, error := errorMsg)] else old(rows)
    {
      if !fails && id in rows {
        rows := rows[id := rows[id].(status := Failed, error := errorMsg)];
      }
    }

    method IncrementRetry(id: Uuid, fails: bool)
      modifies this
      ensures rows == if !fails && id in old(rows)
                      then old(rows)[id := old(rows)[id].(retryCount := old(rows)[id].retryCount + 1)] else old(rows)
    {
      if !fails && id in rows {
        rows := rows[id := rows[id].(retryCount := rows[id].retryCount + 1)];
      }
    }
  }

  lemma IdsSnoc(batch: seq<Snapshot>, s: Snapshot)
    ensures forall id :: id in IdsOf(batch + [s]) <==> id in IdsOf(batch) || id == s.id
  {
    assert IdsOf(batch + [s]) == IdsOf(batch) + [s.id];
  }

  method Oldest(rows: Rows, ids: set<Uuid>) returns (oldest: Uuid)
    requires ids != {} && ids <= rows.Keys
    ensures oldest in ids && forall id :: id in ids ==> rows[oldest].createdAt <= rows[id].createdAt
  {
    oldest :| oldest in ids;
    var left := ids - {oldest};
    while left != {}
      invariant left <= ids && oldest in ids
      invariant forall id :: id in ids - left ==> rows[oldest].createdAt <= rows[id].createdAt
      decreases left
    {
      var id :| id in left;
      left := left - {id};
      if rows[id].createdAt < rows[oldest].createdAt {
        oldest := id;
      }
    }
  }

  function Fresh(createdAt: Time, decodable: bool): Row {
    Row(createdAt, decodable, Pending, 0, "", None)
  }

  /** The message bus, as the record of every call to Publish. */
  class EventBus {
    var attempts: seq<Uuid>

    constructor ()
      ensures attempts == []
    {
      attempts := [];
    }

    method Publish(id: Uuid, fails: bool) returns (ok: bool)
      modifies this
      ensures ok == !fails && attempts == old(attempts) + [id]
    {
      attempts := attempts + [id];
      ok := !fails;
    }
  }

  /** The table, the calls made to Publish, and the rest of the batch in hand. */
  datatype World = World(rows: Rows, attempts: seq<Uuid>, queue: seq<Snapshot>)

  /** What handling one event leaves in its row. */
  function Outcome(row: Row, read: Row, f: Faults): Row {
    if f.claim then row
    else if !read.decodable then
      if f.fail then row.(status := Processing) else row.(status := Failed, error := "failed to unmarshal")
    else if f.publish then
      var retried := row.(status := Processing, retryCount := row.retryCount + if f.retry then 0 else 1);
      if read.retryCount >= 9 && !f.fail then retried.(status := Failed, error := "publish failed") else retried
    else if f.complete then row.(status := Processing)
    else row.(status := Completed, processedAt := Some(f.now))
  }

  function Handle(w: World, f: Faults): World
    requires w.queue != []
  {
    var s := w.queue[0];
    World(if s.id in w.rows then w.rows[s.id := Outcome(w.rows[s.id], s.row, f)] else w.rows,
          w.attempts + if !f.claim && s.row.decodable then [s.id] else [],
          w.queue[1..])
  }

  function HandleAll(w: World, faults: seq<Faults>): World
    requires |faults| == |w.queue|
    decreases |faults|
  {
    if faults == [] then w else HandleAll(Handle(w, faults[0]), faults[1..])
  }

  class OutboxWorker {
    const outboxRepo: OutboxRepository
    const eventBus: EventBus

    constructor (repo: OutboxRepository, bus: EventBus)
      ensures outboxRepo == repo && eventBus == bus
    {
      outboxRepo := repo;
      eventBus := bus;
    }

    /** One polling tick. `batch` reports what the poll returned. */
    method ProcessBatch(pollFails: bool, faults: seq<Faults>) returns (batch: seq<Snapshot>)
      requires |faults| == BATCH_SIZE
      modifies outboxRepo, eventBus
      ensures if pollFails then batch == [] else IsPendingBatch(old(outboxRepo.rows), BATCH_SIZE, batch)
      ensures |batch| <= |faults|
      ensures World(outboxRepo.rows, eventBus.attempts, []) ==
              HandleAll(World(old(outboxRepo.rows), old(eventBus.attempts), batch), faults[..|batch|])
    {
      var events := outboxRepo.GetPending(BATCH_SIZE, pollFails);
      if events.Err? {
        return [];
      }
      batch := events.value;
      ghost var start := World(outboxRepo.rows, eventBus.attempts, batch);
      for i := 0 to |batch|
        invariant HandleAll(World(outboxRepo.rows, eventBus.attempts, batch[i..]), faults[i..|batch|]) ==
                  HandleAll(start, faults[..|batch|])
      {
        assert batch[i..][0] == batch[i] && batch[i..][1..] == batch[i + 1..];
        assert faults[i..|batch|][0] == faults[i] && faults[i..|batch|][1..] == faults[i + 1..|batch|];
        ProcessEvent(batch[i], faults[i], batch[i + 1..]);
      }
    }

    method ProcessEvent(event: Snapshot, f: Faults, ghost rest: seq<Snapshot>)
      modifies outboxRepo, eventBus
      ensures World(outboxRepo.rows, eventBus.attempts, rest) ==
              Handle(World(old(outboxRepo.rows), old(eventBus.attempts), [event] + rest), f)
    {
      assert ([event] + rest)[1..] == rest;
      var claimed := outboxRepo.MarkProcessing(event.id, f.claim);
      if !claimed {
        return;
      }
      if !event.row.decodable {
        outboxRepo.MarkFailed(event.id, "failed to unmarshal", f.fail);
        return;
      }
      var published := eventBus.Publish(event.id, f.publish);
      if !published {
        outboxRepo.IncrementRetry(event.id, f.retry);
        if event.row.retryCount >= 9 {
          outboxRepo.MarkFailed(event.id, "publish failed", f.fail);
        }
        return;
      }
      outboxRepo.MarkCompleted(event.id, f.now, f.complete);
    }
  }
}
