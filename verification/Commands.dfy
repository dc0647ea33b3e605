/** The command executor: logged commands, bulk archiving and undo. Execute and Undo are each
    one step; the store calls inside them may fail. Times are in minutes. */
module Commands {
  import opened Prelude

  const UNDO_WINDOW: Time := 30
  const BATCH_LIMIT := 100

  datatype Status = Pending | Executing | Completed | Failed | Undone

  datatype ArchiveResult = ArchiveResult(conversation: Uuid, success: bool)

  /** What undoing needs: who archived, and the outcome per listed conversation. */
  datatype UndoData = UndoData(user: Uuid, results: seq<ArchiveResult>)

  /** `undoData` is null unless the command completed inside its undo window. */
  datatype Log = Log(user: Uuid, status: Status, undoData: Option<UndoData>, undoneAt: Option<Time>)

  /** A participants row: its archived flag, and its other columns as one opaque value. */
  datatype Participant = Participant(archived: bool, others: Uuid)

  type Participants = map<(Uuid, Uuid), Participant>

  /** A bulk archive, or any other command: whether it validates, how its execution ends and
      until when it may be undone. Undoing any other command does nothing. */
  datatype Command =
    | BulkArchive(user: Uuid, conversations: seq<Uuid>, createdAt: Time)
    | Other(user: Uuid, valid: bool, succeeds: bool, deadline: Time)

  function Listed(c: Command): seq<Uuid> {
    if c.BulkArchive? then c.conversations else []
  }

  function Deadline(c: Command): Time {
    if c.BulkArchive? then c.createdAt + UNDO_WINDOW else c.deadline
  }

  /** Which store calls of an execution fail; the sets name positions in the list. */
  datatype ExecFaults = ExecFaults(create: bool, begin: bool, finish: bool, checks: set<nat>, archives: set<nat>)

  datatype UndoFaults = UndoFaults(read: bool, update: bool, unarchives: set<nat>)

  datatype CommandError = Invalid | CannotUndo | StoreFailure

  predicate ValidCommand(c: Command) {
    if c.BulkArchive? then 0 < |c.conversations| <= BATCH_LIMIT else c.valid
  }

  function SetArchived(p: Participants, conversation: Uuid, user: Uuid, archived: bool): Participants {
    if (conversation, user) in p then p[(conversation, user) := p[(conversation, user)].(archived := archived)] else p
  }

  /** Whether the i-th listed conversation counts as archived: the membership check was
      answered, with yes. A failing archive update is ignored. */
  predicate Succeeds(p: Participants, c: Command, f: ExecFaults, i: nat)
    requires i < |Listed(c)|
  {
    i !in f.checks && (Listed(c)[i], c.user) in p
  }

  function Results(p: Participants, c: Command, f: ExecFaults): seq<ArchiveResult> {
    seq(|Listed(c)|, i requires 0 <= i < |Listed(c)| =>
      ArchiveResult(Listed(c)[i], Succeeds(p, c, f, i)))
  }

  /** The participants table after the first n listed conversations. */
  function ArchivedFirst(p: Participants, c: Command, f: ExecFaults, n: nat): Participants
    requires n <= |Listed(c)|
  {
    if n == 0 then p
    else
      var before := ArchivedFirst(p, c, f, n - 1);
      if Succeeds(p, c, f, n - 1) && n - 1 !in f.archives then SetArchived(before, Listed(c)[n - 1], c.user, true) else before
  }

  function UnarchivedFirst(p: Participants, u: UndoData, fails: set<nat>, n: nat): Participants
    requires n <= |u.results|
  {
    if n == 0 then p
    else
      var before := UnarchivedFirst(p, u, fails, n - 1);
      if u.results[n - 1].success && n - 1 !in fails
      then SetArchived(before, u.results[n - 1].conversation, u.user, false) else before
  }

  /** The log and participants tables, and every status each log row has had, in order. */
  datatype World = World(logs: map<Uuid, Log>, participants: Participants, history: map<Uuid, seq<Status>>)

  function Wrote(w: World, id: Uuid, log: Log): World {
    w.(logs := w.logs[id := log], history := w.history[id := HistoryOf(w, id) + [log.status]])
  }

  function HistoryOf(w: World, id: Uuid): seq<Status> {
    if id in w.history then w.history[id] else []
  }

  class CommandExecutor {
    var w: World

    constructor (participants: Participants)
      ensures w == World(map[], participants, map[])
    {
      w := World(map[], participants, map[]);
    }

    method CreateLog(id: Uuid, log: Log, fails: bool) returns (ok: bool)
      modifies this
      ensures ok <==> !fails && id !in old(w).logs
      ensures w == if ok then Wrote(old(w), id, log) else old(w)
    {
      ok := !fails && id !in w.logs;
      if ok {
        w := Wrote(w, id, log);
      }
    }

    method UpdateLog(id: Uuid, log: Log, fails: bool) returns (ok: bool)
      modifies this
      ensures ok <==> !fails
      ensures w == if ok && id in old(w).logs then Wrote(old(w), id, log) else old(w)
    {
      ok := !fails;
      if ok && id in w.logs {
        w := Wrote(w, id, log);
      }
    }

    /** Answers with the final log; a command that fails in its execution has status FAILED
        there. A failing last log update goes unnoticed. */
    method Execute(c: Command, id: Uuid, now: Time, f: ExecFaults) returns (r: Result<Log, CommandError>)
      modifies this
      ensures w == Executed(old(w), c, id, now, f)
      ensures r.Ok? <==> ValidCommand(c) && !f.create && id !in old(w).logs && !f.begin
      ensures r.Ok? ==> r.value == FinalLog(old(w).participants, c, now, f)
    {
      if !ValidCommand(c) {
        return Err(Invalid);
      }
      var log := Log(c.user, Pending, None, None);
      var ok := CreateLog(id, log, f.create);
      if !ok {
        return Err(StoreFailure);
      }
      log := log.(status := Executing);
      ok := UpdateLog(id, log, f.begin);
      if !ok {
        return Err(StoreFailure);
      }
      var results := ExecuteBulkArchive(c, f);
      if c.Other? && !c.succeeds {
        log := log.(status := Failed);
      } else {
        log := log.(status := Completed);
        if now < Deadline(c) {
          log := log.(undoData := Some(UndoData(c.user, results)));
        }
      }
      ok := UpdateLog(id, log, f.finish);
      return Ok(log);
    }

    method ExecuteBulkArchive(c: Command, f: ExecFaults) returns (results: seq<ArchiveResult>)
      modifies this
      ensures w == old(w).(participants := ArchivedFirst(old(w).participants, c, f, |Listed(c)|))
      ensures results == Results(old(w).participants, c, f)
      ensures |results| == |Listed(c)| && forall i :: 0 <= i < |results| ==>
        && results[i].conversation == Listed(c)[i]
        && (results[i].success <==> i !in f.checks && (Listed(c)[i], c.user) in old(w).participants)
    {
      results := [];
      ghost var p := w.participants;
      for i := 0 to |Listed(c)|
        invariant w == old(w).(participants := ArchivedFirst(p, c, f, i))
        invariant results == Results(p, c, f)[..i]
      {
        ArchiveKeepsRows(p, c, f, i);
        var result := ArchiveResult(Listed(c)[i], true);
        if i in f.checks || (Listed(c)[i], c.user) !in w.participants {
          result := result.(success := false);
        } else if i !in f.archives {
          w := w.(participants := SetArchived(w.participants, Listed(c)[i], c.user, true));
        }
        assert result == Results(p, c, f)[i];
        results := results + [result];
      }
    }

    method Undo(id: Uuid, user: Uuid, now: Time, f: UndoFaults) returns (r: Result<(), CommandError>)
      modifies this
      ensures r.Ok? <==> UndoAnswers(old(w), id, user, f)
      ensures w == AfterUndo(old(w), id, user, now, f)
    {
      if f.read || id !in w.logs || w.logs[id].user != user {
        return Err(StoreFailure);
      }
      if !(w.logs[id].status == Completed && w.logs[id].undoneAt == None) {
        return Err(CannotUndo);
      }
      var log := w.logs[id];
      if log.undoData.Some? {
        UndoBulkArchive(log.undoData.value, f.unarchives);
      }
      log := log.(status := Undone);
      log := log.(undoneAt := Some(now));
      var ok := UpdateLog(id, log, f.update);
      if !ok {
        return Err(StoreFailure);
      }
      return Ok(());
    }

    method UndoBulkArchive(u: UndoData, fails: set<nat>)
      modifies this
      ensures w == old(w).(participants := UnarchivedFirst(old(w).participants, u, fails, |u.results|))
    {
      ghost var p := w.participants;
      for i := 0 to |u.results|
        invariant w == old(w).(participants := UnarchivedFirst(p, u, fails, i))
      {
        if u.results[i].success && i !in fails {
          w := w.(participants := SetArchived(w.participants, u.results[i].conversation, u.user, false));
        }
      }
    }
  }

  function FinalLog(p: Participants, c: Command, now: Time, f: ExecFaults): Log {
    if c.Other? && !c.succeeds then Log(c.user, Failed, None, None)
    else Log(c.user, Completed, if now < Deadline(c) then Some(UndoData(c.user, Results(p, c, f))) else None, None)
  }

  function Executed(w: World, c: Command, id: Uuid, now: Time, f: ExecFaults): World {
    if !ValidCommand(c) || f.create || id in w.logs then w
    else
      var created := Wrote(w, id, Log(c.user, Pending, None, None));
      if f.begin then created
      else
        var begun := Wrote(created, id, Log(c.user, Executing, None, None));
        var done := begun.(participants := ArchivedFirst(w.participants, c, f, |Listed(c)|));
        if f.finish then done else Wrote(done, id, FinalLog(w.participants, c, now, f))
  }

  predicate CanUndo(w: World, id: Uuid, user: Uuid) {
    id in w.logs && w.logs[id].user == user && w.logs[id].status == Completed && w.logs[id].undoneAt == None
  }

  /** Whether Undo reports success. */
  predicate UndoAnswers(w: World, id: Uuid, user: Uuid, f: UndoFaults) {
    !f.read && !f.update && CanUndo(w, id, user)
  }

  function AfterUndo(w: World, id: Uuid, user: Uuid, now: Time, f: UndoFaults): World {
    if f.read || !CanUndo(w, id, user) then w
    else
      var log := w.logs[id];
      var w' := if log.undoData.None? then w
                else w.(participants :=
                          UnarchivedFirst(w.participants, log.undoData.value, f.unarchives, |log.undoData.value.results|));
      if f.update then w' else Wrote(w', id, log.(status := Undone, undoneAt := Some(now)))
  }

  // ---------------------------------------------------------------- what archiving and undoing do

  lemma {:induction false} ArchiveKeepsRows(p: Participants, c: Command, f: ExecFaults, n: nat)
    requires n <= |Listed(c)|
    ensures ArchivedFirst(p, c, f, n).Keys == p.Keys
    ensures forall k :: k in p ==>
      var q := ArchivedFirst(p, c, f, n)[k];
      q.others == p[k].others && (q.archived <==> p[k].archived || ArchivesBy(p, c, f, n, k))
  {
    if n > 0 {
      ArchiveKeepsRows(p, c, f, n - 1);
      assert forall k :: ArchivesBy(p, c, f, n, k) <==>
        (ArchivesBy(p, c, f, n - 1, k) ||
         (k == (Listed(c)[n - 1], c.user) && Succeeds(p, c, f, n - 1) && n - 1 !in f.archives));
    }
  }

  /** One of the first n listed conversations is this row's and its archive update ran. */
  ghost predicate ArchivesBy(p: Participants, c: Command, f: ExecFaults, n: nat, k: (Uuid, Uuid))
    requires n <= |Listed(c)|
  {
    exists i :: 0 <= i < n && k == (Listed(c)[i], c.user) && Succeeds(p, c, f, i) && i !in f.archives
  }

  lemma {:induction false} UnarchiveRows(p: Participants, u: UndoData, fails: set<nat>, n: nat)
    requires n <= |u.results|
    ensures UnarchivedFirst(p, u, fails, n).Keys == p.Keys
    ensures forall k :: k in p ==>
      UnarchivedFirst(p, u, fails, n)[k] == if UnarchivesBy(u, fails, n, k) then p[k].(archived := false) else p[k]
  {
    if n > 0 {
      UnarchiveRows(p, u, fails, n - 1);
      assert forall k :: UnarchivesBy(u, fails, n, k) <==>
        (UnarchivesBy(u, fails, n - 1, k) ||
         (k == (u.results[n - 1].conversation, u.user) && u.results[n - 1].success && n - 1 !in fails));
    }
  }

  ghost predicate UnarchivesBy(u: UndoData, fails: set<nat>, n: nat, k: (Uuid, Uuid))
    requires n <= |u.results|
  {
    exists i :: 0 <= i < n && k == (u.results[i].conversation, u.user) && u.results[i].success && i !in fails
  }

  /** No conversation that the command counts as archived was archived before. */
  ghost predicate NoneArchivedBefore(p: Participants, c: Command, f: ExecFaults) {
    forall i :: 0 <= i < |Listed(c)| && Succeeds(p, c, f, i) ==> !p[(Listed(c)[i], c.user)].archived
  }

  /** The undo's update of the row ran and the row was not archived before; or it did not
      run, and the row was archived before or never touched. */
  ghost predicate RowComesBack(p: Participants, c: Command, f: ExecFaults, fails: set<nat>, k: (Uuid, Uuid))
    requires k in p
  {
    if UnarchivesBy(UndoData(c.user, Results(p, c, f)), fails, |Listed(c)|, k) then !p[k].archived
    else p[k].archived || !ArchivesBy(p, c, f, |Listed(c)|, k)
  }

  function RoundTrip(p: Participants, c: Command, f: ExecFaults, fails: set<nat>): Participants {
    UnarchivedFirst(ArchivedFirst(p, c, f, |Listed(c)|), UndoData(c.user, Results(p, c, f)), fails, |Listed(c)|)
  }

  /** Archive then unarchive, row by row, with any failing updates on either side. */
  lemma RoundTripRows(p: Participants, c: Command, f: ExecFaults, fails: set<nat>)
    ensures RoundTrip(p, c, f, fails).Keys == p.Keys
    ensures forall k :: k in p ==> (RoundTrip(p, c, f, fails)[k] == p[k] <==> RowComesBack(p, c, f, fails, k))
  {
    ArchiveKeepsRows(p, c, f, |Listed(c)|);
    UnarchiveRows(ArchivedFirst(p, c, f, |Listed(c)|), UndoData(c.user, Results(p, c, f)), fails, |Listed(c)|);
  }

  /** Execute and then undo inside the window restores the participants table exactly if
      and only if every row comes back, whatever archive and unarchive updates fail. */
  lemma UndoRestoresExactly(w: World, c: Command, id: Uuid, now: Time, f: ExecFaults, later: Time, fails: set<nat>)
    requires ValidCommand(c) && !f.create && !f.begin && !f.finish && id !in w.logs && c.BulkArchive? && now < Deadline(c)
    ensures var executed := Executed(w, c, id, now, f);
      var undone := AfterUndo(executed, id, c.user, later, UndoFaults(false, false, fails));
      && undone.logs[id].status == Undone
      && undone.participants == RoundTrip(w.participants, c, f, fails)
      && (undone.participants == w.participants <==>
          forall k :: k in w.participants ==> RowComesBack(w.participants, c, f, fails, k))
  {
    RoundTripRows(w.participants, c, f, fails);
  }

  /** When no unarchive update fails, the condition is that no listed conversation of the
      user was already archived, for any list, duplicates, non-members and ignored archive
      failures included. */
  lemma CleanUndoRestoresExactly(p: Participants, c: Command, f: ExecFaults)
    ensures RoundTrip(p, c, f, {}) == p <==> NoneArchivedBefore(p, c, f)
  {
    var n, u := |Listed(c)|, UndoData(c.user, Results(p, c, f));
    RoundTripRows(p, c, f, {});
    forall i | 0 <= i < n && Succeeds(p, c, f, i)
      ensures UnarchivesBy(u, {}, n, (Listed(c)[i], c.user))
    {
      assert u.results[i] == ArchiveResult(Listed(c)[i], true);
    }
    if NoneArchivedBefore(p, c, f) {
      forall k | k in p
        ensures RowComesBack(p, c, f, {}, k)
      {
        if UnarchivesBy(u, {}, n, k) {
          var i :| 0 <= i < n && k == (u.results[i].conversation, u.user) && u.results[i].success;
          assert Succeeds(p, c, f, i);
        }
      }
      assert RoundTrip(p, c, f, {}) == p;
    }
  }

  /** The smallest loss: archiving one conversation that was archived already and undoing
      it leaves the conversation unarchived. */
  lemma ArchivedBeforeIsLost(user: Uuid, conversation: Uuid, id: Uuid)
    ensures var w := World(map[], map[(conversation, user) := Participant(true, 0)], map[]);
      var executed := Executed(w, BulkArchive(user, [conversation], 0), id, 1, ExecFaults(false, false, false, {}, {}));
      AfterUndo(executed, id, user, 2, UndoFaults(false, false, {})).participants != w.participants
  {
    var w := World(map[], map[(conversation, user) := Participant(true, 0)], map[]);
    var c, f := BulkArchive(user, [conversation], 0), ExecFaults(false, false, false, {}, {});
    UndoRestoresExactly(w, c, id, 1, f, 2, {});
    CleanUndoRestoresExactly(w.participants, c, f);
    assert Listed(c)[0] == conversation && Succeeds(w.participants, c, f, 0);
  }

  /** A command that completes after its window stores no undo data. Undoing it succeeds and
      marks it UNDONE, and changes no participant; so the table is as before the command if
      and only if every row was archived before or touched by no archive update. */
  lemma LateUndoRestoresNothing(w: World, c: Command, id: Uuid, now: Time, f: ExecFaults, later: Time)
    requires ValidCommand(c) && !f.create && !f.begin && !f.finish && id !in w.logs && c.BulkArchive? && now >= Deadline(c)
    ensures var executed := Executed(w, c, id, now, f);
      var undone := AfterUndo(executed, id, c.user, later, UndoFaults(false, false, {}));
      && CanUndo(executed, id, c.user)
      && undone.logs[id].status == Undone && undone.participants == executed.participants
      && (undone.participants == w.participants <==>
          forall k :: k in w.participants ==> w.participants[k].archived || !ArchivesBy(w.participants, c, f, |Listed(c)|, k))
  {
    var p, n := w.participants, |Listed(c)|;
    ArchiveKeepsRows(p, c, f, n);
    assert ArchivedFirst(p, c, f, n) == p <==> forall k :: k in p ==> ArchivedFirst(p, c, f, n)[k] == p[k];
  }

  // ---------------------------------------------------------------- runs

  datatype Event =
    | Exec(c: Command, id: Uuid, now: Time, exec: ExecFaults)
    | UndoCommand(id: Uuid, user: Uuid, now: Time, undo: UndoFaults)

  function Apply(w: World, e: Event): World {
    match e
    case Exec(c, id, now, f) => Executed(w, c, id, now, f)
    case UndoCommand(id, user, now, f) => AfterUndo(w, id, user, now, f)
  }

  function Run(w: World, es: seq<Event>): World {
    if es == [] then w else Apply(Run(w, es[..|es| - 1]), es[|es| - 1])
  }

  /** The moves a log row may make. */
  predicate MayFollow(from: Status, to: Status) {
    match from
    case Pending => to == Executing
    case Executing => to == Completed || to == Failed
    case Completed => to == Undone
    case _ => false
  }

  ghost predicate Legal(h: seq<Status>) {
    h != [] && h[0] == Pending && forall i :: 0 < i < |h| ==> MayFollow(h[i - 1], h[i])
  }

  ghost predicate Inv(w: World) {
    && (forall id :: id in w.logs <==> id in w.history)
    && (forall id :: id in w.logs ==> EndsLegally(w.history[id], w.logs[id].status))
  }

  ghost predicate EndsLegally(h: seq<Status>, status: Status) {
    Legal(h) && h[|h| - 1] == status
  }

  predicate UndoSucceeds(w: World, e: Event, id: Uuid) {
    e.UndoCommand? && e.id == id && UndoAnswers(w, id, e.user, e.undo)
  }

  function Undos(w: World, es: seq<Event>, id: Uuid): nat {
    if es == [] then 0
    else Undos(w, es[..|es| - 1], id) + if UndoSucceeds(Run(w, es[..|es| - 1]), es[|es| - 1], id) then 1 else 0
  }

  /** Over any run every log row walks PENDING, EXECUTING, then COMPLETED or FAILED, and
      from COMPLETED possibly UNDONE; and Undo succeeds at most once per command. */
  lemma {:induction false} LogsWalkLegally(participants: Participants, es: seq<Event>, id: Uuid)
    ensures var w := Run(World(map[], participants, map[]), es);
      && Inv(w)
      && Undos(World(map[], participants, map[]), es, id) == (if id in w.logs && w.logs[id].status == Undone then 1 else 0)
  {
    if es != [] {
      LogsWalkLegally(participants, es[..|es| - 1], id);
      StepKeeps(Run(World(map[], participants, map[]), es[..|es| - 1]), es[|es| - 1], id);
    }
  }

  lemma WroteKeeps(w: World, id: Uuid, log: Log)
    requires Inv(w) && (if id in w.logs then MayFollow(w.logs[id].status, log.status) else log.status == Pending)
    ensures Inv(Wrote(w, id, log))
  {
    LegalSnoc(HistoryOf(w, id), log.status);
  }

  lemma LegalSnoc(h: seq<Status>, status: Status)
    requires if h == [] then status == Pending else Legal(h) && MayFollow(h[|h| - 1], status)
    ensures EndsLegally(h + [status], status)
  {
  }

  lemma ExecKeeps(w: World, c: Command, id: Uuid, now: Time, f: ExecFaults)
    requires Inv(w) && id !in w.logs && !f.create && ValidCommand(c)
    ensures Inv(Executed(w, c, id, now, f)) && Executed(w, c, id, now, f).logs[id].status != Undone
  {
    var created := Wrote(w, id, Log(c.user, Pending, None, None));
    WroteKeeps(w, id, Log(c.user, Pending, None, None));
    if !f.begin {
      WroteKeeps(created, id, Log(c.user, Executing, None, None));
      FinishKeeps(Wrote(created, id, Log(c.user, Executing, None, None)), w.participants, c, id, now, f);
    }
  }

  lemma FinishKeeps(begun: World, p: Participants, c: Command, id: Uuid, now: Time, f: ExecFaults)
    requires Inv(begun) && id in begun.logs && begun.logs[id].status == Executing
    ensures var done := begun.(participants := ArchivedFirst(p, c, f, |Listed(c)|));
      Inv(done) && Inv(Wrote(done, id, FinalLog(p, c, now, f)))
  {
    WroteKeeps(begun.(participants := ArchivedFirst(p, c, f, |Listed(c)|)), id, FinalLog(p, c, now, f));
  }

  lemma UndoKeeps(w: World, id: Uuid, user: Uuid, now: Time, f: UndoFaults)
    requires Inv(w) && CanUndo(w, id, user)
    ensures Inv(AfterUndo(w, id, user, now, f))
  {
    WroteKeeps(w, id, w.logs[id].(status := Undone, undoneAt := Some(now)));
  }

  /** An execution leaves every other row alone and never undoes its own. */
  lemma ExecStepKeeps(w: World, e: Event, id: Uuid)
    requires Inv(w) && e.Exec?
    ensures Inv(Apply(w, e))
    ensures id in Apply(w, e).logs && Apply(w, e).logs[id].status == Undone <==> id in w.logs && w.logs[id].status == Undone
  {
    if ValidCommand(e.c) && !e.exec.create && e.id !in w.logs {
      ExecKeeps(w, e.c, e.id, e.now, e.exec);
    }
  }

  lemma UndoStepKeeps(w: World, e: Event, id: Uuid)
    requires Inv(w) && e.UndoCommand?
    ensures Inv(Apply(w, e))
    ensures id in Apply(w, e).logs && Apply(w, e).logs[id].status == Undone <==>
            (id in w.logs && w.logs[id].status == Undone) || UndoSucceeds(w, e, id)
  {
    if CanUndo(w, e.id, e.user) {
      UndoKeeps(w, e.id, e.user, e.now, e.undo);
    }
  }

  lemma StepKeeps(w: World, e: Event, id: Uuid)
    requires Inv(w)
    ensures Inv(Apply(w, e))
    ensures id in Apply(w, e).logs && Apply(w, e).logs[id].status == Undone <==>
            (id in w.logs && w.logs[id].status == Undone) || UndoSucceeds(w, e, id)
    ensures UndoSucceeds(w, e, id) ==> w.logs[id].status != Undone
  {
    match e
    case Exec(_, _, _, _) => ExecStepKeeps(w, e, id);
    case UndoCommand(_, _, _, _) => UndoStepKeeps(w, e, id);
  }

  // ---------------------------------------------------------------- who may undo what

  /** The world before the k-th event of a run from empty logs. */
  function Before(participants: Participants, es: seq<Event>, k: nat): World
    requires k <= |es|
  {
    if k == 0 then World(map[], participants, map[]) else Apply(Before(participants, es, k - 1), es[k - 1])
  }

  lemma OneStepMore(participants: Participants, es: seq<Event>, k: nat, here: World)
    requires k < |es|
    requires Before(participants, es, k) == here && Run(World(map[], participants, map[]), es[..k]) == here
    ensures Before(participants, es, k + 1) == Run(World(map[], participants, map[]), es[..k + 1])
  {
    assert es[..k + 1][..k] == es[..k];
    assert Before(participants, es, k + 1) == Apply(here, es[k]);
  }

  lemma BeforeIsRun(participants: Participants, es: seq<Event>)
    ensures Before(participants, es, |es|) == Run(World(map[], participants, map[]), es)
  {
    assert es[..0] == [] && es[..|es|] == es;
    for k := 0 to |es|
      invariant Before(participants, es, k) == Run(World(map[], participants, map[]), es[..k])
    {
      OneStepMore(participants, es, k, Before(participants, es, k));
    }
  }

  /** The execution that creates this log: its id is unused, its command valid, and the
      insert does not fail. */
  predicate Creates(w: World, e: Event, id: Uuid) {
    && e.Exec? && e.id == id && id !in w.logs && !e.exec.create
    && (e.c.BulkArchive? ==> 1 <= |e.c.conversations| <= 100)
    && (e.c.Other? ==> e.c.valid)
  }

  lemma LogsAfterStep(w: World, e: Event, id: Uuid)
    ensures id in Apply(w, e).logs <==> id in w.logs || Creates(w, e, id)
    ensures id in w.logs ==> Apply(w, e).logs[id].user == w.logs[id].user
    ensures Creates(w, e, id) ==> Apply(w, e).logs[id].user == e.c.user
  {
  }

  /** The i-th event created the log of this command, for this user. */
  ghost predicate CreatedBy(participants: Participants, es: seq<Event>, id: Uuid, i: nat, user: Uuid) {
    i < |es| && Creates(Before(participants, es, i), es[i], id) && es[i].c.user == user
  }

  /** The log, if there is one after k events, was created by one of them for its user; and
      whoever it was created for is its user. */
  ghost predicate OwnersKnown(participants: Participants, es: seq<Event>, id: Uuid, k: nat)
    requires k <= |es|
  {
    var logs := Before(participants, es, k).logs;
    && (id in logs ==> exists i: nat :: i < k && CreatedBy(participants, es, id, i, logs[id].user))
    && (forall i: nat, user: Uuid :: i < k && CreatedBy(participants, es, id, i, user) ==> id in logs && logs[id].user == user)
  }

  lemma OwnersStep(participants: Participants, es: seq<Event>, id: Uuid, k: nat)
    requires k < |es| && OwnersKnown(participants, es, id, k)
    ensures OwnersKnown(participants, es, id, k + 1)
  {
    var w, logs' := Before(participants, es, k), Before(participants, es, k + 1).logs;
    LogsAfterStep(w, es[k], id);
    if id in logs' {
      if id in w.logs {
        var i: nat :| i < k && CreatedBy(participants, es, id, i, w.logs[id].user);
        assert i < k + 1 && CreatedBy(participants, es, id, i, logs'[id].user);
      } else {
        assert CreatedBy(participants, es, id, k, logs'[id].user);
      }
    }
    forall i: nat, user: Uuid | i < k + 1 && CreatedBy(participants, es, id, i, user)
      ensures id in logs' && logs'[id].user == user
    {
      if i < k {
        assert i < k && CreatedBy(participants, es, id, i, user);
      }
    }
  }

  /** Over every run a command has a log if and only if an execution created it, and its user
      is the one of that execution. */
  lemma OwnerExactly(participants: Participants, es: seq<Event>, id: Uuid, user: Uuid)
    ensures var logs := Run(World(map[], participants, map[]), es).logs;
      id in logs && logs[id].user == user <==> exists i: nat :: CreatedBy(participants, es, id, i, user)
  {
    for k := 0 to |es|
      invariant OwnersKnown(participants, es, id, k)
    {
      OwnersStep(participants, es, id, k);
    }
    BeforeIsRun(participants, es);
    if i: nat :| CreatedBy(participants, es, id, i, user) {
      assert i < |es| && CreatedBy(participants, es, id, i, user);
    }
  }

  /** Over every run an undo changes a log, its history or a participant only if its caller is
      the user whose execution created the log. */
  lemma UndoByOwnerOnly(participants: Participants, es: seq<Event>, id: Uuid, user: Uuid, now: Time, f: UndoFaults)
    ensures var w := Run(World(map[], participants, map[]), es);
      UndoAnswers(w, id, user, f) || AfterUndo(w, id, user, now, f) != w ==>
        exists i: nat :: CreatedBy(participants, es, id, i, user)
  {
    OwnerExactly(participants, es, id, user);
  }

  /** Only an undone log has a time of undoing. */
  ghost predicate UndoneTimed(w: World) {
    forall id :: id in w.logs ==> (w.logs[id].undoneAt.Some? <==> w.logs[id].status == Undone)
  }

  lemma {:induction false} RunTimed(participants: Participants, es: seq<Event>)
    ensures UndoneTimed(Run(World(map[], participants, map[]), es))
  {
    if es != [] {
      RunTimed(participants, es[..|es| - 1]);
    }
  }

  /** With no call failing, an undo succeeds if and only if its caller is the user whose
      execution created the log, the last status ever written for it is COMPLETED, and no
      undo of it has succeeded before. */
  lemma UndoSucceedsExactly(participants: Participants, es: seq<Event>, id: Uuid, user: Uuid)
    ensures var w := Run(World(map[], participants, map[]), es);
      UndoAnswers(w, id, user, UndoFaults(false, false, {})) <==>
        && (exists i: nat :: CreatedBy(participants, es, id, i, user))
        && id in w.history && w.history[id] != [] && w.history[id][|w.history[id]| - 1] == Completed
        && Undos(World(map[], participants, map[]), es, id) == 0
  {
    OwnerExactly(participants, es, id, user);
    RunTimed(participants, es);
    LogsWalkLegally(participants, es, id);
    var w := Run(World(map[], participants, map[]), es);
    if id in w.logs {
      assert EndsLegally(w.history[id], w.logs[id].status);
    }
  }

  /** A successful undo changes of the log its status and time of undoing, of the other logs
      nothing, and of the participants only rows of the user the undo data names. */
  lemma UndoneLog(w: World, id: Uuid, user: Uuid, now: Time, f: UndoFaults, k: (Uuid, Uuid))
    requires UndoAnswers(w, id, user, f)
    ensures var w' := AfterUndo(w, id, user, now, f);
      && w'.logs == w.logs[id := w.logs[id].(status := Undone, undoneAt := Some(now))]
      && w'.participants.Keys == w.participants.Keys
      && (k in w.participants && (w.logs[id].undoData == None || k.1 != w.logs[id].undoData.value.user) ==>
            w'.participants[k] == w.participants[k])
  {
    if w.logs[id].undoData.Some? {
      var u := w.logs[id].undoData.value;
      UnarchiveRows(w.participants, u, f.unarchives, |u.results|);
    }
  }

  /** What an execution that meets no fault writes last: FAILED exactly for a command whose
      execution fails, and undo data exactly within thirty minutes of its creation. */
  lemma ExecutedLog(w: World, c: Command, id: Uuid, now: Time, checks: set<nat>, archives: set<nat>)
    requires id !in w.logs && (c.BulkArchive? ==> 1 <= |c.conversations| <= 100) && (c.Other? ==> c.valid)
    ensures var w' := Executed(w, c, id, now, ExecFaults(false, false, false, checks, archives));
      && id in w'.logs && w'.logs[id].user == c.user && w'.logs[id].undoneAt == None
      && w'.logs[id].status == (if c.Other? && !c.succeeds then Failed else Completed)
      && (c.BulkArchive? ==> (w'.logs[id].undoData.Some? <==> now < c.createdAt + 30))
      && (w'.logs[id].undoData.Some? ==> w'.logs[id].undoData.value.user == c.user)
      && (forall other :: other in w.logs ==> other in w'.logs && w'.logs[other] == w.logs[other])
  {
  }
}
