/** The transaction helper, over PostgreSQL: a body run on the pool commits whole or leaves
    the tables as they were; a body run on a running transaction is only part of it. A
    statement that fails aborts its transaction: every later statement fails too, and so
    does the commit, whether or not the program looked at the error. */
module Transactions {
  import opened Prelude

  /** What the caller hands in: nothing, a connection pool, or a running transaction. */
  datatype Handle = Missing | Pool | Running | Unsupported

  /** What one statement comes to: it changes the tables; or it runs and the program makes an
      error of its answer (no such row); or the database refuses it. */
  datatype Answer<+S, +E> = Applied(tables: S) | Refused(error: E) | Failed(error: E)

  /** The body of a transaction as the program writes it. `Outside` is work that does not
      involve the transaction; `Then` passes an error on; `Dropping` ignores it; `Nested`
      uses the helper again, on the running transaction. */
  datatype Body<!S, !E> =
    | Nothing
    | Statement(run: S -> Answer<S, E>)
    | Outside(result: Result<(), E>)
    | Then(first: Body, second: Body)
    | Dropping(inner: Body)
    | Nested(inner: Body)

  /** The tables as the transaction sees them, and whether it is aborted. */
  datatype Session<+S> = Session(tables: S, aborted: bool)

  datatype Outcome<+S, +E> = Outcome(session: Session<S>, result: Result<(), E>)

  datatype Faults = Faults(begin: bool, rollback: bool, commit: bool)

  /** `failure` stands for every error that is not the body's own. */
  function Run<S, E>(body: Body<S, E>, s: Session<S>, failure: E): Outcome<S, E> {
    match body
    case Nothing => Outcome(s, Ok(()))
    case Statement(run) =>
      if s.aborted then Outcome(s, Err(failure))
      else
        match run(s.tables) {
          case Applied(tables) => Outcome(Session(tables, false), Ok(()))
          case Refused(error) => Outcome(s, Err(error))
          case Failed(error) => Outcome(Session(s.tables, true), Err(error))
        }
    case Outside(result) => Outcome(s, result)
    case Then(first, second) =>
      var o := Run(first, s, failure);
      if o.result.Err? then o else Run(second, o.session, failure)
    case Dropping(inner) => Outcome(Run(inner, s, failure).session, Ok(()))
    case Nested(inner) => Run(inner, s, failure)
  }

  /** The end of a transaction that began on `tables`: roll back on an error, else commit. */
  function Close<S, E>(tables: S, f: Faults, failure: E, o: Outcome<S, E>): Outcome<S, E> {
    if o.result.Err? then Outcome(Session(tables, false), if f.rollback then Err(failure) else o.result)
    else if f.commit || o.session.aborted then Outcome(Session(tables, false), Err(failure))
    else o
  }

  function WithTx<S, E>(db: Handle, s: Session<S>, f: Faults, failure: E, body: Body<S, E>): Outcome<S, E> {
    match db
    case Missing => Outcome(s, Err(failure))
    case Unsupported => Outcome(s, Err(failure))
    case Running => Run(body, s, failure)
    case Pool =>
      if f.begin then Outcome(s, Err(failure))
      else Close(s.tables, f, failure, Run(body, Session(s.tables, false), failure))
  }

  /** No transaction of its own is open on the tables. */
  function Fresh<S>(tables: S): Session<S> {
    Session(tables, false)
  }

  // ---------------------------------------------------------------- what decides the commit

  /** The answers of the statements the body gets to execute. */
  function Answers<S, E>(body: Body<S, E>, s: Session<S>, failure: E): seq<Answer<S, E>> {
    match body
    case Nothing => []
    case Statement(run) => if s.aborted then [] else [run(s.tables)]
    case Outside(_) => []
    case Then(first, second) =>
      var o := Run(first, s, failure);
      Answers(first, s, failure) + if o.result.Err? then [] else Answers(second, o.session, failure)
    case Dropping(inner) => Answers(inner, s, failure)
    case Nested(inner) => Answers(inner, s, failure)
  }

  ghost predicate SomeFailed<S, E>(answers: seq<Answer<S, E>>) {
    exists i :: 0 <= i < |answers| && answers[i].Failed?
  }

  /** The tables after the last statement that changed them. */
  function LastApplied<S, E>(tables: S, answers: seq<Answer<S, E>>): S {
    if answers == [] then tables
    else if answers[|answers| - 1].Applied? then answers[|answers| - 1].tables
    else LastApplied(tables, answers[..|answers| - 1])
  }

  lemma {:induction false} LastAppliedConcat<S, E>(tables: S, a: seq<Answer<S, E>>, b: seq<Answer<S, E>>)
    ensures LastApplied(tables, a + b) == LastApplied(LastApplied(tables, a), b)
  {
    if b == [] {
      assert a + b == a;
    } else {
      LastAppliedConcat(tables, a, b[..|b| - 1]);
      assert (a + b)[..|a + b| - 1] == a + b[..|b| - 1];
    }
  }

  /** An aborted transaction executes nothing and stays as it is. */
  lemma {:induction false} AbortedIsStuck<S, E>(body: Body<S, E>, s: Session<S>, failure: E)
    requires s.aborted
    ensures Run(body, s, failure).session == s && Answers(body, s, failure) == []
  {
    match body
    case Then(first, second) =>
      AbortedIsStuck(first, s, failure);
      AbortedIsStuck(second, s, failure);
    case Dropping(inner) => AbortedIsStuck(inner, s, failure);
    case Nested(inner) => AbortedIsStuck(inner, s, failure);
    case _ =>
  }

  /** A body leaves the tables of its last successful statement, and the transaction aborted
      exactly if one of its statements failed, wherever errors were dropped. */
  lemma {:induction false} AbortsExactly<S, E>(body: Body<S, E>, tables: S, failure: E)
    ensures var o, answers := Run(body, Fresh(tables), failure), Answers(body, Fresh(tables), failure);
      o.session == Session(LastApplied(tables, answers), SomeFailed(answers))
  {
    match body
    case Then(first, second) =>
      var o, a := Run(first, Fresh(tables), failure), Answers(first, Fresh(tables), failure);
      AbortsExactly(first, tables, failure);
      if o.result.Err? {
        assert a + [] == a;
      } else {
        var b := Answers(second, o.session, failure);
        LastAppliedConcat(tables, a, b);
        if o.session.aborted {
          AbortedIsStuck(second, o.session, failure);
          assert a + [] == a;
        } else {
          AbortsExactly(second, o.session.tables, failure);
          FailedInEither(a, b);
        }
      }
    case Dropping(inner) => AbortsExactly(inner, tables, failure);
    case Nested(inner) => AbortsExactly(inner, tables, failure);
    case Statement(run) =>
      assert Answers(body, Fresh(tables), failure)[0] == run(tables);
      assert Answers(body, Fresh(tables), failure)[..0] == [];
    case _ =>
  }

  lemma FailedInEither<S, E>(a: seq<Answer<S, E>>, b: seq<Answer<S, E>>)
    ensures SomeFailed(a + b) <==> SomeFailed(a) || SomeFailed(b)
  {
    if i :| 0 <= i < |a| && a[i].Failed? {
      assert (a + b)[i].Failed?;
    }
    if i :| 0 <= i < |b| && b[i].Failed? {
      assert (a + b)[|a| + i].Failed?;
    }
  }

  /** A use of the helper on the pool takes effect exactly when nothing about the transaction
      fails, the body returns no error, and no statement failed on the way. It then leaves
      what the statements did, and otherwise the tables as they were. */
  lemma CommitsExactly<S, E>(tables: S, f: Faults, failure: E, body: Body<S, E>)
    ensures var o := WithTx(Pool, Fresh(tables), f, failure, body);
      var answers := Answers(body, Fresh(tables), failure);
      && (o.result.Ok? <==>
            !f.begin && !f.commit && Run(body, Fresh(tables), failure).result.Ok? && !SomeFailed(answers))
      && o.session == Fresh(if o.result.Ok? then LastApplied(tables, answers) else tables)
  {
    AbortsExactly(body, tables, failure);
  }

  // ---------------------------------------------------------------- bodies that pass every error on

  predicate PassesErrorsOn<S, E>(body: Body<S, E>) {
    match body
    case Then(first, second) => PassesErrorsOn(first) && PassesErrorsOn(second)
    case Dropping(_) => false
    case Nested(inner) => PassesErrorsOn(inner)
    case _ => true
  }

  lemma {:induction false} OkMeansAllApplied<S, E>(body: Body<S, E>, s: Session<S>, failure: E)
    requires PassesErrorsOn(body) && !s.aborted && Run(body, s, failure).result.Ok?
    ensures !Run(body, s, failure).session.aborted
    ensures forall i :: 0 <= i < |Answers(body, s, failure)| ==> Answers(body, s, failure)[i].Applied?
  {
    match body
    case Then(first, second) =>
      OkMeansAllApplied(first, s, failure);
      OkMeansAllApplied(second, Run(first, s, failure).session, failure);
    case Nested(inner) => OkMeansAllApplied(inner, s, failure);
    case _ =>
  }

  /** All or nothing: with every error passed on, success is exactly the whole body and needs
      precisely a begin, a body and a commit without error; failure is exactly nothing. */
  lemma AllOrNothing<S, E>(tables: S, f: Faults, failure: E, body: Body<S, E>)
    requires PassesErrorsOn(body)
    ensures var o, done := WithTx(Pool, Fresh(tables), f, failure, body), Run(body, Fresh(tables), failure);
      && (o.result.Ok? <==> !f.begin && !f.commit && done.result.Ok?)
      && o.session == if o.result.Ok? then done.session else Fresh(tables)
  {
    if Run(body, Fresh(tables), failure).result.Ok? {
      OkMeansAllApplied(body, Fresh(tables), failure);
    }
  }

  /** Which error the caller gets: the body's own, unless begin, rollback or commit failed. */
  lemma ErrorsReported<S, E>(tables: S, f: Faults, failure: E, body: Body<S, E>)
    requires PassesErrorsOn(body)
    ensures var o, done := WithTx(Pool, Fresh(tables), f, failure, body), Run(body, Fresh(tables), failure);
      o.result.Err? ==> o.result.error == if !f.begin && !f.rollback && done.result.Err? then done.result.error else failure
    ensures forall s :: WithTx(Missing, s, f, failure, body) == WithTx(Unsupported, s, f, failure, body) == Outcome(s, Err(failure))
    ensures forall s :: WithTx(Running, s, f, failure, body) == Run(body, s, failure)
  {
  }

  /** The body without its nested uses of the helper. */
  function Flat<S, E>(body: Body<S, E>): Body<S, E> {
    match body
    case Then(first, second) => Then(Flat(first), Flat(second))
    case Dropping(inner) => Dropping(Flat(inner))
    case Nested(inner) => Flat(inner)
    case _ => body
  }

  /** Nested uses, however deep and wherever their errors go, change nothing: their parts
      share the fate of the outermost transaction. */
  lemma {:induction false} NestingIsTransparent<S, E>(body: Body<S, E>, s: Session<S>, failure: E)
    ensures Run(body, s, failure) == Run(Flat(body), s, failure)
    ensures Answers(body, s, failure) == Answers(Flat(body), s, failure)
  {
    match body
    case Then(first, second) =>
      NestingIsTransparent(first, s, failure);
      NestingIsTransparent(second, Run(first, s, failure).session, failure);
    case Dropping(inner) => NestingIsTransparent(inner, s, failure);
    case Nested(inner) => NestingIsTransparent(inner, s, failure);
    case _ =>
  }

  // ---------------------------------------------------------------- dropped errors

  /** Dropping a body's error and going on. If one of its statements failed, dropping the
      error is in vain: whatever follows, the tables stay as they were and the caller gets
      an error. If none did, what it had done stays and the rest decides. */
  lemma DroppedErrorCommits<S, E>(tables: S, f: Faults, failure: E, inner: Body<S, E>, rest: Body<S, E>)
    ensures var o := WithTx(Pool, Fresh(tables), f, failure, Then(Dropping(inner), rest));
      var answers := Answers(inner, Fresh(tables), failure);
      var alone := WithTx(Pool, Fresh(LastApplied(tables, answers)), f, failure, rest);
      && (o.result.Ok? <==> !SomeFailed(answers) && alone.result.Ok?)
      && o.session == if o.result.Ok? then alone.session else Fresh(tables)
  {
    AbortsExactly(inner, tables, failure);
    var s := Run(inner, Fresh(tables), failure).session;
    assert Run(Dropping(inner), Fresh(tables), failure) == Outcome(s, Ok(()));
    if s.aborted {
      AbortedIsStuck(rest, s, failure);
    }
  }

  // ---------------------------------------------------------------- statements in a loop

  /** One body after the other, as a loop runs them. */
  function InTurn<S, E>(bodies: seq<Body<S, E>>): Body<S, E> {
    if bodies == [] then Nothing else Then(InTurn(bodies[..|bodies| - 1]), bodies[|bodies| - 1])
  }

  lemma InTurnSnoc<S, E>(bodies: seq<Body<S, E>>, i: nat)
    requires i < |bodies|
    ensures InTurn(bodies[..i + 1]) == Then(InTurn(bodies[..i]), bodies[i])
  {
    assert bodies[..i + 1][..i] == bodies[..i];
  }

  lemma InTurnStep<S, E>(bodies: seq<Body<S, E>>, i: nat, s: Session<S>, failure: E)
    requires i < |bodies| && Run(InTurn(bodies[..i]), s, failure).result.Ok?
    ensures Run(InTurn(bodies[..i + 1]), s, failure) == Run(bodies[i], Run(InTurn(bodies[..i]), s, failure).session, failure)
  {
    InTurnSnoc(bodies, i);
  }

  lemma {:induction false} InTurnPassesOn<S, E>(bodies: seq<Body<S, E>>)
    requires forall i :: 0 <= i < |bodies| ==> PassesErrorsOn(bodies[i])
    ensures PassesErrorsOn(InTurn(bodies))
  {
    if bodies != [] {
      InTurnPassesOn(bodies[..|bodies| - 1]);
    }
  }

  /** The loop ends with the first error. */
  lemma {:induction false} FirstErrorEnds<S, E>(bodies: seq<Body<S, E>>, i: nat, s: Session<S>, failure: E)
    requires i <= |bodies| && Run(InTurn(bodies[..i]), s, failure).result.Err?
    ensures Run(InTurn(bodies), s, failure) == Run(InTurn(bodies[..i]), s, failure)
  {
    if i == |bodies| {
      assert bodies[..i] == bodies;
    } else {
      var front := bodies[..|bodies| - 1];
      assert front[..i] == bodies[..i];
      FirstErrorEnds(front, i, s, failure);
    }
  }
}
