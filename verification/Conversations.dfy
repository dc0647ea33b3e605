/** Creating a conversation: one transaction that inserts the conversation and then its
    participants, dropping the error of every participant insert. */
module Conversations {
  import opened Prelude
  import opened Transactions

  datatype Role = Owner | Member

  datatype Db = Db(conversations: map<Uuid, Uuid>, participants: map<(Uuid, Uuid), Role>, users: set<Uuid>)

  datatype Input = Input(kind: string, subject: string, creator: Uuid, participants: seq<Uuid>)

  datatype CreateError = InvalidInput | AlreadyExists | StoreFailure

  predicate ValidInput(input: Input) {
    && input.creator != NIL
    && (input.kind == "DM" || (input.kind == "GROUP" && input.subject != ""))
    && input.participants != []
  }

  function RoleOf(user: Uuid, creator: Uuid): Role {
    if user == creator then Owner else Member
  }

  /** The statements; `fails` stands for a lost connection and the like. */
  function InsertConversation(db: Db, id: Uuid, creator: Uuid, fails: bool): Answer<Db, CreateError> {
    if fails || creator !in db.users then Failed(StoreFailure)
    else if id in db.conversations then Failed(AlreadyExists)
    else Applied(db.(conversations := db.conversations[id := creator]))
  }

  function InsertParticipant(db: Db, id: Uuid, user: Uuid, role: Role, fails: bool): Answer<Db, CreateError> {
    if fails || user !in db.users || id !in db.conversations then Failed(StoreFailure)
    else if (id, user) in db.participants then Failed(AlreadyExists)
    else Applied(db.(participants := db.participants[(id, user) := role]))
  }

  function AddParticipantBody(id: Uuid, user: Uuid, role: Role, fails: bool): Body<Db, CreateError> {
    Statement(db => InsertParticipant(db, id, user, role, fails))
  }

  /** The loop over the participants; `faults` names the inserts that fail of themselves. */
  function AddAll(id: Uuid, creator: Uuid, users: seq<Uuid>, faults: set<nat>): seq<Body<Db, CreateError>> {
    seq(|users|, i requires 0 <= i < |users| =>
      Dropping(AddParticipantBody(id, users[i], RoleOf(users[i], creator), i in faults)))
  }

  function CreateBody(id: Uuid, input: Input, insertFails: bool, faults: set<nat>): Body<Db, CreateError> {
    Then(Statement(db => InsertConversation(db, id, input.creator, insertFails)),
         InTurn(AddAll(id, input.creator, input.participants, faults)))
  }

  method AddParticipant(s: Session<Db>, id: Uuid, user: Uuid, role: Role, fails: bool) returns (o: Outcome<Db, CreateError>)
    ensures o == Run(AddParticipantBody(id, user, role, fails), s, StoreFailure)
  {
    if s.aborted {
      return Outcome(s, Err(StoreFailure));
    }
    if fails || user !in s.tables.users || id !in s.tables.conversations {
      return Outcome(Session(s.tables, true), Err(StoreFailure));
    }
    if (id, user) in s.tables.participants {
      return Outcome(Session(s.tables, true), Err(AlreadyExists));
    }
    var db := s.tables;
    o := Outcome(Session(db.(participants := db.participants[(id, user) := role]), false), Ok(()));
  }

  class ConversationService {
    var db: Db

    constructor (tables: Db)
      ensures db == tables
    {
      db := tables;
    }

    method Create(id: Uuid, input: Input, f: Faults, insertFails: bool, faults: set<nat>) returns (r: Result<Uuid, CreateError>)
      modifies this
      ensures !ValidInput(input) ==> r == Err(InvalidInput) && db == old(db)
      ensures ValidInput(input) <==>
        && input.creator != 0 && |input.participants| > 0
        && (input.kind == "DM" || input.kind == "GROUP") && (input.kind == "GROUP" ==> input.subject != "")
      ensures ValidInput(input) ==>
        var o := WithTx(Pool, Fresh(old(db)), f, StoreFailure, CreateBody(id, input, insertFails, faults));
        db == o.session.tables && (if r.Ok? then o.result.Ok? else o.result == Err(r.error))
      ensures r.Ok? ==> r.value == id
      ensures r.Ok? <==> Creatable(old(db), id, input, f, insertFails, faults)
      ensures db == if r.Ok? then Created(old(db), id, input) else old(db)
    {
      CreatesExactly(db, id, input, f, insertFails, faults);
      if input.creator == NIL {
        return Err(InvalidInput);
      }
      if input.kind != "DM" && input.kind != "GROUP" {
        return Err(InvalidInput);
      }
      if input.kind == "GROUP" && input.subject == "" {
        return Err(InvalidInput);
      }
      if |input.participants| == 0 {
        return Err(InvalidInput);
      }
      if f.begin {
        return Err(StoreFailure);
      }
      var o := CreateDirect(db, id, input, insertFails, faults);
      o := Close(db, f, StoreFailure, o);
      db := o.session.tables;
      if o.result.Err? {
        return Err(o.result.error);
      }
      return Ok(id);
    }
  }

  /** The statements on the transaction's view of the tables. */
  method CreateDirect(tx: Db, id: Uuid, input: Input, insertFails: bool, faults: set<nat>) returns (o: Outcome<Db, CreateError>)
    ensures o == Run(CreateBody(id, input, insertFails, faults), Fresh(tx), StoreFailure)
  {
    if insertFails || input.creator !in tx.users {
      return Outcome(Session(tx, true), Err(StoreFailure));
    }
    if id in tx.conversations {
      return Outcome(Session(tx, true), Err(AlreadyExists));
    }
    var s := Fresh(tx.(conversations := tx.conversations[id := input.creator]));
    ghost var start, adds := s, AddAll(id, input.creator, input.participants, faults);
    for i := 0 to |input.participants|
      invariant Run(InTurn(adds[..i]), start, StoreFailure) == Outcome(s, Ok(()))
    {
      var role := Member;
      if input.participants[i] == input.creator {
        role := Owner;
      }
      var ignored := AddParticipant(s, id, input.participants[i], role, i in faults);
      InTurnSnoc(adds, i);
      s := ignored.session;
    }
    assert adds[..|adds|] == adds;
    o := Outcome(s, Ok(()));
  }

  // ---------------------------------------------------------------- what creation means

  ghost predicate Distinct(users: seq<Uuid>) {
    forall i, j :: 0 <= i < j < |users| ==> users[i] != users[j]
  }

  /** Exactly when a conversation is created. */
  ghost predicate Creatable(db: Db, id: Uuid, input: Input, f: Faults, insertFails: bool, faults: set<nat>) {
    && ValidInput(input) && !f.begin && !f.commit && !insertFails
    && input.creator in db.users && id !in db.conversations
    && AllInsertable(db, id, input.participants, faults)
  }

  ghost predicate AllInsertable(db: Db, id: Uuid, users: seq<Uuid>, faults: set<nat>) {
    && Distinct(users)
    && forall i :: 0 <= i < |users| ==> users[i] in db.users && (id, users[i]) !in db.participants && i !in faults
  }

  function WithParticipants(rows: map<(Uuid, Uuid), Role>, id: Uuid, creator: Uuid, users: seq<Uuid>): map<(Uuid, Uuid), Role> {
    if users == [] then rows
    else
      var last := users[|users| - 1];
      WithParticipants(rows, id, creator, users[..|users| - 1])[(id, last) := RoleOf(last, creator)]
  }

  function Created(db: Db, id: Uuid, input: Input): Db {
    db.(conversations := db.conversations[id := input.creator],
        participants := WithParticipants(db.participants, id, input.creator, input.participants))
  }

  /** A user has a row of the conversation once listed, the creator alone as its owner, and
      no row of another conversation differs. */
  lemma {:induction false} ParticipantsAreListed(rows: map<(Uuid, Uuid), Role>, id: Uuid, creator: Uuid,
                              users: seq<Uuid>, k: (Uuid, Uuid))
    ensures var rows' := WithParticipants(rows, id, creator, users);
      && (k in rows' <==> k in rows || (k.0 == id && k.1 in users))
      && (k.0 == id && k.1 in users ==> rows'[k] == if k.1 == creator then Owner else Member)
      && (k in rows && !(k.0 == id && k.1 in users) ==> rows'[k] == rows[k])
  {
    if users != [] {
      ParticipantsAreListed(rows, id, creator, users[..|users| - 1], k);
      assert users == users[..|users| - 1] + [users[|users| - 1]];
    }
  }

  /** The loop reports no error, but leaves the transaction aborted unless every insert
      succeeds. */
  lemma {:induction false} LoopOutcome(db: Db, id: Uuid, creator: Uuid, users: seq<Uuid>, faults: set<nat>)
    requires id in db.conversations
    ensures var o := Run(InTurn(AddAll(id, creator, users, faults)), Fresh(db), StoreFailure);
      && o.result.Ok?
      && (o.session.aborted <==> !AllInsertable(db, id, users, faults))
      && (!o.session.aborted ==> o.session.tables == db.(participants := WithParticipants(db.participants, id, creator, users)))
  {
    if users != [] {
      var n := |users| - 1;
      var front, adds := users[..n], AddAll(id, creator, users, faults);
      LoopOutcome(db, id, creator, front, faults);
      assert adds[..n] == AddAll(id, creator, front, faults);
      var s := Run(InTurn(adds[..n]), Fresh(db), StoreFailure).session;
      var add := AddParticipantBody(id, users[n], RoleOf(users[n], creator), n in faults);
      assert adds[n] == Dropping(add);
      assert adds[..n + 1] == adds;
      InTurnStep(adds, n, Fresh(db), StoreFailure);
      ParticipantsAreListed(db.participants, id, creator, front, (id, users[n]));
      LastInsertable(db, id, users, faults);
      DroppedAddOutcome(s, id, users[n], RoleOf(users[n], creator), n in faults);
    }
  }

  lemma DroppedAddOutcome(s: Session<Db>, id: Uuid, user: Uuid, role: Role, fails: bool)
    ensures var db, o := s.tables, Run(Dropping(AddParticipantBody(id, user, role, fails)), s, StoreFailure);
      && o.result.Ok?
      && (o.session.aborted <==>
            s.aborted || fails || user !in db.users || id !in db.conversations || (id, user) in db.participants)
      && (!o.session.aborted ==> o.session.tables == db.(participants := db.participants[(id, user) := role]))
  {
    assert Run(AddParticipantBody(id, user, role, fails), s, StoreFailure).session ==
           Run(Dropping(AddParticipantBody(id, user, role, fails)), s, StoreFailure).session;
  }

  lemma LastInsertable(db: Db, id: Uuid, users: seq<Uuid>, faults: set<nat>)
    requires users != []
    ensures var n := |users| - 1;
      AllInsertable(db, id, users, faults) <==>
        && AllInsertable(db, id, users[..n], faults)
        && users[n] in db.users && (id, users[n]) !in db.participants && users[n] !in users[..n] && n !in faults
  {
    var n := |users| - 1;
    assert users == users[..n] + [users[n]];
  }

  /** Although the error of every participant insert is dropped, creation succeeds if and
      only if all of them succeed: the participants are distinct and known, and nothing
      fails. It then adds exactly the conversation and its participants, else nothing. */
  lemma CreatesExactly(db: Db, id: Uuid, input: Input, f: Faults, insertFails: bool, faults: set<nat>)
    ensures var o := WithTx(Pool, Fresh(db), f, StoreFailure, CreateBody(id, input, insertFails, faults));
      ValidInput(input) ==>
        && (o.result.Ok? <==> Creatable(db, id, input, f, insertFails, faults))
        && o.session == Fresh(if o.result.Ok? then Created(db, id, input) else db)
  {
    var body := CreateBody(id, input, insertFails, faults);
    if !insertFails && input.creator in db.users && id !in db.conversations {
      var begun := db.(conversations := db.conversations[id := input.creator]);
      LoopOutcome(begun, id, input.creator, input.participants, faults);
      assert AllInsertable(begun, id, input.participants, faults) <==> AllInsertable(db, id, input.participants, faults);
      assert Run(body, Fresh(db), StoreFailure) ==
             Run(InTurn(AddAll(id, input.creator, input.participants, faults)), Fresh(begun), StoreFailure);
    } else {
      assert Run(body, Fresh(db), StoreFailure).result.Err? by {
        assert Run(body.first, Fresh(db), StoreFailure).result.Err?;
      }
    }
  }
}
