/** Sending a message: one transaction over the messages, ciphertexts, sequence counter
    and outbox tables. Every statement may fail; a failure rolls the transaction back. */
module MessageStore {
  import opened Prelude
  import Transactions

  /** `seqID` is the nullable column the insert trigger fills; `clientMessageID` is null
      when the client sent none; `senderDevice` is what the metadata update records. */
  datatype Message = Message(conversation: Uuid, sender: Uuid, clientMessageID: Option<string>, seqID: Option<int>,
                             senderDevice: Option<Uuid>)

  datatype Ciphertext = Ciphertext(recipientUser: Uuid, senderDevice: Uuid, body: seq<int>)

  datatype OutboxEvent = MessageNew(message: Uuid, conversation: Uuid, sender: Uuid) | OtherEvent

  /** The tables a send touches. Ciphertexts are keyed by their unique pair of message and
      recipient device; `outbox` holds the rows as inserted, PENDING. */
  datatype Db = Db(sequences: map<Uuid, int>, messages: map<Uuid, Message>,
                   ciphertexts: map<(Uuid, Uuid), Ciphertext>, outbox: map<Uuid, OutboxEvent>,
                   devices: map<Uuid, Uuid>, participants: set<(Uuid, Uuid)>)

  datatype Payload = Payload(device: Uuid, body: seq<int>)

  datatype SendInput = SendInput(conversation: Uuid, sender: Uuid, ciphertexts: seq<Payload>, clientMsgID: string)

  datatype SendError = InvalidInput | Forbidden | AlreadyExists | NotFound | StoreFailure

  /** The store calls of a send, each of which may fail. */
  datatype Call =
    | CheckParticipant | Begin | InsertMessage | UpdateMessage | LookupDevice(i: nat) | InsertCiphertext(i: nat)
    | InsertEvent | Commit | Rollback

  function LastSequence(db: Db, conversation: Uuid): int {
    if conversation in db.sequences then db.sequences[conversation] else 0
  }

  predicate ValidInput(input: SendInput) {
    && input.conversation != NIL && input.sender != NIL
    && input.ciphertexts != []
    && forall i :: 0 <= i < |input.ciphertexts| ==>
         input.ciphertexts[i].device != NIL && input.ciphertexts[i].body != []
  }

  function NullString(value: string): Option<string> {
    if value == "" then None else Some(value)
  }

  /** The UNIQUE (conversation_id, client_message_id) constraint; null never collides. */
  predicate ClientIdTaken(db: Db, conversation: Uuid, clientMessageID: Option<string>) {
    clientMessageID.Some? &&
    exists m :: m in db.messages && db.messages[m].conversation == conversation &&
                db.messages[m].clientMessageID == clientMessageID
  }

  // ---------------------------------------------------------------- sequence numbers

  /** The insert trigger: create the counter row if missing, bump it, hand out the value. */
  method AssignMessageSequence(db: Db, conversation: Uuid) returns (db': Db, nextSeq: int)
    ensures nextSeq == LastSequence(db, conversation) + 1
    ensures db' == db.(sequences := db.sequences[conversation := nextSeq])
  {
    var sequences := db.sequences;
    if conversation !in sequences {
      sequences := sequences[conversation := 0];
    }
    sequences := sequences[conversation := sequences[conversation] + 1];
    nextSeq := sequences[conversation];
    db' := db.(sequences := sequences);
  }

  method CreateMessage(db: Db, id: Uuid, m: Message, fails: bool) returns (db': Db, r: Result<(), SendError>)
    ensures r.Ok? <==> !fails && id !in db.messages && !ClientIdTaken(db, m.conversation, m.clientMessageID)
    ensures r.Ok? ==> db' == Inserted(db, id, m)
    ensures r.Err? ==> r.error == if fails then StoreFailure else AlreadyExists
    ensures r.Ok? ==> db'.messages[id].seqID == Some(LastSequence(db, m.conversation) + 1)
    ensures r.Ok? ==> db'.messages[id].conversation == m.conversation && db'.messages[id].clientMessageID == m.clientMessageID
  {
    var nextSeq: int;
    db', nextSeq := AssignMessageSequence(db, m.conversation);
    if fails {
      return db', Err(StoreFailure);
    }
    if id in db'.messages || ClientIdTaken(db', m.conversation, m.clientMessageID) {
      return db', Err(AlreadyExists);
    }
    db' := db'.(messages := db'.messages[id := m.(seqID := Some(nextSeq))]);
    r := Ok(());
  }

  /** An inserted message row carries the next number of its conversation. */
  function Inserted(db: Db, id: Uuid, m: Message): Db {
    var n := LastSequence(db, m.conversation) + 1;
    db.(sequences := db.sequences[m.conversation := n], messages := db.messages[id := m.(seqID := Some(n))])
  }

  /** The other issuer: read the counter row, then insert it at 1 or write it back bumped,
      as one atomic step. */
  method IncrementSequence(db: Db, conversation: Uuid, fails: bool) returns (db': Db, r: Result<int, SendError>)
    ensures r.Ok? <==> !fails
    ensures r.Ok? ==> r.value == LastSequence(db, conversation) + 1
    ensures db' == if r.Ok? then db.(sequences := db.sequences[conversation := r.value]) else db
  {
    if fails {
      return db, Err(StoreFailure);
    }
    if conversation !in db.sequences {
      return db.(sequences := db.sequences[conversation := 1]), Ok(1);
    }
    var lastSequence := db.sequences[conversation];
    lastSequence := lastSequence + 1;
    db' := db.(sequences := db.sequences[conversation := lastSequence]);
    r := Ok(lastSequence);
  }

  // ---------------------------------------------------------------- send

  ghost predicate DistinctDevices(payloads: seq<Payload>) {
    forall i, j :: 0 <= i < j < |payloads| ==> payloads[i].device != payloads[j].device
  }

  predicate KnownDevice(db: Db, device: Uuid) {
    device in db.devices && db.devices[device] != NIL
  }

  /** What the send needs of the tables, faults aside. */
  ghost predicate Acceptable(db: Db, input: SendInput, device: Option<Uuid>, id: Uuid) {
    && id !in db.messages
    && !ClientIdTaken(db, input.conversation, NullString(input.clientMsgID))
    && device.Some? && device.value in db.devices
    && DistinctDevices(input.ciphertexts)
    && forall i :: 0 <= i < |input.ciphertexts| ==>
         KnownDevice(db, input.ciphertexts[i].device) && (id, input.ciphertexts[i].device) !in db.ciphertexts
  }

  ghost predicate NoFault(faults: set<Call>, input: SendInput) {
    && {CheckParticipant, Begin, InsertMessage, UpdateMessage, InsertEvent, Commit} !! faults
    && forall i :: 0 <= i < |input.ciphertexts| ==> LookupDevice(i) !in faults && InsertCiphertext(i) !in faults
  }

  /** The ciphertext table after inserting one row per payload, in order. */
  function WithCiphertexts(db: Db, id: Uuid, sender: Uuid, payloads: seq<Payload>): map<(Uuid, Uuid), Ciphertext> {
    if payloads == [] then db.ciphertexts
    else
      var front, p := payloads[..|payloads| - 1], payloads[|payloads| - 1];
      WithCiphertexts(db, id, sender, front)[(id, p.device) := Ciphertext(OwnerOf(db, p.device), sender, p.body)]
  }

  function OwnerOf(db: Db, device: Uuid): Uuid {
    if device in db.devices then db.devices[device] else NIL
  }

  lemma {:induction false} OneRowPerPayload(db: Db, id: Uuid, sender: Uuid, payloads: seq<Payload>)
    requires DistinctDevices(payloads)
    requires forall i :: 0 <= i < |payloads| ==> (id, payloads[i].device) !in db.ciphertexts
    ensures |WithCiphertexts(db, id, sender, payloads)| == |db.ciphertexts| + |payloads|
  {
    if payloads != [] {
      var front, p := payloads[..|payloads| - 1], payloads[|payloads| - 1];
      OneRowPerPayload(db, id, sender, front);
      AddressedDevices(db, id, sender, front, p.device);
      assert WithCiphertexts(db, id, sender, payloads).Keys == WithCiphertexts(db, id, sender, front).Keys + {(id, p.device)};
    }
  }

  lemma {:induction false} OtherRowsKept(db: Db, id: Uuid, sender: Uuid, payloads: seq<Payload>, k: (Uuid, Uuid))
    requires forall i :: 0 <= i < |payloads| ==> k != (id, payloads[i].device)
    ensures k in WithCiphertexts(db, id, sender, payloads) <==> k in db.ciphertexts
    ensures k in db.ciphertexts ==> WithCiphertexts(db, id, sender, payloads)[k] == db.ciphertexts[k]
  {
    if payloads != [] {
      assert k != (id, payloads[|payloads| - 1].device);
      OtherRowsKept(db, id, sender, payloads[..|payloads| - 1], k);
    }
  }

  lemma {:induction false} PayloadDelivered(db: Db, id: Uuid, sender: Uuid, payloads: seq<Payload>, i: nat)
    requires DistinctDevices(payloads) && i < |payloads|
    ensures var p := payloads[i];
      (id, p.device) in WithCiphertexts(db, id, sender, payloads) &&
      WithCiphertexts(db, id, sender, payloads)[(id, p.device)] == Ciphertext(OwnerOf(db, p.device), sender, p.body)
  {
    var n := |payloads| - 1;
    if i < n {
      assert payloads[..n][i] == payloads[i];
      PayloadDelivered(db, id, sender, payloads[..n], i);
    }
  }

  /** With distinct devices the insertions add exactly one row per payload, addressed to
      the owner of its device and carrying its body, and change no other row. */
  lemma OneCiphertextPerPayload(db: Db, id: Uuid, sender: Uuid, payloads: seq<Payload>)
    requires DistinctDevices(payloads)
    requires forall i :: 0 <= i < |payloads| ==> (id, payloads[i].device) !in db.ciphertexts
    ensures var rows := WithCiphertexts(db, id, sender, payloads);
      && |rows| == |db.ciphertexts| + |payloads|
      && (forall k :: k in db.ciphertexts ==> k in rows && rows[k] == db.ciphertexts[k])
      && (forall k :: k in rows && k !in db.ciphertexts ==> k.0 == id)
      && (forall i :: 0 <= i < |payloads| && payloads[i].device in db.devices ==>
            (id, payloads[i].device) in rows &&
            rows[(id, payloads[i].device)] == Ciphertext(db.devices[payloads[i].device], sender, payloads[i].body))
  {
    OneRowPerPayload(db, id, sender, payloads);
    forall k | k in db.ciphertexts || k.0 != id
      ensures k in WithCiphertexts(db, id, sender, payloads) <==> k in db.ciphertexts
      ensures k in db.ciphertexts ==> WithCiphertexts(db, id, sender, payloads)[k] == db.ciphertexts[k]
    {
      OtherRowsKept(db, id, sender, payloads, k);
    }
    forall i | 0 <= i < |payloads|
      ensures (id, payloads[i].device) in WithCiphertexts(db, id, sender, payloads)
      ensures WithCiphertexts(db, id, sender, payloads)[(id, payloads[i].device)] ==
              Ciphertext(OwnerOf(db, payloads[i].device), sender, payloads[i].body)
    {
      PayloadDelivered(db, id, sender, payloads, i);
    }
  }

  /** A device has a row for the message once a payload was addressed to it. */
  lemma {:induction false} AddressedDevices(db: Db, id: Uuid, sender: Uuid, payloads: seq<Payload>, device: Uuid)
    ensures (id, device) in WithCiphertexts(db, id, sender, payloads) <==>
            (id, device) in db.ciphertexts || exists j :: 0 <= j < |payloads| && payloads[j].device == device
  {
    if payloads != [] {
      AddressedDevices(db, id, sender, payloads[..|payloads| - 1], device);
    }
  }

  /** The state a successful send leaves. The metadata update writes back the sequence
      number it never read, so the row ends up without one. */
  function Sent(db: Db, input: SendInput, device: Uuid, id: Uuid, eventID: Uuid): Db {
    db.(
      sequences := db.sequences[input.conversation := LastSequence(db, input.conversation) + 1],
      messages := db.messages[id := Message(input.conversation, input.sender, NullString(input.clientMsgID), None, Some(device))],
      ciphertexts := WithCiphertexts(db, id, device, input.ciphertexts),
      outbox := db.outbox[eventID := MessageNew(id, input.conversation, input.sender)])
  }

  /** Exactly when a send succeeds. */
  ghost predicate Accepts(db: Db, input: SendInput, device: Option<Uuid>, id: Uuid, eventID: Uuid, faults: set<Call>) {
    && ValidInput(input) && (input.conversation, input.sender) in db.participants
    && Acceptable(db, input, device, id) && eventID !in db.outbox && NoFault(faults, input)
  }

  // ---------------------------------------------------------------- the transaction bodies

  /** The row a send inserts, before the trigger and the metadata update. */
  function NewMessage(input: SendInput): Message {
    Message(input.conversation, input.sender, NullString(input.clientMsgID), None, None)
  }

  function InsertMessageStep(input: SendInput, id: Uuid, fails: bool): Transactions.Body<Db, SendError> {
    Transactions.Statement((db: Db) =>
      if fails then Transactions.Failed(StoreFailure)
      else if id in db.messages || ClientIdTaken(db, input.conversation, NullString(input.clientMsgID))
      then Transactions.Failed(AlreadyExists)
      else Transactions.Applied(Inserted(db, id, NewMessage(input))))
  }

  /** Writes the whole row back as the service holds it; a missing row is no statement
      failure but an error of the service. */
  function UpdateMessageStep(input: SendInput, id: Uuid, device: Uuid, fails: bool): Transactions.Body<Db, SendError> {
    Transactions.Statement((db: Db) =>
      if fails then Transactions.Failed(StoreFailure)
      else if id !in db.messages then Transactions.Refused(NotFound)
      else Transactions.Applied(db.(messages := db.messages[id := NewMessage(input).(senderDevice := Some(device))])))
  }

  /** The owner of a device is looked up outside the transaction. */
  function LookupStep(pool: Db, device: Uuid, fails: bool): Transactions.Body<Db, SendError> {
    Transactions.Outside(if fails then Err(StoreFailure) else if !KnownDevice(pool, device) then Err(NotFound) else Ok(()))
  }

  function InsertCiphertextStep(pool: Db, id: Uuid, sender: Uuid, p: Payload, fails: bool): Transactions.Body<Db, SendError> {
    Transactions.Statement((db: Db) =>
      if fails || sender !in db.devices then Transactions.Failed(StoreFailure)
      else if (id, p.device) in db.ciphertexts then Transactions.Failed(AlreadyExists)
      else Transactions.Applied(
        db.(ciphertexts := db.ciphertexts[(id, p.device) := Ciphertext(OwnerOf(pool, p.device), sender, p.body)])))
  }

  function CiphertextSteps(pool: Db, id: Uuid, sender: Uuid, payloads: seq<Payload>, faults: set<Call>)
    : seq<Transactions.Body<Db, SendError>>
  {
    seq(|payloads|, i requires 0 <= i < |payloads| =>
      Transactions.Then(LookupStep(pool, payloads[i].device, LookupDevice(i) in faults),
                        InsertCiphertextStep(pool, id, sender, payloads[i], InsertCiphertext(i) in faults)))
  }

  function DirectBody(pool: Db, input: SendInput, device: Option<Uuid>, id: Uuid, faults: set<Call>)
    : Transactions.Body<Db, SendError>
  {
    Transactions.Then(
      InsertMessageStep(input, id, InsertMessage in faults),
      if device.None? then Transactions.Outside(Err(InvalidInput))
      else Transactions.Then(
        UpdateMessageStep(input, id, device.value, UpdateMessage in faults),
        Transactions.InTurn(CiphertextSteps(pool, id, device.value, input.ciphertexts, faults))))
  }

  function InsertEventStep(input: SendInput, id: Uuid, eventID: Uuid, fails: bool): Transactions.Body<Db, SendError> {
    Transactions.Statement((db: Db) =>
      if fails || eventID in db.outbox then Transactions.Failed(StoreFailure)
      else Transactions.Applied(Announced(db, input, id, eventID)))
  }

  function SendBody(pool: Db, input: SendInput, device: Option<Uuid>, id: Uuid, eventID: Uuid, faults: set<Call>)
    : Transactions.Body<Db, SendError>
  {
    Transactions.Then(DirectBody(pool, input, device, id, faults),
                      InsertEventStep(input, id, eventID, InsertEvent in faults))
  }

  function TxFaults(faults: set<Call>): Transactions.Faults {
    Transactions.Faults(Begin in faults, Rollback in faults, Commit in faults)
  }

  datatype Handle = Pool | Transaction

  class MessageService {
    var db: Db
    /** The repository handle the service works through; a send swaps in its transaction. */
    var messageRepo: Handle

    constructor (tables: Db)
      ensures db == tables && messageRepo == Pool
    {
      db, messageRepo := tables, Pool;
    }

    method ExecuteSendMessage(input: SendInput, device: Option<Uuid>, id: Uuid, eventID: Uuid, faults: set<Call>)
      returns (r: Result<Uuid, SendError>)
      modifies this
      ensures messageRepo == old(messageRepo)
      ensures r.Ok? <==> Accepts(old(db), input, device, id, eventID, faults)
      ensures r.Ok? ==> r.value == id && db == Sent(old(db), input, device.value, id, eventID)
      ensures r.Err? ==> db == old(db)
      ensures ValidInput(input) && CheckParticipant !in faults && (input.conversation, input.sender) in old(db).participants ==>
        var o := Transactions.WithTx(Transactions.Pool, Transactions.Fresh(old(db)), TxFaults(faults), StoreFailure,
                                     SendBody(old(db), input, device, id, eventID, faults));
        db == o.session.tables && (if r.Ok? then o.result.Ok? else o.result == Err(r.error))
    {
      SendsAllOrNothing(db, input, device, id, eventID, faults);
      if input.conversation == NIL || input.sender == NIL || |input.ciphertexts| == 0 {
        return Err(InvalidInput);
      }
      for i := 0 to |input.ciphertexts|
        invariant forall j :: 0 <= j < i ==> input.ciphertexts[j].device != NIL && input.ciphertexts[j].body != []
      {
        if input.ciphertexts[i].device == NIL || |input.ciphertexts[i].body| == 0 {
          return Err(InvalidInput);
        }
      }
      if CheckParticipant in faults {
        return Err(StoreFailure);
      }
      if (input.conversation, input.sender) !in db.participants {
        return Err(Forbidden);
      }
      if Begin in faults {
        return Err(StoreFailure);
      }
      var prevMsgRepo := messageRepo;
      messageRepo := Transaction;
      var o := ExecuteSendMessageDirect(db, input, device, id, faults);
      if o.result.Ok? {
        o := SaveToOutbox(o.session, input, id, eventID, InsertEvent in faults);
      }
      messageRepo := prevMsgRepo;
      o := Transactions.Close(db, TxFaults(faults), StoreFailure, o);
      db := o.session.tables;
      if o.result.Err? {
        return Err(o.result.error);
      }
      return Ok(id);
    }
  }

  /** Writes the message's event to the outbox, in the transaction it is given. */
  method SaveToOutbox(s: Transactions.Session<Db>, input: SendInput, id: Uuid, eventID: Uuid, fails: bool)
    returns (o: Transactions.Outcome<Db, SendError>)
    ensures o == Transactions.Run(InsertEventStep(input, id, eventID, fails), s, StoreFailure)
  {
    if s.aborted {
      return Transactions.Outcome(s, Err(StoreFailure));
    }
    if fails || eventID in s.tables.outbox {
      return Transactions.Outcome(Transactions.Session(s.tables, true), Err(StoreFailure));
    }
    var event := MessageNew(id, input.conversation, input.sender);
    o := Transactions.Outcome(Transactions.Fresh(s.tables.(outbox := s.tables.outbox[eventID := event])), Ok(()));
  }

  /** The statements on messages and ciphertexts, on the transaction's view of the tables. */
  method ExecuteSendMessageDirect(tx: Db, input: SendInput, device: Option<Uuid>, id: Uuid, faults: set<Call>)
    returns (o: Transactions.Outcome<Db, SendError>)
    requires input.ciphertexts != []
    ensures o == Transactions.Run(DirectBody(tx, input, device, id, faults), Transactions.Fresh(tx), StoreFailure)
    ensures o.result.Ok? <==>
      && Acceptable(tx, input, device, id) && InsertMessage !in faults && UpdateMessage !in faults
      && forall i :: 0 <= i < |input.ciphertexts| ==> LookupDevice(i) !in faults && InsertCiphertext(i) !in faults
    ensures o.result.Ok? ==> forall e :: Announced(o.session.tables, input, id, e) == Sent(tx, input, device.value, id, e)
  {
    DirectOutcome(tx, input, device, id, faults);
    var inserted, created := CreateMessage(tx, id, NewMessage(input), InsertMessage in faults);
    if created.Err? {
      return Transactions.Outcome(Transactions.Session(tx, true), Err(created.error));
    }
    if device.None? {
      return Transactions.Outcome(Transactions.Fresh(inserted), Err(InvalidInput));
    }
    ghost var rest := DirectBody(tx, input, device, id, faults).second;
    assert Transactions.Run(rest, Transactions.Fresh(inserted), StoreFailure) ==
           Transactions.Run(DirectBody(tx, input, device, id, faults), Transactions.Fresh(tx), StoreFailure);
    if UpdateMessage in faults {
      assert Transactions.Run(rest.first, Transactions.Fresh(inserted), StoreFailure) ==
             Transactions.Outcome(Transactions.Session(inserted, true), Err(StoreFailure));
      return Transactions.Outcome(Transactions.Session(inserted, true), Err(StoreFailure));
    }
    var msg := NewMessage(input).(senderDevice := device);
    var updated := inserted.(messages := inserted.messages[id := msg]);
    assert Transactions.Run(rest.first, Transactions.Fresh(inserted), StoreFailure) ==
           Transactions.Outcome(Transactions.Fresh(updated), Ok(()));
    o := CreateCiphertexts(tx, updated, id, device.value, input.ciphertexts, faults);
  }

  /** The tables with the message's outbox row added. */
  function Announced(db: Db, input: SendInput, id: Uuid, eventID: Uuid): Db {
    db.(outbox := db.outbox[eventID := MessageNew(id, input.conversation, input.sender)])
  }

  /** One ciphertext row per payload, in order, stopping at the first error. */
  method CreateCiphertexts(pool: Db, tx: Db, id: Uuid, sender: Uuid, payloads: seq<Payload>, faults: set<Call>)
    returns (o: Transactions.Outcome<Db, SendError>)
    ensures o == Transactions.Run(Transactions.InTurn(CiphertextSteps(pool, id, sender, payloads, faults)),
                                  Transactions.Fresh(tx), StoreFailure)
    ensures pool.devices == tx.devices ==>
      && (o.result.Ok? <==> Deliverable(pool, tx, id, sender, payloads, faults))
      && (o.result.Ok? ==> o.session == Transactions.Fresh(tx.(ciphertexts := WithCiphertexts(tx, id, sender, payloads))))
  {
    if pool.devices == tx.devices {
      CiphertextsOutcome(pool, tx, id, sender, payloads, faults);
    }
    var db := tx;
    ghost var steps := CiphertextSteps(pool, id, sender, payloads, faults);
    for i := 0 to |payloads|
      invariant Transactions.Run(Transactions.InTurn(steps[..i]), Transactions.Fresh(tx), StoreFailure) ==
                Transactions.Outcome(Transactions.Fresh(db), Ok(()))
    {
      Transactions.InTurnStep(steps, i, Transactions.Fresh(tx), StoreFailure);
      CiphertextStepOutcome(pool, db, id, sender, payloads, faults, i);
      var p := payloads[i];
      var user, found := LookupUserIDByDevice(pool, p.device, LookupDevice(i) in faults);
      if found.Err? {
        Transactions.FirstErrorEnds(steps, i + 1, Transactions.Fresh(tx), StoreFailure);
        return Transactions.Outcome(Transactions.Fresh(db), found);
      }
      if InsertCiphertext(i) in faults || sender !in db.devices {
        Transactions.FirstErrorEnds(steps, i + 1, Transactions.Fresh(tx), StoreFailure);
        return Transactions.Outcome(Transactions.Session(db, true), Err(StoreFailure));
      }
      if (id, p.device) in db.ciphertexts {
        Transactions.FirstErrorEnds(steps, i + 1, Transactions.Fresh(tx), StoreFailure);
        return Transactions.Outcome(Transactions.Session(db, true), Err(AlreadyExists));
      }
      db := db.(ciphertexts := db.ciphertexts[(id, p.device) := Ciphertext(user, sender, p.body)]);
    }
    assert steps[..|steps|] == steps;
    o := Transactions.Outcome(Transactions.Fresh(db), Ok(()));
  }

  method LookupUserIDByDevice(pool: Db, device: Uuid, fails: bool) returns (user: Uuid, r: Result<(), SendError>)
    ensures r.Ok? <==> !fails && KnownDevice(pool, device)
    ensures r.Ok? ==> user == OwnerOf(pool, device) != NIL
    ensures r.Err? ==> r.error == if fails then StoreFailure else NotFound
  {
    user, r := NIL, Err(NotFound);
    if fails {
      return NIL, Err(StoreFailure);
    }
    if device in pool.devices && pool.devices[device] != NIL {
      return pool.devices[device], Ok(());
    }
  }

  // ---------------------------------------------------------------- when a send succeeds

  /** What the ciphertext loop needs. */
  ghost predicate Deliverable(pool: Db, tx: Db, id: Uuid, sender: Uuid, payloads: seq<Payload>, faults: set<Call>) {
    && (payloads != [] ==> sender in tx.devices)
    && DistinctDevices(payloads)
    && forall i :: 0 <= i < |payloads| ==>
         && KnownDevice(pool, payloads[i].device) && (id, payloads[i].device) !in tx.ciphertexts
         && LookupDevice(i) !in faults && InsertCiphertext(i) !in faults
  }

  lemma DeliverableSnoc(pool: Db, tx: Db, id: Uuid, sender: Uuid, payloads: seq<Payload>, faults: set<Call>)
    requires payloads != []
    ensures var n := |payloads| - 1;
      var device := payloads[n].device;
      Deliverable(pool, tx, id, sender, payloads, faults) <==>
        && Deliverable(pool, tx, id, sender, payloads[..n], faults)
        && sender in tx.devices && KnownDevice(pool, device)
        && LookupDevice(n) !in faults && InsertCiphertext(n) !in faults
        && (id, device) !in tx.ciphertexts && !(exists j :: 0 <= j < n && payloads[..n][j].device == device)
  {
    var n := |payloads| - 1;
    assert forall i :: 0 <= i < n ==> payloads[..n][i] == payloads[i];
  }

  lemma CiphertextStepOutcome(pool: Db, db: Db, id: Uuid, sender: Uuid, payloads: seq<Payload>, faults: set<Call>, n: nat)
    requires n < |payloads|
    ensures var p, o := payloads[n],
        Transactions.Run(CiphertextSteps(pool, id, sender, payloads, faults)[n], Transactions.Fresh(db), StoreFailure);
      if LookupDevice(n) in faults then o == Transactions.Outcome(Transactions.Fresh(db), Err(StoreFailure))
      else if !KnownDevice(pool, p.device) then o == Transactions.Outcome(Transactions.Fresh(db), Err(NotFound))
      else if InsertCiphertext(n) in faults || sender !in db.devices
      then o == Transactions.Outcome(Transactions.Session(db, true), Err(StoreFailure))
      else if (id, p.device) in db.ciphertexts then o == Transactions.Outcome(Transactions.Session(db, true), Err(AlreadyExists))
      else o == Transactions.Outcome(Transactions.Fresh(
        db.(ciphertexts := db.ciphertexts[(id, p.device) := Ciphertext(OwnerOf(pool, p.device), sender, p.body)])), Ok(()))
  {
    var p := payloads[n];
    var lookup := LookupStep(pool, p.device, LookupDevice(n) in faults);
    var insert := InsertCiphertextStep(pool, id, sender, p, InsertCiphertext(n) in faults);
    assert CiphertextSteps(pool, id, sender, payloads, faults)[n] == Transactions.Then(lookup, insert);
    assert Transactions.Run(lookup, Transactions.Fresh(db), StoreFailure) == Transactions.Outcome(Transactions.Fresh(db), lookup.result);
    assert Transactions.Run(insert, Transactions.Fresh(db), StoreFailure).session.tables.devices == db.devices;
  }

  lemma {:induction false} CiphertextsOutcome(pool: Db, tx: Db, id: Uuid, sender: Uuid, payloads: seq<Payload>, faults: set<Call>)
    requires pool.devices == tx.devices
    ensures var o := Transactions.Run(Transactions.InTurn(CiphertextSteps(pool, id, sender, payloads, faults)),
                                      Transactions.Fresh(tx), StoreFailure);
      && (o.result.Ok? <==> Deliverable(pool, tx, id, sender, payloads, faults))
      && (o.result.Ok? ==> o.session == Transactions.Fresh(tx.(ciphertexts := WithCiphertexts(tx, id, sender, payloads))))
  {
    if payloads != [] {
      var n := |payloads| - 1;
      var front, steps := payloads[..n], CiphertextSteps(pool, id, sender, payloads, faults);
      CiphertextsOutcome(pool, tx, id, sender, front, faults);
      assert steps[..n] == CiphertextSteps(pool, id, sender, front, faults);
      AddressedDevices(tx, id, sender, front, payloads[n].device);
      DeliverableSnoc(pool, tx, id, sender, payloads, faults);
      CiphertextStepOutcome(pool, tx.(ciphertexts := WithCiphertexts(tx, id, sender, front)), id, sender, payloads, faults, n);
    }
  }

  /** The statements of a send succeed if and only if the tables admit it and none fails of
      itself; they leave the message, its ciphertexts and the new number. */
  lemma DirectOutcome(db: Db, input: SendInput, device: Option<Uuid>, id: Uuid, faults: set<Call>)
    requires input.ciphertexts != []
    ensures var o := Transactions.Run(DirectBody(db, input, device, id, faults), Transactions.Fresh(db), StoreFailure);
      && (o.result.Ok? <==>
            && Acceptable(db, input, device, id) && InsertMessage !in faults && UpdateMessage !in faults
            && forall i :: 0 <= i < |input.ciphertexts| ==> LookupDevice(i) !in faults && InsertCiphertext(i) !in faults)
      && (o.result.Ok? ==> !o.session.aborted && o.session.tables.outbox == db.outbox)
      && (o.result.Ok? ==> forall e :: Announced(o.session.tables, input, id, e) == Sent(db, input, device.value, id, e))
  {
    var body, s := DirectBody(db, input, device, id, faults), Transactions.Fresh(db);
    if InsertMessage !in faults && id !in db.messages && !ClientIdTaken(db, input.conversation, NullString(input.clientMsgID)) {
      var inserted := Inserted(db, id, NewMessage(input));
      assert Transactions.Run(body.first, s, StoreFailure) == Transactions.Outcome(Transactions.Fresh(inserted), Ok(()));
      if device.Some? {
        UpdateThenCiphertexts(db, inserted, input, device.value, id, faults);
      }
    } else {
      assert Transactions.Run(body.first, s, StoreFailure).result.Err?;
    }
  }

  lemma SameDeliverable(db: Db, tx: Db, id: Uuid, sender: Uuid, payloads: seq<Payload>, faults: set<Call>)
    requires tx.devices == db.devices && tx.ciphertexts == db.ciphertexts
    ensures Deliverable(db, tx, id, sender, payloads, faults) <==> Deliverable(db, db, id, sender, payloads, faults)
  {
  }

  lemma AnnouncedIsSent(db: Db, updated: Db, input: SendInput, device: Uuid, id: Uuid, e: Uuid)
    requires updated == Inserted(db, id, NewMessage(input)).(
      messages := Inserted(db, id, NewMessage(input)).messages[id := NewMessage(input).(senderDevice := Some(device))])
    ensures Announced(updated.(ciphertexts := WithCiphertexts(db, id, device, input.ciphertexts)), input, id, e) ==
            Sent(db, input, device, id, e)
  {
  }

  lemma UpdateThenCiphertexts(db: Db, inserted: Db, input: SendInput, device: Uuid, id: Uuid, faults: set<Call>)
    requires inserted == Inserted(db, id, NewMessage(input)) && input.ciphertexts != []
    ensures var o := Transactions.Run(DirectBody(db, input, Some(device), id, faults).second, Transactions.Fresh(inserted), StoreFailure);
      && (o.result.Ok? <==> UpdateMessage !in faults && Deliverable(db, db, id, device, input.ciphertexts, faults))
      && (o.result.Ok? ==> !o.session.aborted && o.session.tables.outbox == db.outbox)
      && (o.result.Ok? ==> forall e :: Announced(o.session.tables, input, id, e) == Sent(db, input, device, id, e))
  {
    var rest, s := DirectBody(db, input, Some(device), id, faults).second, Transactions.Fresh(inserted);
    if UpdateMessage !in faults {
      var updated := inserted.(messages := inserted.messages[id := NewMessage(input).(senderDevice := Some(device))]);
      assert Transactions.Run(rest.first, s, StoreFailure) == Transactions.Outcome(Transactions.Fresh(updated), Ok(()));
      CiphertextsOutcome(db, updated, id, device, input.ciphertexts, faults);
      SameCiphertexts(db, updated, id, device, input.ciphertexts);
      SameDeliverable(db, updated, id, device, input.ciphertexts, faults);
      forall e
        ensures Announced(updated.(ciphertexts := WithCiphertexts(db, id, device, input.ciphertexts)), input, id, e) ==
                Sent(db, input, device, id, e)
      {
        AnnouncedIsSent(db, updated, input, device, id, e);
      }
    } else {
      assert Transactions.Run(rest.first, s, StoreFailure).result.Err?;
    }
  }

  lemma SendPassesErrorsOn(pool: Db, input: SendInput, device: Option<Uuid>, id: Uuid, eventID: Uuid, faults: set<Call>)
    ensures Transactions.PassesErrorsOn(SendBody(pool, input, device, id, eventID, faults))
  {
    var direct := DirectBody(pool, input, device, id, faults);
    if device.Some? {
      var steps := CiphertextSteps(pool, id, device.value, input.ciphertexts, faults);
      forall i | 0 <= i < |steps|
        ensures Transactions.PassesErrorsOn(steps[i])
      {
        assert Transactions.PassesErrorsOn(steps[i].first) && Transactions.PassesErrorsOn(steps[i].second);
      }
      Transactions.InTurnPassesOn(steps);
      assert Transactions.PassesErrorsOn(direct.second.first) && Transactions.PassesErrorsOn(direct.second.second);
    }
    assert Transactions.PassesErrorsOn(direct.first) && Transactions.PassesErrorsOn(direct.second);
    assert Transactions.PassesErrorsOn(InsertEventStep(input, id, eventID, InsertEvent in faults));
  }

  /** The send transaction: one exact condition for its success, and then exactly the sent
      state; otherwise nothing. */
  lemma SendsAllOrNothing(db: Db, input: SendInput, device: Option<Uuid>, id: Uuid, eventID: Uuid, faults: set<Call>)
    ensures var o := Transactions.WithTx(Transactions.Pool, Transactions.Fresh(db), TxFaults(faults), StoreFailure,
                                         SendBody(db, input, device, id, eventID, faults));
      ValidInput(input) && CheckParticipant !in faults && (input.conversation, input.sender) in db.participants ==>
        && (o.result.Ok? <==> Accepts(db, input, device, id, eventID, faults))
        && o.session == Transactions.Fresh(if o.result.Ok? then Sent(db, input, device.value, id, eventID) else db)
  {
    if ValidInput(input) {
      var body := SendBody(db, input, device, id, eventID, faults);
      SendPassesErrorsOn(db, input, device, id, eventID, faults);
      Transactions.AllOrNothing(db, TxFaults(faults), StoreFailure, body);
      DirectOutcome(db, input, device, id, faults);
      SendOutcome(db, input, device, id, eventID, faults);
    }
  }

  lemma SendOutcome(db: Db, input: SendInput, device: Option<Uuid>, id: Uuid, eventID: Uuid, faults: set<Call>)
    requires input.ciphertexts != []
    ensures var o := Transactions.Run(SendBody(db, input, device, id, eventID, faults), Transactions.Fresh(db), StoreFailure);
      && (o.result.Ok? <==>
            Acceptable(db, input, device, id) && eventID !in db.outbox && NoFault(faults - {CheckParticipant, Begin, Commit}, input))
      && (o.result.Ok? ==> o.session == Transactions.Fresh(Sent(db, input, device.value, id, eventID)))
  {
    DirectOutcome(db, input, device, id, faults);
  }

  lemma {:induction false} SameCiphertexts(a: Db, b: Db, id: Uuid, sender: Uuid, payloads: seq<Payload>)
    requires a.devices == b.devices && a.ciphertexts == b.ciphertexts
    ensures WithCiphertexts(a, id, sender, payloads) == WithCiphertexts(b, id, sender, payloads)
  {
    if payloads != [] {
      SameCiphertexts(a, b, id, sender, payloads[..|payloads| - 1]);
    }
  }
}
