/** What the message tables keep over every run of sends, command-path sends, explicit
    counter increments and hard deletes, failed and rolled-back ones included. */
module MessageRuns {
  import opened Prelude
  import opened MessageStore
  import Paging

  datatype Event =
    | Send(input: SendInput, device: Option<Uuid>, id: Uuid, eventID: Uuid, faults: set<Call>)
      /** The command executor's send: a message and its event, without ciphertexts. */
    | CommandSend(conversation: Uuid, sender: Uuid, id: Uuid, eventID: Uuid, faults: set<Call>)
    | Increment(conversation: Uuid, fails: bool)
    | HardDelete(id: Uuid)
    | SaveOther(eventID: Uuid)

  /** The tables, the event recorded for each message ever sent, and the numbers handed
      out per conversation by committed steps. */
  datatype World = World(db: Db, eventOf: map<Uuid, Uuid>, issued: map<Uuid, seq<int>>)

  function IssuedTo(w: World, conversation: Uuid): seq<int> {
    if conversation in w.issued then w.issued[conversation] else []
  }

  function Issue(w: World, conversation: Uuid): map<Uuid, seq<int>> {
    w.issued[conversation := IssuedTo(w, conversation) + [LastSequence(w.db, conversation) + 1]]
  }

  /** Identities are drawn at random, hence new. */
  predicate Enabled(w: World, e: Event) {
    match e
    case Send(_, _, id, eventID, _) => id !in w.eventOf && eventID !in w.db.outbox
    case CommandSend(_, _, id, eventID, _) => id !in w.eventOf && eventID !in w.db.outbox
    case SaveOther(eventID) => eventID !in w.db.outbox
    case _ => true
  }

  function CommandSent(db: Db, e: Event): Db
    requires e.CommandSend?
  {
    var inserted := Inserted(db, e.id, Message(e.conversation, e.sender, None, None, None));
    inserted.(outbox := db.outbox[e.eventID := MessageNew(e.id, e.conversation, e.sender)])
  }

  function Deleted(db: Db, id: Uuid): Db {
    db.(messages := db.messages - {id},
        ciphertexts := map k | k in db.ciphertexts && k.0 != id :: db.ciphertexts[k])
  }

  /** Whether a step takes effect and hands out a number. */
  ghost predicate Commits(w: World, e: Event) {
    match e
    case Send(input, device, id, eventID, faults) => Accepts(w.db, input, device, id, eventID, faults)
    case CommandSend(_, _, id, _, faults) => {Begin, InsertMessage, InsertEvent, Commit} !! faults && id !in w.db.messages
    case Increment(_, fails) => !fails
    case _ => false
  }

  ghost function Apply(w: World, e: Event): World {
    match e
    case Send(input, device, id, eventID, faults) =>
      if Commits(w, e)
      then World(Sent(w.db, input, device.value, id, eventID), w.eventOf[id := eventID], Issue(w, input.conversation))
      else w
    case CommandSend(conversation, _, id, eventID, faults) =>
      if Commits(w, e)
      then World(CommandSent(w.db, e), w.eventOf[id := eventID], Issue(w, conversation))
      else w
    case Increment(conversation, fails) =>
      if !Commits(w, e) then w
      else w.(db := w.db.(sequences := w.db.sequences[conversation := LastSequence(w.db, conversation) + 1]),
              issued := Issue(w, conversation))
    case HardDelete(id) => w.(db := Deleted(w.db, id))
    case SaveOther(eventID) => w.(db := w.db.(outbox := w.db.outbox[eventID := OtherEvent]))
  }

  ghost predicate Feasible(w: World, es: seq<Event>)
    decreases |es|
  {
    es == [] || (Enabled(w, es[0]) && Feasible(Apply(w, es[0]), es[1..]))
  }

  ghost function Run(w: World, es: seq<Event>): World
    decreases |es|
  {
    if es == [] then w else Run(Apply(w, es[0]), es[1..])
  }

  /** The numbers issued in a conversation are exactly 1, 2, ..., last_sequence. */
  ghost predicate NumbersAreExact(w: World, conversation: Uuid) {
    && |IssuedTo(w, conversation)| == LastSequence(w.db, conversation)
    && forall i :: 0 <= i < |IssuedTo(w, conversation)| ==> IssuedTo(w, conversation)[i] == i + 1
  }

  /** Messages ever sent and MESSAGE-NEW events correspond one to one. */
  ghost predicate OneEventPerMessage(w: World) {
    && (forall m :: m in w.eventOf ==>
          w.eventOf[m] in w.db.outbox && w.db.outbox[w.eventOf[m]].MessageNew? && w.db.outbox[w.eventOf[m]].message == m)
    && (forall e :: e in w.db.outbox && w.db.outbox[e].MessageNew? ==>
          w.db.outbox[e].message in w.eventOf && w.eventOf[w.db.outbox[e].message] == e)
  }

  /** Rows belong to messages that were sent, and ciphertexts to the service's sends. */
  ghost predicate RowsWereSent(w: World) {
    && (forall m :: m in w.db.messages ==> m in w.eventOf)
    && CiphertextsHaveSenders(w.db)
  }

  ghost predicate CiphertextsHaveSenders(db: Db) {
    forall k :: k in db.ciphertexts ==> k.0 in db.messages && db.messages[k.0].senderDevice.Some?
  }

  /** Rows that still carry a number carry one that was issued, and no two the same; rows
      sent by the message service carry none. */
  ghost predicate RowNumbers(db: Db) {
    && (forall m :: m in db.messages && db.messages[m].seqID.Some? ==>
          1 <= db.messages[m].seqID.value <= LastSequence(db, db.messages[m].conversation))
    && (forall m, n ::
          (m in db.messages && n in db.messages && m != n && db.messages[m].seqID.Some? &&
           db.messages[m].conversation == db.messages[n].conversation) ==>
            db.messages[m].seqID != db.messages[n].seqID)
    && (forall m :: m in db.messages && db.messages[m].senderDevice.Some? ==> db.messages[m].seqID == None)
  }

  ghost predicate Inv(w: World) {
    && (forall c :: NumbersAreExact(w, c))
    && OneEventPerMessage(w)
    && RowsWereSent(w)
    && RowNumbers(w.db)
  }

  /** Empty tables, with devices and participants already registered. */
  function Initial(devices: map<Uuid, Uuid>, participants: set<(Uuid, Uuid)>): World {
    World(Db(map[], map[], map[], map[], devices, participants), map[], map[])
  }

  lemma IssueExact(w: World, w': World, conversation: Uuid)
    requires forall c :: NumbersAreExact(w, c)
    requires w'.issued == Issue(w, conversation)
    requires w'.db.sequences == w.db.sequences[conversation := LastSequence(w.db, conversation) + 1]
    ensures forall c :: NumbersAreExact(w', c)
  {
    forall c
      ensures NumbersAreExact(w', c)
    {
      assert NumbersAreExact(w, c);
    }
  }

  lemma EventPerMessageKept(w: World, w': World, id: Uuid, eventID: Uuid)
    requires OneEventPerMessage(w) && id !in w.eventOf && eventID !in w.db.outbox
    requires w'.eventOf == w.eventOf[id := eventID]
    requires eventID in w'.db.outbox && w'.db.outbox == w.db.outbox[eventID := w'.db.outbox[eventID]]
    requires w'.db.outbox[eventID].MessageNew? && w'.db.outbox[eventID].message == id
    ensures OneEventPerMessage(w')
  {
  }

  lemma InsertedNumbers(db: Db, id: Uuid, m: Message)
    requires RowNumbers(db) && m.senderDevice == None && LastSequence(db, m.conversation) >= 0
    ensures RowNumbers(Inserted(db, id, m))
  {
    var db' := Inserted(db, id, m);
    assert LastSequence(db', m.conversation) == LastSequence(db, m.conversation) + 1;
    assert forall c :: c != m.conversation ==> LastSequence(db', c) == LastSequence(db, c);
  }

  lemma SentRows(db: Db, input: SendInput, device: Uuid, id: Uuid, eventID: Uuid)
    requires CiphertextsHaveSenders(db)
    requires Acceptable(db, input, Some(device), id)
    ensures CiphertextsHaveSenders(Sent(db, input, device, id, eventID))
  {
    OneCiphertextPerPayload(db, id, device, input.ciphertexts);
  }

  lemma SentNumbers(db: Db, input: SendInput, device: Uuid, id: Uuid, eventID: Uuid)
    requires RowNumbers(db) && LastSequence(db, input.conversation) >= 0
    ensures RowNumbers(Sent(db, input, device, id, eventID))
  {
    var db' := Sent(db, input, device, id, eventID);
    assert LastSequence(db', input.conversation) == LastSequence(db, input.conversation) + 1;
    assert forall c :: c != input.conversation ==> LastSequence(db', c) == LastSequence(db, c);
  }

  lemma SendKeeps(w: World, e: Event)
    requires Inv(w) && Enabled(w, e) && e.Send? && Commits(w, e)
    ensures Inv(Apply(w, e))
  {
    IssueExact(w, Apply(w, e), e.input.conversation);
    EventPerMessageKept(w, Apply(w, e), e.id, e.eventID);
    SentRows(w.db, e.input, e.device.value, e.id, e.eventID);
    assert NumbersAreExact(w, e.input.conversation);
    SentNumbers(w.db, e.input, e.device.value, e.id, e.eventID);
  }

  lemma CommandKeeps(w: World, e: Event)
    requires Inv(w) && Enabled(w, e) && e.CommandSend? && Commits(w, e)
    ensures Inv(Apply(w, e))
  {
    IssueExact(w, Apply(w, e), e.conversation);
    EventPerMessageKept(w, Apply(w, e), e.id, e.eventID);
    assert NumbersAreExact(w, e.conversation);
    InsertedNumbers(w.db, e.id, Message(e.conversation, e.sender, None, None, None));
  }

  lemma IncrementKeeps(w: World, e: Event)
    requires Inv(w) && e.Increment? && Commits(w, e)
    ensures Inv(Apply(w, e))
  {
    IssueExact(w, Apply(w, e), e.conversation);
    assert NumbersAreExact(w, e.conversation);
    var w' := Apply(w, e);
    assert forall c :: LastSequence(w'.db, c) >= LastSequence(w.db, c);
  }

  lemma OtherKeeps(w: World, e: Event)
    requires Inv(w) && Enabled(w, e) && (e.HardDelete? || e.SaveOther?)
    ensures Inv(Apply(w, e))
  {
    assert forall c :: NumbersAreExact(w, c) ==> NumbersAreExact(Apply(w, e), c);
    assert forall c :: LastSequence(Apply(w, e).db, c) == LastSequence(w.db, c);
  }

  lemma StepKeeps(w: World, e: Event)
    requires Inv(w) && Enabled(w, e)
    ensures Inv(Apply(w, e))
  {
    if e.HardDelete? || e.SaveOther? {
      OtherKeeps(w, e);
    } else if Commits(w, e) {
      match e
      case Send(_, _, _, _, _) => SendKeeps(w, e);
      case CommandSend(_, _, _, _, _) => CommandKeeps(w, e);
      case Increment(_, _) => IncrementKeeps(w, e);
    }
  }

  /** In every reachable state the issued numbers are exact, messages and MESSAGE-NEW
      events correspond one to one, and numbered rows are distinct. */
  lemma {:induction false} RunKeeps(w: World, es: seq<Event>)
    requires Inv(w) && Feasible(w, es)
    ensures Inv(Run(w, es))
    decreases |es|
  {
    if es != [] {
      StepKeeps(w, es[0]);
      RunKeeps(Apply(w, es[0]), es[1..]);
    }
  }

  lemma Reachable(devices: map<Uuid, Uuid>, participants: set<(Uuid, Uuid)>, es: seq<Event>)
    requires Feasible(Initial(devices, participants), es)
    ensures Inv(Run(Initial(devices, participants), es))
  {
    RunKeeps(Initial(devices, participants), es);
  }

  /** A stored message of the conversation carries this client message id. */
  ghost predicate TextUsed(db: Db, conversation: Uuid, text: string) {
    exists m :: m in db.messages && db.messages[m].conversation == conversation && db.messages[m].clientMessageID == Some(text)
  }

  /** The request names a conversation, a sender and, for each payload, a device and a body. */
  predicate Complete(input: SendInput) {
    && input.conversation != 0 && input.sender != 0 && |input.ciphertexts| > 0
    && forall i :: 0 <= i < |input.ciphertexts| ==>
         input.ciphertexts[i].device != 0 && |input.ciphertexts[i].body| > 0
  }

  /** In a reachable state with fresh identities, a send that meets no fault succeeds
      exactly when its request is complete, its sender takes part, its own device and every
      recipient device are known, no device repeats and no stored message of the conversation
      carries its client message id, if it has one. */
  lemma SendSucceedsExactly(w: World, e: Event)
    requires Inv(w) && Enabled(w, e) && e.Send? && NoFault(e.faults, e.input)
    ensures Accepts(w.db, e.input, e.device, e.id, e.eventID, e.faults) <==>
      && Complete(e.input) && (e.input.conversation, e.input.sender) in w.db.participants
      && !(e.input.clientMsgID != "" && TextUsed(w.db, e.input.conversation, e.input.clientMsgID))
      && e.device.Some? && e.device.value in w.db.devices
      && (forall i, j :: 0 <= i < j < |e.input.ciphertexts| ==> e.input.ciphertexts[i].device != e.input.ciphertexts[j].device)
      && (forall i :: 0 <= i < |e.input.ciphertexts| ==>
            e.input.ciphertexts[i].device in w.db.devices && w.db.devices[e.input.ciphertexts[i].device] != 0)
  {
    TakenExactly(w.db, e.input);
    KnownExactly(w.db, e.input);
    NoCiphertextsYet(w, e);
  }

  lemma TakenExactly(db: Db, input: SendInput)
    ensures ClientIdTaken(db, input.conversation, NullString(input.clientMsgID)) <==>
            input.clientMsgID != "" && TextUsed(db, input.conversation, input.clientMsgID)
  {
  }

  lemma KnownExactly(db: Db, input: SendInput)
    ensures ValidInput(input) <==> Complete(input)
    ensures forall i :: 0 <= i < |input.ciphertexts| ==>
      (KnownDevice(db, input.ciphertexts[i].device) <==>
       input.ciphertexts[i].device in db.devices && db.devices[input.ciphertexts[i].device] != 0)
  {
  }

  lemma NoCiphertextsYet(w: World, e: Event)
    requires Inv(w) && Enabled(w, e) && e.Send?
    ensures e.id !in w.db.messages && forall d :: (e.id, d) !in w.db.ciphertexts
  {
  }

  /** No two stored messages of a conversation share a client message id. */
  ghost predicate TextsUnique(db: Db) {
    forall m, n ::
      m in db.messages && n in db.messages && m != n && db.messages[m].clientMessageID.Some? &&
      db.messages[m].conversation == db.messages[n].conversation ==>
        db.messages[m].clientMessageID != db.messages[n].clientMessageID
  }

  lemma StepKeepsTexts(w: World, e: Event)
    requires TextsUnique(w.db)
    ensures TextsUnique(Apply(w, e).db)
  {
    if e.Send? && Commits(w, e) {
      SendKeepsTexts(w.db, e.input, e.device.value, e.id, e.eventID);
    }
  }

  lemma SendKeepsTexts(db: Db, input: SendInput, device: Uuid, id: Uuid, eventID: Uuid)
    requires TextsUnique(db) && Acceptable(db, input, Some(device), id)
    ensures TextsUnique(Sent(db, input, device, id, eventID))
  {
    TakenExactly(db, input);
    var messages' := Sent(db, input, device, id, eventID).messages;
    assert messages'[id].clientMessageID.Some? ==> !TextUsed(db, input.conversation, messages'[id].clientMessageID.value);
  }

  /** In every reachable state no two rows of a conversation share a client message id. */
  lemma {:induction false} RunKeepsTexts(w: World, es: seq<Event>)
    requires TextsUnique(w.db)
    ensures TextsUnique(Run(w, es).db)
    decreases |es|
  {
    if es != [] {
      StepKeepsTexts(w, es[0]);
      RunKeepsTexts(Apply(w, es[0]), es[1..]);
    }
  }

  /** A stored row keeps its conversation and client message id until it is deleted. */
  lemma {:induction false} RowKept(w: World, es: seq<Event>, m: Uuid)
    requires Inv(w) && Feasible(w, es) && m in w.db.messages && HardDelete(m) !in es
    ensures var db' := Run(w, es).db;
      && m in db'.messages && db'.messages[m].conversation == w.db.messages[m].conversation
      && db'.messages[m].clientMessageID == w.db.messages[m].clientMessageID
    decreases |es|
  {
    if es != [] {
      StepKeeps(w, es[0]);
      StepKeepsRow(w, es[0], m);
      RowKept(Apply(w, es[0]), es[1..], m);
    }
  }

  lemma StepKeepsRow(w: World, e: Event, m: Uuid)
    requires Inv(w) && Enabled(w, e) && m in w.db.messages && e != HardDelete(m)
    ensures m in Apply(w, e).db.messages && Apply(w, e).db.messages[m] == w.db.messages[m]
  {
  }

  /** Once a message with a client message id is sent, and as long as it is not deleted, no
      send with the same text in the same conversation succeeds. */
  lemma RepeatRefused(w: World, e: Event, es: seq<Event>, again: Event)
    requires Inv(w) && Enabled(w, e) && e.Send? && Commits(w, e) && e.input.clientMsgID != ""
    requires Feasible(Apply(w, e), es) && HardDelete(e.id) !in es
    requires again.Send? && again.input.conversation == e.input.conversation && again.input.clientMsgID == e.input.clientMsgID
    ensures !Accepts(Run(Apply(w, e), es).db, again.input, again.device, again.id, again.eventID, again.faults)
  {
    StepKeeps(w, e);
    SendAddsMessageAndEvent(w.db, e.input, e.device.value, e.id, e.eventID);
    RowKept(Apply(w, e), es, e.id);
    TakenExactly(Run(Apply(w, e), es).db, again.input);
  }

  /** A command send leaves a row with the number it was issued. */
  lemma CommandRowNumbered(w: World, e: Event)
    requires e.CommandSend? && Commits(w, e)
    ensures var w' := Apply(w, e);
      && e.id in w'.db.messages && w'.db.messages[e.id].conversation == e.conversation
      && w'.db.messages[e.id].seqID == Some(LastSequence(w.db, e.conversation) + 1)
      && |IssuedTo(w', e.conversation)| > 0
      && w'.db.messages[e.id].seqID == Some(IssuedTo(w', e.conversation)[|IssuedTo(w', e.conversation)| - 1])
      && w'.db.outbox[e.eventID] == MessageNew(e.id, e.conversation, e.sender)
  {
  }

  /** A hard delete removes the message and its ciphertexts and nothing else. */
  lemma HardDeleteExactly(w: World, id: Uuid, m: Uuid, d: Uuid)
    ensures var db, db' := w.db, Apply(w, HardDelete(id)).db;
      && (m in db'.messages <==> m in db.messages && m != id)
      && ((m, d) in db'.ciphertexts <==> (m, d) in db.ciphertexts && m != id)
      && (m in db'.messages ==> db'.messages[m] == db.messages[m])
      && db'.sequences == db.sequences && db'.outbox == db.outbox
  {
  }

  lemma RowAdded<V>(rows: map<Uuid, V>, id: Uuid, row: V)
    requires id !in rows
    ensures rows[id := row].Keys == rows.Keys + {id} && |rows[id := row]| == |rows| + 1
  {
    assert |rows.Keys + {id}| == |rows.Keys| + 1;
  }

  /** A successful send adds one message and one event, and no other row of either table
      differs. */
  lemma SendAddsMessageAndEvent(db: Db, input: SendInput, device: Uuid, id: Uuid, eventID: Uuid)
    requires id !in db.messages && eventID !in db.outbox
    ensures var db' := Sent(db, input, device, id, eventID);
      && db'.messages.Keys == db.messages.Keys + {id} && |db'.messages| == |db.messages| + 1
      && db'.outbox.Keys == db.outbox.Keys + {eventID} && |db'.outbox| == |db.outbox| + 1
      && (forall m :: m in db.messages ==> db'.messages[m] == db.messages[m])
      && (forall e :: e in db.outbox ==> db'.outbox[e] == db.outbox[e])
      && db'.messages[id].conversation == input.conversation && db'.messages[id].sender == input.sender
      && db'.messages[id].clientMessageID == (if input.clientMsgID != "" then Some(input.clientMsgID) else None)
      && db'.messages[id].seqID == None && db'.messages[id].senderDevice == Some(device)
      && db'.outbox[eventID] == MessageNew(id, input.conversation, input.sender)
  {
    var db' := Sent(db, input, device, id, eventID);
    RowAdded(db.messages, id, db'.messages[id]);
    RowAdded(db.outbox, eventID, db'.outbox[eventID]);
  }

  /** A successful send adds one message, one ciphertext per payload, one event and one
      counter tick, and nothing else. */
  lemma SendAddsExactly(w: World, e: Event)
    requires Enabled(w, e) && e.Send? && Accepts(w.db, e.input, e.device, e.id, e.eventID, e.faults)
    ensures var db, db' := w.db, Apply(w, e).db;
      && db'.messages.Keys == db.messages.Keys + {e.id} && |db'.messages| == |db.messages| + 1
      && |db'.ciphertexts| == |db.ciphertexts| + |e.input.ciphertexts|
      && db'.outbox.Keys == db.outbox.Keys + {e.eventID} && |db'.outbox| == |db.outbox| + 1
      && (forall c :: LastSequence(db', c) == LastSequence(db, c) + if c == e.input.conversation then 1 else 0)
      && (forall m :: m in db.messages ==> db'.messages[m] == db.messages[m])
      && (forall k :: k in db.ciphertexts ==> k in db'.ciphertexts && db'.ciphertexts[k] == db.ciphertexts[k])
  {
    OneCiphertextPerPayload(w.db, e.id, e.device.value, e.input.ciphertexts);
    SendAddsMessageAndEvent(w.db, e.input, e.device.value, e.id, e.eventID);
  }

  function ConversationOf(e: Event): Option<Uuid> {
    match e
    case Send(input, _, _, _, _) => Some(input.conversation)
    case CommandSend(conversation, _, _, _, _) => Some(conversation)
    case Increment(conversation, _) => Some(conversation)
    case _ => None
  }

  /** A step changes neither the counter nor the issued numbers nor the message rows of any
      conversation it is not about (a hard delete removes rows but no number). */
  lemma StepStaysInItsConversation(w: World, e: Event, conversation: Uuid)
    requires Inv(w) && Enabled(w, e) && ConversationOf(e) != Some(conversation)
    ensures LastSequence(Apply(w, e).db, conversation) == LastSequence(w.db, conversation)
    ensures IssuedTo(Apply(w, e), conversation) == IssuedTo(w, conversation)
    ensures forall m :: m in Apply(w, e).db.messages && Apply(w, e).db.messages[m].conversation == conversation ==>
              m in w.db.messages && Apply(w, e).db.messages[m] == w.db.messages[m]
  {
  }

  ghost function CommitsAbout(w: World, es: seq<Event>, conversation: Uuid): nat
    decreases |es|
  {
    if es == [] then 0
    else (if Commits(w, es[0]) && ConversationOf(es[0]) == Some(conversation) then 1 else 0) +
         CommitsAbout(Apply(w, es[0]), es[1..], conversation)
  }

  /** The last number of a conversation counts its own committed steps and nothing else:
      rolled-back steps and other conversations leave no gap. */
  lemma {:induction false} LastNumberCountsCommits(w: World, es: seq<Event>, conversation: Uuid)
    requires Inv(w) && Feasible(w, es)
    ensures LastSequence(Run(w, es).db, conversation) == LastSequence(w.db, conversation) + CommitsAbout(w, es, conversation)
    decreases |es|
  {
    if es != [] {
      StepKeeps(w, es[0]);
      LastNumberCountsCommits(Apply(w, es[0]), es[1..], conversation);
    }
  }

  /** What the history query shows one device of one conversation. */
  function History(db: Db, conversation: Uuid, device: Uuid): Paging.Table {
    map m | m in db.messages && (m, device) in db.ciphertexts && db.messages[m].conversation == conversation ::
      db.messages[m].seqID
  }

  /** In every reachable state no message in a device's history carries a number: the
      metadata update of the send has erased the one the trigger assigned. */
  lemma HistoryHasNoNumbers(w: World, conversation: Uuid, device: Uuid)
    requires Inv(w)
    ensures Paging.NullRows(History(w.db, conversation, device)) == History(w.db, conversation, device).Keys
    ensures Paging.Numbered(History(w.db, conversation, device))
  {
  }

  /** A walk over a history shorter than one page ends with its first request. */
  lemma ShortWalkCompletes(t: Paging.Table, limit: nat, walk: seq<Paging.Request>)
    requires Paging.Numbered(t) && |t| < limit && |Paging.NullRows(t)| < limit
    requires Paging.IsWalk(t, limit, walk) && walk != []
    ensures Paging.Complete(limit, walk)
  {
    assert |walk| * limit >= limit;
    if Paging.LastIsFull(limit, walk) {
      Paging.WalkTerminates(t, limit, walk);
    }
  }

  /** Hence reading a history by pages works exactly while it is shorter than one page: a
      complete walk then returns all of it, and from `limit` messages on none completes. */
  lemma HistoryReadable(w: World, conversation: Uuid, device: Uuid, limit: nat, walk: seq<Paging.Request>)
    requires Inv(w) && limit > 0
    requires var t := History(w.db, conversation, device); Paging.IsWalk(t, limit, walk) && walk != []
    ensures var t := History(w.db, conversation, device);
      if |t| < limit then
        Paging.Complete(limit, walk) && (forall m :: m in Paging.Concat(walk) <==> m in t)
      else
        !Paging.Complete(limit, walk) && Paging.CursorOf(walk) == 0
  {
    var t := History(w.db, conversation, device);
    HistoryHasNoNumbers(w, conversation, device);
    assert |t| == |t.Keys|;
    if |t| < limit {
      ShortWalkCompletes(t, limit, walk);
      Paging.WalkIsExact(t, limit, walk);
    } else {
      Paging.WalkNeverCompletes(t, limit, walk);
    }
  }
}
