/** Delivery and read receipts: single and bulk marking, and the unread list they shape. */
module Receipts {
  import opened Prelude
  import Transactions

  datatype Status = Delivered | Read

  /** A row of the receipts table; an absent time is null. */
  datatype Receipt = Receipt(status: Status, deliveredAt: Option<Time>, readAt: Option<Time>, playedAt: Option<Time>,
                             updatedAt: Time)

  /** Receipts by message and user. */
  type Table = map<(Uuid, Uuid), Receipt>

  datatype Kind = AsRead | AsDelivered

  datatype MarkError = StoreFailure

  /** The effect of marking one message: update the row if there is one, else insert it. */
  function Marked(t: Table, kind: Kind, message: Uuid, user: Uuid, now: Time): Table {
    var key := (message, user);
    var row := if key in t then t[key] else Receipt(Read, None, None, None, now);
    match kind
    case AsRead => t[key := row.(status := Read, readAt := Some(now), updatedAt := now)]
    case AsDelivered => t[key := row.(status := Delivered, deliveredAt := Some(now), updatedAt := now)]
  }

  /** Folding the single operation over a list, at one time. */
  function MarkedAll(t: Table, kind: Kind, messages: seq<Uuid>, user: Uuid, now: Time): Table {
    if messages == [] then t
    else Marked(MarkedAll(t, kind, messages[..|messages| - 1], user, now), kind, messages[|messages| - 1], user, now)
  }

  /** Inserting needs an existing message; updating does not. */
  predicate Markable(t: Table, existing: set<Uuid>, message: Uuid, user: Uuid) {
    (message, user) in t || message in existing
  }

  class MessageRepository {
    var receipts: Table
    var messages: set<Uuid>

    constructor (existing: set<Uuid>)
      ensures receipts == map[] && messages == existing
    {
      receipts, messages := map[], existing;
    }

    method MarkAsRead(message: Uuid, user: Uuid, now: Time, fails: bool) returns (r: Result<(), MarkError>)
      modifies this`receipts
      ensures r.Ok? <==> !fails && Markable(old(receipts), messages, message, user)
      ensures r.Ok? <==> !fails && ((message, user) in old(receipts) || message in messages)
      ensures receipts == if r.Ok? then Marked(old(receipts), AsRead, message, user, now) else old(receipts)
    {
      if fails {
        return Err(StoreFailure);
      }
      if (message, user) in receipts {
        var row := receipts[(message, user)];
        receipts := receipts[(message, user) := row.(status := Read, readAt := Some(now), updatedAt := now)];
        return Ok(());
      }
      if message !in messages {
        return Err(StoreFailure);
      }
      receipts := receipts[(message, user) := Receipt(Read, None, Some(now), None, now)];
      return Ok(());
    }

    method MarkAsDelivered(message: Uuid, user: Uuid, now: Time, fails: bool) returns (r: Result<(), MarkError>)
      modifies this`receipts
      ensures r.Ok? <==> !fails && Markable(old(receipts), messages, message, user)
      ensures r.Ok? <==> !fails && ((message, user) in old(receipts) || message in messages)
      ensures receipts == if r.Ok? then Marked(old(receipts), AsDelivered, message, user, now) else old(receipts)
    {
      if fails {
        return Err(StoreFailure);
      }
      if (message, user) in receipts {
        var row := receipts[(message, user)];
        receipts := receipts[(message, user) := row.(status := Delivered, deliveredAt := Some(now), updatedAt := now)];
        return Ok(());
      }
      if message !in messages {
        return Err(StoreFailure);
      }
      receipts := receipts[(message, user) := Receipt(Delivered, Some(now), None, None, now)];
      return Ok(());
    }

    method MarkAsPlayed(message: Uuid, user: Uuid, now: Time, fails: bool)
      modifies this`receipts
      ensures receipts == if fails then old(receipts) else Played(old(receipts), message, user, now)
    {
      if !fails && (message, user) in receipts {
        var row := receipts[(message, user)];
        receipts := receipts[(message, user) := row.(playedAt := Some(now), updatedAt := now)];
      }
    }

    /** One transaction over the whole list; `faults` names the statements that fail of
        themselves. */
    method BulkMark(kind: Kind, ids: seq<Uuid>, user: Uuid, now: Time, f: Transactions.Faults, faults: set<nat>)
      returns (r: Result<(), MarkError>)
      modifies this`receipts
      ensures var each := Transactions.InTurn(MarkEach(kind, ids, user, now, messages, faults));
        Transactions.Outcome(Transactions.Fresh(receipts), r) ==
        Transactions.WithTx(Transactions.Pool, Transactions.Fresh(old(receipts)), f, StoreFailure, each)
      ensures r.Ok? <==> !f.begin && !f.commit && AllMarkable(old(receipts), messages, ids, user, faults)
      ensures receipts == if r.Ok? then MarkedAll(old(receipts), kind, ids, user, now) else old(receipts)
    {
      BulkMarksAllOrNothing(receipts, messages, kind, ids, user, now, f, faults);
      if f.begin {
        return Err(StoreFailure);
      }
      var o := MarkInTurn(receipts, messages, kind, ids, user, now, faults);
      o := Transactions.Close(receipts, f, StoreFailure, o);
      receipts, r := o.session.tables, o.result;
    }
  }

  /** The loop of a bulk marking, on the transaction's view of the receipts. */
  method MarkInTurn(tx: Table, existing: set<Uuid>, kind: Kind, ids: seq<Uuid>, user: Uuid, now: Time, faults: set<nat>)
    returns (o: Transactions.Outcome<Table, MarkError>)
    ensures o == Transactions.Run(Transactions.InTurn(MarkEach(kind, ids, user, now, existing, faults)),
                                  Transactions.Fresh(tx), StoreFailure)
  {
    var t := tx;
    ghost var each := MarkEach(kind, ids, user, now, existing, faults);
    for i := 0 to |ids|
      invariant Transactions.Run(Transactions.InTurn(each[..i]), Transactions.Fresh(tx), StoreFailure) ==
                Transactions.Outcome(Transactions.Fresh(t), Ok(()))
    {
      Transactions.InTurnSnoc(each, i);
      var key := (ids[i], user);
      if i in faults || (key !in t && ids[i] !in existing) {
        Transactions.FirstErrorEnds(each, i + 1, Transactions.Fresh(tx), StoreFailure);
        return Transactions.Outcome(Transactions.Session(t, true), Err(StoreFailure));
      }
      if key in t {
        t := t[key := if kind == AsRead then t[key].(status := Read, readAt := Some(now), updatedAt := now)
                      else t[key].(status := Delivered, deliveredAt := Some(now), updatedAt := now)];
      } else {
        t := t[key := if kind == AsRead then Receipt(Read, None, Some(now), None, now)
                      else Receipt(Delivered, Some(now), None, None, now)];
      }
    }
    assert each[..|each|] == each;
    o := Transactions.Outcome(Transactions.Fresh(t), Ok(()));
  }

  /** An update of the row or, if there is none, an insert. */
  function MarkStatement(kind: Kind, message: Uuid, user: Uuid, now: Time, existing: set<Uuid>, fails: bool)
    : Transactions.Body<Table, MarkError>
  {
    Transactions.Statement(t =>
      if fails || !Markable(t, existing, message, user) then Transactions.Failed(StoreFailure)
      else Transactions.Applied(Marked(t, kind, message, user, now)))
  }

  function MarkEach(kind: Kind, ids: seq<Uuid>, user: Uuid, now: Time, existing: set<Uuid>, faults: set<nat>)
    : seq<Transactions.Body<Table, MarkError>>
  {
    seq(|ids|, i requires 0 <= i < |ids| => MarkStatement(kind, ids[i], user, now, existing, i in faults))
  }

  /** Every single marking of the list would succeed. */
  ghost predicate AllMarkable(t: Table, existing: set<Uuid>, ids: seq<Uuid>, user: Uuid, faults: set<nat>) {
    forall i :: 0 <= i < |ids| ==> i !in faults && Markable(t, existing, ids[i], user)
  }

  lemma AllMarkableSnoc(t: Table, existing: set<Uuid>, ids: seq<Uuid>, user: Uuid, faults: set<nat>)
    requires ids != []
    ensures var n := |ids| - 1;
      AllMarkable(t, existing, ids, user, faults) <==>
        AllMarkable(t, existing, ids[..n], user, faults) && n !in faults && Markable(t, existing, ids[n], user)
  {
    assert ids == ids[..|ids| - 1] + [ids[|ids| - 1]];
  }

  lemma MarkStep(t: Table, kind: Kind, message: Uuid, user: Uuid, now: Time, existing: set<Uuid>, fails: bool)
    ensures Transactions.Run(MarkStatement(kind, message, user, now, existing, fails), Transactions.Fresh(t), StoreFailure) ==
            if fails || !Markable(t, existing, message, user) then Transactions.Outcome(Transactions.Session(t, true), Err(StoreFailure))
            else Transactions.Outcome(Transactions.Fresh(Marked(t, kind, message, user, now)), Ok(()))
  {
  }

  lemma {:induction false} MarkEachOutcome(t: Table, existing: set<Uuid>, kind: Kind, ids: seq<Uuid>,
                              user: Uuid, now: Time, faults: set<nat>)
    ensures var each := MarkEach(kind, ids, user, now, existing, faults);
      var o := Transactions.Run(Transactions.InTurn(each), Transactions.Fresh(t), StoreFailure);
      && (o.result.Ok? <==> AllMarkable(t, existing, ids, user, faults))
      && (o.result.Ok? ==> o.session == Transactions.Fresh(MarkedAll(t, kind, ids, user, now)))
  {
    if ids != [] {
      var n := |ids| - 1;
      var front, each := ids[..n], MarkEach(kind, ids, user, now, existing, faults);
      MarkEachOutcome(t, existing, kind, front, user, now, faults);
      AllMarkableSnoc(t, existing, ids, user, faults);
      MarkedAllKeys(t, kind, front, user, now, ids[n]);
      assert each[..n] == MarkEach(kind, front, user, now, existing, faults);
      assert each[n] == MarkStatement(kind, ids[n], user, now, existing, n in faults);
      assert each[..n + 1] == each;
      if AllMarkable(t, existing, front, user, faults) {
        Transactions.InTurnStep(each, n, Transactions.Fresh(t), StoreFailure);
        MarkStep(MarkedAll(t, kind, front, user, now), kind, ids[n], user, now, existing, n in faults);
      } else {
        Transactions.FirstErrorEnds(each, n, Transactions.Fresh(t), StoreFailure);
      }
    }
  }

  /** The bulk transaction succeeds if and only if nothing about it fails and every single
      marking would succeed; then it is their fold, and otherwise nothing. */
  lemma BulkMarksAllOrNothing(t: Table, existing: set<Uuid>, kind: Kind, ids: seq<Uuid>, user: Uuid, now: Time,
                              f: Transactions.Faults, faults: set<nat>)
    ensures var each := Transactions.InTurn(MarkEach(kind, ids, user, now, existing, faults));
      var o := Transactions.WithTx(Transactions.Pool, Transactions.Fresh(t), f, StoreFailure, each);
      && (o.result.Ok? <==> !f.begin && !f.commit && AllMarkable(t, existing, ids, user, faults))
      && o.session == Transactions.Fresh(if o.result.Ok? then MarkedAll(t, kind, ids, user, now) else t)
  {
    var each := MarkEach(kind, ids, user, now, existing, faults);
    MarkEachOutcome(t, existing, kind, ids, user, now, faults);
    Transactions.InTurnPassesOn(each);
    Transactions.AllOrNothing(t, f, StoreFailure, Transactions.InTurn(each));
  }

  function Played(t: Table, message: Uuid, user: Uuid, now: Time): Table {
    if (message, user) in t then t[(message, user) := t[(message, user)].(playedAt := Some(now), updatedAt := now)] else t
  }

  lemma {:induction false} MarkedAllKeys(t: Table, kind: Kind, ids: seq<Uuid>, user: Uuid, now: Time, message: Uuid)
    ensures (message, user) in MarkedAll(t, kind, ids, user, now) <==> (message, user) in t || message in ids
  {
    if ids != [] {
      MarkedAllKeys(t, kind, ids[..|ids| - 1], user, now, message);
      assert ids == ids[..|ids| - 1] + [ids[|ids| - 1]];
    }
  }

  // ---------------------------------------------------------------- what bulk marking means

  predicate IsRead(t: Table, message: Uuid, user: Uuid) {
    (message, user) in t && t[(message, user)].readAt.Some?
  }

  /** The row is as one marking at `now` leaves it: the marked time and status are new and
      the other time is what it was. */
  ghost predicate JustMarked(t: Table, t': Table, kind: Kind, message: Uuid, user: Uuid, now: Time) {
    var key := (message, user);
    && key in t' && t'[key].updatedAt == now
    && (kind == AsRead ==> t'[key].status == Read && t'[key].readAt == Some(now))
    && (kind == AsRead ==> t'[key].deliveredAt == if key in t then t[key].deliveredAt else None)
    && (kind == AsDelivered ==> t'[key].status == Delivered && t'[key].deliveredAt == Some(now))
    && (kind == AsDelivered ==> t'[key].readAt == if key in t then t[key].readAt else None)
  }

  /** Marking a list in bulk, duplicates included, marks exactly the listed messages, for
      that user only, once each, and touches no other row. */
  lemma {:induction false} BulkMarksListed(t: Table, kind: Kind, ids: seq<Uuid>, user: Uuid, now: Time,
                                          message: Uuid, other: Uuid)
    ensures var t' := MarkedAll(t, kind, ids, user, now);
      && (message in ids ==> JustMarked(t, t', kind, message, user, now))
      && (message !in ids || other != user ==>
            ((message, other) in t' <==> (message, other) in t) &&
            ((message, other) in t ==> t'[(message, other)] == t[(message, other)]))
  {
    if ids != [] {
      var front, last := ids[..|ids| - 1], ids[|ids| - 1];
      BulkMarksListed(t, kind, front, user, now, message, other);
      BulkMarksListed(t, kind, front, user, now, message, user);
      assert ids == front + [last];
    }
  }

  /** A message row as the unread query sees it. */
  datatype Message = Message(id: Uuid, conversation: Uuid, sender: Uuid, deleted: bool)

  function UnreadIn(t: Table, conversation: Uuid, user: Uuid): Message -> bool {
    (m: Message) => m.conversation == conversation && m.sender != user && !m.deleted && !IsRead(t, m.id, user)
  }

  /** The unread query over the messages listed in sequence order. */
  function GetUnreadMessages(listing: seq<Message>, t: Table, conversation: Uuid, user: Uuid): seq<Message> {
    Select(listing, UnreadIn(t, conversation, user))
  }

  /** A message is unread for a user if and only if it is in the conversation, sent by
      somebody else, not deleted, and the user has no read time for it. */
  lemma UnreadExactly(listing: seq<Message>, t: Table, conversation: Uuid, user: Uuid, m: Message)
    ensures m in GetUnreadMessages(listing, t, conversation, user) <==>
      && m in listing && m.conversation == conversation && m.sender != user && !m.deleted
      && !((m.id, user) in t && t[(m.id, user)].readAt != None)
  {
    SelectMembers(listing, UnreadIn(t, conversation, user));
  }

  function NotAmong(ids: seq<Uuid>): Message -> bool {
    (m: Message) => m.id !in ids
  }

  /** After reading a list in bulk, the unread list is the old one without the listed
      messages, in the same order; another user's unread list is unchanged. */
  lemma BulkReadShrinksUnread(listing: seq<Message>, t: Table, ids: seq<Uuid>, conversation: Uuid, user: Uuid,
                             now: Time, other: Uuid)
    ensures GetUnreadMessages(listing, MarkedAll(t, AsRead, ids, user, now), conversation, user) ==
            Select(GetUnreadMessages(listing, t, conversation, user), NotAmong(ids))
    ensures other != user ==> GetUnreadMessages(listing, MarkedAll(t, AsRead, ids, user, now), conversation, other) ==
                              GetUnreadMessages(listing, t, conversation, other)
  {
    var t' := MarkedAll(t, AsRead, ids, user, now);
    forall m | m in listing
      ensures UnreadIn(t', conversation, user)(m) <==> UnreadIn(t, conversation, user)(m) && NotAmong(ids)(m)
      ensures other != user ==> (UnreadIn(t', conversation, other)(m) <==> UnreadIn(t, conversation, other)(m))
    {
      BulkMarksListed(t, AsRead, ids, user, now, m.id, user);
      BulkMarksListed(t, AsRead, ids, user, now, m.id, other);
    }
    SelectTwice(listing, UnreadIn(t, conversation, user), NotAmong(ids), UnreadIn(t', conversation, user));
    if other != user {
      SelectSame(listing, UnreadIn(t', conversation, other), UnreadIn(t, conversation, other));
    }
  }

  /** Playing a message sets the played time of an existing receipt and nothing else. */
  lemma PlayedExactly(t: Table, message: Uuid, user: Uuid, now: Time, k: (Uuid, Uuid))
    ensures var t' := Played(t, message, user, now);
      && (k in t' <==> k in t)
      && (k in t && k != (message, user) ==> t'[k] == t[k])
      && (k in t && k == (message, user) ==>
            && t'[k].playedAt == Some(now) && t'[k].updatedAt == now
            && t'[k].readAt == t[k].readAt && t'[k].deliveredAt == t[k].deliveredAt && t'[k].status == t[k].status)
  {
  }

  // ---------------------------------------------------------------- runs

  datatype Event =
    | Mark(kind: Kind, message: Uuid, user: Uuid, now: Time)
    | Bulk(kind: Kind, ids: seq<Uuid>, user: Uuid, now: Time)
    | Play(message: Uuid, user: Uuid, now: Time)

  function Apply(t: Table, e: Event): Table {
    match e
    case Mark(kind, message, user, now) => Marked(t, kind, message, user, now)
    case Bulk(kind, ids, user, now) => MarkedAll(t, kind, ids, user, now)
    case Play(message, user, now) => Played(t, message, user, now)
  }

  function Run(t: Table, es: seq<Event>): Table {
    if es == [] then t else Apply(Run(t, es[..|es| - 1]), es[|es| - 1])
  }

  lemma {:induction false} BulkKeepsRead(t: Table, kind: Kind, ids: seq<Uuid>, user: Uuid, now: Time, message: Uuid, reader: Uuid)
    requires IsRead(t, message, reader)
    ensures IsRead(MarkedAll(t, kind, ids, user, now), message, reader)
  {
    if ids != [] {
      BulkKeepsRead(t, kind, ids[..|ids| - 1], user, now, message, reader);
    }
  }

  /** Over any run of marking operations, a message once read never becomes unread. */
  lemma {:induction false} ReadIsForever(t: Table, es: seq<Event>, message: Uuid, reader: Uuid)
    requires IsRead(t, message, reader)
    ensures IsRead(Run(t, es), message, reader)
  {
    if es != [] {
      var last := es[|es| - 1];
      ReadIsForever(t, es[..|es| - 1], message, reader);
      if last.Bulk? {
        BulkKeepsRead(Run(t, es[..|es| - 1]), last.kind, last.ids, last.user, last.now, message, reader);
      }
    }
  }

  /** How an event marks one message of one user, if it does. */
  function MarkOf(e: Event, message: Uuid, user: Uuid): Option<Kind> {
    match e
    case Mark(kind, m, u, _) => if m == message && u == user then Some(kind) else None
    case Bulk(kind, ids, u, _) => if message in ids && u == user then Some(kind) else None
    case Play(_, _, _) => None
  }

  lemma StatusAfterStep(t: Table, e: Event, message: Uuid, user: Uuid)
    requires (message, user) in t
    ensures var t', mark := Apply(t, e), MarkOf(e, message, user);
      && (message, user) in t'
      && t'[(message, user)].status == if mark.None? then t[(message, user)].status else if mark.value == AsRead then Read else Delivered
  {
    if e.Bulk? {
      BulkMarksListed(t, e.kind, e.ids, e.user, e.now, message, user);
    }
  }

  /** The message is marked read by an event after the i-th. */
  ghost predicate ReadAfter(es: seq<Event>, i: int, message: Uuid, user: Uuid) {
    exists j :: 0 <= j < |es| && i < j && MarkOf(es[j], message, user) == Some(AsRead)
  }

  /** Every delivery mark of the message is followed by a read mark. */
  ghost predicate ReadAfterDeliveries(es: seq<Event>, message: Uuid, user: Uuid) {
    forall i :: 0 <= i < |es| && MarkOf(es[i], message, user) == Some(AsDelivered) ==> ReadAfter(es, i, message, user)
  }

  lemma ReadAfterSnoc(es: seq<Event>, e: Event, i: int, message: Uuid, user: Uuid)
    ensures ReadAfter(es + [e], i, message, user) <==>
            ReadAfter(es, i, message, user) || (i < |es| && MarkOf(e, message, user) == Some(AsRead))
  {
    if i < |es| && MarkOf(e, message, user) == Some(AsRead) {
      assert MarkOf((es + [e])[|es|], message, user) == Some(AsRead);
    }
    if j :| 0 <= j < |es| && i < j && MarkOf(es[j], message, user) == Some(AsRead) {
      assert MarkOf((es + [e])[j], message, user) == Some(AsRead);
    }
  }

  lemma ReadAfterDeliveriesSnoc(es: seq<Event>, e: Event, message: Uuid, user: Uuid)
    ensures ReadAfterDeliveries(es + [e], message, user) <==>
            MarkOf(e, message, user) == Some(AsRead) ||
            (MarkOf(e, message, user) != Some(AsDelivered) && ReadAfterDeliveries(es, message, user))
  {
    var longer, mark := es + [e], MarkOf(e, message, user);
    assert longer[|es|] == e && forall i :: 0 <= i < |es| ==> longer[i] == es[i];
    forall i: int
      ensures ReadAfter(longer, i, message, user) <==> ReadAfter(es, i, message, user) || (i < |es| && mark == Some(AsRead))
    {
      ReadAfterSnoc(es, e, i, message, user);
    }
  }

  /** The status column is not monotone. After any run a row shows READ if and only if every
      delivery mark of it was followed by a read mark, and it showed READ before or was
      marked read at all; so a row that shows READ keeps showing it exactly until a delivery
      is marked that no read follows. */
  lemma {:induction false} StatusIsLastMark(t: Table, es: seq<Event>, message: Uuid, user: Uuid)
    requires (message, user) in t
    ensures (message, user) in Run(t, es)
    ensures Run(t, es)[(message, user)].status == Read <==>
            ReadAfterDeliveries(es, message, user) && (t[(message, user)].status == Read || ReadAfter(es, -1, message, user))
  {
    if es != [] {
      var front, last := es[..|es| - 1], es[|es| - 1];
      assert es == front + [last];
      StatusIsLastMark(t, front, message, user);
      StatusAfterStep(Run(t, front), last, message, user);
      ReadAfterSnoc(front, last, -1, message, user);
      ReadAfterDeliveriesSnoc(front, last, message, user);
    }
  }

  /** The smallest case: one delivery marked after the read turns READ back into DELIVERED,
      while the read time stays. */
  lemma StatusCanRevert(t: Table, message: Uuid, user: Uuid, now: Time)
    requires IsRead(t, message, user)
    ensures var t' := Run(t, [Mark(AsDelivered, message, user, now)]);
      t'[(message, user)].status == Delivered && t'[(message, user)].readAt == t[(message, user)].readAt
  {
    assert [Mark(AsDelivered, message, user, now)][..0] == [];
  }
}
