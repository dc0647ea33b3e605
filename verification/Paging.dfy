/** Reading a conversation backwards, page by page, with the last sequence number of each
    page as the next cursor. */
module Paging {
  import opened Prelude

  const DEFAULT_LIMIT := 50

  /** The messages of one conversation that one device can read, with their nullable
      sequence numbers. */
  type Table = map<Uuid, Option<int>>

  /** Descending order puts rows without a number first. */
  predicate Before(a: Option<int>, b: Option<int>) {
    a.None? || (b.Some? && a.value >= b.value)
  }

  /** A positive cursor keeps smaller numbers only; comparing with null keeps nothing. */
  predicate PastCursor(number: Option<int>, cursor: int) {
    cursor <= 0 || (number.Some? && number.value < cursor)
  }

  function Eligible(t: Table, cursor: int): set<Uuid> {
    set m | m in t && PastCursor(t[m], cursor)
  }

  ghost predicate Distinct(page: seq<Uuid>) {
    forall i, j :: 0 <= i < j < |page| ==> page[i] != page[j]
  }

  ghost predicate Descending(t: Table, page: seq<Uuid>) {
    && (forall i :: 0 <= i < |page| ==> page[i] in t)
    && (forall i, j :: 0 <= i < j < |page| ==> Before(t[page[i]], t[page[j]]))
  }

  /** A possible answer of the query: the first `limit` eligible rows in descending order.
      The order among rows without a number is open. */
  ghost predicate IsPage(t: Table, cursor: int, limit: nat, page: seq<Uuid>) {
    && Distinct(page) && Descending(t, page)
    && (forall m :: m in page ==> m in Eligible(t, cursor))
    && |page| == (if |Eligible(t, cursor)| < limit then |Eligible(t, cursor)| else limit)
    && (forall i, m :: 0 <= i < |page| && m in Eligible(t, cursor) && m !in page ==> Before(t[page[i]], t[m]))
  }

  /** The cursor a client derives from a page: the last number, 0 when there is none. */
  function CursorAfter(t: Table, page: seq<Uuid>): int {
    if page != [] && page[|page| - 1] in t && t[page[|page| - 1]].Some? then t[page[|page| - 1]].value else 0
  }

  function NullRows(t: Table): set<Uuid> {
    set m | m in t && t[m].None?
  }

  /** Numbers as the insert trigger assigns them: positive and pairwise distinct. */
  ghost predicate Numbered(t: Table) {
    && (forall m :: m in t && t[m].Some? ==> t[m].value >= 1)
    && (forall m, n :: m in t && n in t && m != n && t[m].Some? ==> t[m] != t[n])
  }

  // ---------------------------------------------------------------- the queries

  datatype PageError = Forbidden | InvalidInput | StoreFailure

  method GetConversationMessages(t: Table, isParticipant: bool, hasDevice: bool, beforeSeq: int, limit: int,
                                 checkFails: bool, queryFails: bool)
    returns (r: Result<seq<Uuid>, PageError>)
    ensures r == Err(Forbidden) <==> !checkFails && !isParticipant
    ensures r == Err(InvalidInput) <==> !checkFails && isParticipant && !hasDevice
    ensures r == Err(StoreFailure) <==> checkFails || (isParticipant && hasDevice && queryFails)
    ensures r.Ok? ==> IsPage(t, beforeSeq, if limit <= 0 then 50 else limit, r.value)
  {
    if checkFails {
      return Err(StoreFailure);
    }
    if !isParticipant {
      return Err(Forbidden);
    }
    var size := limit;
    if size <= 0 {
      size := DEFAULT_LIMIT;
    }
    if !hasDevice {
      return Err(InvalidInput);
    }
    if queryFails {
      return Err(StoreFailure);
    }
    var page := QueryPage(t, beforeSeq, size);
    return Ok(page);
  }

  method QueryPage(t: Table, cursor: int, limit: nat) returns (page: seq<Uuid>)
    ensures IsPage(t, cursor, limit, page)
  {
    page := [];
    var left := Eligible(t, cursor);
    while left != {} && |page| < limit
      invariant left <= Eligible(t, cursor) && |page| <= limit
      invariant |page| + |left| == |Eligible(t, cursor)|
      invariant Distinct(page) && Descending(t, page)
      invariant forall m :: m in Eligible(t, cursor) <==> m in left || m in page
      invariant forall m :: m in page ==> m !in left
      invariant forall i, m :: 0 <= i < |page| && m in left ==> Before(t[page[i]], t[m])
      decreases left
    {
      var first := FirstOf(t, left);
      page := page + [first];
      left := left - {first};
    }
  }

  method FirstOf(t: Table, ids: set<Uuid>) returns (first: Uuid)
    requires ids != {} && ids <= t.Keys
    ensures first in ids && forall m :: m in ids ==> Before(t[first], t[m])
  {
    first :| first in ids;
    var left := ids - {first};
    while left != {}
      invariant left <= ids && first in ids
      invariant forall m :: m in ids - left ==> Before(t[first], t[m])
      decreases left
    {
      var m :| m in left;
      left := left - {m};
      if !Before(t[first], t[m]) {
        first := m;
      }
    }
  }

  // ---------------------------------------------------------------- walking the pages

  /** Rows inserted later carry larger numbers, or none. */
  ghost predicate Grows(t: Table, t': Table) {
    && (forall m :: m in t ==> m in t' && t'[m] == t[m])
    && (forall m, n :: m in t' && m !in t && t'[m].Some? && n in t && t[n].Some? ==> t'[m].value > t[n].value)
  }

  /** One request: the table as it is then, and the page it answers. */
  datatype Request = Request(table: Table, page: seq<Uuid>)

  function CursorOf(walk: seq<Request>): int {
    if walk == [] then 0 else CursorAfter(walk[|walk| - 1].table, walk[|walk| - 1].page)
  }

  predicate LastIsFull(limit: nat, walk: seq<Request>) {
    walk == [] || |walk[|walk| - 1].page| == limit
  }

  /** Each request but the first uses the cursor of the page before, which was full. The
      table may have grown since `t`, what the first request saw. */
  ghost predicate IsWalk(t: Table, limit: nat, walk: seq<Request>) {
    walk == [] ||
    var front, last := walk[..|walk| - 1], walk[|walk| - 1];
    && IsWalk(t, limit, front) && LastIsFull(limit, front)
    && (if front == [] then last.table == t else Grows(t, last.table))
    && IsPage(last.table, CursorOf(front), limit, last.page)
  }

  /** The walk ends with the first page that is not full. */
  predicate Complete(limit: nat, walk: seq<Request>) {
    walk != [] && |walk[|walk| - 1].page| < limit
  }

  function Concat(walk: seq<Request>): seq<Uuid> {
    if walk == [] then [] else Concat(walk[..|walk| - 1]) + walk[|walk| - 1].page
  }

  /** What a walk has read so far: distinct rows of the first table in descending order,
      and every row of the first table that comes before the next cursor. */
  ghost predicate ReadSoFar(t: Table, read: seq<Uuid>, cursor: int) {
    && Distinct(read) && Descending(t, read)
    && cursor >= 1
    && (forall m :: m in t ==> (m in read <==> !PastCursor(t[m], cursor)))
  }

  ghost predicate NumberShown(t: Table, number: int) {
    exists n :: n in t && t[n] == Some(number)
  }

  /** A full first page that shows at least one number reads a prefix of the history. */
  lemma FirstPage(t: Table, limit: nat, page: seq<Uuid>)
    requires Numbered(t) && |NullRows(t)| < limit && IsPage(t, 0, limit, page) && |page| == limit
    ensures ReadSoFar(t, page, CursorAfter(t, page))
    ensures NumberShown(t, CursorAfter(t, page))
  {
    var last := page[|page| - 1];
    if t[last].None? {
      assert forall i :: 0 <= i < |page| ==> Before(t[page[i]], t[last]);
      DistinctFits(page, NullRows(t));
    }
    forall m | m in t
      ensures m in page <==> !PastCursor(t[m], t[last].value)
    {
      assert m in Eligible(t, 0);
      if m in page {
        var i :| 0 <= i < |page| && page[i] == m;
      }
    }
  }

  lemma {:induction false} DistinctFits(s: seq<Uuid>, ids: set<Uuid>)
    requires Distinct(s) && forall i :: 0 <= i < |s| ==> s[i] in ids
    ensures |s| <= |ids|
  {
    if s != [] {
      DistinctFits(s[..|s| - 1], ids - {s[|s| - 1]});
    }
  }

  /** With a positive cursor, the query sees the rows of the first table only: whatever was
      inserted since is beyond the cursor or has no number. */
  lemma LaterRowsInvisible(t: Table, t': Table, read: seq<Uuid>, cursor: int)
    requires Grows(t, t') && ReadSoFar(t, read, cursor)
    requires NumberShown(t, cursor)
    ensures Eligible(t', cursor) == Eligible(t, cursor)
  {
    var n :| n in t && t[n] == Some(cursor);
    assert forall m :: m in t' && m !in t && t'[m].Some? ==> t'[m].value > t[n].value;
  }

  /** A further page continues exactly where the walk stopped. */
  lemma NextPage(t: Table, t': Table, limit: nat, read: seq<Uuid>, cursor: int, page: seq<Uuid>)
    requires Numbered(t) && Grows(t, t') && ReadSoFar(t, read, cursor)
    requires NumberShown(t, cursor)
    requires IsPage(t', cursor, limit, page)
    ensures Distinct(read + page) && Descending(t, read + page)
    ensures |page| == limit > 0 ==>
              ReadSoFar(t, read + page, CursorAfter(t', page)) && NumberShown(t, CursorAfter(t', page))
    ensures |page| < limit ==> forall m :: m in t ==> m in read + page
  {
    LaterRowsInvisible(t, t', read, cursor);
    forall m | m in page
      ensures m in t && t'[m] == t[m] && t[m].Some? && t[m].value < cursor && m !in read
    {
      assert m in Eligible(t, cursor);
    }
    if |page| < limit {
      AllEligible(t, cursor, page);
    } else if limit > 0 {
      var last := page[|page| - 1];
      assert last in page;
      forall m | m in t
        ensures m in read + page <==> !PastCursor(t[m], t[last].value)
      {
        if m in page {
          var i :| 0 <= i < |page| && page[i] == m;
        } else if m !in read {
          assert m in Eligible(t, cursor);
        }
      }
    }
  }

  /** A page shorter than its limit holds every eligible row. */
  lemma AllEligible(t: Table, cursor: int, page: seq<Uuid>)
    requires Distinct(page) && |page| == |Eligible(t, cursor)|
    requires forall m :: m in page ==> m in Eligible(t, cursor)
    ensures forall m :: m in Eligible(t, cursor) ==> m in page
  {
    forall m | m in Eligible(t, cursor)
      ensures m in page
    {
      if m !in page {
        DistinctFits(page, Eligible(t, cursor) - {m});
      }
    }
  }

  /** After any number of full pages, the walk has read exactly the rows of the first table
      above its cursor, each once, in order. */
  lemma {:induction false} WalkReads(t: Table, limit: nat, walk: seq<Request>)
    requires Numbered(t) && |NullRows(t)| < limit
    requires IsWalk(t, limit, walk) && walk != [] && LastIsFull(limit, walk)
    ensures ReadSoFar(t, Concat(walk), CursorOf(walk)) && NumberShown(t, CursorOf(walk))
  {
    var front, last := walk[..|walk| - 1], walk[|walk| - 1];
    if front == [] {
      FirstPage(t, limit, last.page);
      assert Concat(walk) == last.page;
    } else {
      WalkReads(t, limit, front);
      NextPage(t, last.table, limit, Concat(front), CursorOf(front), last.page);
    }
  }

  /** A complete walk returns exactly the messages that were there when it began, each
      once, in descending order, whatever is inserted meanwhile, provided fewer than
      `limit` of them lack a number. */
  lemma WalkIsExact(t: Table, limit: nat, walk: seq<Request>)
    requires Numbered(t) && |NullRows(t)| < limit
    requires IsWalk(t, limit, walk) && Complete(limit, walk)
    ensures Distinct(Concat(walk)) && Descending(t, Concat(walk))
    ensures forall m :: m in Concat(walk) <==> m in t
  {
    var front, last := walk[..|walk| - 1], walk[|walk| - 1];
    if front == [] {
      assert Concat(walk) == last.page;
      AllEligible(t, 0, last.page);
      assert forall m :: m in t ==> m in Eligible(t, 0);
    } else {
      WalkReads(t, limit, front);
      NextPage(t, last.table, limit, Concat(front), CursorOf(front), last.page);
    }
  }

  /** Such a walk cannot go on for long: its full pages hold distinct rows of the first
      table. */
  lemma WalkTerminates(t: Table, limit: nat, walk: seq<Request>)
    requires Numbered(t) && |NullRows(t)| < limit
    requires IsWalk(t, limit, walk) && walk != [] && LastIsFull(limit, walk)
    ensures |walk| * limit <= |t|
  {
    WalkReads(t, limit, walk);
    ConcatLength(t, limit, walk);
    DistinctFits(Concat(walk), t.Keys);
  }

  lemma {:induction false} ConcatLength(t: Table, limit: nat, walk: seq<Request>)
    requires IsWalk(t, limit, walk) && LastIsFull(limit, walk)
    ensures |Concat(walk)| == |walk| * limit
  {
    if walk != [] {
      ConcatLength(t, limit, walk[..|walk| - 1]);
      assert |walk| * limit == (|walk| - 1) * limit + limit;
    }
  }

  /** Conversely, once `limit` visible messages lack a number, no walk ever completes:
      every page shows unnumbered messages only and the cursor stays at 0. */
  lemma {:induction false} WalkNeverCompletes(t: Table, limit: nat, walk: seq<Request>)
    requires limit > 0 && |NullRows(t)| >= limit
    requires IsWalk(t, limit, walk)
    ensures !Complete(limit, walk) && CursorOf(walk) == 0
    ensures forall i :: 0 <= i < |walk| ==> UnnumberedOnly(walk[i])
  {
    if walk != [] {
      var last := walk[|walk| - 1];
      WalkNeverCompletes(t, limit, walk[..|walk| - 1]);
      SubsetFits(NullRows(t), NullRows(last.table));
      NullsFirst(last.table, limit, last.page);
      assert last.page[limit - 1] in last.page;
    }
  }

  ghost predicate UnnumberedOnly(r: Request) {
    forall m :: m in r.page ==> m in r.table && r.table[m] == None
  }

  lemma SubsetFits(a: set<Uuid>, b: set<Uuid>)
    requires a <= b
    ensures |a| <= |b|
  {
    assert b == a + (b - a);
  }

  lemma NullsFirst(t: Table, limit: nat, page: seq<Uuid>)
    requires IsPage(t, 0, limit, page) && |NullRows(t)| >= limit
    ensures |page| == limit && forall m :: m in page ==> t[m] == None
  {
    SubsetFits(NullRows(t), Eligible(t, 0));
    forall m | m in page
      ensures t[m] == None
    {
      if t[m].Some? {
        forall n | n in NullRows(t)
          ensures n in page
        {
          assert n in Eligible(t, 0);
        }
        DistinctCovers(page, NullRows(t) + {m});
      }
    }
  }

  lemma {:induction false} DistinctCovers(s: seq<Uuid>, ids: set<Uuid>)
    requires forall m :: m in ids ==> m in s
    ensures |ids| <= |s|
  {
    if s != [] {
      DistinctCovers(s[..|s| - 1], ids - {s[|s| - 1]});
      SubsetFits(ids, ids - {s[|s| - 1]} + {s[|s| - 1]});
    }
  }

  lemma OneMoreRequest(t: Table, limit: nat, walk: seq<Request>, page: seq<Uuid>)
    requires IsWalk(t, limit, walk) && LastIsFull(limit, walk)
    requires IsPage(t, CursorOf(walk), limit, page)
    ensures IsWalk(t, limit, walk + [Request(t, page)])
    ensures Concat(walk + [Request(t, page)]) == Concat(walk) + page
    ensures (|walk| + 1) * limit == |walk| * limit + limit
  {
    assert (walk + [Request(t, page)])[..|walk|] == walk;
  }

  /** The client's loop: with fewer unnumbered messages than the page size it ends, having
      read the whole history once, newest first. */
  method ReadHistory(t: Table, limit: nat) returns (history: seq<Uuid>)
    requires Numbered(t) && |NullRows(t)| < limit
    ensures Distinct(history) && Descending(t, history) && forall m :: m in history <==> m in t
  {
    history := [];
    var cursor, full := 0, true;
    ghost var walk: seq<Request> := [];
    while full
      invariant IsWalk(t, limit, walk) && history == Concat(walk)
      invariant cursor == CursorOf(walk)
      invariant if full then LastIsFull(limit, walk) else Complete(limit, walk)
      invariant full ==> |walk| * limit <= |t|
      decreases full, |t| - |walk| * limit
    {
      var page := QueryPage(t, cursor, limit);
      OneMoreRequest(t, limit, walk, page);
      walk := walk + [Request(t, page)];
      history := history + page;
      cursor := CursorAfter(t, page);
      full := |page| == limit;
      if full {
        WalkTerminates(t, limit, walk);
      }
    }
    WalkIsExact(t, limit, walk);
  }
}
