/** The WebSocket hub: who is connected, which send channels have been closed, and what
    the hub last reported about each user's presence. */
module Hub {
  import opened Prelude
  import opened ConnectionLimiter

  const MAX_CONNECTIONS := 10

  /** A connection and the conversations it listens to. Its send channel is named by its
      user and client id. */
  datatype Client = Client(user: Uuid, id: Uuid, conversations: set<Uuid>)

  type Channel = (Uuid, Uuid)

  type Clients = map<Uuid, map<Uuid, Client>>

  /** `closed` counts how often each channel was closed: twice would crash the server.
      `online` is the last status the hub asked to be stored for a user. */
  datatype State = State(clients: Clients, closed: multiset<Channel>, online: map<Uuid, bool>, logs: Logs)

  function ClientsOf(clients: Clients, user: Uuid): map<Uuid, Client> {
    if user in clients then clients[user] else map[]
  }

  function Channels(clients: Clients): set<Channel> {
    set user, id | user in clients && id in clients[user] :: (user, id)
  }

  /** The channels of every connection that listens to a conversation. */
  function Listeners(clients: Clients, conversation: Uuid): set<Channel> {
    set c | c in Channels(clients) && conversation in clients[c.0][c.1].conversations
  }

  predicate Full(s: State, user: Uuid) {
    |ClientsOf(s.clients, user)| >= MAX_CONNECTIONS
  }

  /** Whether registering for the user now pushes another of their clients out. */
  predicate Evicts(s: State, user: Uuid, now: Time) {
    Admits(s.logs, user, now) && Full(s, user)
  }

  /** The client once the conversations read at registration are added. */
  function Listening(c: Client, loaded: set<Uuid>): Client {
    c.(conversations := c.conversations + loaded)
  }

  /** A registration: turned away by the rate limiter, or added, evicting `victim` when the
      user is at the cap. */
  function Registered(s: State, c: Client, now: Time, victim: Uuid, loaded: set<Uuid>): State {
    var logs := Next(s.logs, Connect(c.user, now));
    if !Admits(s.logs, c.user, now) then s.(logs := logs)
    else
      var inner := ClientsOf(s.clients, c.user);
      var kept := if Full(s, c.user) then inner - {victim} else inner;
      State(s.clients[c.user := kept[c.id := Listening(c, loaded)]],
            if Full(s, c.user) then s.closed + multiset{(c.user, victim)} else s.closed,
            s.online[c.user := true],
            logs)
  }

  function Unregistered(s: State, c: Client): State {
    if c.id !in ClientsOf(s.clients, c.user) then s
    else
      var inner := s.clients[c.user] - {c.id};
      s.(clients := if inner == map[] then s.clients - {c.user} else s.clients[c.user := inner],
         closed := s.closed + multiset{(c.user, c.id)},
         online := if inner == map[] then s.online[c.user := false] else s.online)
  }

  function Stopped(s: State): State {
    s.(clients := map[], closed := s.closed + multiset(Channels(s.clients)))
  }

  class Hub {
    var clients: Clients
    var closed: multiset<Channel>
    var online: map<Uuid, bool>
    const rateLimiter: WebSocketRateLimiter

    function Current(): State
      reads this, rateLimiter
    {
      State(clients, closed, online, rateLimiter.connectionsPerUser)
    }

    constructor (limiter: WebSocketRateLimiter)
      ensures rateLimiter == limiter
      ensures Current() == State(map[], multiset{}, map[], limiter.connectionsPerUser)
    {
      rateLimiter := limiter;
      clients, closed, online := map[], multiset{}, map[];
    }

    /** `victim` reports which client an eviction picked; any may be. `loaded` are the
        user's conversations, none when reading them fails. */
    method HandleRegister(client: Client, now: Time, loaded: set<Uuid>) returns (victim: Uuid)
      modifies this, rateLimiter
      ensures Current() == Registered(old(Current()), client, now, victim, loaded)
      ensures old(Evicts(Current(), client.user, now)) ==> victim in old(ClientsOf(clients, client.user))
    {
      victim := NIL;
      var allowed := rateLimiter.AllowConnection(client.user, now);
      if !allowed {
        return;
      }
      var userClients: map<Uuid, Client> := ClientsOf(clients, client.user);
      if |userClients| >= MAX_CONNECTIONS {
        victim := PickOne(userClients);
        RemoveClient((client.user, victim));
        userClients := userClients - {victim};
      }
      clients := clients[client.user := userClients[client.id := Listening(client, loaded)]];
      online := online[client.user := true];
    }

    method HandleUnregister(client: Client)
      modifies this
      ensures Current() == Unregistered(old(Current()), client)
    {
      if client.user in clients && client.id in clients[client.user] {
        clients := clients[client.user := clients[client.user] - {client.id}];
        RemoveClient((client.user, client.id));
        if |clients[client.user]| == 0 {
          clients := clients - {client.user};
          online := online[client.user := false];
        }
      }
    }

    method RemoveClient(channel: Channel)
      modifies this`closed
      ensures closed == old(closed) + multiset{channel}
    {
      closed := closed + multiset{channel};
    }

    /** Writes to the channels of one user; a message for a channel whose buffer is full (one
        of `full`) is dropped. Every channel concerned is touched either way. */
    method BroadcastToUser(user: Uuid, full: set<Channel>) returns (delivered: set<Channel>, dropped: set<Channel>)
      ensures delivered == ChannelsIn(user, ClientsOf(clients, user).Keys) - full
      ensures dropped == ChannelsIn(user, ClientsOf(clients, user).Keys) * full
    {
      delivered, dropped := {}, {};
      var todo := ClientsOf(clients, user).Keys;
      while todo != {}
        invariant todo <= ClientsOf(clients, user).Keys
        invariant delivered == ChannelsIn(user, ClientsOf(clients, user).Keys - todo) - full
        invariant dropped == ChannelsIn(user, ClientsOf(clients, user).Keys - todo) * full
        decreases todo
      {
        var id :| id in todo;
        todo := todo - {id};
        if (user, id) in full {
          dropped := dropped + {(user, id)};
        } else {
          delivered := delivered + {(user, id)};
        }
      }
    }

    /** Likewise to every connection, of every user, that listens to the conversation. */
    method BroadcastToConversation(conversation: Uuid, full: set<Channel>) returns (delivered: set<Channel>, dropped: set<Channel>)
      ensures delivered == Listeners(clients, conversation) - full
      ensures dropped == Listeners(clients, conversation) * full
    {
      delivered, dropped := {}, {};
      ghost var touched: set<Channel> := {};
      var users := clients.Keys;
      while users != {}
        invariant users <= clients.Keys
        invariant touched == set c | c in Listeners(clients, conversation) && c.0 !in users
        invariant delivered == touched - full && dropped == touched * full
        decreases users
      {
        var user :| user in users;
        users := users - {user};
        ghost var before := touched;
        var todo := clients[user].Keys;
        while todo != {}
          invariant todo <= clients[user].Keys
          invariant touched == before +
            set id | id in clients[user].Keys - todo && conversation in clients[user][id].conversations :: (user, id)
          invariant delivered == touched - full && dropped == touched * full
          decreases todo
        {
          var id :| id in todo;
          todo := todo - {id};
          if conversation in clients[user][id].conversations {
            touched := touched + {(user, id)};
            if (user, id) in full {
              dropped := dropped + {(user, id)};
            } else {
              delivered := delivered + {(user, id)};
            }
          }
        }
      }
    }

    method Stop()
      modifies this
      ensures Current() == Stopped(old(Current()))
    {
      var users := clients.Keys;
      while users != {}
        invariant users <= clients.Keys && clients == old(clients) && online == old(online)
        invariant rateLimiter.connectionsPerUser == old(rateLimiter.connectionsPerUser)
        invariant closed == old(closed) + multiset(ChannelsExcept(clients, users))
        decreases users
      {
        var user :| user in users;
        MoreChannels(clients, users, user);
        users := users - {user};
        CloseClients(user, clients[user]);
      }
      assert ChannelsExcept(clients, {}) == Channels(clients);
      clients := map[];
    }

    method CloseClients(user: Uuid, userClients: map<Uuid, Client>)
      modifies this`closed
      ensures closed == old(closed) + multiset(ChannelsIn(user, userClients.Keys))
    {
      var todo := userClients.Keys;
      while todo != {}
        invariant todo <= userClients.Keys
        invariant closed == old(closed) + multiset(ChannelsIn(user, userClients.Keys - todo))
        decreases todo
      {
        var id :| id in todo;
        assert ChannelsIn(user, userClients.Keys - (todo - {id})) == ChannelsIn(user, userClients.Keys - todo) + {(user, id)};
        todo := todo - {id};
        RemoveClient((user, id));
      }
    }
  }

  function ChannelsIn(user: Uuid, ids: set<Uuid>): set<Channel> {
    set id | id in ids :: (user, id)
  }

  /** The channels of all users but those still to be closed. */
  function ChannelsExcept(clients: Clients, users: set<Uuid>): set<Channel> {
    set user, id | user in clients && id in clients[user] && user !in users :: (user, id)
  }

  lemma MoreChannels(clients: Clients, users: set<Uuid>, user: Uuid)
    requires user in users && user in clients
    ensures ChannelsExcept(clients, users - {user}) == ChannelsExcept(clients, users) + ChannelsIn(user, clients[user].Keys)
    ensures ChannelsExcept(clients, users) !! ChannelsIn(user, clients[user].Keys)
  {
  }

  method PickOne(inner: map<Uuid, Client>) returns (id: Uuid)
    requires |inner| > 0
    ensures id in inner
  {
    id :| id in inner.Keys;
  }

  // ---------------------------------------------------------------- runs

  datatype Event =
    | Register(client: Client, now: Time, victim: Uuid, loaded: set<Uuid>)
    | Unregister(client: Client)
    | Stop
    | LimiterCleanup(now: Time)

  /** The hub, every channel a registration was asked for, and whether it was stopped. */
  datatype World = World(s: State, seen: set<Channel>, stopped: bool)

  predicate Enabled(w: World, e: Event) {
    match e
    case Register(c, now, victim, loaded) =>
      (c.user, c.id) !in w.seen && (Evicts(w.s, c.user, now) ==> victim in ClientsOf(w.s.clients, c.user))
    case Stop => !w.stopped
    case _ => true
  }

  function Apply(w: World, e: Event): World {
    match e
    case Register(c, now, victim, loaded) => World(Registered(w.s, c, now, victim, loaded), w.seen + {(c.user, c.id)}, w.stopped)
    case Unregister(c) => w.(s := Unregistered(w.s, c))
    case Stop => World(Stopped(w.s), w.seen, true)
    case LimiterCleanup(now) => w.(s := w.s.(logs := Next(w.s.logs, Cleanup(now))))
  }

  predicate Feasible(w: World, es: seq<Event>)
    decreases |es|
  {
    es == [] || (Enabled(w, es[0]) && Feasible(Apply(w, es[0]), es[1..]))
  }

  function Run(w: World, es: seq<Event>): World
    decreases |es|
  {
    if es == [] then w else Run(Apply(w, es[0]), es[1..])
  }

  const Started := World(State(map[], multiset{}, map[], map[]), {}, false)

  /** No channel is closed twice, and connected clients have open channels. */
  ghost predicate ChannelsSafe(w: World) {
    && (forall c :: w.s.closed[c] <= 1)
    && (forall c :: c in w.s.closed ==> c in w.seen)
    && (forall u, id :: u in w.s.clients && id in w.s.clients[u] ==> (u, id) in w.seen && (u, id) !in w.s.closed)
  }

  /** Clients are filed under their own user and id, at most ten per user and never none. */
  ghost predicate WellFiled(s: State) {
    && (forall u, id :: u in s.clients && id in s.clients[u] ==> s.clients[u][id].user == u && s.clients[u][id].id == id)
    && (forall u :: u in s.clients ==> 0 < |s.clients[u]| <= MAX_CONNECTIONS)
  }

  /** The hub reports a user online exactly while a client of theirs is connected. */
  ghost predicate PresenceAgrees(s: State) {
    forall u :: (u in s.online && s.online[u]) <==> u in s.clients
  }

  ghost predicate Inv(w: World) {
    ChannelsSafe(w) && WellFiled(w.s) && (w.stopped || PresenceAgrees(w.s))
  }

  lemma RoomForOne(inner: map<Uuid, Client>, c: Client, victim: Uuid)
    requires |inner| <= MAX_CONNECTIONS && (|inner| == MAX_CONNECTIONS ==> victim in inner)
    ensures var kept := if |inner| == MAX_CONNECTIONS then inner - {victim} else inner;
      0 < |kept[c.id := c]| <= MAX_CONNECTIONS
  {
    var kept := if |inner| == MAX_CONNECTIONS then inner - {victim} else inner;
    assert kept.Keys == if |inner| == MAX_CONNECTIONS then inner.Keys - {victim} else inner.Keys;
    assert kept[c.id := c].Keys == kept.Keys + {c.id};
  }

  lemma RegisterFiles(s: State, c: Client, now: Time, victim: Uuid, loaded: set<Uuid>)
    requires WellFiled(s) && (Evicts(s, c.user, now) ==> victim in ClientsOf(s.clients, c.user))
    ensures WellFiled(Registered(s, c, now, victim, loaded))
  {
    var inner := ClientsOf(s.clients, c.user);
    var kept := if Full(s, c.user) then inner - {victim} else inner;
    if Admits(s.logs, c.user, now) {
      RoomForOne(inner, Listening(c, loaded), victim);
      assert Registered(s, c, now, victim, loaded).clients == s.clients[c.user := kept[c.id := Listening(c, loaded)]];
    }
  }

  lemma RegisterSafe(w: World, e: Event)
    requires ChannelsSafe(w) && e.Register? && Enabled(w, e)
    ensures ChannelsSafe(Apply(w, e))
  {
    var c, w' := e.client, Apply(w, e);
    forall u, id | u in w'.s.clients && id in w'.s.clients[u]
      ensures (u, id) in w'.seen && (u, id) !in w'.s.closed
    {
      if (u, id) != (c.user, c.id) {
        assert u in w.s.clients && id in w.s.clients[u];
      }
    }
  }

  lemma RegisterPresence(s: State, c: Client, now: Time, victim: Uuid, loaded: set<Uuid>)
    requires PresenceAgrees(s)
    ensures PresenceAgrees(Registered(s, c, now, victim, loaded))
  {
  }

  lemma RegisterKeeps(w: World, e: Event)
    requires Inv(w) && e.Register? && Enabled(w, e)
    ensures Inv(Apply(w, e))
  {
    RegisterFiles(w.s, e.client, e.now, e.victim, e.loaded);
    RegisterSafe(w, e);
    if !w.stopped {
      RegisterPresence(w.s, e.client, e.now, e.victim, e.loaded);
    }
    assert Apply(w, e).s == Registered(w.s, e.client, e.now, e.victim, e.loaded);
  }

  lemma UnregisterFiles(s: State, c: Client)
    requires WellFiled(s)
    ensures WellFiled(Unregistered(s, c))
  {
    if c.id in ClientsOf(s.clients, c.user) {
      var inner := s.clients[c.user] - {c.id};
      assert inner.Keys == s.clients[c.user].Keys - {c.id};
      assert inner != map[] ==> |inner| > 0;
    }
  }

  lemma UnregisterSafe(w: World, e: Event)
    requires ChannelsSafe(w) && e.Unregister?
    ensures ChannelsSafe(Apply(w, e))
  {
    var w' := Apply(w, e);
    forall u, id | u in w'.s.clients && id in w'.s.clients[u]
      ensures (u, id) in w'.seen && (u, id) !in w'.s.closed
    {
      assert u in w.s.clients && id in w.s.clients[u];
    }
  }

  lemma UnregisterPresence(s: State, c: Client)
    requires PresenceAgrees(s)
    ensures PresenceAgrees(Unregistered(s, c))
  {
  }

  lemma UnregisterKeeps(w: World, e: Event)
    requires Inv(w) && e.Unregister?
    ensures Inv(Apply(w, e))
  {
    UnregisterFiles(w.s, e.client);
    UnregisterSafe(w, e);
    if !w.stopped {
      UnregisterPresence(w.s, e.client);
    }
    assert Apply(w, e).s == Unregistered(w.s, e.client);
  }

  lemma StopKeeps(w: World)
    requires Inv(w)
    ensures Inv(Apply(w, Stop))
  {
    StopClosesAll(w);
  }

  lemma CleanupKeeps(w: World, e: Event)
    requires Inv(w) && e.LimiterCleanup?
    ensures Inv(Apply(w, e))
  {
    var s, s' := w.s, Apply(w, e).s;
    assert s'.clients == s.clients && s'.closed == s.closed && s'.online == s.online;
  }

  lemma StepKeeps(w: World, e: Event)
    requires Inv(w) && Enabled(w, e)
    ensures Inv(Apply(w, e))
  {
    match e
    case Register(_, _, _, _) => RegisterKeeps(w, e);
    case Unregister(_) => UnregisterKeeps(w, e);
    case Stop => StopKeeps(w);
    case LimiterCleanup(_) => CleanupKeeps(w, e);
  }

  /** Every reachable state keeps all of it, so every client a broadcast writes to has a
      channel that was never closed. */
  lemma {:induction false} RunKeeps(w: World, es: seq<Event>)
    requires Inv(w) && Feasible(w, es)
    ensures Inv(Run(w, es))
    ensures forall c :: c in Channels(Run(w, es).s.clients) ==> c !in Run(w, es).s.closed
    decreases |es|
  {
    if es != [] {
      StepKeeps(w, es[0]);
      RunKeeps(Apply(w, es[0]), es[1..]);
    }
  }

  /** From a fresh hub: whatever registers, leaves or stops in whatever order. */
  lemma SafeFromStart(es: seq<Event>)
    requires Feasible(Started, es)
    ensures Inv(Run(Started, es))
  {
    RunKeeps(Started, es);
  }

  // ---------------------------------------------------------------- what is filed, what is closed

  predicate Filed(s: State, channel: Channel) {
    channel.0 in s.clients && channel.1 in s.clients[channel.0]
  }

  lemma UnregisterKeepsOthers(s: State, c: Client, channel: Channel)
    requires Filed(s, (c.user, c.id))
    ensures var s' := Unregistered(s, c);
      && (Filed(s', channel) <==> Filed(s, channel) && channel != (c.user, c.id))
      && (Filed(s', channel) ==> s'.clients[channel.0][channel.1] == s.clients[channel.0][channel.1])
  {
    var inner := s.clients[c.user] - {c.id};
    assert channel.0 == c.user ==> (channel.1 in inner <==> channel.1 in s.clients[c.user] && channel.1 != c.id);
  }

  /** An unregister of a filed client takes out exactly that client, closes its channel once
      more, and reports its user offline exactly if it was their last; everything else stays. */
  lemma UnregisterRemoves(s: State, c: Client, channel: Channel)
    requires Filed(s, (c.user, c.id))
    ensures var s' := Unregistered(s, c);
      && (Filed(s', channel) <==> Filed(s, channel) && channel != (c.user, c.id))
      && (Filed(s', channel) ==> s'.clients[channel.0][channel.1] == s.clients[channel.0][channel.1])
      && s'.closed[channel] == s.closed[channel] + (if channel == (c.user, c.id) then 1 else 0)
      && s'.online == (if |s.clients[c.user]| == 1 then s.online[c.user := false] else s.online)
      && s'.logs == s.logs
  {
    UnregisterKeepsOthers(s, c, channel);
    var inner := s.clients[c.user] - {c.id};
    assert |inner.Keys| == |s.clients[c.user].Keys| - 1 by {
      assert inner.Keys == s.clients[c.user].Keys - {c.id};
    }
    assert inner == map[] <==> |inner| == 0;
  }

  lemma RunSnoc(w: World, es: seq<Event>, e: Event)
    ensures Run(w, es + [e]) == Apply(Run(w, es), e)
    decreases |es|
  {
    if es == [] {
      assert [] + [e] == [e] && [e][1..] == [];
    } else {
      assert (es + [e])[1..] == es[1..] + [e];
      RunSnoc(Apply(w, es[0]), es[1..], e);
    }
  }

  lemma FeasibleSnoc(w: World, es: seq<Event>, e: Event)
    ensures Feasible(w, es + [e]) <==> Feasible(w, es) && Enabled(Run(w, es), e)
    decreases |es|
  {
    if es == [] {
      assert [] + [e] == [e] && [e][1..] == [];
    } else {
      assert (es + [e])[1..] == es[1..] + [e];
      FeasibleSnoc(Apply(w, es[0]), es[1..], e);
    }
  }

  /** The world before the k-th event of a run. */
  function Before(w: World, es: seq<Event>, k: nat): World
    requires k <= |es|
  {
    if k == 0 then w else Apply(Before(w, es, k - 1), es[k - 1])
  }

  ghost predicate EachEnabled(es: seq<Event>) {
    forall k: nat :: k < |es| ==> Enabled(Before(Started, es, k), es[k])
  }

  lemma Prefix(es: seq<Event>, k: nat)
    requires k < |es|
    ensures es[..k] + [es[k]] == es[..k + 1]
  {
  }

  lemma RunPrefix(w: World, es: seq<Event>, k: nat)
    requires k < |es|
    ensures Run(w, es[..k + 1]) == Apply(Run(w, es[..k]), es[k])
  {
    Prefix(es, k);
    RunSnoc(w, es[..k], es[k]);
  }

  lemma FeasiblePrefix(w: World, es: seq<Event>, k: nat)
    requires k < |es|
    ensures Feasible(w, es[..k + 1]) <==> Feasible(w, es[..k]) && Enabled(Run(w, es[..k]), es[k])
  {
    Prefix(es, k);
    FeasibleSnoc(w, es[..k], es[k]);
  }

  lemma OneStepMore(w: World, es: seq<Event>, k: nat, here: World)
    requires k < |es| && Before(w, es, k) == here && Run(w, es[..k]) == here
    ensures Before(w, es, k + 1) == Run(w, es[..k + 1])
  {
    assert Before(w, es, k + 1) == Apply(here, es[k]);
    RunPrefix(w, es, k);
  }

  lemma NothingRun(w: World, es: seq<Event>)
    ensures Before(w, es, 0) == Run(w, es[..0])
  {
    assert es[..0] == [];
  }

  lemma {:induction false} BeforeIsRun(w: World, es: seq<Event>, k: nat)
    requires k <= |es|
    ensures Before(w, es, k) == Run(w, es[..k])
  {
    NothingRun(w, es);
    for i := 0 to k
      invariant Before(w, es, i) == Run(w, es[..i])
    {
      OneStepMore(w, es, i, Before(w, es, i));
    }
  }

  lemma {:induction false} FeasibleIsEnabled(es: seq<Event>, k: nat, j: nat)
    requires j < k <= |es| && Feasible(Started, es[..k])
    ensures Enabled(Before(Started, es, j), es[j])
  {
    FeasiblePrefix(Started, es, k - 1);
    if j < k - 1 {
      FeasibleIsEnabled(es, k - 1, j);
    } else {
      BeforeIsRun(Started, es, j);
    }
  }

  /** The same run, seen by its steps. */
  lemma StepByStep(es: seq<Event>)
    requires Feasible(Started, es)
    ensures EachEnabled(es) && Before(Started, es, |es|) == Run(Started, es)
  {
    assert es[..|es|] == es;
    forall k: nat | k < |es|
      ensures Enabled(Before(Started, es, k), es[k])
    {
      FeasibleIsEnabled(es, |es|, k);
    }
    BeforeIsRun(Started, es, |es|);
  }

  lemma {:induction false} InvBefore(es: seq<Event>, k: nat)
    requires EachEnabled(es) && k <= |es|
    ensures Inv(Before(Started, es, k))
  {
    if k > 0 {
      InvBefore(es, k - 1);
      StepKeeps(Before(Started, es, k - 1), es[k - 1]);
    }
  }

  /** The registration of this channel is let through by the connection limiter. */
  predicate LetsIn(w: World, e: Event, channel: Channel) {
    e.Register? && (e.client.user, e.client.id) == channel && Admits(w.s.logs, e.client.user, e.now)
  }

  /** The event ends a filed client: by its own unregister, by a stop, or as the one evicted
      for an admitted registration of a user who already has ten. */
  predicate Ends(w: World, e: Event, channel: Channel) {
    match e
    case Register(c, now, victim, _) =>
      Admits(w.s.logs, c.user, now) && |ClientsOf(w.s.clients, c.user)| >= 10 && channel == (c.user, victim)
    case Unregister(c) => channel == (c.user, c.id)
    case Stop => true
    case LimiterCleanup(_) => false
  }

  lemma FiledAfterStep(w: World, e: Event, channel: Channel)
    requires Inv(w) && Enabled(w, e)
    ensures Filed(Apply(w, e).s, channel) <==>
            LetsIn(w, e, channel) || (Filed(w.s, channel) && !Ends(w, e, channel))
  {
    match e
    case Unregister(c) =>
      if Filed(w.s, (c.user, c.id)) {
        UnregisterRemoves(w.s, c, channel);
      }
    case Register(c, now, victim, loaded) =>
      assert !Filed(w.s, (c.user, c.id));
      RegisterFiled(w, e, channel);
    case _ =>
  }

  lemma RegisterFiled(w: World, e: Event, channel: Channel)
    requires e.Register? && !Filed(w.s, (e.client.user, e.client.id))
    ensures Filed(Apply(w, e).s, channel) <==>
            LetsIn(w, e, channel) || (Filed(w.s, channel) && !Ends(w, e, channel))
  {
    var c, s := e.client, w.s;
    if Admits(s.logs, c.user, e.now) {
      var inner := ClientsOf(s.clients, c.user);
      var kept := if Full(s, c.user) then inner - {e.victim} else inner;
      assert Apply(w, e).s.clients == s.clients[c.user := kept[c.id := Listening(c, e.loaded)]];
      if channel.0 == c.user {
        assert Filed(Apply(w, e).s, channel) <==> channel.1 == c.id || channel.1 in kept;
      }
    }
  }

  lemma ClosedAfterStep(w: World, e: Event, channel: Channel)
    requires Inv(w) && Enabled(w, e)
    ensures Apply(w, e).s.closed[channel] ==
            w.s.closed[channel] + if Filed(w.s, channel) && Ends(w, e, channel) then 1 else 0
  {
    match e
    case Unregister(c) =>
      if Filed(w.s, (c.user, c.id)) {
        UnregisterRemoves(w.s, c, channel);
      }
    case _ =>
  }

  function Admission(es: seq<Event>, channel: Channel): nat -> bool {
    (k: nat) => k < |es| && LetsIn(Before(Started, es, k), es[k], channel)
  }

  function Ending(es: seq<Event>, channel: Channel): nat -> bool {
    (k: nat) => k < |es| && Ends(Before(Started, es, k), es[k], channel)
  }

  function FiledBy(es: seq<Event>, channel: Channel): nat -> bool {
    (k: nat) => k <= |es| && Filed(Before(Started, es, k).s, channel)
  }

  lemma FiledAt(es: seq<Event>, k: nat, channel: Channel)
    requires EachEnabled(es) && k < |es|
    ensures Follows(k, Admission(es, channel), Ending(es, channel), FiledBy(es, channel))
  {
    InvBefore(es, k);
    FiledAfterStep(Before(Started, es, k), es[k], channel);
  }

  lemma FiledSteps(es: seq<Event>, k: nat, channel: Channel)
    requires EachEnabled(es) && k <= |es|
    ensures FiledBy(es, channel)(k) <==> RaisedSince(k, Admission(es, channel), Ending(es, channel))
  {
    var up, down, filed := Admission(es, channel), Ending(es, channel), FiledBy(es, channel);
    forall j: nat | j < k
      ensures Follows(j, up, down, filed)
    {
      FiledAt(es, j, channel);
    }
    SinceRaised(k, up, down, filed);
  }

  /** Over every run a client is filed if and only if it was admitted and has not since been
      evicted, unregistered or stopped. */
  lemma FiledExactly(es: seq<Event>, channel: Channel)
    requires Feasible(Started, es)
    ensures Filed(Run(Started, es).s, channel) <==> RaisedSince(|es|, Admission(es, channel), Ending(es, channel))
  {
    StepByStep(es);
    FiledSteps(es, |es|, channel);
  }

  function Seen(es: seq<Event>, channel: Channel): nat -> bool {
    (k: nat) => k <= |es| && channel in Before(Started, es, k).seen
  }

  function TimesClosed(es: seq<Event>, channel: Channel): nat -> nat {
    (k: nat) => if k <= |es| then Before(Started, es, k).s.closed[channel] else 0
  }

  lemma SeenAt(es: seq<Event>, k: nat, channel: Channel)
    requires EachEnabled(es) && k < |es|
    ensures Marks(k, Admission(es, channel), Seen(es, channel))
  {
    assert Before(Started, es, k + 1).seen == Apply(Before(Started, es, k), es[k]).seen;
    assert Enabled(Before(Started, es, k), es[k]);
  }

  lemma ClosedAt(es: seq<Event>, k: nat, channel: Channel)
    requires EachEnabled(es) && k < |es|
    ensures Counts(k, Ending(es, channel), FiledBy(es, channel), TimesClosed(es, channel))
  {
    InvBefore(es, k);
    ClosedAfterStep(Before(Started, es, k), es[k], channel);
  }

  lemma ClosedSteps(es: seq<Event>, channel: Channel)
    requires EachEnabled(es)
    ensures TimesClosed(es, channel)(|es|) ==
            if RaisedEver(|es|, Admission(es, channel)) && !FiledBy(es, channel)(|es|) then 1 else 0
  {
    var up, down, filed := Admission(es, channel), Ending(es, channel), FiledBy(es, channel);
    var seen, closed := Seen(es, channel), TimesClosed(es, channel);
    forall j: nat | j < |es|
      ensures Follows(j, up, down, filed) && Counts(j, down, filed, closed) && Marks(j, up, seen)
    {
      FiledAt(es, j, channel);
      ClosedAt(es, j, channel);
      SeenAt(es, j, channel);
    }
    LoweredOnce(|es|, up, down, filed, seen, closed);
  }

  /** Over every run a channel has been closed, once, if and only if its client was admitted
      and is no longer filed. */
  lemma ClosedExactly(es: seq<Event>, channel: Channel)
    requires Feasible(Started, es)
    ensures var s := Run(Started, es).s;
      s.closed[channel] == if RaisedEver(|es|, Admission(es, channel)) && !Filed(s, channel) then 1 else 0
  {
    StepByStep(es);
    ClosedSteps(es, channel);
  }

  /** An accepted registration changes who hears a conversation in two places only: the
      newcomer hears those read for it, and an evicted client hears nothing any more. */
  lemma RegisterChangesListeners(s: State, c: Client, now: Time, victim: Uuid, loaded: set<Uuid>,
                                 conversation: Uuid, channel: Channel)
    requires Admits(s.logs, c.user, now)
    ensures var s' := Registered(s, c, now, victim, loaded);
      channel in Listeners(s'.clients, conversation) <==>
        if channel == (c.user, c.id) then conversation in c.conversations + loaded
        else channel in Listeners(s.clients, conversation) && !(Full(s, c.user) && channel == (c.user, victim))
  {
    var s' := Registered(s, c, now, victim, loaded);
    assert channel in Channels(s'.clients) <==>
      channel == (c.user, c.id) || (channel in Channels(s.clients) && !(Full(s, c.user) && channel == (c.user, victim)));
  }

  /** Unregistering an evicted or already unregistered client changes nothing: the exit of
      its reader cannot close its channel a second time. */
  lemma LateUnregisterIsIdle(w: World, c: Client)
    requires Inv(w) && (c.user, c.id) in w.s.closed
    ensures Unregistered(w.s, c) == w.s
  {
  }

  /** A stop closes every open channel of a connected client exactly once and leaves
      nobody connected. */
  lemma StopClosesAll(w: World)
    requires Inv(w)
    ensures Stopped(w.s).clients == map[]
    ensures forall c :: Stopped(w.s).closed[c] == if c in Channels(w.s.clients) then 1 else w.s.closed[c]
  {
  }
}
