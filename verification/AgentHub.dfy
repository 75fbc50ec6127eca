/** The panel's agent connections and the commands sent over them. */
module AgentHub {
  import opened Wrappers

  const PONG_TIMEOUT: int := 10000

  // ----- Commands -----

  datatype Settled = Done(success: bool) | TimedOut | Disconnected | SendFailed | ServiceClosed

  datatype Settlement = Settlement(id: nat, outcome: Settled)

  function SettledIds(log: seq<Settlement>): set<nat>
  {
    set i | 0 <= i < |log| :: log[i].id
  }

  /** Every issued command is either pending, with its timer armed, or has been settled once. */
  ghost predicate CommandsOk(pending: map<nat, nat>, timers: set<nat>, issued: set<nat>, log: seq<Settlement>)
  {
    && timers == pending.Keys
    && issued == pending.Keys + SettledIds(log) && pending.Keys !! SettledIds(log)
    && forall i, j :: 0 <= i < j < |log| ==> log[i].id != log[j].id
  }

  lemma Issue(pending: map<nat, nat>, timers: set<nat>, issued: set<nat>, log: seq<Settlement>, id: nat, node: nat)
    requires CommandsOk(pending, timers, issued, log) && id !in issued
    ensures CommandsOk(pending[id := node], timers + {id}, issued + {id}, log)
  {
  }

  lemma Settle(pending: map<nat, nat>, timers: set<nat>, issued: set<nat>, log: seq<Settlement>, s: Settlement)
    requires CommandsOk(pending, timers, issued, log) && s.id in pending
    ensures CommandsOk(pending - {s.id}, timers - {s.id}, issued, log + [s])
  {
    var log' := log + [s];
    assert SettledIds(log') == SettledIds(log) + {s.id} by {
      forall x | x in SettledIds(log) ensures x in SettledIds(log') {
        var i :| 0 <= i < |log| && log[i].id == x;
        assert log'[i].id == x;
      }
      assert log'[|log|].id == s.id;
    }
  }

  /** The commands a node's disconnection leaves pending. */
  function NotFor(pending: map<nat, nat>, node: nat): map<nat, nat>
  {
    map id | id in pending && pending[id] != node :: pending[id]
  }

  /** The commands the disconnection of several nodes leaves pending. */
  function NotForAny(pending: map<nat, nat>, nodes: set<nat>): map<nat, nat>
  {
    map id | id in pending && pending[id] !in nodes :: pending[id]
  }

  lemma AllPending(pending: map<nat, nat>)
    ensures NotForAny(pending, {}) == pending
  {
  }

  lemma NotForMore(pending: map<nat, nat>, nodes: set<nat>, n: nat)
    ensures NotFor(NotForAny(pending, nodes), n) == NotForAny(pending, nodes + {n})
  {
  }

  // ----- Connections -----

  datatype Socket = Socket(open: bool, node: Option<nat>)

  datatype Agent = Agent(ws: nat, pongReceived: bool)

  datatype PongTimer = PongTimer(node: nat, ws: nat, due: int)

  /** Every entry belongs to the socket that authenticated for its node, and every armed pong timer comes from the last
      ping round and finds either its own connection or one that has not been pinged yet. */
  ghost predicate ConnectionsOk(agents: map<nat, Agent>, sockets: map<nat, Socket>, timers: set<PongTimer>,
                                lastPing: int)
  {
    && (forall n :: n in agents ==> EntryOk(agents[n], sockets, n))
    && forall t :: t in timers ==> TimerOk(agents, t, lastPing)
  }

  predicate EntryOk(a: Agent, sockets: map<nat, Socket>, n: nat)
  {
    a.ws in sockets && sockets[a.ws].node == Some(n)
  }

  predicate TimerOk(agents: map<nat, Agent>, t: PongTimer, lastPing: int)
  {
    t.due == lastPing + PONG_TIMEOUT && (t.node in agents && !agents[t.node].pongReceived ==> agents[t.node].ws == t.ws)
  }

  /** A socket is the entry of at most one node. */
  lemma OneNodePerSocket(agents: map<nat, Agent>, sockets: map<nat, Socket>, timers: set<PongTimer>,
                         lastPing: int, m: nat, n: nat)
    requires ConnectionsOk(agents, sockets, timers, lastPing)
    requires m in agents && n in agents && agents[m].ws == agents[n].ws
    ensures m == n
  {
    assert EntryOk(agents[m], sockets, m) && EntryOk(agents[n], sockets, n);
  }

  /** Timers fire in the order they are due, so when a ping round comes no pong timer of the round before is left: the
      pong timeout is shorter than the ping period. */
  lemma NoTimerAtPing(agents: map<nat, Agent>, sockets: map<nat, Socket>, timers: set<PongTimer>, lastPing: int)
    requires ConnectionsOk(agents, sockets, timers, lastPing)
    requires forall t :: t in timers ==> t.due > lastPing + 30000
    ensures timers == {}
  {
    hide ConnectionsOk;
    if timers != {} {
      var t :| t in timers;
      DueBeforePing(agents, sockets, timers, lastPing, t);
    }
  }

  lemma DueBeforePing(agents: map<nat, Agent>, sockets: map<nat, Socket>, timers: set<PongTimer>,
                      lastPing: int, t: PongTimer)
    requires ConnectionsOk(agents, sockets, timers, lastPing) && t in timers
    ensures t.due < lastPing + 30000
  {
    assert TimerOk(agents, t, lastPing);
  }

  lemma Register(agents: map<nat, Agent>, sockets: map<nat, Socket>, timers: set<PongTimer>, lastPing: int,
                 ws: nat, node: nat)
    requires ConnectionsOk(agents, sockets, timers, lastPing)
    requires ws in sockets && sockets[ws].node == None
    ensures var closed := if node in agents then CloseSocket(sockets, agents[node].ws) else sockets;
            && ws in closed
            && ConnectionsOk(agents[node := Agent(ws, true)], closed[ws := closed[ws].(node := Some(node))],
                             timers, lastPing)
  {
    var closed := if node in agents then CloseSocket(sockets, agents[node].ws) else sockets;
    var sockets' := closed[ws := closed[ws].(node := Some(node))];
    var agents' := agents[node := Agent(ws, true)];
    forall n | n in agents' ensures EntryOk(agents'[n], sockets', n) {
      if n != node { assert EntryOk(agents[n], sockets, n); }
    }
    forall t | t in timers ensures TimerOk(agents', t, lastPing) { assert TimerOk(agents, t, lastPing); }
  }

  /** Two tokens are the same; an empty one matches none. */
  predicate SafeTokenEqual(a: string, b: string)
  {
    a != "" && b != "" && a == b
  }

  function CloseSocket(sockets: map<nat, Socket>, ws: nat): map<nat, Socket>
  {
    if ws in sockets then sockets[ws := sockets[ws].(open := false)] else sockets
  }

  lemma Closing(agents: map<nat, Agent>, sockets: map<nat, Socket>, timers: set<PongTimer>, lastPing: int, ws: nat)
    requires ConnectionsOk(agents, sockets, timers, lastPing)
    ensures ConnectionsOk(agents, CloseSocket(sockets, ws), timers, lastPing)
  {
    forall n | n in agents ensures EntryOk(agents[n], CloseSocket(sockets, ws), n) {
      assert EntryOk(agents[n], sockets, n);
    }
  }

  lemma Removing(agents: map<nat, Agent>, sockets: map<nat, Socket>, timers: set<PongTimer>, lastPing: int,
                 node: nat, fired: set<PongTimer>)
    requires ConnectionsOk(agents, sockets, timers, lastPing)
    ensures ConnectionsOk(agents - {node}, sockets, timers - fired, lastPing)
  {
    forall t | t in timers - fired ensures TimerOk(agents - {node}, t, lastPing) {
      assert TimerOk(agents, t, lastPing);
    }
  }

  /** A node has a registered connection and it is open. */
  predicate Connected(agents: map<nat, Agent>, sockets: map<nat, Socket>, n: nat)
  {
    n in agents && agents[n].ws in sockets && sockets[agents[n].ws].open
  }

  /** What a ping round leaves of the table: agents whose socket is open and took the ping, all awaiting a pong. */
  function Pinged(agents: map<nat, Agent>, sockets: map<nat, Socket>, failing: set<nat>): map<nat, Agent>
  {
    map n | n in agents && Reachable(agents[n], sockets, failing) :: agents[n].(pongReceived := false)
  }

  lemma PingedAre(agents: map<nat, Agent>, sockets: map<nat, Socket>, failing: set<nat>)
    ensures var after := Pinged(agents, sockets, failing);
            && (forall n :: n in after <==> n in agents && Connected(agents, sockets, n) && agents[n].ws !in failing)
            && forall n :: n in after ==> after[n] == Agent(agents[n].ws, false)
  {
  }

  predicate Reachable(a: Agent, sockets: map<nat, Socket>, failing: set<nat>)
  {
    a.ws in sockets && sockets[a.ws].open && a.ws !in failing
  }

  lemma AllEntries(agents: map<nat, Agent>, sockets: map<nat, Socket>, timers: set<PongTimer>, lastPing: int)
    requires ConnectionsOk(agents, sockets, timers, lastPing)
    ensures forall n :: n in agents ==> EntryOk(agents[n], sockets, n)
  {
  }

  /** How far a ping round has come when some nodes are still to be pinged. */
  ghost predicate InRound(before: map<nat, Agent>, agents: map<nat, Agent>, timers: set<PongTimer>,
                          sockets: map<nat, Socket>, failing: set<nat>, todo: set<nat>, now: int)
  {
    && todo <= agents.Keys <= before.Keys
    && (forall n :: n in before && (n in todo || Reachable(before[n], sockets, failing)) <==> n in agents)
    && (forall n :: n in agents ==>
          agents[n] == if n in todo then before[n] else before[n].(pongReceived := false))
    && (forall t :: t in timers <==>
          t.node in agents && t.node !in todo && t == PongTimer(t.node, agents[t.node].ws, now + PONG_TIMEOUT))
  }

  lemma RoundStart(agents: map<nat, Agent>, sockets: map<nat, Socket>, failing: set<nat>, now: int)
    ensures InRound(agents, agents, {}, sockets, failing, agents.Keys, now)
  {
  }

  lemma RoundStep(before: map<nat, Agent>, agents: map<nat, Agent>, timers: set<PongTimer>,
                  sockets: map<nat, Socket>, failing: set<nat>, todo: set<nat>, now: int, n: nat)
    requires InRound(before, agents, timers, sockets, failing, todo, now) && n in todo
    ensures n in agents
    ensures if Reachable(agents[n], sockets, failing) then
              var timer := PongTimer(n, agents[n].ws, now + PONG_TIMEOUT);
              && InRound(before, agents[n := agents[n].(pongReceived := false)], timers + {timer}, sockets, failing,
                         todo - {n}, now)
              && before.Keys - agents[n := agents[n].(pongReceived := false)].Keys == before.Keys - agents.Keys
            else
              && InRound(before, agents - {n}, timers, sockets, failing, todo - {n}, now)
              && before.Keys - (agents - {n}).Keys == before.Keys - agents.Keys + {n}
  {
  }

  lemma RoundOk(before: map<nat, Agent>, agents: map<nat, Agent>, sockets: map<nat, Socket>, timers: set<PongTimer>,
                now: int, failing: set<nat>)
    requires forall n :: n in before ==> EntryOk(before[n], sockets, n)
    requires InRound(before, agents, timers, sockets, failing, {}, now)
    ensures ConnectionsOk(agents, sockets, timers, now) && agents == Pinged(before, sockets, failing)
    ensures forall t :: t in timers <==>
              t.node in agents && t == PongTimer(t.node, agents[t.node].ws, now + PONG_TIMEOUT)
  {
    forall n | n in agents ensures EntryOk(agents[n], sockets, n) { assert EntryOk(before[n], sockets, n); }
  }

  /** An agent's connection and the node it is registered for. */
  datatype Route = Route(agent: Agent, via: nat)

  /** The route for a node: by its own connection if that is open, else by the first peer's that is, else none. */
  predicate RouteOk(agents: map<nat, Agent>, sockets: map<nat, Socket>, node: nat, peers: seq<nat>, r: Option<Route>)
  {
    match r
    case None => !Connected(agents, sockets, node) && forall n <- peers :: !Connected(agents, sockets, n)
    case Some(Route(agent, via)) =>
      && Connected(agents, sockets, via) && agent == agents[via]
      && if Connected(agents, sockets, node) then via == node
         else exists i :: 0 <= i < |peers| && peers[i] == via
                          && forall j :: 0 <= j < i ==> !Connected(agents, sockets, peers[j])
  }

  // ----- The service -----

  class Service {
    var agents: map<nat, Agent>
    var sockets: map<nat, Socket>
    var pongTimers: set<PongTimer>
    var lastPing: int
    var pending: map<nat, nat>
    var commandTimers: set<nat>
    /** All command ids ever issued, and every call of a command's resolve function. */
    ghost var issued: set<nat>
    ghost var log: seq<Settlement>

    constructor (now: int)
      ensures Valid() && agents == map[] && sockets == map[] && pongTimers == {} && lastPing == now
      ensures pending == map[] && issued == {} && log == []
    {
      agents, sockets, pongTimers, lastPing := map[], map[], {}, now;
      pending, commandTimers, issued, log := map[], {}, {}, [];
    }

    ghost predicate Valid()
      reads this
    {
      && ConnectionsOk(agents, sockets, pongTimers, lastPing)
      && CommandsOk(pending, commandTimers, issued, log)
    }

    ghost predicate CommandsValid()
      reads this`pending, this`commandTimers, this`issued, this`log
    {
      CommandsOk(pending, commandTimers, issued, log)
    }

    // Commands

    /** The open connection for a node: its own, or else that of the first peer on the same machine that has one. */
    method ResolveAgent(node: nat, peers: seq<nat>) returns (r: Option<Route>)
      ensures RouteOk(agents, sockets, node, peers, r)
    {
      if node in agents && agents[node].ws in sockets && sockets[agents[node].ws].open {
        return Some(Route(agents[node], node));
      }
      for i := 0 to |peers|
        invariant forall j :: 0 <= j < i ==> !Connected(agents, sockets, peers[j])
      {
        var peer := peers[i];
        if peer in agents && agents[peer].ws in sockets && sockets[agents[peer].ws].open {
          return Some(Route(agents[peer], peer));
        }
      }
      return None;
    }

    /** Sends a command under a fresh id over the node's connection. Without one the caller is answered at once; a
        failing send settles the command at once; otherwise it stays pending with its timer armed. */
    method SendCommand(node: nat, peers: seq<nat>, id: nat, sendFails: bool) returns (sentOver: Option<Route>)
      requires CommandsValid() && id !in issued
      modifies this`pending, this`commandTimers, this`issued, this`log
      ensures CommandsValid() && RouteOk(agents, sockets, node, peers, sentOver)
      ensures issued == if sentOver.Some? then old(issued) + {id} else old(issued)
      ensures sentOver.None? ==> pending == old(pending) && log == old(log)
      ensures sentOver.Some? && sendFails ==>
                pending == old(pending) && log == old(log) + [Settlement(id, SendFailed)]
      ensures sentOver.Some? && !sendFails ==> pending == old(pending)[id := node] && log == old(log)
    {
      hide CommandsOk;
      sentOver := ResolveAgent(node, peers);
      if sentOver.None? { return; }
      Issue(pending, commandTimers, issued, log, id, node);
      PendingIssued(pending, commandTimers, issued, log);
      commandTimers, pending := commandTimers + {id}, pending[id := node];
      issued := issued + {id};
      if sendFails {
        ResolvePending(id, SendFailed);
      }
    }

    /** Clears the timer, deletes the entry and calls resolve. */
    method ResolvePending(id: nat, outcome: Settled)
      requires CommandsValid() && id in pending
      modifies this`pending, this`commandTimers, this`log
      ensures CommandsValid()
      ensures pending == old(pending) - {id} && log == old(log) + [Settlement(id, outcome)]
    {
      hide CommandsOk;
      Settle(pending, commandTimers, issued, log, Settlement(id, outcome));
      commandTimers := commandTimers - {id};
      pending := pending - {id};
      log := log + [Settlement(id, outcome)];
    }

    /** A result from an agent; unknown and repeated ids are ignored. */
    method HandleCmdResult(id: nat, success: bool)
      requires CommandsValid()
      modifies this`pending, this`commandTimers, this`log
      ensures CommandsValid()
      ensures if id in old(pending) then
                pending == old(pending) - {id} && log == old(log) + [Settlement(id, Done(success))]
              else pending == old(pending) && log == old(log)
    {
      hide CommandsOk;
      if id !in pending { return; }
      ResolvePending(id, Done(success));
    }

    /** A command timer fires. Only armed timers fire, and those are exactly the pending commands' timers. */
    method CommandTimeout(id: nat)
      requires CommandsValid() && id in commandTimers
      modifies this`pending, this`commandTimers, this`log
      ensures CommandsValid()
      ensures pending == old(pending) - {id} && log == old(log) + [Settlement(id, TimedOut)]
    {
      assert id in pending;
      hide CommandsOk;
      ResolvePending(id, TimedOut);
    }

    /** Settles every command registered for a node. */
    method CleanupPendingCommands(node: nat)
      requires CommandsValid()
      modifies this`pending, this`commandTimers, this`log
      ensures CommandsValid()
      ensures pending == NotFor(old(pending), node)
      ensures old(log) <= log && forall i :: |old(log)| <= i < |log| ==> log[i].outcome.Disconnected?
    {
      hide CommandsOk;
      var todo := pending.Keys;
      while todo != {}
        invariant CommandsValid() && todo <= pending.Keys <= old(pending).Keys
        invariant forall id :: id in old(pending) && (id in todo || old(pending)[id] != node) <==> id in pending
        invariant forall id :: id in pending ==> pending[id] == old(pending)[id]
        invariant old(log) <= log && forall i :: |old(log)| <= i < |log| ==> log[i].outcome.Disconnected?
      {
        var id :| id in todo;
        todo := todo - {id};
        if pending[id] == node {
          ResolvePending(id, Disconnected);
        }
      }
    }

    // Connections

    method Connect(ws: nat)
      requires Valid() && ws !in sockets
      modifies this`sockets
      ensures Valid() && sockets == old(sockets)[ws := Socket(true, None)]
    {
      hide CommandsOk;
      sockets := sockets[ws := Socket(true, None)];
      forall n | n in agents ensures EntryOk(agents[n], sockets, n) { assert EntryOk(agents[n], old(sockets), n); }
    }

    /** Authentication of a socket for a node. A missing token closes the socket, even one that has authenticated
        before; any other second attempt is ignored; a missing or unknown node or a wrong token closes it; success
        replaces the node's entry, closing the socket it had and no other, and the new entry counts as having
        answered. */
    method HandleAuth(ws: nat, claim: Option<nat>, token: string, tokens: map<nat, string>)
      requires Valid() && ws in sockets
      modifies this`agents, this`sockets
      ensures Valid()
      ensures if token == "" then agents == old(agents) && sockets == CloseSocket(old(sockets), ws)
              else if old(sockets)[ws].node.Some? then agents == old(agents) && sockets == old(sockets)
              else if claim.None? || claim.value !in tokens || token != tokens[claim.value] then
                agents == old(agents) && sockets == CloseSocket(old(sockets), ws)
              else
                var node := claim.value;
                && agents == old(agents)[node := Agent(ws, true)]
                && sockets.Keys == old(sockets).Keys && sockets[ws] == old(sockets)[ws].(node := claim)
                && (node in old(agents) ==> old(agents)[node].ws in sockets && !sockets[old(agents)[node].ws].open)
                && forall s :: s in sockets && s != ws && !(node in old(agents) && s == old(agents)[node].ws) ==>
                     sockets[s] == old(sockets)[s]
    {
      hide CommandsOk, ConnectionsOk;
      if token == "" {
        Closing(agents, sockets, pongTimers, lastPing, ws);
        sockets := CloseSocket(sockets, ws);
        return;
      }
      if sockets[ws].node.Some? { return; }
      if claim.None? || claim.value !in tokens || !SafeTokenEqual(token, tokens[claim.value]) {
        Closing(agents, sockets, pongTimers, lastPing, ws);
        sockets := CloseSocket(sockets, ws);
        return;
      }
      var node := claim.value;
      Register(agents, sockets, pongTimers, lastPing, ws, node);
      OldIsOther(agents, sockets, pongTimers, lastPing, ws, node);
      if node in agents {
        sockets := CloseSocket(sockets, agents[node].ws);
      }
      sockets := sockets[ws := sockets[ws].(node := claim)];
      agents := agents[node := Agent(ws, true)];
    }

    /** The close event of a socket: its node's entry is removed only if it is still this socket's. */
    method OnClose(ws: nat)
      requires Valid() && ws in sockets
      modifies this`agents, this`sockets, this`pongTimers, this`pending, this`commandTimers, this`log
      ensures Valid() && sockets == CloseSocket(old(sockets), ws) && pongTimers == old(pongTimers)
      ensures var node := old(sockets)[ws].node;
              if node.Some? && node.value in old(agents) && old(agents)[node.value].ws == ws
              then agents == old(agents) - {node.value} && pending == NotFor(old(pending), node.value)
              else agents == old(agents) && pending == old(pending) && log == old(log)
      ensures old(log) <= log && forall i :: |old(log)| <= i < |log| ==> log[i].outcome.Disconnected?
    {
      hide CommandsOk, ConnectionsOk;
      Closing(agents, sockets, pongTimers, lastPing, ws);
      sockets := CloseSocket(sockets, ws);
      var node := sockets[ws].node;
      if node.Some? && node.value in agents && agents[node.value].ws == ws {
        Drop(node.value, {});
      }
    }

    /** Removes a node's entry and settles its commands; a fired timer is gone as well. */
    method Drop(node: nat, fired: set<PongTimer>)
      requires Valid()
      modifies this`agents, this`pongTimers, this`pending, this`commandTimers, this`log
      ensures Valid() && agents == old(agents) - {node} && pongTimers == old(pongTimers) - fired
      ensures pending == NotFor(old(pending), node)
      ensures old(log) <= log && forall i :: |old(log)| <= i < |log| ==> log[i].outcome.Disconnected?
    {
      hide CommandsOk, ConnectionsOk;
      Removing(agents, sockets, pongTimers, lastPing, node, fired);
      agents, pongTimers := agents - {node}, pongTimers - fired;
      CleanupPendingCommands(node);
    }

    /** A pong or heartbeat marks the entry of the socket's node as having answered. */
    method HandlePong(ws: nat)
      requires Valid() && ws in sockets
      modifies this`agents
      ensures Valid() && agents.Keys == old(agents).Keys
      ensures forall n :: n in agents ==>
                agents[n] ==
                if Some(n) == sockets[ws].node then old(agents)[n].(pongReceived := true) else old(agents)[n]
    {
      hide CommandsOk;
      var node := sockets[ws].node;
      if node.Some? && node.value in agents {
        agents := agents[node.value := agents[node.value].(pongReceived := true)];
        forall n | n in agents ensures EntryOk(agents[n], sockets, n) { assert EntryOk(old(agents)[n], sockets, n); }
        forall t | t in pongTimers ensures TimerOk(agents, t, lastPing) { assert TimerOk(old(agents), t, lastPing); }
      }
    }

    /** A ping round, at least a ping period after the last, with every timer due by then already fired. Unreachable
        agents are dropped and exactly their commands settled; the others await a pong, each with a timer for its own
        connection. */
    method PingRound(now: int, failing: set<nat>)
      requires Valid() && now >= lastPing + 30000
      requires forall t :: t in pongTimers ==> t.due > lastPing + 30000
      modifies this`agents, this`pongTimers, this`lastPing, this`pending, this`commandTimers, this`log
      ensures Valid() && lastPing == now
      ensures forall n :: n in agents <==>
                n in old(agents) && Connected(old(agents), sockets, n) && old(agents)[n].ws !in failing
      ensures forall n :: n in agents ==> agents[n] == Agent(old(agents)[n].ws, false)
      ensures pending == NotForAny(old(pending), old(agents).Keys - agents.Keys)
      ensures old(log) <= log && forall i :: |old(log)| <= i < |log| ==> log[i].outcome.Disconnected?
      ensures forall t :: t in pongTimers <==>
                t.node in agents && t == PongTimer(t.node, agents[t.node].ws, now + 10000)
    {
      NoTimerAtPing(agents, sockets, pongTimers, lastPing);
      AllEntries(agents, sockets, pongTimers, lastPing);
      hide CommandsOk, ConnectionsOk, Pinged, InRound, NotFor, NotForAny, Reachable;
      RoundStart(agents, sockets, failing, now);
      AllPending(pending);
      assert agents.Keys - agents.Keys == {};
      lastPing := now;
      var todo := agents.Keys;
      while todo != {}
        invariant CommandsValid() && lastPing == now
        invariant InRound(old(agents), agents, pongTimers, sockets, failing, todo, now)
        invariant pending == NotForAny(old(pending), old(agents).Keys - agents.Keys)
        invariant old(log) <= log && forall i :: |old(log)| <= i < |log| ==> log[i].outcome.Disconnected?
      {
        var n :| n in todo;
        RoundStep(old(agents), agents, pongTimers, sockets, failing, todo, now, n);
        todo := todo - {n};
        var a := agents[n];
        if !Reachable(a, sockets, failing) {
          NotForMore(old(pending), old(agents).Keys - agents.Keys, n);
          agents := agents - {n};
          CleanupPendingCommands(n);
        } else {
          agents := agents[n := a.(pongReceived := false)];
          pongTimers := pongTimers + {PongTimer(n, a.ws, now + PONG_TIMEOUT)};
        }
      }
      RoundOk(old(agents), agents, sockets, pongTimers, now, failing);
      PingedAre(old(agents), sockets, failing);
    }

    /** A pong timer fires. If it evicts an entry, that is the entry of the very connection it was armed for. */
    method PongTimeout(t: PongTimer)
      requires Valid() && t in pongTimers
      modifies this`agents, this`sockets, this`pongTimers, this`pending, this`commandTimers, this`log
      ensures Valid() && pongTimers == old(pongTimers) - {t}
      ensures if t.node in old(agents) && !old(agents)[t.node].pongReceived
              then
                && old(agents)[t.node].ws == t.ws && agents == old(agents) - {t.node}
                && sockets == CloseSocket(old(sockets), t.ws)
                && pending == NotFor(old(pending), t.node)
              else agents == old(agents) && sockets == old(sockets) && pending == old(pending) && log == old(log)
      ensures old(log) <= log && forall i :: |old(log)| <= i < |log| ==> log[i].outcome.Disconnected?
    {
      assert TimerOk(agents, t, lastPing);
      hide CommandsOk, ConnectionsOk;
      if t.node in agents && !agents[t.node].pongReceived {
        Closing(agents, sockets, pongTimers, lastPing, t.ws);
        sockets := CloseSocket(sockets, t.ws);
        Drop(t.node, {t});
      } else {
        NothingFired(agents, sockets, pongTimers, lastPing, t);
        pongTimers := pongTimers - {t};
      }
    }

    /** Shutting down closes every connection and settles every pending command. */
    method Shutdown()
      requires Valid()
      modifies this`agents, this`sockets, this`pending, this`commandTimers, this`log
      ensures Valid() && agents == map[] && pending == map[] && commandTimers == {}
      ensures sockets == ClosedAll(old(sockets), set n | n in old(agents) :: old(agents)[n].ws)
      ensures old(log) <= log && forall i :: |old(log)| <= i < |log| ==> log[i].outcome.ServiceClosed?
      ensures issued == SettledIds(log)
    {
      hide CommandsOk, ConnectionsOk, ClosedAll;
      CloseAgents();
      NoAgents(agents, sockets, pongTimers, lastPing);
      agents := map[];
      ghost var closed := sockets;
      while pending.Keys != {}
        invariant CommandsValid() && agents == map[] && sockets == closed
        invariant old(log) <= log && forall i :: |old(log)| <= i < |log| ==> log[i].outcome.ServiceClosed?
      {
        var id :| id in pending.Keys;
        ResolvePending(id, ServiceClosed);
      }
      NonePending(pending, commandTimers, issued, log);
    }

    /** Closes the connection of every entry. */
    method CloseAgents()
      requires Valid()
      modifies this`sockets
      ensures Valid() && sockets == ClosedAll(old(sockets), set n | n in agents :: agents[n].ws)
    {
      hide CommandsOk, ConnectionsOk;
      var toClose := agents.Keys;
      while toClose != {}
        invariant Valid() && toClose <= agents.Keys
        invariant sockets == ClosedAll(old(sockets), set n | n in agents && n !in toClose :: agents[n].ws)
      {
        var n :| n in toClose;
        toClose := toClose - {n};
        Closing(agents, sockets, pongTimers, lastPing, agents[n].ws);
        sockets := CloseSocket(sockets, agents[n].ws);
      }
    }
  }

  function ClosedAll(sockets: map<nat, Socket>, which: set<nat>): map<nat, Socket>
  {
    map s | s in sockets :: if s in which then sockets[s].(open := false) else sockets[s]
  }

  lemma NoAgents(agents: map<nat, Agent>, sockets: map<nat, Socket>, timers: set<PongTimer>, lastPing: int)
    requires ConnectionsOk(agents, sockets, timers, lastPing)
    ensures ConnectionsOk(map[], sockets, timers, lastPing)
  {
    forall t | t in timers ensures TimerOk(map[], t, lastPing) { assert TimerOk(agents, t, lastPing); }
  }

  lemma NonePending(pending: map<nat, nat>, timers: set<nat>, issued: set<nat>, log: seq<Settlement>)
    requires CommandsOk(pending, timers, issued, log) && pending.Keys == {}
    ensures pending == map[] && timers == {} && issued == SettledIds(log)
  {
  }

  lemma PendingIssued(pending: map<nat, nat>, timers: set<nat>, issued: set<nat>, log: seq<Settlement>)
    requires CommandsOk(pending, timers, issued, log)
    ensures pending.Keys <= issued
  {
  }

  lemma OldIsOther(agents: map<nat, Agent>, sockets: map<nat, Socket>, timers: set<PongTimer>, lastPing: int,
                   ws: nat, node: nat)
    requires ConnectionsOk(agents, sockets, timers, lastPing) && ws in sockets && sockets[ws].node == None
    ensures node in agents ==> agents[node].ws != ws && agents[node].ws in sockets
  {
    if node in agents { assert EntryOk(agents[node], sockets, node); }
  }

  lemma NothingFired(agents: map<nat, Agent>, sockets: map<nat, Socket>, timers: set<PongTimer>, lastPing: int,
                     t: PongTimer)
    requires ConnectionsOk(agents, sockets, timers, lastPing)
    ensures ConnectionsOk(agents, sockets, timers - {t}, lastPing)
  {
  }
}
