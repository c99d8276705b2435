/**
 The TAILQ of server/queue.h as the server uses it: an intrusive list whose back links are addresses
 of the `next` cells that point at a node, and the accept/join loop of server/aesdsocket.c over it.
 */
module TailQueues {

  class ClientInfo {
    var tqeNext: ClientInfo?
    var tqePrev: Cell

    constructor ()
    {
      tqeNext, tqePrev := null, HeadCell;
    }
  }

  /** The address of a pointer to a client: `&head->tqh_first`, or `&elm->nodes.tqe_next`. */
  datatype Cell = HeadCell | NextCell(of: ClientInfo)

  /** The node at a place of the list; null at its end. */
  function NodeAt(nodes: seq<ClientInfo>, i: nat): ClientInfo? {
    if i < |nodes| then nodes[i] else null
  }

  /** The cell that points at place i. */
  function CellOf(nodes: seq<ClientInfo>, i: nat): Cell
    requires i <= |nodes|
  {
    if i == 0 then HeadCell else NextCell(nodes[i - 1])
  }

  /** The links of the node at place i. */
  ghost predicate Linked(nodes: seq<ClientInfo>, i: nat)
    requires i < |nodes|
    reads nodes
  {
    nodes[i].tqeNext == NodeAt(nodes, i + 1) && nodes[i].tqePrev == CellOf(nodes, i)
  }

  /** Whether join_completed_clients removes a client, given the peer_fd it reads when it gets there. */
  predicate Done(cancel: bool, peerFd: ClientInfo -> int, c: ClientInfo) {
    cancel || peerFd(c) < 0
  }

  /** The clients that stay, in order. */
  function Keep(cancel: bool, peerFd: ClientInfo -> int, cs: seq<ClientInfo>): seq<ClientInfo> {
    if cs == [] then []
    else Keep(cancel, peerFd, cs[..|cs| - 1]) +
         if Done(cancel, peerFd, cs[|cs| - 1]) then [] else [cs[|cs| - 1]]
  }

  /** Exactly the clients that still run stay, and none when all are cancelled. */
  lemma {:induction false} KeepExactly(cancel: bool, peerFd: ClientInfo -> int, cs: seq<ClientInfo>, c: ClientInfo)
    ensures c in Keep(cancel, peerFd, cs) <==> c in cs && !cancel && peerFd(c) >= 0
  {
    if cs != [] {
      KeepExactly(cancel, peerFd, cs[..|cs| - 1], c);
      assert cs == cs[..|cs| - 1] + [cs[|cs| - 1]];
    }
  }

  /** Place i of sub is place at[i] of all, in increasing order. */
  predicate Places(sub: seq<ClientInfo>, all: seq<ClientInfo>, at: seq<nat>) {
    && |at| == |sub|
    && (forall i :: 0 <= i < |at| ==> at[i] < |all| && sub[i] == all[at[i]])
    && (forall i, j :: 0 <= i < j < |at| ==> at[i] < at[j])
  }

  /** sub lists some of all, in the same order. */
  ghost predicate InOrder(sub: seq<ClientInfo>, all: seq<ClientInfo>) {
    exists at: seq<nat> :: Places(sub, all, at)
  }

  lemma {:induction false} KeepPlaces(cancel: bool, peerFd: ClientInfo -> int, cs: seq<ClientInfo>)
    returns (at: seq<nat>)
    ensures Places(Keep(cancel, peerFd, cs), cs, at)
  {
    at := [];
    if cs != [] {
      at := KeepPlaces(cancel, peerFd, cs[..|cs| - 1]);
      if !Done(cancel, peerFd, cs[|cs| - 1]) { at := at + [|cs| - 1]; }
    }
  }

  lemma KeepIs(cancel: bool, peerFd: ClientInfo -> int, cs: seq<ClientInfo>)
    ensures forall c :: c in Keep(cancel, peerFd, cs) <==> c in cs && !cancel && peerFd(c) >= 0
    ensures InOrder(Keep(cancel, peerFd, cs), cs)
  {
    forall c ensures c in Keep(cancel, peerFd, cs) <==> c in cs && !cancel && peerFd(c) >= 0 {
      KeepExactly(cancel, peerFd, cs, c);
    }
    var at := KeepPlaces(cancel, peerFd, cs);
  }

  /** Keeping goes piece by piece. */
  lemma {:induction false} KeepInOrder(cancel: bool, peerFd: ClientInfo -> int, a: seq<ClientInfo>, b: seq<ClientInfo>)
    ensures Keep(cancel, peerFd, a + b) == Keep(cancel, peerFd, a) + Keep(cancel, peerFd, b)
  {
    if b == [] {
      assert a + b == a;
    } else {
      assert (a + b)[..|a + b| - 1] == a + b[..|b| - 1];
      KeepInOrder(cancel, peerFd, a, b[..|b| - 1]);
    }
  }

  lemma {:induction false} CancelKeepsNone(peerFd: ClientInfo -> int, cs: seq<ClientInfo>)
    ensures Keep(true, peerFd, cs) == []
  {
    if cs != [] { CancelKeepsNone(peerFd, cs[..|cs| - 1]); }
  }

  class TailQueue {
    var tqhFirst: ClientInfo?
    var tqhLast: Cell
    ghost var nodes: seq<ClientInfo>

    ghost predicate Valid()
      reads this, nodes
    {
      && (forall i, j :: 0 <= i < j < |nodes| ==> nodes[i] != nodes[j])
      && tqhFirst == NodeAt(nodes, 0)
      && tqhLast == CellOf(nodes, |nodes|)
      && forall i :: 0 <= i < |nodes| ==> Linked(nodes, i)
    }

    /** TAILQ_INIT */
    constructor ()
      ensures Valid() && nodes == []
    {
      tqhFirst, tqhLast, nodes := null, HeadCell, [];
    }

    /** TAILQ_EMPTY */
    predicate IsEmpty()
      reads this
    {
      tqhFirst == null
    }

    lemma EmptyIffNoNodes()
      requires Valid()
      ensures IsEmpty() <==> nodes == []
    {
    }

    /** `*cell = c` */
    method Store(cell: Cell, c: ClientInfo?)
      modifies this`tqhFirst, if cell.NextCell? then {cell.of} else {}
      ensures cell == HeadCell ==> tqhFirst == c
      ensures cell.NextCell? ==> tqhFirst == old(tqhFirst) && cell.of.tqeNext == c
                                 && cell.of.tqePrev == old(cell.of.tqePrev)
    {
      match cell
      case HeadCell => tqhFirst := c;
      case NextCell(n) => n.tqeNext := c;
    }

    /** TAILQ_INSERT_TAIL */
    method InsertTail(elm: ClientInfo)
      requires Valid() && elm !in nodes
      modifies this, nodes, elm
      ensures Valid() && nodes == old(nodes) + [elm]
    {
      elm.tqeNext := null;
      elm.tqePrev := tqhLast;
      Store(tqhLast, elm);
      tqhLast := NextCell(elm);
      ghost var before := nodes;
      nodes := before + [elm];
      forall i | 0 <= i < |nodes| ensures Linked(nodes, i) {
        if i < |before| {
          assert old(Linked(nodes, i));
          assert i < |before| - 1 ==> before[i] != before[|before| - 1];
        }
      }
    }

    /** TAILQ_REMOVE */
    method Remove(elm: ClientInfo, ghost k: nat)
      requires Valid() && k < |nodes| && nodes[k] == elm
      modifies this, nodes
      ensures Valid() && nodes == Without(old(nodes), k)
    {
      ghost var before := nodes;
      assert Linked(before, k);
      if elm.tqeNext != null {
        elm.tqeNext.tqePrev := elm.tqePrev;
      } else {
        tqhLast := elm.tqePrev;
      }
      Store(elm.tqePrev, elm.tqeNext);
      nodes := Without(before, k);
      forall i | 0 <= i < |nodes| ensures Linked(nodes, i) {
        ghost var j := if i < k then i else i + 1;
        assert nodes[i] == before[j] && old(Linked(nodes, j));
        assert i != k ==> before[j] != NodeAt(before, k + 1);
        assert i != k - 1 ==> CellOf(before, k) != NextCell(before[j]);
      }
    }
  }

  function Without(nodes: seq<ClientInfo>, k: nat): (r: seq<ClientInfo>)
    requires k < |nodes|
    ensures |r| == |nodes| - 1
    ensures forall i :: 0 <= i < |r| ==> r[i] == nodes[if i < k then i else i + 1]
  {
    nodes[..k] + nodes[k + 1..]
  }

  /** What the system answers while a client is started. */
  datatype StartEnv = StartEnv(mallocOk: bool, openOk: bool, createOk: bool)

  /** Lines 125-132: the thread could not be created, and the freed client is inserted. */
  predicate InsertsFreed(env: StartEnv) {
    env.mallocOk && env.openOk && !env.createOk
  }

  /** The clients of a server: the queue, the client_info blocks allocated and not yet freed, and the open streams. */
  class Clients {
    const queue: TailQueue
    ghost var live: set<ClientInfo>
    ghost var files: set<ClientInfo>   // clients whose stream is open

    ghost predicate Valid()
      reads this, queue, queue.nodes
    {
      queue.Valid() && live == files == set c | c in queue.nodes
    }

    constructor ()
      ensures Valid() && queue.nodes == [] && fresh(queue)
    {
      queue := new TailQueue();
      live, files := {}, {};
    }

    /**
     start_client_processing.  When the thread cannot be created the client block is freed and still
     inserted, so the list then holds a freed block: exactly in that case it is not valid afterwards.
     */
    method Start(env: StartEnv)
      requires Valid()
      modifies this, queue, live
      ensures queue.Valid() && fresh(live - old(live))
      ensures !env.mallocOk || !env.openOk ==>
                queue.nodes == old(queue.nodes) && live == old(live) && files == old(files)
      ensures env.mallocOk && env.openOk ==>
                && |queue.nodes| == |old(queue.nodes)| + 1
                && queue.nodes[..|old(queue.nodes)|] == old(queue.nodes)
                && (queue.nodes[|old(queue.nodes)|] in live <==> env.createOk)
      ensures Valid() <==> !InsertsFreed(env)
    {
      if !env.mallocOk {
        return;
      }
      var client := new ClientInfo();
      live := live + {client};
      if !env.openOk {
        live := live - {client};
        return;
      }
      files := files + {client};
      if !env.createOk {
        live := live - {client};
      }
      queue.InsertTail(client);
    }

    /** Lines 161-167: close the stream, unlink, free. */
    method RemoveAndFree(client: ClientInfo, ghost k: nat)
      requires Valid() && k < |queue.nodes| && queue.nodes[k] == client
      modifies this, queue, live
      ensures Valid() && queue.nodes == Without(old(queue.nodes), k) && live == old(live) - {client}
    {
      assert client in files;
      files := files - {client};
      queue.Remove(client, k);
      assert client in live;
      live := live - {client};
      WithoutSet(old(queue.nodes), k);
    }

    /** The clients kept before place i of a traversal of `all`, and those still to be visited. */
    ghost predicate Visited(cancel: bool, peerFd: ClientInfo -> int, all: seq<ClientInfo>, i: nat)
      reads this, queue, queue.nodes
    {
      Valid() && i <= |all| && queue.nodes == Keep(cancel, peerFd, all[..i]) + all[i..]
    }

    lemma NoneVisited(cancel: bool, peerFd: ClientInfo -> int)
      requires Valid()
      ensures Visited(cancel, peerFd, queue.nodes, 0)
    {
      assert queue.nodes[..0] == [] && [] + queue.nodes[0..] == queue.nodes;
    }

    lemma AllVisited(cancel: bool, peerFd: ClientInfo -> int, all: seq<ClientInfo>, i: nat)
      requires Visited(cancel, peerFd, all, i) && NodeAt(all, i) == null
      ensures Valid() && queue.nodes == Keep(cancel, peerFd, all)
    {
      assert all[..i] == all && all[i..] == [];
    }

    /** The body of the traversal, with the saved next pointer. */
    method Visit(client: ClientInfo, cancel: bool, peerFd: ClientInfo -> int, ghost all: seq<ClientInfo>, ghost i: nat)
      returns (next: ClientInfo?)
      requires Visited(cancel, peerFd, all, i) && client == NodeAt(all, i)
      modifies this, queue, live
      ensures Visited(cancel, peerFd, all, i + 1) && next == NodeAt(all, i + 1)
      ensures live <= old(live)
    {
      ghost var k := |Keep(cancel, peerFd, all[..i])|;
      KeepStep(cancel, peerFd, all, i);
      assert queue.nodes[k] == client && client in live && Linked(queue.nodes, k);
      next := client.tqeNext;
      if cancel || peerFd(client) < 0 {
        RemoveAndFree(client, k);
      }
    }

    /**
     join_completed_clients: TAILQ_FOREACH_SAFE with removals.  peerFd is what each client's field
     reads when the traversal gets to it; the client threads set it concurrently.
     */
    method JoinCompleted(cancel: bool, peerFd: ClientInfo -> int)
      requires Valid()
      modifies this, queue, live
      ensures Valid() && live <= old(live)
      ensures forall c :: c in queue.nodes <==> c in old(queue.nodes) && !cancel && peerFd(c) >= 0
      ensures InOrder(queue.nodes, old(queue.nodes))
    {
      ghost var all, i := queue.nodes, 0;
      NoneVisited(cancel, peerFd);
      var client := queue.tqhFirst;
      while client != null
        invariant 0 <= i && Visited(cancel, peerFd, all, i)
        invariant client == NodeAt(all, i)
        invariant live <= old(live)
        decreases |all| - i
      {
        client := Visit(client, cancel, peerFd, all, i);
        i := i + 1;
      }
      AllVisited(cancel, peerFd, all, i);
      KeepIs(cancel, peerFd, all);
    }

    /** The join of line 286. */
    method CancelAll()
      requires Valid()
      modifies this, queue, live
      ensures Valid() && queue.nodes == [] && live == {} && files == {}
    {
      JoinCompleted(true, _ => 0);
      FirstIsMember(queue.nodes);
    }

    /** One round of the accept loop: lines 257-277. */
    method ServeRound(round: Round) returns (ghost added: seq<ClientInfo>)
      requires Valid() && (round.Accepted? ==> !InsertsFreed(round.env))
      modifies this, queue, live
      ensures Valid() && fresh(live - old(live))
      ensures RoundDoes(old(queue.nodes), round, added, queue.nodes)
      ensures forall c :: c in added ==> fresh(c)
    {
      added := [];
      match round {
        case AcceptFailed =>
        case Accepted(env, peerFd) =>
          Start(env);
          added := queue.nodes[|old(queue.nodes)|..];
          assert queue.nodes == old(queue.nodes) + added;
          JoinCompleted(false, peerFd);
      }
    }
  }

  /**
   What a round does to the list: nothing when accept failed; otherwise a client whose block and stream
   could be had joins at the end, and then exactly those with an open socket stay, in order.
   */
  ghost predicate RoundDoes(before: seq<ClientInfo>, round: Round, added: seq<ClientInfo>, after: seq<ClientInfo>) {
    match round
    case AcceptFailed => added == [] && after == before
    case Accepted(env, peerFd) =>
      && |added| == (if env.mallocOk && env.openOk then 1 else 0)
      && (forall c :: c in added ==> c !in before)
      && (forall c :: c in after ==> c in before + added && peerFd(c) >= 0)
      && (forall c :: c in before + added && peerFd(c) >= 0 ==> c in after)
      && InOrder(after, before + added)
  }

  /** A list of what was kept before place i of `all`, and of `all` from there on. */
  lemma AtPlace(kept: seq<ClientInfo>, all: seq<ClientInfo>, i: nat)
    requires i < |all|
    ensures var nodes, k := kept + all[i..], |kept|;
            && nodes[k] == all[i] && NodeAt(nodes, k + 1) == NodeAt(all, i + 1)
            && Without(nodes, k) == kept + all[i + 1..]
            && nodes == kept + [all[i]] + all[i + 1..]
  {
    assert all[i..] == [all[i]] + all[i + 1..];
  }

  /** Visiting place i: what is kept so far, followed by what is still to come. */
  lemma KeepStep(cancel: bool, peerFd: ClientInfo -> int, all: seq<ClientInfo>, i: nat)
    requires i < |all|
    ensures var k := |Keep(cancel, peerFd, all[..i])|;
            var nodes := Keep(cancel, peerFd, all[..i]) + all[i..];
            && nodes[k] == all[i] && NodeAt(nodes, k + 1) == NodeAt(all, i + 1)
            && Keep(cancel, peerFd, all[..i + 1]) + all[i + 1..]
               == if Done(cancel, peerFd, all[i]) then Without(nodes, k) else nodes
  {
    AtPlace(Keep(cancel, peerFd, all[..i]), all, i);
    assert all[..i + 1][..i] == all[..i];
  }

  lemma FirstIsMember(cs: seq<ClientInfo>)
    ensures cs != [] ==> cs[0] in cs
  {
  }

  lemma WithoutSet(nodes: seq<ClientInfo>, k: nat)
    requires k < |nodes| && forall i, j :: 0 <= i < j < |nodes| ==> nodes[i] != nodes[j]
    ensures (set c | c in Without(nodes, k)) == (set c | c in nodes) - {nodes[k]}
  {
    var r := Without(nodes, k);
    forall c | c in nodes && c != nodes[k] ensures c in r {
      var i :| 0 <= i < |nodes| && nodes[i] == c;
      assert r[if i < k then i else i - 1] == c;
    }
  }

  /** One round of the accept loop. */
  datatype Round =
    | AcceptFailed                                     // accept returned -1: continue
    | Accepted(env: StartEnv, peerFd: ClientInfo -> int)

  /** The list after a round, the blocks that are live then, and who joined in the round. */
  datatype AfterRound = AfterRound(nodes: seq<ClientInfo>, live: set<ClientInfo>, added: seq<ClientInfo>)

  function NodesBefore(trace: seq<AfterRound>, i: nat): seq<ClientInfo>
    requires i <= |trace|
  {
    if i == 0 then [] else trace[i - 1].nodes
  }

  /** Every step of the trace is what its round does to the list that the step before left. */
  ghost predicate TraceOk(rounds: seq<Round>, trace: seq<AfterRound>)
    decreases |trace|, 1
  {
    trace == [] || LastRoundOk(rounds, trace)
  }

  ghost predicate LastRoundOk(rounds: seq<Round>, trace: seq<AfterRound>)
    requires trace != []
    decreases |trace|, 0
  {
    var k := |trace| - 1;
    && k < |rounds| && TraceOk(rounds, trace[..k])
    && RoundDoes(NodesBefore(trace, k), rounds[k], trace[k].added, trace[k].nodes)
    && trace[k].live == set c | c in trace[k].nodes
  }

  lemma TraceGrows(rounds: seq<Round>, trace: seq<AfterRound>, step: AfterRound)
    requires TraceOk(rounds, trace) && |trace| < |rounds|
    requires RoundDoes(NodesBefore(trace, |trace|), rounds[|trace|], step.added, step.nodes)
    requires step.live == set c | c in step.nodes
    ensures TraceOk(rounds, trace + [step])
  {
    var longer := trace + [step];
    assert longer[..|trace|] == trace;
    assert NodesBefore(longer, |trace|) == NodesBefore(trace, |trace|);
    assert LastRoundOk(rounds, longer);
  }

  /** A trace describes every one of its rounds. */
  lemma {:induction false} TraceAt(rounds: seq<Round>, trace: seq<AfterRound>, i: nat)
    requires TraceOk(rounds, trace) && i < |trace|
    ensures i < |rounds| && RoundDoes(NodesBefore(trace, i), rounds[i], trace[i].added, trace[i].nodes)
    ensures trace[i].live == set c | c in trace[i].nodes
  {
    var k := |trace| - 1;
    assert LastRoundOk(rounds, trace);
    if i < k {
      TraceAt(rounds, trace[..k], i);
      assert NodesBefore(trace[..k], i) == NodesBefore(trace, i);
    }
  }

  /** The list is what the trace so far says. */
  ghost predicate Traced(clients: Clients, rounds: seq<Round>, trace: seq<AfterRound>)
    reads clients, clients.queue, clients.queue.nodes
  {
    && clients.Valid() && |trace| <= |rounds| && TraceOk(rounds, trace)
    && clients.queue.nodes == NodesBefore(trace, |trace|)
  }

  method NextRound(clients: Clients, rounds: seq<Round>, i: nat, ghost trace: seq<AfterRound>)
    returns (ghost longer: seq<AfterRound>)
    requires i == |trace| < |rounds| && Traced(clients, rounds, trace)
    requires rounds[i].Accepted? ==> !InsertsFreed(rounds[i].env)
    modifies clients, clients.queue, clients.live
    ensures Traced(clients, rounds, longer) && |longer| == i + 1 && fresh(clients.live - old(clients.live))
  {
    ghost var added := clients.ServeRound(rounds[i]);
    ghost var step := AfterRound(clients.queue.nodes, clients.live, added);
    TraceGrows(rounds, trace, step);
    longer := trace + [step];
  }

  /** The accept loop: lines 253-278. */
  method ServeRounds(clients: Clients, rounds: seq<Round>) returns (ghost trace: seq<AfterRound>)
    requires clients.Valid() && clients.queue.nodes == []
    requires forall i :: 0 <= i < |rounds| && rounds[i].Accepted? ==> !InsertsFreed(rounds[i].env)
    modifies clients, clients.queue
    ensures Traced(clients, rounds, trace) && |trace| == |rounds| && fresh(clients.live)
  {
    trace := [];
    var i := 0;
    while i < |rounds|
      invariant i == |trace| <= |rounds| && Traced(clients, rounds, trace) && fresh(clients.live)
    {
      trace := NextRound(clients, rounds, i, trace);
      i := i + 1;
    }
  }

  /**
   The loop of run_server_logic and the final cancelling join.  The trace says what the list was after
   each round; in the end it is empty at the assertion of line 287, every client block has been freed
   and every stream closed.
   */
  method RunServer(rounds: seq<Round>) returns (clients: Clients, ghost trace: seq<AfterRound>)
    requires forall i :: 0 <= i < |rounds| && rounds[i].Accepted? ==> !InsertsFreed(rounds[i].env)
    ensures |trace| == |rounds| && TraceOk(rounds, trace)
    ensures clients.Valid() && clients.queue.IsEmpty() && clients.live == {} && clients.files == {}
  {
    clients := new Clients();
    trace := ServeRounds(clients, rounds);
    clients.CancelAll();
  }
}
