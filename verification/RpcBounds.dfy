/** How long a run can be: the effort asked for bounds it, but for peeks that find another's call id. */
module RpcBounds {
  import opened Bytes
  import opened RpcMachine
  import opened RpcInvariant
  import opened RpcSteps
  import opened RpcProgress

  // ---------------------------------------------------------------- how long a run can be

  /** What is before the clients if no peek misses. */
  function Efforts(clients: seq<Client>): (r: seq<nat>)
    ensures |r| == |clients|
  {
    seq(|clients|, c requires 0 <= c < |clients| => JobsWeight(clients[c].jobs) + PcWeight(clients[c], true))
  }

  function Effort<H>(s: System<H>): nat {
    Sum(Efforts(s.clients)) + 5 * |s.call| + ServerWeight(s.server) + 2 * |s.ret|
  }

  /** What an executed request adds: a reply to be written and read, if it has one. */
  function Cost<H>(svc: Service<H>, f: seq<byte>, size: nat): nat {
    if svc.answers(f) then 14 + 3 * size else 1
  }

  function ReplyEffort<H>(svc: Service<H>, log: seq<Executed>): nat {
    if log == [] then 0
    else
      var e := log[|log| - 1];
      ReplyEffort(svc, log[..|log| - 1]) + Cost(svc, e.frame, |e.payload|)
  }

  /** The move is a peek at a call id that is another's. */
  predicate Misses<H>(cfg: Config<H>, s: System<H>, m: Move) {
    m.ClientMoves? && m.client < |s.clients| == |cfg.ids| && s.clients[m.client].pc.CPeek?
    && |s.ret| >= U32_SIZE && s.ret[..U32_SIZE] != EncodeU32(cfg.ids[m.client])
  }

  function MissCount<H>(cfg: Config<H>, states: seq<System<H>>, moves: seq<Move>): nat
    requires |states| >= |moves|
  {
    if moves == [] then 0
    else
      var i := |moves| - 1;
      MissCount(cfg, states, moves[..i]) + if Misses(cfg, states[i], moves[i]) then 1 else 0
  }

  lemma OneClientCosts(clients: seq<Client>, c: nat, k: Client)
    requires c < |clients|
    ensures Sum(Efforts(clients[c := k])) + JobsWeight(clients[c].jobs) + PcWeight(clients[c], true)
         == Sum(Efforts(clients)) + JobsWeight(k.jobs) + PcWeight(k, true)
  {
    assert Efforts(clients[c := k]) == Efforts(clients)[c := JobsWeight(k.jobs) + PcWeight(k, true)];
    SumUpdate(Efforts(clients), c, JobsWeight(k.jobs) + PcWeight(k, true));
  }

  lemma StartCosts<H>(cfg: Config<H>, s: System<H>, c: nat)
    requires c < |s.clients| == |cfg.ids| && ClientCan(cfg, s, c) && s.clients[c].pc.CIdle?
    ensures Effort(ClientStep(cfg, s, c)) < Effort(s)
  {
    hide Sum, Efforts;
    OneClientCosts(s.clients, c, ClientStep(cfg, s, c).clients[c]);
  }

  lemma ClientCosts<H>(cfg: Config<H>, s: System<H>, c: nat)
    requires c < |s.clients| == |cfg.ids| && ClientCan(cfg, s, c)
    ensures Effort(ClientStep(cfg, s, c)) < Effort(s) + if Misses(cfg, s, ClientMoves(c)) then 4 else 0
  {
    hide Sum, Efforts, JobsWeight, EncodeU32, ServerWeight;
    if s.clients[c].pc.CIdle? {
      StartCosts(cfg, s, c);
    } else {
      OneClientCosts(s.clients, c, ClientStep(cfg, s, c).clients[c]);
    }
  }

  lemma ServerCosts<H>(cfg: Config<H>, s: System<H>)
    requires ServerCan(cfg, s)
    ensures var t := ServerStep(cfg, s);
            Effort(t) + ReplyEffort(cfg.service, s.log) < Effort(s) + ReplyEffort(cfg.service, t.log)
  {
    hide Sum, Efforts;
    var t := ServerStep(cfg, s);
    if t.log != s.log { assert t.log[..|t.log| - 1] == s.log; }
  }

  /** Every step but a missed peek lowers the effort, the replies executed aside. */
  lemma NextCosts<H>(cfg: Config<H>, s: System<H>, m: Move, t: System<H>)
    requires Next(cfg, s, m, t)
    ensures Effort(t) + ReplyEffort(cfg.service, s.log)
          < Effort(s) + ReplyEffort(cfg.service, t.log) + if Misses(cfg, s, m) then 4 else 0
  {
    hide Effort, ReplyEffort, ServerStep;
    match m
    case ClientMoves(c) => ClientCosts(cfg, s, c);
    case ServerMoves => ServerCosts(cfg, s);
  }

  lemma {:induction false} BoundedUpTo<H>(cfg: Config<H>, states: seq<System<H>>, moves: seq<Move>, k: nat)
    requires Run(cfg, states, moves) && k <= |moves|
    ensures k + Effort(states[k]) + ReplyEffort(cfg.service, states[0].log)
         <= Effort(states[0]) + ReplyEffort(cfg.service, states[k].log) + 4 * MissCount(cfg, states, moves[..k])
  {
    hide Next, Effort, ReplyEffort, Misses;
    if k > 0 {
      BoundedUpTo(cfg, states, moves, k - 1);
      assert moves[..k][..k - 1] == moves[..k - 1];
      NextCosts(cfg, states[k - 1], moves[k - 1], states[k]);
    }
  }

  /** Whatever the threads, the server and the service do, a run from the start has at most as many steps
      as the requests asked for and the replies executed so far cost, and four for every missed peek. */
  lemma RunsCost<H>(cfg: Config<H>, states: seq<System<H>>, moves: seq<Move>)
    requires Run(cfg, states, moves) && Init(states[0])
    ensures |moves| <= Effort(states[0]) + ReplyEffort(cfg.service, states[|moves|].log)
                       + 4 * MissCount(cfg, states, moves)
  {
    hide Next, Effort, Misses;
    BoundedUpTo(cfg, states, moves, |moves|);
    assert moves[..|moves|] == moves;
  }

  // ---------------------------------------------------------------- a bound by what is asked

  /** No reply is longer than `size` says for its request. */
  ghost predicate RepliesWithin<H(!new)>(svc: Service<H>, size: seq<byte> -> nat) {
    forall h: H, f: seq<byte> :: ExactRequest(svc, f) && svc.answers(f) ==> |svc.exec(h, f).1| <= size(f)
  }

  /** The most that requests cost when they are executed. */
  function JobsCost<H>(svc: Service<H>, size: seq<byte> -> nat, jobs: seq<seq<byte>>): nat {
    if jobs == [] then 0 else Cost(svc, jobs[0], size(jobs[0])) + JobsCost(svc, size, jobs[1..])
  }

  function PendingCost<H>(svc: Service<H>, size: seq<byte> -> nat, es: seq<Pending>): nat {
    if es == [] then 0 else Cost(svc, es[0].frame, size(es[0].frame)) + PendingCost(svc, size, es[1..])
  }

  function UnstartedCost<H>(svc: Service<H>, size: seq<byte> -> nat, k: Client): nat {
    JobsCost(svc, size, k.jobs) + if k.pc.CWantCall? then Cost(svc, k.job, size(k.job)) else 0
  }

  function UnstartedCosts<H>(svc: Service<H>, size: seq<byte> -> nat, clients: seq<Client>): (r: seq<nat>)
    ensures |r| == |clients|
  {
    seq(|clients|, c requires 0 <= c < |clients| => UnstartedCost(svc, size, clients[c]))
  }

  /** What the requests not executed will cost. */
  function Owed<H>(cfg: Config<H>, size: seq<byte> -> nat, s: System<H>): nat {
    PendingCost(cfg.service, size, s.pending) + Sum(UnstartedCosts(cfg.service, size, s.clients))
  }

  lemma {:induction false} PendingCostAppend<H>(svc: Service<H>, size: seq<byte> -> nat, es: seq<Pending>, e: Pending)
    ensures PendingCost(svc, size, es + [e]) == PendingCost(svc, size, es) + Cost(svc, e.frame, size(e.frame))
  {
    hide Cost;
    if es != [] {
      PendingCostAppend(svc, size, es[1..], e);
      assert (es + [e])[1..] == es[1..] + [e];
    }
  }

  lemma ClientOwes<H>(cfg: Config<H>, size: seq<byte> -> nat, s: System<H>, c: nat)
    requires c < |s.clients| == |cfg.ids| && ClientCan(cfg, s, c)
    ensures Owed(cfg, size, ClientStep(cfg, s, c)) == Owed(cfg, size, s)
  {
    hide Sum, PendingCost, UnstartedCosts, Cost, EncodeU32;
    var k := ClientStep(cfg, s, c).clients[c];
    UnstartedCostsUpdate(cfg.service, size, s.clients, c, k);
    PendingCostAppend(cfg.service, size, s.pending, Pending(c, s.clients[c].job));
  }

  lemma UnstartedCostsUpdate<H>(svc: Service<H>, size: seq<byte> -> nat, clients: seq<Client>, c: nat, k: Client)
    requires c < |clients|
    ensures Sum(UnstartedCosts(svc, size, clients[c := k])) + UnstartedCost(svc, size, clients[c])
         == Sum(UnstartedCosts(svc, size, clients)) + UnstartedCost(svc, size, k)
  {
    hide UnstartedCost;
    assert UnstartedCosts(svc, size, clients[c := k])
        == UnstartedCosts(svc, size, clients)[c := UnstartedCost(svc, size, k)];
    SumUpdate(UnstartedCosts(svc, size, clients), c, UnstartedCost(svc, size, k));
  }

  lemma ServerOwes<H(!new)>(cfg: Config<H>, size: seq<byte> -> nat, s: System<H>)
    requires GoodConfig(cfg) && Control(cfg, s) && CallFlow(s.callLock, s.clients, s.call, s.server, s.pending)
    requires ServerCan(cfg, s) && RepliesWithin(cfg.service, size)
    ensures var t := ServerStep(cfg, s);
            ReplyEffort(cfg.service, t.log) + Owed(cfg, size, t) <= ReplyEffort(cfg.service, s.log) + Owed(cfg, size, s)
  {
    hide Sum, UnstartedCosts, GoodService, Control, CallFlow;
    var t := ServerStep(cfg, s);
    if t.log != s.log {
      ExecutesOldest(cfg, s);
      assert t.log[..|t.log| - 1] == s.log;
      assert ExactRequest(cfg.service, s.server.buf);
    }
  }

  /** What executing adds has been owed: a step never adds more. */
  lemma NextOwes<H(!new)>(cfg: Config<H>, size: seq<byte> -> nat, asked: seq<seq<seq<byte>>>, h: H,
                          s: System<H>, m: Move, t: System<H>)
    requires Inv(cfg, asked, h, s) && Next(cfg, s, m, t) && RepliesWithin(cfg.service, size)
    ensures ReplyEffort(cfg.service, t.log) + Owed(cfg, size, t) <= ReplyEffort(cfg.service, s.log) + Owed(cfg, size, s)
  {
    hide ReplyEffort, Owed, RepliesWithin, GoodConfig, Control, CallFlow, RetFlow, History, ServerStep;
    match m
    case ClientMoves(c) => ClientOwes(cfg, size, s, c);
    case ServerMoves => ServerOwes(cfg, size, s);
  }

  lemma {:induction false} OwedUpTo<H(!new)>(cfg: Config<H>, size: seq<byte> -> nat, states: seq<System<H>>,
                                             moves: seq<Move>, k: nat)
    requires GoodConfig(cfg) && Run(cfg, states, moves) && k < |states| && RepliesWithin(cfg.service, size)
    requires Init(states[0]) && GoodJobs(cfg, states[0].clients)
    ensures ReplyEffort(cfg.service, states[k].log) + Owed(cfg, size, states[k]) <= Owed(cfg, size, states[0])
  {
    hide Inv, Next, GoodConfig, GoodJobs, Owed, RepliesWithin;
    if k > 0 {
      OwedUpTo(cfg, size, states, moves, k - 1);
      RunKeeps(cfg, states, moves, k - 1);
      NextOwes(cfg, size, Asked(states[0].clients), states[0].heap, states[k - 1], moves[k - 1], states[k]);
    }
  }

  /** No run goes on without end but by missed peeks: whatever the scheduling, it has at most as many
      steps as the requests asked for are worth, their replies included, and four for every peek that
      finds another's call id. */
  lemma RunsAreBounded<H(!new)>(cfg: Config<H>, size: seq<byte> -> nat, states: seq<System<H>>, moves: seq<Move>)
    requires GoodConfig(cfg) && Run(cfg, states, moves) && RepliesWithin(cfg.service, size)
    requires Init(states[0]) && GoodJobs(cfg, states[0].clients)
    ensures |moves| <= Effort(states[0]) + Owed(cfg, size, states[0]) + 4 * MissCount(cfg, states, moves)
  {
    hide Next, Init, GoodConfig, GoodJobs, Effort, Owed, ReplyEffort, MissCount, RepliesWithin;
    RunsCost(cfg, states, moves);
    OwedUpTo(cfg, size, states, moves, |moves|);
  }

  // ---------------------------------------------------------------- one client

  lemma LoneClientMatches<H(!new)>(cfg: Config<H>, asked: seq<seq<seq<byte>>>, h: H, s: System<H>, m: Move)
    requires Inv(cfg, asked, h, s) && |cfg.ids| == 1
    ensures !Misses(cfg, s, m)
  {
    hide GoodConfig, CallFlow, History, CountsOk;
    if |s.clients| == 1 && s.clients[0].pc.CPeek? && |s.ret| >= U32_SIZE {
      HeadIsCallId(cfg, s, 0);
    }
  }

  /** A client on a transport of its own never misses a peek, so its calls come to an end under any
      scheduling. */
  lemma {:induction false} LoneClientNeverMisses<H(!new)>(cfg: Config<H>, states: seq<System<H>>, moves: seq<Move>,
                                                          k: nat)
    requires GoodConfig(cfg) && Run(cfg, states, moves) && k <= |moves| && |cfg.ids| == 1
    requires Init(states[0]) && GoodJobs(cfg, states[0].clients)
    ensures MissCount(cfg, states, moves[..k]) == 0
  {
    hide Inv, Next, Init, GoodConfig, GoodJobs, Misses;
    if k > 0 {
      LoneClientNeverMisses(cfg, states, moves, k - 1);
      assert moves[..k][..k - 1] == moves[..k - 1];
      RunKeeps(cfg, states, moves, k - 1);
      LoneClientMatches(cfg, Asked(states[0].clients), states[0].heap, states[k - 1], moves[k - 1]);
    }
  }
}
