/** The shared call protocol cannot get stuck: from every reachable state all calls asked for can
    still be completed, and nothing can move only when they are. */
module RpcProgress {
  import opened Bytes
  import opened RpcMachine
  import opened RpcInvariant
  import opened RpcSteps

  // ---------------------------------------------------------------- the measure

  function Sum(ws: seq<nat>): nat {
    if ws == [] then 0 else ws[0] + Sum(ws[1..])
  }

  lemma {:induction false} SumUpdate(ws: seq<nat>, c: nat, w: nat)
    requires c < |ws|
    ensures Sum(ws[c := w]) + ws[c] == Sum(ws) + w
  {
    if c == 0 {
      assert ws[c := w][1..] == ws[1..];
    } else {
      SumUpdate(ws[1..], c - 1, w);
      assert ws[c := w][1..] == ws[1..][c - 1 := w];
    }
  }

  function JobsWeight(jobs: seq<seq<byte>>): nat {
    if jobs == [] then 0 else 100 + 6 * |jobs[0]| + JobsWeight(jobs[1..])
  }

  /** What a client has before it. A peek by the owner of the oldest reply is a step ahead; one by
      anybody else is a step back, made good when it lets go of the lock. */
  function PcWeight(k: Client, ownsHead: bool): nat {
    match k.pc
    case CIdle => 0
    case CWantCall => 50 + 6 * |k.job|
    case CSend(sent) => 40 + if sent <= |k.job| then 6 * (|k.job| - sent) else 0
    case CUnlockCall => 30
    case CWantRet => 25
    case CPeek => if ownsHead then 24 else 28
    case CMissed => 27
    case CMatched => 23
    case CRead => 22
    case CUnlockRet => 21
  }

  predicate OwnsHead(due: seq<Executed>, c: nat) {
    due != [] && due[0].client == c
  }

  function Weights(clients: seq<Client>, due: seq<Executed>): (r: seq<nat>)
    ensures |r| == |clients|
  {
    seq(|clients|, c requires 0 <= c < |clients| =>
      JobsWeight(clients[c].jobs) + PcWeight(clients[c], OwnsHead(due, c)))
  }

  function Unstarted(k: Client): nat {
    |k.jobs| + if k.pc.CWantCall? then 1 else 0
  }

  function UnstartedCounts(clients: seq<Client>): (r: seq<nat>)
    ensures |r| == |clients|
  {
    seq(|clients|, c requires 0 <= c < |clients| => Unstarted(clients[c]))
  }

  function ServerWeight(server: Server): nat {
    match server
    case Receiving(buf) => 4 * |buf|
    case Replying(rest) => 3 * |rest| + 1
  }

  /** Requests not executed. */
  function Unexecuted<H>(s: System<H>): nat {
    |s.pending| + Sum(UnstartedCounts(s.clients))
  }

  function Work<H>(s: System<H>): nat {
    Sum(Weights(s.clients, s.due)) + 5 * |s.call| + ServerWeight(s.server) + 2 * |s.ret|
  }

  ghost predicate Closer<H>(t: System<H>, s: System<H>) {
    Unexecuted(t) < Unexecuted(s) || (Unexecuted(t) == Unexecuted(s) && Work(t) < Work(s))
  }

  predicate AllReturned(clients: seq<Client>) {
    forall c :: 0 <= c < |clients| ==> clients[c].pc == CIdle && clients[c].jobs == []
  }

  /** Everything asked for has been done and the transport is empty. */
  predicate Quiet<H>(s: System<H>) {
    && AllReturned(s.clients)
    && s.server == Receiving([]) && s.call == [] && s.ret == [] && s.pending == [] && s.due == []
  }

  /** The last request has been received and its handler still waits for a byte to be there. */
  predicate Lingers<H>(cfg: Config<H>, s: System<H>) {
    |s.pending| == 1 && s.server == Receiving(s.pending[0].frame) && cfg.service.lingers(s.pending[0].frame)
  }

  /** Every call has returned and the transport is empty; a last request may linger. */
  predicate AtRest<H>(cfg: Config<H>, s: System<H>) {
    && AllReturned(s.clients)
    && s.call == [] && s.ret == [] && s.due == []
    && ((s.pending == [] && s.server == Receiving([])) || Lingers(cfg, s))
  }

  // ---------------------------------------------------------------- steps that get closer

  /** A client's step that leaves the heads of the queues alone changes its own weight only. */
  lemma OneClientMoves(clients: seq<Client>, due: seq<Executed>, c: nat, k: Client)
    requires c < |clients|
    ensures Sum(Weights(clients[c := k], due)) + JobsWeight(clients[c].jobs) + PcWeight(clients[c], OwnsHead(due, c))
         == Sum(Weights(clients, due)) + JobsWeight(k.jobs) + PcWeight(k, OwnsHead(due, c))
    ensures Sum(UnstartedCounts(clients[c := k])) + Unstarted(clients[c])
         == Sum(UnstartedCounts(clients)) + Unstarted(k)
  {
    var w := JobsWeight(k.jobs) + PcWeight(k, OwnsHead(due, c));
    assert Weights(clients[c := k], due) == Weights(clients, due)[c := w];
    SumUpdate(Weights(clients, due), c, w);
    assert UnstartedCounts(clients[c := k]) == UnstartedCounts(clients)[c := Unstarted(k)];
    SumUpdate(UnstartedCounts(clients), c, Unstarted(k));
  }

  /** Client steps that always help: those of clients that wait for nobody, and a peek or an
      acquisition of the return lock under the stated conditions. */
  predicate Helpful<H>(cfg: Config<H>, s: System<H>, c: nat)
    requires c < |s.clients|
  {
    var k := s.clients[c];
    match k.pc
    case CWantRet => OwnsHead(s.due, c)
    case CPeek => c < |cfg.ids| && |s.ret| >= 4 && (s.ret[..4] != EncodeU32(cfg.ids[c]) ==> !OwnsHead(s.due, c))
    case CRead => cfg.service.wants(k.job, k.got)
    case CSend(sent) => sent <= |k.job|
    case _ => true
  }

  lemma StartGetsCloser<H>(cfg: Config<H>, s: System<H>, c: nat)
    requires c < |s.clients| == |cfg.ids| && ClientCan(cfg, s, c) && s.clients[c].pc.CIdle?
    ensures Closer(ClientStep(cfg, s, c), s)
  {
    hide Sum, Weights, UnstartedCounts;
    var t := ClientStep(cfg, s, c);
    OneClientMoves(s.clients, s.due, c, t.clients[c]);
  }

  lemma UnderWayGetsCloser<H>(cfg: Config<H>, s: System<H>, c: nat)
    requires c < |s.clients| == |cfg.ids| && ClientCan(cfg, s, c) && Helpful(cfg, s, c) && !s.clients[c].pc.CIdle?
    ensures Closer(ClientStep(cfg, s, c), s)
  {
    hide Sum, Weights, UnstartedCounts, JobsWeight;
    var t := ClientStep(cfg, s, c);
    OneClientMoves(s.clients, s.due, c, t.clients[c]);
  }

  lemma HelpfulGetsCloser<H>(cfg: Config<H>, s: System<H>, c: nat)
    requires c < |s.clients| == |cfg.ids| && ClientCan(cfg, s, c) && Helpful(cfg, s, c)
    ensures Closer(ClientStep(cfg, s, c), s)
  {
    hide Closer, ClientStep, ClientCan, Helpful;
    if s.clients[c].pc.CIdle? {
      StartGetsCloser(cfg, s, c);
    } else {
      UnderWayGetsCloser(cfg, s, c);
    }
  }

  /** The reader of a reply finishes: nobody else is at a peek, so no other weight depends on whose
      reply is the oldest. */
  lemma FinishGetsCloser<H>(cfg: Config<H>, s: System<H>, c: nat)
    requires LocksOk(s.callLock, s.retLock, s.clients)
    requires c < |s.clients| == |cfg.ids| && s.clients[c].pc.CRead? && ClientCan(cfg, s, c)
    requires !cfg.service.wants(s.clients[c].job, s.clients[c].got)
    ensures Closer(ClientStep(cfg, s, c), s)
  {
    hide Sum, JobsWeight;
    var t := ClientStep(cfg, s, c);
    OneClientMoves(s.clients, s.due, c, t.clients[c]);
    assert s.retLock == By(c);
    assert Weights(t.clients, t.due) == Weights(t.clients, s.due);
  }

  lemma ServerGetsCloser<H(!new)>(cfg: Config<H>, s: System<H>)
    requires GoodConfig(cfg) && Control(cfg, s) && CallFlow(s.callLock, s.clients, s.call, s.server, s.pending)
    requires ServerCan(cfg, s)
    ensures Closer(ServerStep(cfg, s), s)
  {
    if s.server.Receiving? && !cfg.service.more(s.server.buf) {
      ExecutesOldest(cfg, s);
    }
  }

  // ---------------------------------------------------------------- somebody can get closer

  ghost predicate GoodMove<H>(cfg: Config<H>, s: System<H>, m: Move) {
    |s.clients| == |cfg.ids| &&
    match m
    case ClientMoves(c) => c < |s.clients| && ClientCan(cfg, s, c) && Closer(ClientStep(cfg, s, c), s)
    case ServerMoves => ServerCan(cfg, s) && Closer(ServerStep(cfg, s), s)
  }

  /** The client waits for nothing. */
  predicate Walks(k: Client) {
    match k.pc
    case CIdle => k.jobs != []
    case CSend(sent) => sent == |k.job|
    case CUnlockCall => true
    case CMatched => true
    case CMissed => true
    case CUnlockRet => true
    case _ => false
  }

  lemma WalkerMoves<H(!new)>(cfg: Config<H>, asked: seq<seq<seq<byte>>>, h: H, s: System<H>, c: nat)
    requires Inv(cfg, asked, h, s) && c < |s.clients| && Walks(s.clients[c])
    ensures GoodMove(cfg, s, ClientMoves(c))
  {
    hide Closer, History;
    HelpfulGetsCloser(cfg, s, c);
  }

  /** A blocked server waits for space in a full return channel, or on an empty call channel, for the
      rest of a request or for what follows one. */
  lemma BlockedServer<H(!new)>(cfg: Config<H>, asked: seq<seq<seq<byte>>>, h: H, s: System<H>)
    requires Inv(cfg, asked, h, s) && !ServerCan(cfg, s)
    ensures s.server.Replying? ==> s.server.rest != [] && |s.ret| >= U32_SIZE && s.due != []
    ensures s.server.Receiving?
        ==> s.call == [] && (cfg.service.more(s.server.buf) || cfg.service.lingers(s.server.buf))
  {
    hide History, CountsOk, EntriesOk, CallFlow, GoodService;
  }

  /** When the server waits for the rest of a request, whoever owes it has space to write. */
  lemma SenderMoves<H(!new)>(cfg: Config<H>, asked: seq<seq<seq<byte>>>, h: H, s: System<H>) returns (c: nat)
    requires Inv(cfg, asked, h, s) && s.server.Receiving? && cfg.service.more(s.server.buf)
    requires s.call == [] && s.pending != []
    ensures GoodMove(cfg, s, ClientMoves(c))
  {
    hide Closer, History, CountsOk;
    var e, buf := s.pending[0], s.server.buf;
    assert PendingOk(cfg, s.clients[e.client], cfg.ids[e.client], e);
    RequestEnds(cfg.service, e.frame, buf);
    var unsent := Unsent(s.callLock, s.clients);
    assert |buf + ([] + unsent)| == |e.frame + FlatPending(s.pending[1..])|;
    assert unsent != [];
    c := s.callLock.client;
    assert s.clients[c].pc.CSend?;
    HelpfulGetsCloser(cfg, s, c);
  }

  lemma OnlyOnePending<H>(cfg: Config<H>, s: System<H>)
    requires Control(cfg, s) && |s.pending| > 1
    ensures FlatPending(s.pending[1..]) != []
  {
    hide LocksOk, CountsOk, FlatPending;
    var e := s.pending[1];
    assert PendingOk(cfg, s.clients[e.client], cfg.ids[e.client], e);
    assert FlatPending(s.pending[1..]) == e.frame + FlatPending(s.pending[1..][1..]) by {
      FlatPendingSplit(s.pending[1..]);
    }
  }

  lemma FlatPendingSplit(es: seq<Pending>)
    requires es != []
    ensures FlatPending(es) == es[0].frame + FlatPending(es[1..])
  {
  }

  /** When a handler lingers at the last request begun and no reply is due, any client that has not
      returned from all its calls can start or go on. */
  lemma FollowerMoves<H(!new)>(cfg: Config<H>, asked: seq<seq<seq<byte>>>, h: H, s: System<H>) returns (c: nat)
    requires Inv(cfg, asked, h, s) && s.server.Receiving? && !cfg.service.more(s.server.buf)
    requires cfg.service.lingers(s.server.buf) && s.call == [] && s.due == [] && !AtRest(cfg, s)
    ensures GoodMove(cfg, s, ClientMoves(c))
  {
    hide Closer, History, GoodService;
    ExecutesOldest(cfg, s);
    if Unsent(s.callLock, s.clients) != [] {
      c := s.callLock.client;
      HelpfulGetsCloser(cfg, s, c);
    } else {
      if |s.pending| > 1 { OnlyOnePending(cfg, s); }
      assert s.ret == [] by { assert |Consumed(cfg.ids, s.retLock, s.clients) + (s.ret + Unwritten(s.server))| == 0; }
      assert !AllReturned(s.clients);
      c :| 0 <= c < |s.clients| && !(s.clients[c].pc == CIdle && s.clients[c].jobs == []);
      NothingOutstanding(cfg, s, c);
      c := UnlockedMoves(cfg, asked, h, s, c);
    }
  }

  /** With one request under way, without a reply, and no reply due, nobody waits for one. */
  lemma NothingOutstanding<H>(cfg: Config<H>, s: System<H>, c: nat)
    requires Control(cfg, s) && s.due == [] && |s.pending| == 1 && cfg.service.lingers(s.pending[0].frame)
    requires c < |s.clients|
    ensures !Awaiting(s.clients[c].pc)
  {
    hide LocksOk;
    var e := s.pending[0];
    assert PendingOk(cfg, s.clients[e.client], cfg.ids[e.client], e);
    assert CountPending(cfg.service, s.pending, c) + CountDue(s.due, c) == 0;
    assert JobOk(cfg.service, cfg.ids[c], s.clients[c]);
  }

  /** A client that waits for no reply, or whoever keeps it from the call lock, moves. */
  lemma UnlockedMoves<H(!new)>(cfg: Config<H>, asked: seq<seq<seq<byte>>>, h: H, s: System<H>, c: nat) returns (d: nat)
    requires Inv(cfg, asked, h, s) && c < |s.clients| && !Awaiting(s.clients[c].pc)
    requires Unsent(s.callLock, s.clients) == [] && !(s.clients[c].pc == CIdle && s.clients[c].jobs == [])
    ensures GoodMove(cfg, s, ClientMoves(d))
  {
    hide Closer, History, Flows, CountsOk, EntriesOk;
    d := if s.clients[c].pc.CWantCall? && s.callLock.By? then s.callLock.client else c;
    assert JobOk(cfg.service, cfg.ids[d], s.clients[d]);
    HelpfulGetsCloser(cfg, s, d);
  }

  /** A client with a reply owed is not in the middle of writing a request. */
  lemma OwnerIsNotSending<H(!new)>(cfg: Config<H>, asked: seq<seq<seq<byte>>>, h: H, s: System<H>)
    requires Inv(cfg, asked, h, s) && s.due != []
    ensures var o := s.due[0].client;
            && o < |s.clients| && Outstanding(cfg.service, s.clients[o])
            && (s.clients[o].pc.CSend? ==> s.clients[o].pc.sent == |s.clients[o].job|)
  {
    hide History, GoodConfig, ExactRequest, ExactReply, RetFlow;
    var o := s.due[0].client;
    CountDueAt(s.due, 0);
    var k := s.clients[o];
    assert JobOk(cfg.service, cfg.ids[o], k);
    if k.pc.CSend? && k.pc.sent < |k.job| {
      assert s.callLock == By(o);
      assert Unsent(s.callLock, s.clients) != [];
      CountPendingAt(cfg.service, s.pending, |s.pending| - 1);
    }
  }

  /** With requests under way and no reply due, a blocked server waits for some client that can go on. */
  lemma CallerMoves<H(!new)>(cfg: Config<H>, asked: seq<seq<seq<byte>>>, h: H, s: System<H>) returns (c: nat)
    requires Inv(cfg, asked, h, s) && !ServerCan(cfg, s) && s.due == [] && s.pending != [] && !AtRest(cfg, s)
    ensures GoodMove(cfg, s, ClientMoves(c))
  {
    hide Closer, Inv, AtRest, GoodMove;
    BlockedServer(cfg, asked, h, s);
    if cfg.service.more(s.server.buf) {
      c := SenderMoves(cfg, asked, h, s);
    } else {
      c := FollowerMoves(cfg, asked, h, s);
    }
  }

  /** The holder of the return lock can go on, or the server's next request can. */
  lemma HolderMoves<H(!new)>(cfg: Config<H>, asked: seq<seq<seq<byte>>>, h: H, s: System<H>) returns (c: nat)
    requires Inv(cfg, asked, h, s) && !ServerCan(cfg, s) && s.retLock.By? && !AtRest(cfg, s)
    ensures GoodMove(cfg, s, ClientMoves(c))
  {
    BlockedServer(cfg, asked, h, s);
    c := s.retLock.client;
    var k := s.clients[c];
    assert InRet(k.pc);
    if Walks(k) {
      WalkerMoves(cfg, asked, h, s, c);
    } else if k.pc.CRead? {
      ReaderMoves(cfg, asked, h, s, c);
    } else {
      c := PeekerMoves(cfg, asked, h, s, c);
    }
  }

  lemma ReaderMoves<H(!new)>(cfg: Config<H>, asked: seq<seq<seq<byte>>>, h: H, s: System<H>, c: nat)
    requires Inv(cfg, asked, h, s) && !ServerCan(cfg, s) && s.retLock == By(c) && c < |s.clients|
    requires s.clients[c].pc.CRead?
    ensures GoodMove(cfg, s, ClientMoves(c))
  {
    BlockedServer(cfg, asked, h, s);
    var k := s.clients[c];
    RestOfReply(cfg, s, c);
    assert DueOk(cfg, s.clients[s.due[0].client], s.due[0]);
    ReplyEnds(cfg.service, k.job, s.due[0].payload, k.got);
    if cfg.service.wants(k.job, k.got) {
      assert |s.ret + Unwritten(s.server)| > 0;
      HelpfulGetsCloser(cfg, s, c);
    } else {
      FinishGetsCloser(cfg, s, c);
    }
  }

  lemma PeekerMoves<H(!new)>(cfg: Config<H>, asked: seq<seq<seq<byte>>>, h: H, s: System<H>, p: nat) returns (c: nat)
    requires Inv(cfg, asked, h, s) && !ServerCan(cfg, s) && s.retLock == By(p) && p < |s.clients|
    requires s.clients[p].pc.CPeek?
    requires !AtRest(cfg, s)
    ensures GoodMove(cfg, s, ClientMoves(c))
  {
    hide Closer, History;
    BlockedServer(cfg, asked, h, s);
    if |s.ret| >= U32_SIZE {
      HeadIsCallId(cfg, s, p);
      HelpfulGetsCloser(cfg, s, p);
      c := p;
    } else {
      assert Consumed(cfg.ids, s.retLock, s.clients) == [];
      assert s.due == [];
      assert JobOk(cfg.service, cfg.ids[p], s.clients[p]);
      assert CountPending(cfg.service, s.pending, p) == 1;
      c := CallerMoves(cfg, asked, h, s);
    }
  }

  lemma OwnerMoves<H(!new)>(cfg: Config<H>, asked: seq<seq<seq<byte>>>, h: H, s: System<H>) returns (c: nat)
    requires Inv(cfg, asked, h, s) && s.retLock == Free && s.due != []
    ensures GoodMove(cfg, s, ClientMoves(c))
  {
    OwnerIsNotSending(cfg, asked, h, s);
    c := s.due[0].client;
    assert !InRet(s.clients[c].pc);
    HelpfulGetsCloser(cfg, s, c);
  }

  /** With nothing under way, a client that has not finished can start or go on. */
  lemma StarterMoves<H(!new)>(cfg: Config<H>, asked: seq<seq<seq<byte>>>, h: H, s: System<H>) returns (c: nat)
    requires Inv(cfg, asked, h, s) && !ServerCan(cfg, s) && s.retLock == Free
    requires s.due == [] && s.pending == [] && !AtRest(cfg, s)
    requires forall c :: 0 <= c < |s.clients| ==> !Walks(s.clients[c])
    ensures GoodMove(cfg, s, ClientMoves(c))
  {
    hide Closer, History;
    BlockedServer(cfg, asked, h, s);
    assert s.ret == [] by {
      assert |Consumed(cfg.ids, s.retLock, s.clients) + (s.ret + Unwritten(s.server))| == 0;
    }
    assert Buffered(s.server) == [] && Unsent(s.callLock, s.clients) == [];
    c :| 0 <= c < |s.clients| && !(s.clients[c].pc == CIdle && s.clients[c].jobs == []);
    var k := s.clients[c];
    assert JobOk(cfg.service, cfg.ids[c], k);
    assert !Outstanding(cfg.service, k);
    assert !InRet(k.pc) && !Awaiting(k.pc);
    HelpfulGetsCloser(cfg, s, c);
  }

  /** In every reachable state that is not at rest some step gets closer to it: the owner of the oldest
      reply is never blocked behind a full call channel, and everybody else waits for it in vain
      only until it has been served. */
  lemma SomeoneGetsCloser<H(!new)>(cfg: Config<H>, asked: seq<seq<seq<byte>>>, h: H, s: System<H>) returns (m: Move)
    requires Inv(cfg, asked, h, s) && !AtRest(cfg, s)
    ensures GoodMove(cfg, s, m)
  {
    hide Closer, History;
    var c: nat;
    if ServerCan(cfg, s) {
      ServerGetsCloser(cfg, s);
      return ServerMoves;
    } else if d: nat :| d < |s.clients| && Walks(s.clients[d]) {
      c := d;
      WalkerMoves(cfg, asked, h, s, c);
    } else if s.retLock.By? {
      c := HolderMoves(cfg, asked, h, s);
    } else if s.due != [] {
      c := OwnerMoves(cfg, asked, h, s);
    } else if s.pending != [] {
      c := CallerMoves(cfg, asked, h, s);
    } else {
      c := StarterMoves(cfg, asked, h, s);
    }
    return ClientMoves(c);
  }

  function StepOf<H>(cfg: Config<H>, s: System<H>, m: Move): System<H>
    requires |s.clients| == |cfg.ids|
    requires match m
             case ClientMoves(c) => c < |s.clients| && ClientCan(cfg, s, c)
             case ServerMoves => ServerCan(cfg, s)
  {
    match m
    case ClientMoves(c) => ClientStep(cfg, s, c)
    case ServerMoves => ServerStep(cfg, s)
  }

  lemma NextCloser<H(!new)>(cfg: Config<H>, asked: seq<seq<seq<byte>>>, h: H, s: System<H>)
    returns (m: Move, t: System<H>)
    requires Inv(cfg, asked, h, s) && !AtRest(cfg, s)
    ensures Next(cfg, s, m, t) && Inv(cfg, asked, h, t) && Closer(t, s)
  {
    m := SomeoneGetsCloser(cfg, asked, h, s);
    t := StepOf(cfg, s, m);
    NextKeeps(cfg, asked, h, s, m, t);
  }

  /** Nothing can move exactly when everything has been done, but for a last request that lingers: the
      protocol has no deadlock. */
  lemma StuckExactlyAtRest<H(!new)>(cfg: Config<H>, asked: seq<seq<seq<byte>>>, h: H, s: System<H>)
    requires Inv(cfg, asked, h, s)
    ensures (forall m: Move, t: System<H> :: !Next(cfg, s, m, t)) <==> AtRest(cfg, s)
  {
    if !AtRest(cfg, s) {
      var m := SomeoneGetsCloser(cfg, asked, h, s);
      assert Next(cfg, s, m, StepOf(cfg, s, m));
    }
  }

  /** From every reachable state there is a continuation that completes every call, so neither a
      deadlock nor a state from which the clients could only pass the lock around is ever reached. */
  lemma {:induction false} CanAlwaysFinish<H(!new)>(cfg: Config<H>, asked: seq<seq<seq<byte>>>, h: H, s: System<H>)
    returns (states: seq<System<H>>, moves: seq<Move>)
    requires Inv(cfg, asked, h, s)
    ensures Run(cfg, states, moves) && states[0] == s
    ensures var t := states[|moves|]; Inv(cfg, asked, h, t) && AtRest(cfg, t)
    decreases Unexecuted(s), Work(s)
  {
    hide Inv, AtRest, Next;
    if AtRest(cfg, s) {
      states, moves := [s], [];
    } else {
      var m, t := NextCloser(cfg, asked, h, s);
      var rest, more := CanAlwaysFinish(cfg, asked, h, t);
      states, moves := [s] + rest, [m] + more;
      PrependStep(cfg, s, m, rest, more);
    }
  }

  lemma PrependStep<H>(cfg: Config<H>, s: System<H>, m: Move, rest: seq<System<H>>, more: seq<Move>)
    requires Run(cfg, rest, more) && Next(cfg, s, m, rest[0])
    ensures Run(cfg, [s] + rest, [m] + more)
  {
    hide Next;
    forall i | 0 <= i < |more| + 1 ensures Next(cfg, ([s] + rest)[i], ([m] + more)[i], ([s] + rest)[i + 1]) {
      if i > 0 { assert Next(cfg, rest[i - 1], more[i - 1], rest[i]); }
    }
  }

  /** No client asks for a last request that lingers. */
  predicate NoneLingersLast<H>(svc: Service<H>, asked: seq<seq<seq<byte>>>) {
    forall c :: 0 <= c < |asked| && asked[c] != [] ==> !svc.lingers(asked[c][|asked[c]| - 1])
  }

  /** At rest a request lingers only if a client asked for it last. */
  lemma RestIsQuiet<H(!new)>(cfg: Config<H>, asked: seq<seq<seq<byte>>>, h: H, s: System<H>)
    requires Inv(cfg, asked, h, s) && AtRest(cfg, s)
    ensures NoneLingersLast(cfg.service, asked) ==> Quiet(s)
    ensures !Quiet(s) ==> Lingers(cfg, s)
  {
    hide GoodConfig, Flows, LocksOk, JobsOk, CountsOk, Sequential, HeapAfter;
    if Lingers(cfg, s) {
      var c := s.pending[0].client;
      assert PendingOf(s.pending, c) + NotBegun(s.clients[c]) == [s.pending[0].frame];
      assert FramesOf(s.log, c) + [s.pending[0].frame] == asked[c];
      assert asked[c][|asked[c]| - 1] == s.pending[0].frame;
    }
  }

  /** Once quiet, every request has been executed, in each client's order, and every client has the
      payloads of all its own requests. */
  lemma QuietMeansServed<H(!new)>(cfg: Config<H>, asked: seq<seq<seq<byte>>>, h: H, s: System<H>, c: nat)
    requires Inv(cfg, asked, h, s) && Quiet(s) && c < |s.clients|
    ensures FramesOf(s.log, c) == asked[c]
    ensures s.clients[c].results == PayloadsOf(cfg.service, s.log, c)
  {
    assert PendingOf(s.pending, c) + NotBegun(s.clients[c]) == [];
  }

  /** In every run, a state from which nothing can move is one in which every call has returned and the
      transport is empty, but for a request that lingers; one that is followed by another does not. */
  lemma NeverDeadlocks<H(!new)>(cfg: Config<H>, states: seq<System<H>>, moves: seq<Move>, k: nat)
    requires GoodConfig(cfg) && Run(cfg, states, moves) && k < |states|
    requires Init(states[0]) && GoodJobs(cfg, states[0].clients)
    ensures (forall m: Move, t: System<H> :: !Next(cfg, states[k], m, t)) <==> AtRest(cfg, states[k])
    ensures NoneLingersLast(cfg.service, Asked(states[0].clients)) ==> (AtRest(cfg, states[k]) <==> Quiet(states[k]))
  {
    hide Run, Next, Init, GoodJobs, GoodConfig, Inv, NoneLingersLast;
    RunKeeps(cfg, states, moves, k);
    StuckExactlyAtRest(cfg, Asked(states[0].clients), states[0].heap, states[k]);
    if AtRest(cfg, states[k]) { RestIsQuiet(cfg, Asked(states[0].clients), states[0].heap, states[k]); }
  }
}
