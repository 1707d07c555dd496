/** Who gets which reply, over every interleaving. */
module RpcSafety {
  import opened Bytes
  import opened RpcMachine
  import opened RpcInvariant
  import opened RpcSteps

  /** The bytes of a run of replies, each a call id and a payload. */
  ghost predicate AtReplyBoundary<H>(cfg: Config<H>, s: System<H>) {
    s.ret + Unwritten(s.server) == FlatDue(cfg.ids, s.due)
  }

  /** Unless a client holds the return lock past its take, the return stream continues with a whole
      reply, and a client that takes a call id takes its own. */
  lemma BoundaryUnlessReading<H(!new)>(cfg: Config<H>, states: seq<System<H>>, moves: seq<Move>, k: nat)
    requires GoodConfig(cfg) && Run(cfg, states, moves) && k < |states|
    requires Init(states[0]) && GoodJobs(cfg, states[0].clients)
    ensures |states[k].clients| == |cfg.ids|
    ensures (forall c :: 0 <= c < |states[k].clients| ==> !states[k].clients[c].pc.CRead?)
            ==> AtReplyBoundary(cfg, states[k])
    ensures forall c :: 0 <= c < |states[k].clients| && states[k].clients[c].pc.CMatched? ==>
              |states[k].ret| >= U32_SIZE && states[k].ret[..U32_SIZE] == EncodeU32(cfg.ids[c])
  {
    RunKeeps(cfg, states, moves, k);
    var s := states[k];
    if forall c :: 0 <= c < |s.clients| ==> !s.clients[c].pc.CRead? {
      assert Consumed(cfg.ids, s.retLock, s.clients) == [];
    }
    forall c | 0 <= c < |s.clients| && s.clients[c].pc.CMatched?
      ensures |s.ret| >= U32_SIZE && s.ret[..U32_SIZE] == EncodeU32(cfg.ids[c])
    {
      assert s.retLock == By(c);
      HeadIsCallId(cfg, s, c);
    }
  }

  /** What client `c` reads past its take is the payload of its own request, still outstanding; it
      stops exactly at the payload's end. */
  lemma ReadsItsOwnReply<H(!new)>(cfg: Config<H>, states: seq<System<H>>, moves: seq<Move>, k: nat, c: nat)
    requires GoodConfig(cfg) && Run(cfg, states, moves) && k < |states|
    requires Init(states[0]) && GoodJobs(cfg, states[0].clients)
    requires c < |states[k].clients| && states[k].clients[c].pc.CRead?
    ensures var s := states[k];
            && s.due != [] && s.due[0].client == c && s.due[0].frame == s.clients[c].job
            && s.clients[c].got <= s.due[0].payload
            && (!cfg.service.wants(s.clients[c].job, s.clients[c].got) <==> s.clients[c].got == s.due[0].payload)
  {
    RunKeeps(cfg, states, moves, k);
    var s := states[k];
    assert s.retLock == By(c);
    assert DueOk(cfg, s.clients[s.due[0].client], s.due[0]);
    ReplyEnds(cfg.service, s.clients[c].job, s.due[0].payload, s.clients[c].got);
  }

  lemma {:induction false} DueIsCounted<H>(cfg: Config<H>, clients: seq<Client>, pending: seq<Pending>,
                                           due: seq<Executed>, c: nat)
    requires |clients| == |cfg.ids| && EntriesOk(cfg, clients, pending, due)
    ensures |PayloadsOf(cfg.service, due, c)| == CountDue(due, c)
    decreases |due|
  {
    if due != [] {
      assert DueOk(cfg, clients[due[0].client], due[0]);
      DueIsCounted(cfg, clients, pending, due[1..], c);
    }
  }

  /** Whatever the interleaving, the server has run one sequential execution in which each client's
      requests come in the order it made them, and each client's results are the payloads of its own
      requests, each once and in that order; only the reply to a call still outstanding can be missing. */
  lemma EachClientGetsItsReplies<H(!new)>(cfg: Config<H>, states: seq<System<H>>, moves: seq<Move>, k: nat, c: nat)
    requires GoodConfig(cfg) && Run(cfg, states, moves) && k < |states|
    requires Init(states[0]) && GoodJobs(cfg, states[0].clients)
    requires c < |states[0].clients|
    ensures var s := states[k];
            && |s.clients| == |states[0].clients|
            && Sequential(cfg.service, states[0].heap, s.log)
            && FramesOf(s.log, c) <= states[0].clients[c].jobs
            && s.clients[c].results <= PayloadsOf(cfg.service, s.log, c)
            && |PayloadsOf(cfg.service, s.log, c)| <= |s.clients[c].results| + 1
            && (!Outstanding(cfg.service, s.clients[c]) ==> s.clients[c].results == PayloadsOf(cfg.service, s.log, c))
  {
    RunKeeps(cfg, states, moves, k);
    var s := states[k];
    assert FramesOf(s.log, c) + (PendingOf(s.pending, c) + NotBegun(s.clients[c])) == states[0].clients[c].jobs;
    DueIsCounted(cfg, s.clients, s.pending, s.due, c);
  }

  // ---------------------------------------------------------------- one client: remote equals local

  /** The results of running requests directly, one after the other. */
  function LocalResults<H>(svc: Service<H>, h: H, jobs: seq<seq<byte>>): seq<seq<byte>> {
    if jobs == [] then []
    else
      (if svc.answers(jobs[0]) then [svc.exec(h, jobs[0]).1] else [])
      + LocalResults(svc, svc.exec(h, jobs[0]).0, jobs[1..])
  }

  function LocalState<H>(svc: Service<H>, h: H, jobs: seq<seq<byte>>): H {
    if jobs == [] then h else LocalState(svc, svc.exec(h, jobs[0]).0, jobs[1..])
  }

  lemma {:induction false} LocalStateAppend<H>(svc: Service<H>, h: H, a: seq<seq<byte>>, b: seq<seq<byte>>)
    ensures LocalState(svc, h, a + b) == LocalState(svc, LocalState(svc, h, a), b)
  {
    if a == [] {
      assert a + b == b;
    } else {
      LocalStateAppend(svc, svc.exec(h, a[0]).0, a[1..], b);
      assert (a + b)[1..] == a[1..] + b;
    }
  }

  lemma {:induction false} LocalResultsAppend<H>(svc: Service<H>, h: H, a: seq<seq<byte>>, b: seq<seq<byte>>)
    ensures LocalResults(svc, h, a + b) == LocalResults(svc, h, a) + LocalResults(svc, LocalState(svc, h, a), b)
  {
    if a == [] {
      assert a + b == b;
    } else {
      var next := svc.exec(h, a[0]).0;
      LocalResultsAppend(svc, next, a[1..], b);
      assert (a + b)[1..] == a[1..] + b;
      Assoc(if svc.answers(a[0]) then [svc.exec(h, a[0]).1] else [],
            LocalResults(svc, next, a[1..]), LocalResults(svc, LocalState(svc, h, a), b));
    }
  }

  lemma LocalAppend<H>(svc: Service<H>, h: H, a: seq<seq<byte>>, b: seq<seq<byte>>)
    ensures LocalResults(svc, h, a + b) == LocalResults(svc, h, a) + LocalResults(svc, LocalState(svc, h, a), b)
    ensures LocalState(svc, h, a + b) == LocalState(svc, LocalState(svc, h, a), b)
  {
    LocalStateAppend(svc, h, a, b);
    LocalResultsAppend(svc, h, a, b);
  }

  /** A sequential log of one client is the direct execution of its requests. */
  lemma {:induction false} LogIsLocal<H>(svc: Service<H>, h: H, log: seq<Executed>)
    requires Sequential(svc, h, log) && forall i :: 0 <= i < |log| ==> log[i].client == 0
    ensures PayloadsOf(svc, log, 0) == LocalResults(svc, h, FramesOf(log, 0))
    ensures HeapAfter(svc, h, log) == LocalState(svc, h, FramesOf(log, 0))
    decreases |log|
  {
    if log != [] {
      var n := |log| - 1;
      var before, e := log[..n], log[n];
      assert log == before + [e];
      forall i | 0 <= i < n ensures before[i].payload == svc.exec(HeapAfter(svc, h, before[..i]), before[i].frame).1 {
        assert before[..i] == log[..i];
      }
      LogIsLocal(svc, h, before);
      FramesAppend(before, e, 0);
      PayloadsAppend(svc, before, e, 0);
      LocalAppend(svc, h, FramesOf(before, 0), [e.frame]);
    }
  }

  lemma {:induction false} VoidPending<H>(svc: Service<H>, h: H, pending: seq<Pending>)
    requires CountPending(svc, pending, 0) == 0
    ensures LocalResults(svc, h, PendingOf(pending, 0)) == []
    decreases |pending|
  {
    if pending != [] {
      var rest := PendingOf(pending[1..], 0);
      if pending[0].client == 0 {
        assert PendingOf(pending, 0)[1..] == rest;
        VoidPending(svc, svc.exec(h, pending[0].frame).0, pending[1..]);
      } else {
        assert PendingOf(pending, 0) == rest;
        VoidPending(svc, h, pending[1..]);
      }
    }
  }

  lemma StateIsLocal<H(!new)>(cfg: Config<H>, h: H, jobs: seq<seq<byte>>, s: System<H>)
    requires Inv(cfg, [jobs], h, s)
    ensures |s.clients| == 1 && FramesOf(s.log, 0) <= jobs
    ensures s.heap == LocalState(cfg.service, h, FramesOf(s.log, 0))
    ensures s.clients[0].results <= LocalResults(cfg.service, h, jobs)
    ensures s.clients[0].pc == CIdle && s.clients[0].jobs == [] ==>
              && s.clients[0].results == LocalResults(cfg.service, h, jobs)
              && (s.pending == [] ==> FramesOf(s.log, 0) == jobs)
  {
    hide LocalResults, LocalState, Sequential, HeapAfter, FramesOf, CallFlow, RetFlow, LocksOk;
    var svc, k, done := cfg.service, s.clients[0], FramesOf(s.log, 0);
    var todo := PendingOf(s.pending, 0) + NotBegun(k);
    assert jobs == done + todo;
    LogIsLocal(svc, h, s.log);
    LocalAppend(svc, h, done, todo);
    DueIsCounted(cfg, s.clients, s.pending, s.due, 0);
    assert PayloadsOf(svc, s.log, 0) == k.results + PayloadsOf(svc, s.due, 0);
    if k.pc == CIdle && k.jobs == [] {
      assert CountPending(svc, s.pending, 0) + CountDue(s.due, 0) == 0;
      assert todo == PendingOf(s.pending, 0);
      VoidPending(svc, LocalState(svc, h, done), s.pending);
      if s.pending == [] {
        assert todo == [];
        assert jobs == done;
      }
    }
  }

  /** Remote equals local: one client, no locks needed, any chunking and scheduling. The server runs
      the client's requests in order, and at any time its state is that of direct execution of those it
      has run; the results are a prefix of those of direct execution, and all of them once the client
      has finished, although requests without a reply may still be on their way. */
  lemma RemoteEqualsLocal<H(!new)>(cfg: Config<H>, states: seq<System<H>>, moves: seq<Move>, k: nat)
    requires GoodConfig(cfg) && Run(cfg, states, moves) && k < |states| && |cfg.ids| == 1
    requires Init(states[0]) && GoodJobs(cfg, states[0].clients)
    ensures var s, jobs, h := states[k], states[0].clients[0].jobs, states[0].heap;
            var local := LocalResults(cfg.service, h, jobs);
            && |s.clients| == 1
            && FramesOf(s.log, 0) <= jobs
            && s.heap == LocalState(cfg.service, h, FramesOf(s.log, 0))
            && s.clients[0].results <= local
            && (s.clients[0].pc == CIdle && s.clients[0].jobs == [] ==> s.clients[0].results == local)
            && (s.clients[0].pc == CIdle && s.clients[0].jobs == [] && s.pending == [] ==> FramesOf(s.log, 0) == jobs)
  {
    hide Run, Init, GoodConfig, LocalResults, LocalState, Inv, FramesOf;
    RunKeeps(cfg, states, moves, k);
    assert Asked(states[0].clients) == [states[0].clients[0].jobs];
    StateIsLocal(cfg, states[0].heap, states[0].clients[0].jobs, states[k]);
  }
}
