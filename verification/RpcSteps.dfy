/** Every step of the call machine keeps its invariant. */
module RpcSteps {
  import opened Bytes
  import opened RpcMachine
  import opened RpcInvariant

  // ---------------------------------------------------------------- who is where

  /** A step that leaves the entries alone, and neither begins nor ends a call. */
  lemma SameEntries<H>(cfg: Config<H>, clients: seq<Client>, pending: seq<Pending>, due: seq<Executed>, c: nat,
                       k: Client)
    requires |clients| == |cfg.ids| && c < |clients|
    requires EntriesOk(cfg, clients, pending, due) && CountsOk(cfg.service, clients, pending, due)
    requires Outstanding(cfg.service, k) == Outstanding(cfg.service, clients[c])
    requires Outstanding(cfg.service, k) ==> k.job == clients[c].job
    ensures EntriesOk(cfg, clients[c := k], pending, due)
    ensures CountsOk(cfg.service, clients[c := k], pending, due)
  {
    forall i | 0 <= i < |pending|
      ensures PendingOk(cfg, clients[c := k][pending[i].client], cfg.ids[pending[i].client], pending[i])
    {
      if cfg.service.answers(pending[i].frame) {
        CountPendingAt(cfg.service, pending, i);
      }
    }
    forall i | 0 <= i < |due|
      ensures DueOk(cfg, clients[c := k][due[i].client], due[i])
    {
      CountDueAt(due, i);
    }
  }

  /** The client steps that neither begin nor end a call. */
  predicate Plain<H>(cfg: Config<H>, k: Client) {
    !k.pc.CWantCall? && (k.pc.CRead? ==> cfg.service.wants(k.job, k.got))
  }

  /** One client moves between the critical sections. */
  lemma MoveLocks(callLock: Holder, retLock: Holder, clients: seq<Client>, c: nat, k: Client, callLock': Holder,
                  retLock': Holder)
    requires LocksOk(callLock, retLock, clients) && c < |clients|
    requires InCall(k.pc) ==> callLock == Free || callLock == By(c)
    requires InRet(k.pc) ==> retLock == Free || retLock == By(c)
    requires callLock' == if InCall(k.pc) then By(c) else if callLock == By(c) then Free else callLock
    requires retLock' == if InRet(k.pc) then By(c) else if retLock == By(c) then Free else retLock
    ensures LocksOk(callLock', retLock', clients[c := k])
  {
  }

  /** The lock a client acquires is free: it is waited for, or this is the only client. */
  lemma AcquiresFree<H>(cfg: Config<H>, s: System<H>, c: nat)
    requires LocksOk(s.callLock, s.retLock, s.clients) && |s.clients| == |cfg.ids|
    requires c < |s.clients| && ClientCan(cfg, s, c) && (cfg.locked || |cfg.ids| == 1)
    ensures s.clients[c].pc.CWantCall? ==> s.callLock == Free
    ensures s.clients[c].pc.CWantRet? ==> s.retLock == Free
  {
  }

  lemma ClientLocks<H>(cfg: Config<H>, s: System<H>, c: nat)
    requires Control(cfg, s) && c < |s.clients| && (cfg.locked || |cfg.ids| == 1)
    requires ClientCan(cfg, s, c)
    ensures var t := ClientStep(cfg, s, c); LocksOk(t.callLock, t.retLock, t.clients)
  {
    var t := ClientStep(cfg, s, c);
    AcquiresFree(cfg, s, c);
    assert JobOk(cfg.service, cfg.ids[c], s.clients[c]);
    assert InCall(s.clients[c].pc) <==> s.callLock == By(c);
    assert InRet(s.clients[c].pc) <==> s.retLock == By(c);
    MoveLocks(s.callLock, s.retLock, s.clients, c, t.clients[c], t.callLock, t.retLock);
  }

  lemma PlainControl<H>(cfg: Config<H>, s: System<H>, c: nat)
    requires Control(cfg, s) && c < |s.clients| && (cfg.locked || |cfg.ids| == 1)
    requires ClientCan(cfg, s, c) && Plain(cfg, s.clients[c])
    ensures Control(cfg, ClientStep(cfg, s, c))
  {
    var t := ClientStep(cfg, s, c);
    ClientLocks(cfg, s, c);
    SameEntries(cfg, s.clients, s.pending, s.due, c, t.clients[c]);
    assert t.clients == s.clients[c := t.clients[c]];
    assert JobOk(cfg.service, cfg.ids[c], s.clients[c]);
    assert JobOk(cfg.service, cfg.ids[c], t.clients[c]);
    PlainJobs(cfg, s, c);
  }

  lemma PlainJobs<H>(cfg: Config<H>, s: System<H>, c: nat)
    requires JobsOk(cfg, s.clients) && c < |s.clients|
    requires ClientCan(cfg, s, c)
    ensures JobsOk(cfg, ClientStep(cfg, s, c).clients)
  {
    var t := ClientStep(cfg, s, c);
    assert JobOk(cfg.service, cfg.ids[c], s.clients[c]);
    assert JobOk(cfg.service, cfg.ids[c], t.clients[c]);
  }

  lemma BeginControl<H>(cfg: Config<H>, s: System<H>, c: nat)
    requires Control(cfg, s) && c < |s.clients| && (cfg.locked || |cfg.ids| == 1)
    requires ClientCan(cfg, s, c) && s.clients[c].pc.CWantCall?
    ensures Control(cfg, ClientStep(cfg, s, c))
  {
    var t := ClientStep(cfg, s, c);
    ClientLocks(cfg, s, c);
    PlainJobs(cfg, s, c);
    forall d | 0 <= d < |s.clients|
      ensures CountPending(cfg.service, t.pending, d) + CountDue(t.due, d)
           == if Outstanding(cfg.service, t.clients[d]) then 1 else 0
    {
      CountPendingAppend(cfg.service, s.pending, Pending(c, s.clients[c].job), d);
    }
    assert t.clients[c].job == s.clients[c].job;
  }

  lemma EndControl<H>(cfg: Config<H>, s: System<H>, c: nat)
    requires Control(cfg, s) && c < |s.clients| && (cfg.locked || |cfg.ids| == 1)
    requires s.clients[c].pc.CRead? && ClientCan(cfg, s, c) && !cfg.service.wants(s.clients[c].job, s.clients[c].got)
    requires s.due != [] && s.due[0].client == c
    ensures Control(cfg, ClientStep(cfg, s, c))
  {
    var t := ClientStep(cfg, s, c);
    ClientLocks(cfg, s, c);
    PlainJobs(cfg, s, c);
    assert t.clients[c].job == s.clients[c].job;
  }

  // ---------------------------------------------------------------- the streams

  /** Whoever is not in the middle of a request moves, possibly out of the call section. */
  lemma QuietCallFlow(callLock: Holder, clients: seq<Client>, call: seq<byte>, server: Server, pending: seq<Pending>,
                      c: nat, k: Client, callLock': Holder)
    requires CallFlow(callLock, clients, call, server, pending) && c < |clients|
    requires clients[c].pc.CSend? ==> clients[c].pc.sent == |clients[c].job|
    requires !k.pc.CSend?
    requires callLock' == callLock || (callLock == By(c) && callLock' == Free)
    ensures CallFlow(callLock', clients[c := k], call, server, pending)
  {
    assert Unsent(callLock', clients[c := k]) == Unsent(callLock, clients);
  }

  lemma BeginCallFlow<H>(cfg: Config<H>, s: System<H>, c: nat)
    requires CallFlow(s.callLock, s.clients, s.call, s.server, s.pending)
    requires c < |s.clients| == |cfg.ids| && s.clients[c].pc.CWantCall? && s.callLock == Free
    ensures var t := ClientStep(cfg, s, c);
            CallFlow(t.callLock, t.clients, t.call, t.server, t.pending)
  {
    var t := ClientStep(cfg, s, c);
    FlatPendingAppend(s.pending, Pending(c, s.clients[c].job));
    assert Unsent(t.callLock, t.clients) == s.clients[c].job;
    assert Unsent(s.callLock, s.clients) == [];
  }

  lemma SentByte(call: seq<byte>, job: seq<byte>, sent: nat)
    requires sent < |job|
    ensures (call + [job[sent]]) + job[sent + 1..] == call + job[sent..]
  {
  }

  lemma SendCallFlow<H>(cfg: Config<H>, s: System<H>, c: nat)
    requires CallFlow(s.callLock, s.clients, s.call, s.server, s.pending)
    requires c < |s.clients| == |cfg.ids| && s.callLock == By(c) && ClientCan(cfg, s, c)
    requires s.clients[c].pc.CSend? && s.clients[c].pc.sent < |s.clients[c].job|
    ensures var t := ClientStep(cfg, s, c);
            CallFlow(t.callLock, t.clients, t.call, t.server, t.pending)
  {
    hide FlatPending;
    var t, k := ClientStep(cfg, s, c), s.clients[c];
    var sent := k.pc.sent;
    SentByte(s.call, k.job, sent);
    assert Unsent(s.callLock, s.clients) == k.job[sent..];
    assert Unsent(t.callLock, t.clients) == k.job[sent + 1..];
  }

  lemma ClientCallFlow<H>(cfg: Config<H>, s: System<H>, c: nat)
    requires Control(cfg, s) && CallFlow(s.callLock, s.clients, s.call, s.server, s.pending)
    requires c < |s.clients| && ClientCan(cfg, s, c) && (cfg.locked || |cfg.ids| == 1)
    ensures var t := ClientStep(cfg, s, c);
            CallFlow(t.callLock, t.clients, t.call, t.server, t.pending)
  {
    var t, k := ClientStep(cfg, s, c), s.clients[c];
    AcquiresFree(cfg, s, c);
    assert InCall(k.pc) <==> s.callLock == By(c);
    assert JobOk(cfg.service, cfg.ids[c], k);
    if k.pc.CWantCall? {
      BeginCallFlow(cfg, s, c);
    } else if k.pc.CSend? && k.pc.sent < |k.job| {
      SendCallFlow(cfg, s, c);
    } else {
      QuietCallFlow(s.callLock, s.clients, s.call, s.server, s.pending, c, t.clients[c], t.callLock);
    }
  }

  /** Whoever is not consuming a reply moves. */
  lemma QuietRetFlow(ids: seq<u32>, retLock: Holder, clients: seq<Client>, ret: seq<byte>, server: Server,
                     due: seq<Executed>, c: nat, k: Client, retLock': Holder)
    requires RetFlow(ids, retLock, clients, ret, server, due) && c < |clients|
    requires !clients[c].pc.CRead? && !clients[c].pc.CMatched? && !k.pc.CRead? && !k.pc.CMatched?
    requires || retLock' == retLock
             || (retLock == By(c) && retLock' == Free) || (retLock == Free && retLock' == By(c))
    ensures RetFlow(ids, retLock', clients[c := k], ret, server, due)
  {
    assert Consumed(ids, retLock', clients[c := k]) == Consumed(ids, retLock, clients);
  }

  /** With no reply half consumed, the first four bytes there are the call id of the oldest reply. */
  lemma HeadIsCallId<H>(cfg: Config<H>, s: System<H>, c: nat)
    requires RetFlow(cfg.ids, s.retLock, s.clients, s.ret, s.server, s.due)
    requires c < |s.clients| == |cfg.ids| && EntriesOk(cfg, s.clients, s.pending, s.due)
    requires s.retLock == By(c) && !s.clients[c].pc.CRead? && |s.ret| >= U32_SIZE
    ensures s.due != [] && s.due[0].client < |cfg.ids|
    ensures s.ret[..U32_SIZE] == EncodeU32(cfg.ids[s.due[0].client])
  {
    assert Consumed(cfg.ids, s.retLock, s.clients) == [];
    assert s.ret + Unwritten(s.server) == FlatDue(cfg.ids, s.due);
    if s.due == [] {
      assert false;
    }
    var first := ReplyBytes(cfg.ids, s.due[0]);
    assert s.ret[..U32_SIZE] == (s.ret + Unwritten(s.server))[..U32_SIZE];
    assert first[..U32_SIZE] == (first + FlatDue(cfg.ids, s.due[1..]))[..U32_SIZE];
  }

  /** A matching call id means the oldest reply is this client's own: ids are pairwise distinct. */
  lemma PeekRetFlow<H(!new)>(cfg: Config<H>, s: System<H>, c: nat)
    requires RetFlow(cfg.ids, s.retLock, s.clients, s.ret, s.server, s.due) && GoodConfig(cfg)
    requires c < |s.clients| == |cfg.ids| && EntriesOk(cfg, s.clients, s.pending, s.due)
    requires s.retLock == By(c) && s.clients[c].pc.CPeek? && ClientCan(cfg, s, c)
    ensures var t := ClientStep(cfg, s, c);
            RetFlow(cfg.ids, t.retLock, t.clients, t.ret, t.server, t.due)
  {
    var t := ClientStep(cfg, s, c);
    HeadIsCallId(cfg, s, c);
    if t.clients[c].pc.CMatched? {
      U32Injective(cfg.ids[c], cfg.ids[s.due[0].client]);
    }
    assert Consumed(cfg.ids, t.retLock, t.clients) == Consumed(cfg.ids, s.retLock, s.clients);
  }

  lemma TakeRetFlow<H>(cfg: Config<H>, s: System<H>, c: nat)
    requires RetFlow(cfg.ids, s.retLock, s.clients, s.ret, s.server, s.due)
    requires c < |s.clients| == |cfg.ids| && EntriesOk(cfg, s.clients, s.pending, s.due)
    requires s.retLock == By(c) && s.clients[c].pc.CMatched? && ClientCan(cfg, s, c)
    ensures var t := ClientStep(cfg, s, c);
            RetFlow(cfg.ids, t.retLock, t.clients, t.ret, t.server, t.due)
  {
    var t := ClientStep(cfg, s, c);
    HeadIsCallId(cfg, s, c);
    assert s.ret == s.ret[..U32_SIZE] + s.ret[U32_SIZE..];
    assert Consumed(cfg.ids, t.retLock, t.clients) == EncodeU32(cfg.ids[c]) + [];
    assert Consumed(cfg.ids, t.retLock, t.clients) + (t.ret + Unwritten(t.server))
        == s.ret + Unwritten(s.server);
  }

  lemma SamePrefix(p: seq<byte>, a: seq<byte>, b: seq<byte>)
    requires p + a == p + b
    ensures a == b
  {
    assert a == (p + a)[|p|..] && b == (p + b)[|p|..];
  }

  lemma RestOfPayload(id: seq<byte>, got: seq<byte>, payload: seq<byte>, after: seq<byte>)
    requires got <= payload
    ensures (id + payload) + after == (id + got) + (payload[|got|..] + after)
  {
    assert payload == got + payload[|got|..];
  }

  /** While a reply is consumed, what is left of it comes next. */
  lemma RestOfReply<H>(cfg: Config<H>, s: System<H>, c: nat)
    requires RetFlow(cfg.ids, s.retLock, s.clients, s.ret, s.server, s.due)
    requires c < |s.clients| == |cfg.ids| && s.retLock == By(c) && s.clients[c].pc.CRead?
    ensures s.due != [] && s.due[0].client == c && s.clients[c].got <= s.due[0].payload
    ensures s.ret + Unwritten(s.server) == s.due[0].payload[|s.clients[c].got|..] + FlatDue(cfg.ids, s.due[1..])
  {
    hide EncodeU32, Unwritten;
    var got, payload, id := s.clients[c].got, s.due[0].payload, EncodeU32(cfg.ids[c]);
    RestOfPayload(id, got, payload, FlatDue(cfg.ids, s.due[1..]));
    SamePrefix(id + got, s.ret + Unwritten(s.server), payload[|got|..] + FlatDue(cfg.ids, s.due[1..]));
  }

  lemma ReadRetFlow<H>(cfg: Config<H>, s: System<H>, c: nat)
    requires RetFlow(cfg.ids, s.retLock, s.clients, s.ret, s.server, s.due)
    requires c < |s.clients| == |cfg.ids| && s.retLock == By(c) && s.clients[c].pc.CRead? && ClientCan(cfg, s, c)
    requires cfg.service.wants(s.clients[c].job, s.clients[c].got)
    requires |s.clients[c].got| < |s.due[0].payload|
    ensures var t := ClientStep(cfg, s, c);
            RetFlow(cfg.ids, t.retLock, t.clients, t.ret, t.server, t.due)
  {
    hide FlatDue, EncodeU32;
    var t := ClientStep(cfg, s, c);
    RestOfReply(cfg, s, c);
    assert (s.ret + Unwritten(s.server))[0] == s.ret[0];
    assert s.ret == [s.ret[0]] + t.ret;
    assert Consumed(cfg.ids, t.retLock, t.clients) == Consumed(cfg.ids, s.retLock, s.clients) + [s.ret[0]];
    assert Consumed(cfg.ids, t.retLock, t.clients) + (t.ret + Unwritten(t.server))
        == Consumed(cfg.ids, s.retLock, s.clients) + (s.ret + Unwritten(s.server));
  }

  lemma EndRetFlow<H>(cfg: Config<H>, s: System<H>, c: nat)
    requires RetFlow(cfg.ids, s.retLock, s.clients, s.ret, s.server, s.due)
    requires LocksOk(s.callLock, s.retLock, s.clients)
    requires c < |s.clients| == |cfg.ids| && s.retLock == By(c) && s.clients[c].pc.CRead? && ClientCan(cfg, s, c)
    requires !cfg.service.wants(s.clients[c].job, s.clients[c].got)
    requires s.clients[c].got == s.due[0].payload
    ensures var t := ClientStep(cfg, s, c);
            RetFlow(cfg.ids, t.retLock, t.clients, t.ret, t.server, t.due)
  {
    var t := ClientStep(cfg, s, c);
    RestOfReply(cfg, s, c);
    assert Consumed(cfg.ids, t.retLock, t.clients) == [];
  }

  /** The reader of a reply has it whole exactly when its stub wants no more. */
  lemma ReplyEnds<H>(svc: Service<H>, f: seq<byte>, p: seq<byte>, got: seq<byte>)
    requires ExactReply(svc, f, p) && got <= p
    ensures svc.wants(f, got) <==> |got| < |p|
    ensures !svc.wants(f, got) ==> got == p
  {
    assert got == p[..|got|];
    if |got| == |p| { assert got == p; }
  }

  lemma ClientRetFlow<H(!new)>(cfg: Config<H>, s: System<H>, c: nat)
    requires Control(cfg, s) && RetFlow(cfg.ids, s.retLock, s.clients, s.ret, s.server, s.due) && GoodConfig(cfg)
    requires c < |s.clients| && ClientCan(cfg, s, c)
    ensures var t := ClientStep(cfg, s, c);
            RetFlow(cfg.ids, t.retLock, t.clients, t.ret, t.server, t.due)
    ensures s.clients[c].pc.CRead? ==> s.due != [] && s.due[0].client == c
    ensures s.clients[c].pc.CRead? && !cfg.service.wants(s.clients[c].job, s.clients[c].got)
            ==> s.clients[c].got == s.due[0].payload
  {
    var t, k := ClientStep(cfg, s, c), s.clients[c];
    AcquiresFree(cfg, s, c);
    assert InRet(k.pc) <==> s.retLock == By(c);
    match k.pc
    case CPeek => PeekRetFlow(cfg, s, c);
    case CMatched => TakeRetFlow(cfg, s, c);
    case CRead =>
      RestOfReply(cfg, s, c);
      ReplyEnds(cfg.service, k.job, s.due[0].payload, k.got);
      if cfg.service.wants(k.job, k.got) { ReadRetFlow(cfg, s, c); } else { EndRetFlow(cfg, s, c); }
    case _ => QuietRetFlow(cfg.ids, s.retLock, s.clients, s.ret, s.server, s.due, c, t.clients[c], t.retLock);
  }

  // ---------------------------------------------------------------- history

  lemma QuietHistory<H>(svc: Service<H>, asked: seq<seq<seq<byte>>>, clients: seq<Client>, pending: seq<Pending>,
                        due: seq<Executed>, log: seq<Executed>, c: nat, k: Client)
    requires HistoryOk(svc, asked, clients, pending, due, log) && c < |clients|
    requires NotBegun(k) == NotBegun(clients[c]) && k.results == clients[c].results
    ensures HistoryOk(svc, asked, clients[c := k], pending, due, log)
  {
    hide FramesOf, PendingOf, PayloadsOf, NotBegun;
  }

  lemma BeginHistory<H>(svc: Service<H>, asked: seq<seq<seq<byte>>>, clients: seq<Client>, pending: seq<Pending>,
                        due: seq<Executed>, log: seq<Executed>, c: nat, k: Client)
    requires HistoryOk(svc, asked, clients, pending, due, log) && c < |clients|
    requires NotBegun(clients[c]) == [k.job] + NotBegun(k) && k.results == clients[c].results
    ensures HistoryOk(svc, asked, clients[c := k], pending + [Pending(c, k.job)], due, log)
  {
    hide HistoryOf, NotBegun;
    forall d | 0 <= d < |clients|
      ensures HistoryOf(svc, asked[d], clients[c := k][d], pending + [Pending(c, k.job)], due, log, d)
    {
      assert HistoryOf(svc, asked[d], clients[d], pending, due, log, d);
      BeginHistoryOf(svc, asked[d], clients[d], clients[c := k][d], pending, due, log, Pending(c, k.job), d);
    }
  }

  lemma BeginHistoryOf<H>(svc: Service<H>, asked: seq<seq<byte>>, k: Client, k': Client, pending: seq<Pending>,
                          due: seq<Executed>, log: seq<Executed>, e: Pending, d: nat)
    requires HistoryOf(svc, asked, k, pending, due, log, d) && k'.results == k.results
    requires NotBegun(k) == if e.client == d then [e.frame] + NotBegun(k') else NotBegun(k')
    ensures HistoryOf(svc, asked, k', pending + [e], due, log, d)
  {
    hide FramesOf, PendingOf, PayloadsOf, NotBegun;
    PendingOfAppend(pending, e, d);
    Assoc(PendingOf(pending, d), if e.client == d then [e.frame] else [], NotBegun(k'));
    assert [] + NotBegun(k') == NotBegun(k');
  }

  lemma EndHistory<H>(svc: Service<H>, asked: seq<seq<seq<byte>>>, clients: seq<Client>, pending: seq<Pending>,
                      due: seq<Executed>, log: seq<Executed>, c: nat, k: Client)
    requires HistoryOk(svc, asked, clients, pending, due, log) && c < |clients|
    requires due != [] && due[0].client == c && svc.answers(due[0].frame)
    requires NotBegun(k) == NotBegun(clients[c]) && k.results == clients[c].results + [due[0].payload]
    ensures HistoryOk(svc, asked, clients[c := k], pending, due[1..], log)
  {
    hide HistoryOf, NotBegun;
    forall d | 0 <= d < |clients|
      ensures HistoryOf(svc, asked[d], clients[c := k][d], pending, due[1..], log, d)
    {
      assert HistoryOf(svc, asked[d], clients[d], pending, due, log, d);
      EndHistoryOf(svc, asked[d], clients[d], clients[c := k][d], pending, due, log, d);
    }
  }

  lemma EndHistoryOf<H>(svc: Service<H>, asked: seq<seq<byte>>, k: Client, k': Client, pending: seq<Pending>,
                        due: seq<Executed>, log: seq<Executed>, d: nat)
    requires HistoryOf(svc, asked, k, pending, due, log, d) && NotBegun(k') == NotBegun(k)
    requires due != [] && svc.answers(due[0].frame)
    requires k'.results == if due[0].client == d then k.results + [due[0].payload] else k.results
    ensures HistoryOf(svc, asked, k', pending, due[1..], log, d)
  {
    hide FramesOf, PendingOf, NotBegun;
    var rest := PayloadsOf(svc, due[1..], d);
    Assoc(k.results, if due[0].client == d then [due[0].payload] else [], rest);
    assert [] + rest == rest;
  }

  lemma ClientHistory<H>(cfg: Config<H>, asked: seq<seq<seq<byte>>>, s: System<H>, c: nat)
    requires HistoryOk(cfg.service, asked, s.clients, s.pending, s.due, s.log)
    requires c < |s.clients| == |cfg.ids| && ClientCan(cfg, s, c)
    requires EntriesOk(cfg, s.clients, s.pending, s.due)
    requires s.clients[c].pc.CRead? && !cfg.service.wants(s.clients[c].job, s.clients[c].got)
             ==> s.due != [] && s.due[0].client == c && s.clients[c].got == s.due[0].payload
    ensures var t := ClientStep(cfg, s, c);
            HistoryOk(cfg.service, asked, t.clients, t.pending, t.due, t.log)
  {
    var t, k := ClientStep(cfg, s, c), s.clients[c];
    if k.pc.CWantCall? {
      BeginHistory(cfg.service, asked, s.clients, s.pending, s.due, s.log, c, t.clients[c]);
    } else if k.pc.CRead? && !cfg.service.wants(k.job, k.got) {
      assert DueOk(cfg, s.clients[c], s.due[0]);
      EndHistory(cfg.service, asked, s.clients, s.pending, s.due, s.log, c, t.clients[c]);
    } else {
      assert NotBegun(t.clients[c]) == NotBegun(k);
      QuietHistory(cfg.service, asked, s.clients, s.pending, s.due, s.log, c, t.clients[c]);
    }
  }

  lemma ClientKeepsFlows<H(!new)>(cfg: Config<H>, s: System<H>, c: nat)
    requires GoodConfig(cfg) && Control(cfg, s) && Flows(cfg, s) && c < |s.clients| && ClientCan(cfg, s, c)
    ensures Flows(cfg, ClientStep(cfg, s, c))
  {
    ClientCallFlow(cfg, s, c);
    ClientRetFlow(cfg, s, c);
  }

  lemma ClientKeepsControl<H(!new)>(cfg: Config<H>, s: System<H>, c: nat)
    requires GoodConfig(cfg) && Control(cfg, s) && Flows(cfg, s) && c < |s.clients| && ClientCan(cfg, s, c)
    ensures Control(cfg, ClientStep(cfg, s, c))
  {
    ClientRetFlow(cfg, s, c);
    if Plain(cfg, s.clients[c]) {
      PlainControl(cfg, s, c);
    } else if s.clients[c].pc.CWantCall? {
      BeginControl(cfg, s, c);
    } else {
      EndControl(cfg, s, c);
    }
  }

  lemma ClientKeepsHistory<H(!new)>(cfg: Config<H>, asked: seq<seq<seq<byte>>>, h: H, s: System<H>, c: nat)
    requires GoodConfig(cfg) && Control(cfg, s) && Flows(cfg, s) && History(cfg, asked, h, s)
    requires c < |s.clients| && ClientCan(cfg, s, c)
    ensures History(cfg, asked, h, ClientStep(cfg, s, c))
  {
    ClientRetFlow(cfg, s, c);
    ClientHistory(cfg, asked, s, c);
  }

  lemma ClientKeeps<H(!new)>(cfg: Config<H>, asked: seq<seq<seq<byte>>>, h: H, s: System<H>, c: nat)
    requires Inv(cfg, asked, h, s) && c < |s.clients| && ClientCan(cfg, s, c)
    ensures Inv(cfg, asked, h, ClientStep(cfg, s, c))
  {
    ClientKeepsFlows(cfg, s, c);
    ClientKeepsControl(cfg, s, c);
    ClientKeepsHistory(cfg, asked, h, s, c);
  }

  // ---------------------------------------------------------------- the server

  /** A handler that reads on is inside the oldest request; one that stops has it whole. */
  lemma RequestEnds<H>(svc: Service<H>, f: seq<byte>, buf: seq<byte>)
    requires ExactRequest(svc, f) && buf <= f
    ensures svc.more(buf) <==> |buf| < |f|
    ensures !svc.more(buf) ==> buf == f
  {
    assert buf == f[..|buf|];
    if |buf| == |f| { assert buf == f; }
  }

  lemma MoveByte(a: seq<byte>, b: seq<byte>, c: seq<byte>)
    requires b != []
    ensures (a + [b[0]]) + (b[1..] + c) == a + (b + c)
  {
    assert b == [b[0]] + b[1..];
  }

  lemma NextByte(buf: seq<byte>, coming: seq<byte>, frame: seq<byte>, after: seq<byte>)
    requires buf + coming == frame + after && buf <= frame && |buf| < |frame|
    ensures coming != [] && buf + [coming[0]] <= frame
  {
    assert (buf + coming)[|buf|] == (frame + after)[|buf|];
  }

  lemma ReceiveCallFlow<H(!new)>(cfg: Config<H>, s: System<H>)
    requires GoodConfig(cfg) && Control(cfg, s) && CallFlow(s.callLock, s.clients, s.call, s.server, s.pending)
    requires s.server.Receiving? && cfg.service.more(s.server.buf) && ServerCan(cfg, s)
    ensures var t := ServerStep(cfg, s);
            CallFlow(t.callLock, t.clients, t.call, t.server, t.pending)
  {
    hide GoodConfig, CountsOk, LocksOk, JobOk, DueOk;
    assert s.pending != [];
    assert PendingOk(cfg, s.clients[s.pending[0].client], cfg.ids[s.pending[0].client], s.pending[0]);
    RequestEnds(cfg.service, s.pending[0].frame, s.server.buf);
    var unsent := Unsent(s.callLock, s.clients);
    NextByte(s.server.buf, s.call + unsent, s.pending[0].frame, FlatPending(s.pending[1..]));
    MoveByte(s.server.buf, s.call, unsent);
  }

  /** A request that runs is the oldest one, whole and nothing else. */
  lemma ExecutesOldest<H(!new)>(cfg: Config<H>, s: System<H>)
    requires GoodConfig(cfg) && Control(cfg, s) && CallFlow(s.callLock, s.clients, s.call, s.server, s.pending)
    requires s.server.Receiving? && !cfg.service.more(s.server.buf)
    ensures |s.clients| == |cfg.ids|
    ensures s.pending != [] && s.server.buf == s.pending[0].frame && s.pending[0].client < |cfg.ids|
    ensures PendingOk(cfg, s.clients[s.pending[0].client], cfg.ids[s.pending[0].client], s.pending[0])
    ensures s.call + Unsent(s.callLock, s.clients) == FlatPending(s.pending[1..])
  {
    var e := s.pending[0];
    assert PendingOk(cfg, s.clients[e.client], cfg.ids[e.client], e);
    RequestEnds(cfg.service, e.frame, s.server.buf);
    var rest := s.call + Unsent(s.callLock, s.clients);
    assert (e.frame + rest)[|e.frame|..] == rest;
    assert (e.frame + FlatPending(s.pending[1..]))[|e.frame|..] == FlatPending(s.pending[1..]);
  }

  lemma ExecuteCounts<H>(svc: Service<H>, clients: seq<Client>, pending: seq<Pending>, due: seq<Executed>, e: Executed)
    requires CountsOk(svc, clients, pending, due) && pending != []
    requires e.client == pending[0].client && e.frame == pending[0].frame
    ensures CountsOk(svc, clients, pending[1..], if svc.answers(e.frame) then due + [e] else due)
  {
    forall c | 0 <= c < |clients|
      ensures CountPending(svc, pending[1..], c) + CountDue(if svc.answers(e.frame) then due + [e] else due, c)
           == CountPending(svc, pending, c) + CountDue(due, c)
    {
      CountDueAppend(due, e, c);
    }
  }

  /** A request with a reply, once run, owes its client what the client's stub reads. */
  lemma ExecutedIsDue<H(!new)>(cfg: Config<H>, h: H, k: Client, id: u32, e: Pending)
    requires GoodConfig(cfg) && PendingOk(cfg, k, id, e) && cfg.service.answers(e.frame)
    ensures DueOk(cfg, k, Executed(e.client, e.frame, cfg.service.exec(h, e.frame).1))
  {
    hide ExactRequest, ExactReply;
  }

  lemma ExecuteEntries<H>(cfg: Config<H>, clients: seq<Client>, pending: seq<Pending>, due: seq<Executed>, e: Executed)
    requires |clients| == |cfg.ids| && EntriesOk(cfg, clients, pending, due) && pending != []
    requires cfg.service.answers(e.frame) ==> e.client < |clients| && DueOk(cfg, clients[e.client], e)
    ensures EntriesOk(cfg, clients, pending[1..], if cfg.service.answers(e.frame) then due + [e] else due)
  {
    hide PendingOk, DueOk;
  }

  lemma ExecuteControl<H(!new)>(cfg: Config<H>, s: System<H>)
    requires GoodConfig(cfg) && Control(cfg, s) && CallFlow(s.callLock, s.clients, s.call, s.server, s.pending)
    requires s.server.Receiving? && !cfg.service.more(s.server.buf) && ServerCan(cfg, s)
    ensures Control(cfg, ServerStep(cfg, s))
  {
    hide GoodConfig, PendingOk, DueOk, CountsOk, CallFlow, LocksOk, JobsOk, EntriesOk;
    ExecutesOldest(cfg, s);
    var p := s.pending[0];
    var e := Executed(p.client, p.frame, cfg.service.exec(s.heap, p.frame).1);
    if cfg.service.answers(p.frame) {
      ExecutedIsDue(cfg, s.heap, s.clients[p.client], cfg.ids[p.client], p);
    }
    ExecuteEntries(cfg, s.clients, s.pending, s.due, e);
    ExecuteCounts(cfg.service, s.clients, s.pending, s.due, e);
  }

  lemma ExecuteCallFlow<H(!new)>(cfg: Config<H>, s: System<H>)
    requires GoodConfig(cfg) && Control(cfg, s) && CallFlow(s.callLock, s.clients, s.call, s.server, s.pending)
    requires s.server.Receiving? && !cfg.service.more(s.server.buf) && ServerCan(cfg, s)
    ensures var t := ServerStep(cfg, s);
            CallFlow(t.callLock, t.clients, t.call, t.server, t.pending)
  {
    hide GoodConfig, Control, PendingOk;
    ExecutesOldest(cfg, s);
    var rest := s.call + Unsent(s.callLock, s.clients);
    assert [] + rest == rest;
  }

  lemma AnswerRetFlow(ids: seq<u32>, retLock: Holder, clients: seq<Client>, ret: seq<byte>, buf: seq<byte>,
                      due: seq<Executed>, e: Executed)
    requires RetFlow(ids, retLock, clients, ret, Receiving(buf), due) && e.client < |ids|
    ensures RetFlow(ids, retLock, clients, ret, Replying(EncodeU32(ids[e.client]) + e.payload), due + [e])
  {
    hide EncodeU32, FlatDue;
    FlatDueAppend(ids, due, e);
    assert ret + [] == ret;
  }

  lemma ExecuteRetFlow<H(!new)>(cfg: Config<H>, s: System<H>)
    requires GoodConfig(cfg) && Control(cfg, s) && Flows(cfg, s)
    requires s.server.Receiving? && !cfg.service.more(s.server.buf) && ServerCan(cfg, s)
    ensures var t := ServerStep(cfg, s);
            RetFlow(cfg.ids, t.retLock, t.clients, t.ret, t.server, t.due)
  {
    ExecutesOldest(cfg, s);
    AnswerRetFlow(cfg.ids, s.retLock, s.clients, s.ret, s.server.buf, s.due, ServerStep(cfg, s).log[|s.log|]);
  }

  lemma ExecutedOf<H>(svc: Service<H>, pending: seq<Pending>, due: seq<Executed>, log: seq<Executed>, e: Executed,
                      c: nat, begun: seq<seq<byte>>, results: seq<seq<byte>>)
    requires pending != [] && pending[0] == Pending(e.client, e.frame)
    requires PayloadsOf(svc, log, c) == results + PayloadsOf(svc, due, c)
    ensures FramesOf(log + [e], c) + (PendingOf(pending[1..], c) + begun)
         == FramesOf(log, c) + (PendingOf(pending, c) + begun)
    ensures PayloadsOf(svc, log + [e], c)
         == results + PayloadsOf(svc, if svc.answers(e.frame) then due + [e] else due, c)
  {
    FramesAppend(log, e, c);
    var mine: seq<seq<byte>> := if e.client == c then [e.frame] else [];
    assert PendingOf(pending, c) == mine + PendingOf(pending[1..], c);
    Regroup(FramesOf(log, c), mine, PendingOf(pending[1..], c), begun);
    ExecutedPayload(svc, due, log, e, c, results);
  }

  lemma Regroup(a: seq<seq<byte>>, b: seq<seq<byte>>, c: seq<seq<byte>>, d: seq<seq<byte>>)
    ensures (a + b) + (c + d) == a + ((b + c) + d)
  {
  }

  lemma ExecutedPayload<H>(svc: Service<H>, due: seq<Executed>, log: seq<Executed>, e: Executed, c: nat,
                           results: seq<seq<byte>>)
    requires PayloadsOf(svc, log, c) == results + PayloadsOf(svc, due, c)
    ensures PayloadsOf(svc, log + [e], c)
         == results + PayloadsOf(svc, if svc.answers(e.frame) then due + [e] else due, c)
  {
    PayloadsAppend(svc, log, e, c);
    PayloadsAppend(svc, due, e, c);
  }

  lemma ExecuteHistory<H>(svc: Service<H>, asked: seq<seq<seq<byte>>>, clients: seq<Client>, pending: seq<Pending>,
                          due: seq<Executed>, log: seq<Executed>, e: Executed)
    requires HistoryOk(svc, asked, clients, pending, due, log)
    requires pending != [] && pending[0] == Pending(e.client, e.frame)
    ensures HistoryOk(svc, asked, clients, pending[1..], if svc.answers(e.frame) then due + [e] else due, log + [e])
  {
    hide FramesOf, PendingOf, PayloadsOf, NotBegun;
    var due' := if svc.answers(e.frame) then due + [e] else due;
    forall c | 0 <= c < |clients|
      ensures HistoryOf(svc, asked[c], clients[c], pending[1..], due', log + [e], c)
    {
      assert HistoryOf(svc, asked[c], clients[c], pending, due, log, c);
      ExecutedOf(svc, pending, due, log, e, c, NotBegun(clients[c]), clients[c].results);
    }
  }

  lemma ExecuteSequential<H>(svc: Service<H>, h: H, log: seq<Executed>, heap: H, e: Executed)
    requires Sequential(svc, h, log) && heap == HeapAfter(svc, h, log)
    requires e.payload == svc.exec(heap, e.frame).1
    ensures Sequential(svc, h, log + [e]) && HeapAfter(svc, h, log + [e]) == svc.exec(heap, e.frame).0
  {
    var after := log + [e];
    assert after[..|log|] == log;
    forall i | 0 <= i < |after|
      ensures after[i].payload == svc.exec(HeapAfter(svc, h, after[..i]), after[i].frame).1
    {
      if i < |log| { assert after[..i] == log[..i]; }
    }
  }

  lemma ReplyKeepsFlows<H>(cfg: Config<H>, s: System<H>)
    requires Flows(cfg, s) && s.server.Replying? && ServerCan(cfg, s)
    ensures Flows(cfg, ServerStep(cfg, s))
  {
    var t := ServerStep(cfg, s);
    assert t.ret + Unwritten(t.server) == s.ret + Unwritten(s.server);
  }

  lemma ExecuteKeepsHistory<H(!new)>(cfg: Config<H>, asked: seq<seq<seq<byte>>>, h: H, s: System<H>)
    requires GoodConfig(cfg) && Control(cfg, s) && History(cfg, asked, h, s)
    requires CallFlow(s.callLock, s.clients, s.call, s.server, s.pending)
    requires s.server.Receiving? && !cfg.service.more(s.server.buf) && ServerCan(cfg, s)
    ensures History(cfg, asked, h, ServerStep(cfg, s))
  {
    hide HistoryOk, Sequential, HeapAfter, GoodConfig;
    ExecutesOldest(cfg, s);
    var e := Executed(s.pending[0].client, s.server.buf, cfg.service.exec(s.heap, s.server.buf).1);
    assert ServerStep(cfg, s).log == s.log + [e];
    ExecuteHistory(cfg.service, asked, s.clients, s.pending, s.due, s.log, e);
    ExecuteSequential(cfg.service, h, s.log, s.heap, e);
  }

  lemma ExecuteKeeps<H(!new)>(cfg: Config<H>, asked: seq<seq<seq<byte>>>, h: H, s: System<H>)
    requires Inv(cfg, asked, h, s) && s.server.Receiving? && !cfg.service.more(s.server.buf) && ServerCan(cfg, s)
    ensures Inv(cfg, asked, h, ServerStep(cfg, s))
  {
    ExecuteControl(cfg, s);
    ExecuteCallFlow(cfg, s);
    ExecuteRetFlow(cfg, s);
    ExecuteKeepsHistory(cfg, asked, h, s);
  }

  lemma ServerKeeps<H(!new)>(cfg: Config<H>, asked: seq<seq<seq<byte>>>, h: H, s: System<H>)
    requires Inv(cfg, asked, h, s) && ServerCan(cfg, s)
    ensures Inv(cfg, asked, h, ServerStep(cfg, s))
  {
    match s.server
    case Receiving(buf) =>
      if cfg.service.more(buf) { ReceiveCallFlow(cfg, s); } else { ExecuteKeeps(cfg, asked, h, s); }
    case Replying(rest) => ReplyKeepsFlows(cfg, s);
  }

  lemma NextKeeps<H(!new)>(cfg: Config<H>, asked: seq<seq<seq<byte>>>, h: H, s: System<H>, m: Move, t: System<H>)
    requires Inv(cfg, asked, h, s) && Next(cfg, s, m, t)
    ensures Inv(cfg, asked, h, t)
  {
    match m
    case ClientMoves(c) => ClientKeeps(cfg, asked, h, s, c);
    case ServerMoves => ServerKeeps(cfg, asked, h, s);
  }

  /** The requests each client has been given. */
  function Asked(clients: seq<Client>): (r: seq<seq<seq<byte>>>)
    ensures |r| == |clients| && forall c :: 0 <= c < |clients| ==> r[c] == clients[c].jobs
  {
    seq(|clients|, c requires 0 <= c < |clients| => clients[c].jobs)
  }

  lemma InitControl<H>(cfg: Config<H>, s: System<H>)
    requires Init(s) && GoodJobs(cfg, s.clients)
    ensures Control(cfg, s)
  {
  }

  lemma InitHistory<H>(svc: Service<H>, s: System<H>)
    requires Init(s)
    ensures HistoryOk(svc, Asked(s.clients), s.clients, s.pending, s.due, s.log)
  {
  }

  lemma InitInv<H(!new)>(cfg: Config<H>, s: System<H>)
    requires GoodConfig(cfg) && Init(s) && GoodJobs(cfg, s.clients)
    ensures Inv(cfg, Asked(s.clients), s.heap, s)
  {
    InitControl(cfg, s);
    InitHistory(cfg.service, s);
  }

  lemma {:induction false} RunKeeps<H(!new)>(cfg: Config<H>, states: seq<System<H>>, moves: seq<Move>, k: nat)
    requires GoodConfig(cfg) && Run(cfg, states, moves) && k < |states|
    requires Init(states[0]) && GoodJobs(cfg, states[0].clients)
    ensures Inv(cfg, Asked(states[0].clients), states[0].heap, states[k])
  {
    hide Inv, Next, Init, GoodJobs, GoodConfig, Asked;
    if k == 0 {
      InitInv(cfg, states[0]);
    } else {
      RunKeeps(cfg, states, moves, k - 1);
      NextKeeps(cfg, Asked(states[0].clients), states[0].heap, states[k - 1], moves[k - 1], states[k]);
    }
  }
}
