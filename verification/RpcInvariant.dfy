/** What every step of the call machine keeps. */
module RpcInvariant {
  import opened Bytes
  import opened RpcMachine

  predicate InCall(pc: ClientPc) {
    pc.CSend? || pc.CUnlockCall?
  }

  predicate InRet(pc: ClientPc) {
    pc.CPeek? || pc.CMatched? || pc.CMissed? || pc.CRead? || pc.CUnlockRet?
  }

  predicate Awaiting(pc: ClientPc) {
    pc.CWantRet? || pc.CPeek? || pc.CMatched? || pc.CMissed? || pc.CRead?
  }

  /** The client has begun a call whose reply it has not consumed. */
  predicate Outstanding<H>(svc: Service<H>, k: Client) {
    svc.answers(k.job) && (InCall(k.pc) || Awaiting(k.pc))
  }

  ghost predicate LocksOk(callLock: Holder, retLock: Holder, clients: seq<Client>) {
    && (callLock.By? ==> callLock.client < |clients|)
    && (retLock.By? ==> retLock.client < |clients|)
    && forall c :: 0 <= c < |clients| ==>
         && (InCall(clients[c].pc) <==> callLock == By(c))
         && (InRet(clients[c].pc) <==> retLock == By(c))
  }

  ghost predicate JobOk<H>(svc: Service<H>, id: u32, k: Client) {
    && (InCall(k.pc) || Awaiting(k.pc) || k.pc.CWantCall? ==> GoodRequest(svc, id, k.job))
    && (Awaiting(k.pc) ==> svc.answers(k.job))
    && (k.pc.CSend? ==> k.pc.sent <= |k.job|)
  }

  ghost predicate JobsOk<H>(cfg: Config<H>, clients: seq<Client>) {
    GoodJobs(cfg, clients)
    && forall c :: 0 <= c < |clients| ==> JobOk(cfg.service, cfg.ids[c], clients[c])
  }

  ghost predicate PendingOk<H>(cfg: Config<H>, k: Client, id: u32, e: Pending) {
    GoodRequest(cfg.service, id, e.frame) && (cfg.service.answers(e.frame) ==> e.frame == k.job)
  }

  ghost predicate DueOk<H>(cfg: Config<H>, k: Client, e: Executed) {
    e.frame == k.job && cfg.service.answers(e.frame) && ExactReply(cfg.service, e.frame, e.payload)
  }

  ghost predicate EntriesOk<H>(cfg: Config<H>, clients: seq<Client>, pending: seq<Pending>, due: seq<Executed>)
    requires |clients| == |cfg.ids|
  {
    && (forall i :: 0 <= i < |pending| ==>
          && pending[i].client < |clients|
          && PendingOk(cfg, clients[pending[i].client], cfg.ids[pending[i].client], pending[i]))
    && (forall i :: 0 <= i < |due| ==>
          due[i].client < |clients| && DueOk(cfg, clients[due[i].client], due[i]))
  }

  // ---------------------------------------------------------------- one reply per call

  function CountPending<H>(svc: Service<H>, es: seq<Pending>, c: nat): nat {
    if es == [] then 0
    else (if es[0].client == c && svc.answers(es[0].frame) then 1 else 0) + CountPending(svc, es[1..], c)
  }

  function CountDue(es: seq<Executed>, c: nat): nat {
    if es == [] then 0 else (if es[0].client == c then 1 else 0) + CountDue(es[1..], c)
  }

  /** A client with a call outstanding has exactly one request or reply under way, others none. */
  ghost predicate CountsOk<H>(svc: Service<H>, clients: seq<Client>, pending: seq<Pending>, due: seq<Executed>) {
    forall c :: 0 <= c < |clients| ==>
      CountPending(svc, pending, c) + CountDue(due, c) == if Outstanding(svc, clients[c]) then 1 else 0
  }

  // ---------------------------------------------------------------- the two streams

  function FlatPending(es: seq<Pending>): seq<byte> {
    if es == [] then [] else es[0].frame + FlatPending(es[1..])
  }

  function ReplyBytes(ids: seq<u32>, e: Executed): seq<byte> {
    (if e.client < |ids| then EncodeU32(ids[e.client]) else []) + e.payload
  }

  function FlatDue(ids: seq<u32>, es: seq<Executed>): seq<byte> {
    if es == [] then [] else ReplyBytes(ids, es[0]) + FlatDue(ids, es[1..])
  }

  function Buffered(server: Server): seq<byte> {
    match server
    case Receiving(buf) => buf
    case Replying(_) => []
  }

  function Unwritten(server: Server): seq<byte> {
    match server
    case Receiving(_) => []
    case Replying(rest) => rest
  }

  /** What the holder of the call lock has still to write. */
  function Unsent(callLock: Holder, clients: seq<Client>): seq<byte> {
    if callLock.By? && callLock.client < |clients| then
      var k := clients[callLock.client];
      if k.pc.CSend? && k.pc.sent <= |k.job| then k.job[k.pc.sent..] else []
    else []
  }

  /** What the holder of the return lock has taken of the reply at the head. */
  function Consumed(ids: seq<u32>, retLock: Holder, clients: seq<Client>): seq<byte> {
    if retLock.By? && retLock.client < |clients| && retLock.client < |ids| && clients[retLock.client].pc.CRead?
    then EncodeU32(ids[retLock.client]) + clients[retLock.client].got
    else []
  }

  ghost predicate CallFlow(callLock: Holder, clients: seq<Client>, call: seq<byte>, server: Server,
                           pending: seq<Pending>)
  {
    && Buffered(server) + (call + Unsent(callLock, clients)) == FlatPending(pending)
    && (Buffered(server) != [] ==> pending != [] && Buffered(server) <= pending[0].frame)
    && (Unsent(callLock, clients) != [] ==>
          pending != [] && pending[|pending| - 1] == Pending(callLock.client, clients[callLock.client].job))
  }

  /** Unless a client holds the return lock past its take, the return stream starts at a reply. */
  ghost predicate RetFlow(ids: seq<u32>, retLock: Holder, clients: seq<Client>, ret: seq<byte>, server: Server,
                          due: seq<Executed>)
  {
    && Consumed(ids, retLock, clients) + (ret + Unwritten(server)) == FlatDue(ids, due)
    && forall c :: 0 <= c < |clients| && (clients[c].pc.CMatched? || clients[c].pc.CRead?) ==>
         && due != [] && due[0].client == c
         && (clients[c].pc.CMatched? ==> |ret| >= U32_SIZE)
         && (clients[c].pc.CRead? ==> clients[c].got <= due[0].payload)
  }

  // ---------------------------------------------------------------- history

  function FramesOf(es: seq<Executed>, c: nat): seq<seq<byte>> {
    if es == [] then [] else (if es[0].client == c then [es[0].frame] else []) + FramesOf(es[1..], c)
  }

  function PendingOf(es: seq<Pending>, c: nat): seq<seq<byte>> {
    if es == [] then [] else (if es[0].client == c then [es[0].frame] else []) + PendingOf(es[1..], c)
  }

  /** The payloads of the executed calls of `c` that have a reply, in order. */
  function PayloadsOf<H>(svc: Service<H>, es: seq<Executed>, c: nat): seq<seq<byte>> {
    if es == [] then []
    else (if es[0].client == c && svc.answers(es[0].frame) then [es[0].payload] else []) + PayloadsOf(svc, es[1..], c)
  }

  function NotBegun(k: Client): seq<seq<byte>> {
    if k.pc.CWantCall? then [k.job] + k.jobs else k.jobs
  }

  /** The client's requests are executed in the order it makes them, and its results are the payloads of
      its own executed requests, up to the reply under way. */
  ghost predicate HistoryOf<H>(svc: Service<H>, asked: seq<seq<byte>>, k: Client,
                               pending: seq<Pending>, due: seq<Executed>, log: seq<Executed>, c: nat)
  {
    && FramesOf(log, c) + (PendingOf(pending, c) + NotBegun(k)) == asked
    && PayloadsOf(svc, log, c) == k.results + PayloadsOf(svc, due, c)
  }

  ghost predicate HistoryOk<H>(svc: Service<H>, asked: seq<seq<seq<byte>>>, clients: seq<Client>,
                               pending: seq<Pending>, due: seq<Executed>, log: seq<Executed>)
  {
    && |asked| == |clients|
    && forall c :: 0 <= c < |clients| ==> HistoryOf(svc, asked[c], clients[c], pending, due, log, c)
  }

  function HeapAfter<H>(svc: Service<H>, h: H, log: seq<Executed>): H {
    if log == [] then h
    else svc.exec(HeapAfter(svc, h, log[..|log| - 1]), log[|log| - 1].frame).0
  }

  /** The log is one sequential execution of its requests from the initial state. */
  ghost predicate Sequential<H>(svc: Service<H>, h: H, log: seq<Executed>) {
    forall i :: 0 <= i < |log| ==> log[i].payload == svc.exec(HeapAfter(svc, h, log[..i]), log[i].frame).1
  }

  ghost predicate KnownClients(log: seq<Executed>, n: nat) {
    forall i :: 0 <= i < |log| ==> log[i].client < n
  }

  /** The facts about who is where. */
  ghost predicate Control<H>(cfg: Config<H>, s: System<H>) {
    && LocksOk(s.callLock, s.retLock, s.clients)
    && JobsOk(cfg, s.clients)
    && EntriesOk(cfg, s.clients, s.pending, s.due)
    && CountsOk(cfg.service, s.clients, s.pending, s.due)
  }

  ghost predicate Flows<H>(cfg: Config<H>, s: System<H>) {
    && CallFlow(s.callLock, s.clients, s.call, s.server, s.pending)
    && RetFlow(cfg.ids, s.retLock, s.clients, s.ret, s.server, s.due)
    && |s.call| <= cfg.callCap && |s.ret| <= cfg.retCap
  }

  ghost predicate History<H>(cfg: Config<H>, asked: seq<seq<seq<byte>>>, h: H, s: System<H>) {
    && HistoryOk(cfg.service, asked, s.clients, s.pending, s.due, s.log)
    && Sequential(cfg.service, h, s.log)
    && s.heap == HeapAfter(cfg.service, h, s.log)
    && KnownClients(s.log, |s.clients|)
  }

  ghost predicate Inv<H(!new)>(cfg: Config<H>, asked: seq<seq<seq<byte>>>, h: H, s: System<H>) {
    GoodConfig(cfg) && Control(cfg, s) && Flows(cfg, s) && History(cfg, asked, h, s)
  }

  // ---------------------------------------------------------------- appending to the histories

  lemma {:induction false} CountPendingAppend<H>(svc: Service<H>, es: seq<Pending>, e: Pending, c: nat)
    ensures CountPending(svc, es + [e], c)
         == CountPending(svc, es, c) + if e.client == c && svc.answers(e.frame) then 1 else 0
  {
    if es != [] {
      CountPendingAppend(svc, es[1..], e, c);
      assert (es + [e])[1..] == es[1..] + [e];
    }
  }

  lemma {:induction false} CountDueAppend(es: seq<Executed>, e: Executed, c: nat)
    ensures CountDue(es + [e], c) == CountDue(es, c) + if e.client == c then 1 else 0
  {
    if es != [] {
      CountDueAppend(es[1..], e, c);
      assert (es + [e])[1..] == es[1..] + [e];
    }
  }

  lemma {:induction false} CountPendingAt<H>(svc: Service<H>, es: seq<Pending>, i: nat)
    requires i < |es| && svc.answers(es[i].frame)
    ensures CountPending(svc, es, es[i].client) >= 1
  {
    if i > 0 {
      CountPendingAt(svc, es[1..], i - 1);
    }
  }

  lemma {:induction false} CountDueAt(es: seq<Executed>, i: nat)
    requires i < |es|
    ensures CountDue(es, es[i].client) >= 1
  {
    if i > 0 {
      CountDueAt(es[1..], i - 1);
    }
  }

  lemma {:induction false} FlatPendingAppend(es: seq<Pending>, e: Pending)
    ensures FlatPending(es + [e]) == FlatPending(es) + e.frame
  {
    if es != [] {
      FlatPendingAppend(es[1..], e);
      assert (es + [e])[1..] == es[1..] + [e];
    }
  }

  lemma {:induction false} FlatDueAppend(ids: seq<u32>, es: seq<Executed>, e: Executed)
    ensures FlatDue(ids, es + [e]) == FlatDue(ids, es) + ReplyBytes(ids, e)
  {
    if es != [] {
      FlatDueAppend(ids, es[1..], e);
      assert (es + [e])[1..] == es[1..] + [e];
    }
  }

  lemma {:induction false} FramesAppend(es: seq<Executed>, e: Executed, c: nat)
    ensures FramesOf(es + [e], c) == FramesOf(es, c) + if e.client == c then [e.frame] else []
  {
    if es != [] {
      FramesAppend(es[1..], e, c);
      assert (es + [e])[1..] == es[1..] + [e];
    }
  }

  lemma {:induction false} PendingOfAppend(es: seq<Pending>, e: Pending, c: nat)
    ensures PendingOf(es + [e], c) == PendingOf(es, c) + if e.client == c then [e.frame] else []
  {
    if es != [] {
      PendingOfAppend(es[1..], e, c);
      assert (es + [e])[1..] == es[1..] + [e];
    }
  }

  lemma {:induction false} PayloadsAppend<H>(svc: Service<H>, es: seq<Executed>, e: Executed, c: nat)
    ensures PayloadsOf(svc, es + [e], c)
         == PayloadsOf(svc, es, c) + if e.client == c && svc.answers(e.frame) then [e.payload] else []
  {
    if es != [] {
      PayloadsAppend(svc, es[1..], e, c);
      assert (es + [e])[1..] == es[1..] + [e];
    }
  }
}
