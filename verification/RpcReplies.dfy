/** What a client waits for: the replies due and those the requests begun will bring are settled, and
    its own comes behind whole replies to other clients. */
module RpcReplies {
  import opened Bytes
  import opened RpcMachine
  import opened RpcInvariant
  import opened RpcSteps

  /** The replies the server will give to `pending`, run in order from `h`. */
  function Coming<H>(svc: Service<H>, h: H, pending: seq<Pending>): seq<Executed> {
    if pending == [] then []
    else
      var e, (h', payload) := pending[0], svc.exec(h, pending[0].frame);
      (if svc.answers(e.frame) then [Executed(e.client, e.frame, payload)] else []) + Coming(svc, h', pending[1..])
  }

  function ToCome<H>(cfg: Config<H>, s: System<H>): seq<Executed> {
    s.due + Coming(cfg.service, s.heap, s.pending)
  }

  /** What is in the return channel and what will come into it for the requests begun. */
  function ReturnStream<H>(cfg: Config<H>, s: System<H>): seq<byte> {
    s.ret + Unwritten(s.server) + FlatDue(cfg.ids, Coming(cfg.service, s.heap, s.pending))
  }

  // ---------------------------------------------------------------- the replies to come are settled

  lemma {:induction false} ComingAppend<H>(svc: Service<H>, h: H, pending: seq<Pending>, e: Pending)
    ensures Coming(svc, h, pending) <= Coming(svc, h, pending + [e])
  {
    if pending != [] {
      ComingAppend(svc, svc.exec(h, pending[0].frame).0, pending[1..], e);
      assert (pending + [e])[1..] == pending[1..] + [e];
    }
  }

  /** Replies were added behind, or the first one has gone and was to `c`. */
  predicate ToComeFollows(es: seq<Executed>, c: nat, es': seq<Executed>) {
    es <= es' || (es != [] && es[0].client == c && es' == es[1..])
  }

  lemma BeginKeepsToCome<H>(cfg: Config<H>, s: System<H>, c: nat)
    requires c < |s.clients| == |cfg.ids| && ClientCan(cfg, s, c) && s.clients[c].pc.CWantCall?
    ensures ToCome(cfg, s) <= ToCome(cfg, ClientStep(cfg, s, c))
  {
    hide Coming;
    ComingAppend(cfg.service, s.heap, s.pending, Pending(c, s.clients[c].job));
  }

  lemma ClientKeepsToCome<H(!new)>(cfg: Config<H>, asked: seq<seq<seq<byte>>>, h: H, s: System<H>, c: nat)
    requires Inv(cfg, asked, h, s) && c < |s.clients| == |cfg.ids| && ClientCan(cfg, s, c)
    ensures ToComeFollows(ToCome(cfg, s), c, ToCome(cfg, ClientStep(cfg, s, c)))
  {
    hide Coming, History, Control, GoodConfig, CallFlow, Consumed, FlatDue, EncodeU32;
    if s.clients[c].pc.CWantCall? {
      BeginKeepsToCome(cfg, s, c);
    }
  }

  /** Running the oldest request moves its reply from those to come to those due. */
  lemma ComesDue<H>(svc: Service<H>, h: H, pending: seq<Pending>, due: seq<Executed>)
    requires pending != []
    ensures var (h', payload) := svc.exec(h, pending[0].frame);
            var e := Executed(pending[0].client, pending[0].frame, payload);
            (due + Coming(svc, h, pending)
             == (if svc.answers(e.frame) then due + [e] else due) + Coming(svc, h', pending[1..]))
  {
    var e, rest := pending[0], Coming(svc, svc.exec(h, pending[0].frame).0, pending[1..]);
    var done := Executed(e.client, e.frame, svc.exec(h, e.frame).1);
    Regrouped(due, done, rest);
    assert Coming(svc, h, pending) == (if svc.answers(e.frame) then [done] else []) + rest;
  }

  lemma Regrouped(due: seq<Executed>, e: Executed, rest: seq<Executed>)
    ensures (due + [e]) + rest == due + ([e] + rest) && due + ([] + rest) == due + rest
  {
  }

  lemma ServerKeepsToCome<H(!new)>(cfg: Config<H>, asked: seq<seq<seq<byte>>>, h: H, s: System<H>)
    requires Inv(cfg, asked, h, s) && ServerCan(cfg, s)
    ensures ToCome(cfg, ServerStep(cfg, s)) == ToCome(cfg, s)
  {
    hide Coming, History, RetFlow, GoodService, CallFlow, Control;
    if s.server.Receiving? && !cfg.service.more(s.server.buf) {
      ExecutesOldest(cfg, s);
      ComesDue(cfg.service, s.heap, s.pending, s.due);
    }
  }

  /** No step changes a reply to come: more requests add replies behind, and the first goes when its
      client has read it. */
  lemma NextKeepsToCome<H(!new)>(cfg: Config<H>, asked: seq<seq<seq<byte>>>, h: H, s: System<H>, m: Move, t: System<H>)
    requires Inv(cfg, asked, h, s) && Next(cfg, s, m, t)
    ensures match m
            case ClientMoves(c) => ToComeFollows(ToCome(cfg, s), c, ToCome(cfg, t))
            case ServerMoves => ToCome(cfg, t) == ToCome(cfg, s)
  {
    hide Inv, ClientStep, ServerStep, Coming;
    match m
    case ClientMoves(c) => ClientKeepsToCome(cfg, asked, h, s, c);
    case ServerMoves => ServerKeepsToCome(cfg, asked, h, s);
  }

  // ---------------------------------------------------------------- a client's own reply

  lemma NothingComing<H>(svc: Service<H>, h: H, due: seq<Executed>)
    ensures due + Coming(svc, h, []) == due
  {
  }

  /** The requests begun, once run, leave one reply for each client with a call outstanding. */
  lemma {:induction false} ComingIsDue<H(!new)>(cfg: Config<H>, clients: seq<Client>, h: H, pending: seq<Pending>,
                                                due: seq<Executed>)
    requires GoodConfig(cfg) && |clients| == |cfg.ids|
    requires EntriesOk(cfg, clients, pending, due) && CountsOk(cfg.service, clients, pending, due)
    ensures EntriesOk(cfg, clients, [], due + Coming(cfg.service, h, pending))
    ensures CountsOk(cfg.service, clients, [], due + Coming(cfg.service, h, pending))
    decreases |pending|
  {
    hide GoodConfig, DueOk, PendingOk, CountsOk, Outstanding, Coming;
    if pending == [] {
      NothingComing(cfg.service, h, due);
    } else {
      var p := pending[0];
      var e := Executed(p.client, p.frame, cfg.service.exec(h, p.frame).1);
      if cfg.service.answers(p.frame) {
        ExecutedIsDue(cfg, h, clients[p.client], cfg.ids[p.client], p);
      }
      ExecuteEntries(cfg, clients, pending, due, e);
      ExecuteCounts(cfg.service, clients, pending, due, e);
      var next := if cfg.service.answers(e.frame) then due + [e] else due;
      var h' := cfg.service.exec(h, p.frame).0;
      ComingIsDue(cfg, clients, h', pending[1..], next);
      ComesDue(cfg.service, h, pending, due);
    }
  }

  lemma {:induction false} FirstOf(es: seq<Executed>, c: nat) returns (n: nat)
    requires CountDue(es, c) > 0
    ensures n < |es| && es[n].client == c && forall i :: 0 <= i < n ==> es[i].client != c
  {
    if es[0].client == c {
      n := 0;
    } else {
      n := FirstOf(es[1..], c);
      n := n + 1;
    }
  }

  lemma {:induction false} FlatDueSplit(ids: seq<u32>, a: seq<Executed>, b: seq<Executed>)
    ensures FlatDue(ids, a + b) == FlatDue(ids, a) + FlatDue(ids, b)
  {
    hide ReplyBytes;
    if a == [] {
      assert a + b == b;
    } else {
      FlatDueSplit(ids, a[1..], b);
      assert (a + b)[1..] == a[1..] + b;
      Assoc(ReplyBytes(ids, a[0]), FlatDue(ids, a[1..]), FlatDue(ids, b));
    }
  }

  ghost predicate NobodyReads(clients: seq<Client>) {
    forall c :: 0 <= c < |clients| ==> !clients[c].pc.CRead?
  }

  lemma NothingConsumed(ids: seq<u32>, retLock: Holder, clients: seq<Client>)
    requires NobodyReads(clients)
    ensures Consumed(ids, retLock, clients) == []
  {
  }

  /** The return stream, behind what a client past its take has consumed of the reply it is reading, is
      made of the replies to come. */
  lemma StreamIsToCome<H(!new)>(cfg: Config<H>, asked: seq<seq<seq<byte>>>, h: H, s: System<H>)
    requires Inv(cfg, asked, h, s)
    ensures Consumed(cfg.ids, s.retLock, s.clients) + ReturnStream(cfg, s) == FlatDue(cfg.ids, ToCome(cfg, s))
  {
    hide FlatDue, Coming, History, Control, GoodConfig, Consumed;
    var coming := FlatDue(cfg.ids, Coming(cfg.service, s.heap, s.pending));
    FlatDueSplit(cfg.ids, s.due, Coming(cfg.service, s.heap, s.pending));
    Assoc(Consumed(cfg.ids, s.retLock, s.clients), s.ret + Unwritten(s.server), coming);
  }

  lemma OwnReplyAt<H(!new)>(cfg: Config<H>, asked: seq<seq<seq<byte>>>, h: H, s: System<H>, c: nat) returns (n: nat)
    requires Inv(cfg, asked, h, s) && c < |s.clients| && Outstanding(cfg.service, s.clients[c])
    ensures |s.clients| == |cfg.ids|
    ensures var es := ToCome(cfg, s);
            && n < |es| && es[n].client == c && DueOk(cfg, s.clients[c], es[n])
            && forall i :: 0 <= i < n ==> es[i].client < |cfg.ids| && cfg.ids[es[i].client] != cfg.ids[c]
  {
    hide Coming, History, Flows, Outstanding, DueOk, CountDue;
    ComingIsDue(cfg, s.clients, s.heap, s.pending, s.due);
    n := FirstOf(ToCome(cfg, s), c);
  }

  lemma HeadOfDue(ids: seq<u32>, es: seq<Executed>)
    requires es != [] && es[0].client < |ids|
    ensures FlatDue(ids, es) == EncodeU32(ids[es[0].client]) + es[0].payload + FlatDue(ids, es[1..])
  {
  }

  /** The return stream, with what is already consumed of the reply being read in front of it, has whole
      replies to other clients, none under the call id of `c`, and then the reply to the request of `c`:
      the payload its stub reads. */
  ghost predicate OwnReplyIs<H>(cfg: Config<H>, s: System<H>, c: nat, ahead: seq<Executed>, own: Executed,
                                after: seq<byte>)
  {
    && c < |s.clients| == |cfg.ids|
    && Consumed(cfg.ids, s.retLock, s.clients) + ReturnStream(cfg, s)
       == FlatDue(cfg.ids, ahead) + (EncodeU32(cfg.ids[c]) + own.payload + after)
    && own.frame == s.clients[c].job && ExactReply(cfg.service, own.frame, own.payload)
    && forall i :: 0 <= i < |ahead| ==> ahead[i].client < |cfg.ids| && cfg.ids[ahead[i].client] != cfg.ids[c]
  }

  /** A client with a call outstanding, whether it has been executed or not, has in the return stream
      whole replies to other clients before it, the first perhaps partly read, and then its own. */
  lemma OwnReplyComes<H(!new)>(cfg: Config<H>, states: seq<System<H>>, moves: seq<Move>, k: nat, c: nat)
    returns (ahead: seq<Executed>, own: Executed, after: seq<byte>)
    requires GoodConfig(cfg) && Run(cfg, states, moves) && k < |states|
    requires Init(states[0]) && GoodJobs(cfg, states[0].clients)
    requires c < |states[k].clients| && Outstanding(cfg.service, states[k].clients[c])
    ensures OwnReplyIs(cfg, states[k], c, ahead, own, after)
  {
    hide FlatDue, Coming, Run, Init, GoodJobs, GoodConfig, History, Flows, CountsOk, EntriesOk, Outstanding, ToCome,
      Consumed;
    var s := states[k];
    RunKeeps(cfg, states, moves, k);
    var n := OwnReplyAt(cfg, Asked(states[0].clients), states[0].heap, s, c);
    var es := ToCome(cfg, s);
    StreamIsToCome(cfg, Asked(states[0].clients), states[0].heap, s);
    ahead, own, after := es[..n], es[n], FlatDue(cfg.ids, es[n + 1..]);
    HeadOfDue(cfg.ids, es[n..]);
    FlatDueSplit(cfg.ids, ahead, es[n..]);
    assert es == ahead + es[n..] && es[n..][1..] == es[n + 1..];
  }
}
