/** The protocol machine moves one byte at a time; the channels move chunks. Any chunk is a run of single
    bytes, so what holds of every run of the machine holds under every chunking. */
module RpcChunks {
  import opened Bytes
  import opened RingBuffer
  import opened RpcMachine
  import opened RpcProgress
  import Channel = StreamMachine
  import Queue = StreamInvariant

  /** The state after client `c` has sent `n` more bytes of its request. */
  function AfterSends<H>(s: System<H>, c: nat, n: nat): System<H>
    requires c < |s.clients| && s.clients[c].pc.CSend? && s.clients[c].pc.sent + n <= |s.clients[c].job|
  {
    var k := s.clients[c];
    s.(clients := s.clients[c := k.(pc := CSend(k.pc.sent + n))], call := s.call + k.job[k.pc.sent..k.pc.sent + n])
  }

  lemma {:induction false} SendsAreMoves<H>(cfg: Config<H>, s: System<H>, c: nat, n: nat)
    returns (states: seq<System<H>>, moves: seq<Move>)
    requires c < |s.clients| == |cfg.ids| && s.clients[c].pc.CSend? && s.clients[c].pc.sent + n <= |s.clients[c].job|
    requires |s.call| + n <= cfg.callCap
    ensures Run(cfg, states, moves) && |moves| == n && states[0] == s && states[n] == AfterSends(s, c, n)
    decreases n
  {
    if n == 0 {
      states, moves := [s], [];
      assert s.call + [] == s.call && s.clients[c := s.clients[c]] == s.clients;
    } else {
      var t := ClientStep(cfg, s, c);
      assert t == AfterSends(s, c, 1);
      assert Next(cfg, s, ClientMoves(c), t);
      var rest, more := SendsAreMoves(cfg, t, c, n - 1);
      SendsJoin(s, c, n);
      PrependStep(cfg, s, ClientMoves(c), rest, more);
      states, moves := [s] + rest, [ClientMoves(c)] + more;
    }
  }

  lemma SendsJoin<H>(s: System<H>, c: nat, n: nat)
    requires c < |s.clients| && s.clients[c].pc.CSend? && s.clients[c].pc.sent + n <= |s.clients[c].job| && n > 0
    ensures AfterSends(AfterSends(s, c, 1), c, n - 1) == AfterSends(s, c, n)
  {
    var k := s.clients[c];
    var i := k.pc.sent;
    assert s.call + k.job[i..i + n] == (s.call + k.job[i..i + 1]) + k.job[i + 1..i + n];
  }

  function AfterReceives<H>(s: System<H>, n: nat): System<H>
    requires s.server.Receiving? && n <= |s.call|
  {
    s.(server := Receiving(s.server.buf + s.call[..n]), call := s.call[n..])
  }

  lemma {:induction false} ReceivesAreMoves<H>(cfg: Config<H>, s: System<H>, n: nat)
    returns (states: seq<System<H>>, moves: seq<Move>)
    requires s.server.Receiving? && n <= |s.call|
    requires forall i :: 0 <= i < n ==> cfg.service.more(s.server.buf + s.call[..i])
    ensures Run(cfg, states, moves) && |moves| == n && states[0] == s && states[n] == AfterReceives(s, n)
    decreases n
  {
    assert s.server.buf + s.call[..0] == s.server.buf && s.call[0..] == s.call;
    if n == 0 {
      states, moves := [s], [];
    } else {
      assert cfg.service.more(s.server.buf + s.call[..0]);
      var t := ServerStep(cfg, s);
      assert s.call[..1] == [s.call[0]];
      assert t == AfterReceives(s, 1);
      assert Next(cfg, s, ServerMoves, t);
      forall i | 0 <= i < n - 1 ensures cfg.service.more(t.server.buf + t.call[..i]) {
        assert t.server.buf + t.call[..i] == s.server.buf + s.call[..i + 1];
      }
      var rest, more := ReceivesAreMoves(cfg, t, n - 1);
      assert t.server.buf + t.call[..n - 1] == s.server.buf + s.call[..n];
      assert t.call[n - 1..] == s.call[n..];
      PrependStep(cfg, s, ServerMoves, rest, more);
      states, moves := [s] + rest, [ServerMoves] + more;
    }
  }

  function AfterReplies<H>(s: System<H>, n: nat): System<H>
    requires s.server.Replying? && n <= |s.server.rest|
  {
    s.(server := Replying(s.server.rest[n..]), ret := s.ret + s.server.rest[..n])
  }

  lemma {:induction false} RepliesAreMoves<H>(cfg: Config<H>, s: System<H>, n: nat)
    returns (states: seq<System<H>>, moves: seq<Move>)
    requires s.server.Replying? && n <= |s.server.rest| && |s.ret| + n <= cfg.retCap
    ensures Run(cfg, states, moves) && |moves| == n && states[0] == s && states[n] == AfterReplies(s, n)
    decreases n
  {
    if n == 0 {
      states, moves := [s], [];
      assert s.server.rest[0..] == s.server.rest && s.ret + [] == s.ret;
    } else {
      var t := ServerStep(cfg, s);
      assert t == AfterReplies(s, 1);
      assert Next(cfg, s, ServerMoves, t);
      var rest, more := RepliesAreMoves(cfg, t, n - 1);
      assert t.server.rest[n - 1..] == s.server.rest[n..];
      assert t.ret + t.server.rest[..n - 1] == s.ret + s.server.rest[..n];
      PrependStep(cfg, s, ServerMoves, rest, more);
      states, moves := [s] + rest, [ServerMoves] + more;
    }
  }

  function AfterReads<H>(s: System<H>, c: nat, n: nat): System<H>
    requires c < |s.clients| && n <= |s.ret|
  {
    s.(clients := s.clients[c := s.clients[c].(got := s.clients[c].got + s.ret[..n])], ret := s.ret[n..])
  }

  lemma {:induction false} ReadsAreMoves<H>(cfg: Config<H>, s: System<H>, c: nat, n: nat)
    returns (states: seq<System<H>>, moves: seq<Move>)
    requires c < |s.clients| == |cfg.ids| && s.clients[c].pc.CRead? && n <= |s.ret|
    requires forall i :: 0 <= i < n ==> cfg.service.wants(s.clients[c].job, s.clients[c].got + s.ret[..i])
    ensures Run(cfg, states, moves) && |moves| == n && states[0] == s && states[n] == AfterReads(s, c, n)
    decreases n
  {
    var k := s.clients[c];
    assert k.got + s.ret[..0] == k.got && s.ret[0..] == s.ret && s.clients[c := k] == s.clients;
    if n == 0 {
      states, moves := [s], [];
    } else {
      assert cfg.service.wants(k.job, k.got + s.ret[..0]);
      var t := ClientStep(cfg, s, c);
      assert s.ret[..1] == [s.ret[0]];
      assert t == AfterReads(s, c, 1);
      assert Next(cfg, s, ClientMoves(c), t);
      forall i | 0 <= i < n - 1 ensures cfg.service.wants(k.job, t.clients[c].got + t.ret[..i]) {
        assert t.clients[c].got + t.ret[..i] == k.got + s.ret[..i + 1];
      }
      var rest, more := ReadsAreMoves(cfg, t, c, n - 1);
      assert t.clients[c].got + t.ret[..n - 1] == k.got + s.ret[..n];
      assert t.ret[n - 1..] == s.ret[n..];
      PrependStep(cfg, s, ClientMoves(c), rest, more);
      states, moves := [s] + rest, [ClientMoves(c)] + more;
    }
  }

  // ---------------------------------------------------------------- the call channel

  /** The channel carries the calls of the machine, and if `n` is not zero the server is at a read of
      `n` bytes; else it may be doing anything. */
  ghost predicate Carries<H>(cfg: Config<H>, s: System<H>, ch: Channel.Stream, n: nat) {
    && ch.ring.Valid() && |ch.ring.mem| == cfg.callCap && ch.ring.Contents() == s.call
    && |s.clients| == |cfg.ids|
    && (n > 0 ==> s.server.Receiving?)
    && forall i :: 0 <= i < n && i <= |s.call| ==> cfg.service.more(s.server.buf + s.call[..i])
  }

  /** Client `c` is sending, and what the channel's write under way has still to give, the command id, the
      call id or a part of the arguments, comes next in its request. */
  ghost predicate Sends<H>(s: System<H>, c: nat, ch: Channel.Stream) {
    && c < |s.clients| && s.clients[c].pc.CSend? && s.clients[c].pc.sent <= |s.clients[c].job|
    && ch.wrest <= s.clients[c].job[s.clients[c].pc.sent..]
  }

  /** The machine is where the channel has got to from `a` to `b`: what was received has reached the
      server, the queues agree, and whoever was sending still is, with what is left to give coming next. */
  ghost predicate Follows<H>(s: System<H>, c: nat, a: Channel.Stream, b: Channel.Stream, t: System<H>)
    requires a.ring.Valid() && b.ring.Valid()
  {
    && t.call == b.ring.Contents()
    && |a.received| <= |b.received|
    && (|a.received| < |b.received| ==> s.server.Receiving?)
    && t.server == (if s.server.Receiving? then Receiving(s.server.buf + b.received[|a.received|..]) else s.server)
    && (Gave(a, b) ==> Sends(t, c, b))
  }

  /** The step gave a chunk. */
  ghost predicate Gave(a: Channel.Stream, b: Channel.Stream)
    requires a.ring.Valid() && b.ring.Valid()
  {
    |b.ring.Contents()| > |a.ring.Contents()|
  }

  ghost predicate Gives(a: Channel.Stream, b: Channel.Stream, k: nat)
    requires a.ring.Valid() && b.ring.Valid()
  {
    && k <= |a.wrest| && b.received == a.received
    && b.ring.Contents() == a.ring.Contents() + a.wrest[..k] && b.wrest == a.wrest[k..]
  }

  lemma ChunkGiven<H>(cfg: Config<H>, s: System<H>, c: nat, n: nat, a: Channel.Stream, b: Channel.Stream, k: nat)
    returns (states: seq<System<H>>, moves: seq<Move>)
    requires Carries(cfg, s, a, n) && Sends(s, c, a) && b.ring.Valid() && |b.ring.mem| == |a.ring.mem|
    requires Gives(a, b, k)
    ensures Run(cfg, states, moves) && states[0] == s && Follows(s, c, a, b, states[|moves|])
  {
    hide Run, View;
    states, moves := SendsAreMoves(cfg, s, c, k);
    SentOn(s.clients[c].job, s.clients[c].pc.sent, a.wrest, k);
    assert b.received[|a.received|..] == [] && (s.server.Receiving? ==> s.server.buf + [] == s.server.buf);
  }

  lemma SentOn(job: seq<byte>, i: nat, rest: seq<byte>, k: nat)
    requires i <= |job| && rest <= job[i..] && k <= |rest|
    ensures i + k <= |job| && rest[..k] == job[i..i + k] && rest[k..] <= job[i + k..]
  {
    assert rest == job[i..][..|rest|];
  }

  lemma NothingMoved<H>(cfg: Config<H>, s: System<H>, c: nat, n: nat, a: Channel.Stream, b: Channel.Stream)
    requires Carries(cfg, s, a, n) && b.ring.Valid()
    requires b.ring.Contents() == a.ring.Contents() && b.received == a.received
    ensures Run(cfg, [s], []) && Follows(s, c, a, b, s)
  {
    hide View;
    assert b.received[|a.received|..] == [] && (s.server.Receiving? ==> s.server.buf + [] == s.server.buf);
  }

  lemma ChunkTaken<H>(cfg: Config<H>, s: System<H>, c: nat, n: nat, a: Channel.Stream, b: Channel.Stream, k: nat)
    returns (states: seq<System<H>>, moves: seq<Move>)
    requires Carries(cfg, s, a, n) && b.ring.Valid() && 0 < k <= n && k <= |a.ring.Contents()|
    requires b.ring.Contents() == a.ring.Contents()[k..] && b.received == a.received + a.ring.Contents()[..k]
    ensures Run(cfg, states, moves) && states[0] == s && Follows(s, c, a, b, states[|moves|])
  {
    hide Run, View;
    states, moves := ReceivesAreMoves(cfg, s, k);
    assert b.received[|a.received|..] == s.call[..k];
  }

  /** Whatever one step of the channel does to its queue, a chunk given of the write under way, one of
      several a request is made of, or a chunk of at most `n` bytes taken, whoever is sending or nobody,
      and whatever the server is doing while nothing is taken, is a run of the machine that follows it. */
  lemma ChannelStepIsRun<H>(cfg: Config<H>, s: System<H>, c: nat, n: nat, a: Channel.Stream, b: Channel.Stream)
    returns (states: seq<System<H>>, moves: seq<Move>)
    requires Carries(cfg, s, a, n) && b.ring.Valid() && |b.ring.mem| == |a.ring.mem|
    requires Queue.QueueStep(a, b) && |b.received| <= |a.received| + n
    requires Gave(a, b) ==> Sends(s, c, a)
    ensures Run(cfg, states, moves) && states[0] == s && Follows(s, c, a, b, states[|moves|])
  {
    hide Run, View, Follows, Sends;
    if b.ring.Contents() == a.ring.Contents() && b.received == a.received {
      states, moves := [s], [];
      NothingMoved(cfg, s, c, n, a, b);
    } else if k: nat :| Gives(a, b, k) {
      states, moves := ChunkGiven(cfg, s, c, n, a, b, k);
    } else {
      assert forall k: nat {:trigger a.wrest[..k]} :: !Gives(a, b, k);
      var k: nat :| k <= a.ring.DataLength()
        && b.ring.Contents() == a.ring.Contents()[k..] && b.received == a.received + a.ring.Contents()[..k];
      NotIdle(a.ring.Contents(), k, b.ring.Contents(), a.received, b.received);
      states, moves := ChunkTaken(cfg, s, c, n, a, b, k);
    }
  }

  // ---------------------------------------------------------------- the return channel

  /** The return channel likewise: a client may be past its take, at a read of `n` bytes, or about to
      take the call id it has peeked at. */
  ghost predicate CarriesReturn<H>(cfg: Config<H>, s: System<H>, c: nat, ch: Channel.Stream, n: nat) {
    && ch.ring.Valid() && |ch.ring.mem| == cfg.retCap && ch.ring.Contents() == s.ret
    && |s.clients| == |cfg.ids|
    && (n > 0 ==> c < |s.clients| && if s.clients[c].pc.CMatched? then n == U32_SIZE else AtRead(cfg, s, c, n))
  }

  ghost predicate AtRead<H>(cfg: Config<H>, s: System<H>, c: nat, n: nat)
    requires c < |s.clients|
  {
    var k := s.clients[c];
    k.pc.CRead? && forall i :: 0 <= i < n && i <= |s.ret| ==> cfg.service.wants(k.job, k.got + s.ret[..i])
  }

  ghost predicate Replies<H>(s: System<H>, ch: Channel.Stream) {
    s.server.Replying? && ch.wrest <= s.server.rest
  }

  /** What was received has reached the client: as part of the payload, or as the call id it takes. */
  ghost predicate FollowsReturn<H>(s: System<H>, c: nat, a: Channel.Stream, b: Channel.Stream, t: System<H>)
    requires a.ring.Valid() && b.ring.Valid()
  {
    && t.ret == b.ring.Contents()
    && |a.received| <= |b.received|
    && (Gave(a, b) ==> Replies(t, b))
    && (|b.received| > |a.received| ==>
          && c < |s.clients| == |t.clients| && t.clients[c].pc.CRead?
          && t.clients[c].got == if s.clients[c].pc.CRead? then s.clients[c].got + b.received[|a.received|..] else [])
  }

  lemma ReplyGiven<H>(cfg: Config<H>, s: System<H>, c: nat, n: nat, a: Channel.Stream, b: Channel.Stream, k: nat)
    returns (states: seq<System<H>>, moves: seq<Move>)
    requires CarriesReturn(cfg, s, c, a, n) && Replies(s, a) && b.ring.Valid() && |b.ring.mem| == |a.ring.mem|
    requires Gives(a, b, k)
    ensures Run(cfg, states, moves) && states[0] == s && FollowsReturn(s, c, a, b, states[|moves|])
  {
    hide Run, View;
    SentOn(s.server.rest, 0, a.wrest, k);
    states, moves := RepliesAreMoves(cfg, s, k);
  }

  lemma CallIdTaken<H>(cfg: Config<H>, s: System<H>, c: nat, a: Channel.Stream, b: Channel.Stream)
    returns (states: seq<System<H>>, moves: seq<Move>)
    requires CarriesReturn(cfg, s, c, a, U32_SIZE) && c < |s.clients| && s.clients[c].pc.CMatched?
    requires b.ring.Valid() && U32_SIZE <= |a.ring.Contents()| && b.ring.Contents() == a.ring.Contents()[U32_SIZE..]
    requires b.received == a.received + a.ring.Contents()[..U32_SIZE]
    ensures Run(cfg, states, moves) && states[0] == s && FollowsReturn(s, c, a, b, states[|moves|])
  {
    hide View;
    states, moves := [s, ClientStep(cfg, s, c)], [ClientMoves(c)];
  }

  lemma PayloadTaken<H>(cfg: Config<H>, s: System<H>, c: nat, n: nat, a: Channel.Stream, b: Channel.Stream, k: nat)
    returns (states: seq<System<H>>, moves: seq<Move>)
    requires CarriesReturn(cfg, s, c, a, n) && c < |s.clients| && AtRead(cfg, s, c, n)
    requires b.ring.Valid() && k <= n && k <= |a.ring.Contents()|
    requires b.ring.Contents() == a.ring.Contents()[k..] && b.received == a.received + a.ring.Contents()[..k]
    ensures Run(cfg, states, moves) && states[0] == s && FollowsReturn(s, c, a, b, states[|moves|])
  {
    hide Run, View;
    states, moves := ReadsAreMoves(cfg, s, c, k);
    assert b.received[|a.received|..] == s.ret[..k];
  }

  /** Whatever one step of the return channel does to its queue, part of a reply given, part of a payload
      of at most `n` bytes read, or the call id taken whole, is a run of the machine that follows it. */
  lemma ReturnStepIsRun<H>(cfg: Config<H>, s: System<H>, c: nat, n: nat, a: Channel.Stream, b: Channel.Stream)
    returns (states: seq<System<H>>, moves: seq<Move>)
    requires CarriesReturn(cfg, s, c, a, n) && b.ring.Valid() && |b.ring.mem| == |a.ring.mem|
    requires Queue.QueueStep(a, b) && |b.received| <= |a.received| + n
    requires Gave(a, b) ==> Replies(s, a)
    requires n > 0 && s.clients[c].pc.CMatched? ==> b.received == a.received || |b.received| == |a.received| + n
    ensures Run(cfg, states, moves) && states[0] == s && FollowsReturn(s, c, a, b, states[|moves|])
  {
    hide Run, View, Replies, AtRead;
    if b.ring.Contents() == a.ring.Contents() && b.received == a.received {
      states, moves := [s], [];
      OneState(cfg, s);
    } else if k: nat :| Gives(a, b, k) {
      states, moves := ReplyGiven(cfg, s, c, n, a, b, k);
    } else {
      assert forall k: nat {:trigger a.wrest[..k]} :: !Gives(a, b, k);
      var k: nat :| k <= a.ring.DataLength()
        && b.ring.Contents() == a.ring.Contents()[k..] && b.received == a.received + a.ring.Contents()[..k];
      NotIdle(a.ring.Contents(), k, b.ring.Contents(), a.received, b.received);
      if s.clients[c].pc.CMatched? {
        states, moves := CallIdTaken(cfg, s, c, a, b);
      } else {
        states, moves := PayloadTaken(cfg, s, c, n, a, b, k);
      }
    }
  }

  lemma OneState<H>(cfg: Config<H>, s: System<H>)
    ensures Run(cfg, [s], [])
  {
  }

  lemma NotIdle(contents: seq<byte>, k: nat, after: seq<byte>, received: seq<byte>, received': seq<byte>)
    requires k <= |contents| && after == contents[k..] && received' == received + contents[..k]
    requires after != contents || received' != received
    ensures k > 0
  {
    assert contents[0..] == contents && received + contents[..0] == received;
  }
}
