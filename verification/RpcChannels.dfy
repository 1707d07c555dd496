/** Threads and server over two channels of shared memory, step by step: every run of the whole is a
    run of the protocol machine, so what holds of that holds here, whatever the chunks. */
module RpcChannels {
  import opened Bytes
  import opened RingBuffer
  import opened RpcMachine
  import opened RpcInvariant
  import opened RpcSteps
  import opened RpcProgress
  import opened RpcChunks
  import opened RpcSafety
  import Channel = StreamMachine
  import Queue = StreamInvariant
  import Stream = StreamSafety

  // ---------------------------------------------------------------- one step of a channel

  /** What the writes asked for have still to give, and the reads and takes still to remove. */
  function ToGive(ch: Channel.Stream): seq<byte> {
    ch.wrest + Flat(ch.wjobs)
  }

  function ToTake(ch: Channel.Stream): nat {
    Stream.StillDue(ch.rpc, ch.rjob) + Stream.TotalDemand(ch.rjobs)
  }

  predicate WriterFree(ch: Channel.Stream) {
    ch.wpc.WIdle? && ch.wjobs == []
  }

  predicate ReaderFree(ch: Channel.Stream) {
    ch.rpc.RIdle? && ch.rjobs == []
  }

  /** The reader has nothing to remove, or will remove all of it in one take. */
  predicate TakesAtOnce(ch: Channel.Stream) {
    if ch.rpc.RIdle? then ch.rjobs == [] || (|ch.rjobs| == 1 && ch.rjobs[0].PeekTake?)
    else ch.rjobs == [] && ch.rjob.PeekTake?
  }

  /** From `a` to `b` the first `given` bytes to give were given, or the oldest `taken` were received. */
  ghost predicate Moved(a: Channel.Stream, b: Channel.Stream, given: nat, taken: nat)
    requires a.ring.Valid() && b.ring.Valid()
  {
    && |b.ring.mem| == |a.ring.mem|
    && given <= |ToGive(a)| && ToGive(b) == ToGive(a)[given..]
    && taken <= |a.ring.Contents()| && taken <= ToTake(a) && ToTake(b) == ToTake(a) - taken
    && (if given > 0 then taken == 0 && b.ring.Contents() == a.ring.Contents() + ToGive(a)[..given]
        else b.ring.Contents() == a.ring.Contents()[taken..])
    && b.received == a.received + a.ring.Contents()[..taken]
  }

  lemma NothingMoves(a: Channel.Stream, b: Channel.Stream)
    requires a.ring.Valid() && b.ring.Valid() && |b.ring.mem| == |a.ring.mem|
    requires b.ring.Contents() == a.ring.Contents() && b.received == a.received
    requires ToGive(b) == ToGive(a) && ToTake(b) == ToTake(a)
    ensures Moved(a, b, 0, 0)
  {
    var contents := a.ring.Contents();
    assert contents[0..] == contents && a.received + contents[..0] == a.received && ToGive(a)[0..] == ToGive(a);
  }

  lemma WriterMoved(a: Channel.Stream) returns (given: nat)
    requires Queue.Inv(a) && Channel.WriterCan(a) && Channel.WriterSafe(a)
    ensures Queue.Inv(Channel.WriterStep(a)) && Moved(a, Channel.WriterStep(a), given, 0)
  {
    hide Channel.WriterStep, Channel.WriterCan, Channel.WriterSafe, Queue.Inv, Moved, ToGive, ToTake, Vrb.Contents,
      Vrb.Valid;
    Queue.WriterKeeps(a);
    if a.wpc.WGive? {
      given := Gives(a);
    } else {
      given := 0;
      WriterGivesNothing(a);
      NothingMoves(a, Channel.WriterStep(a));
    }
  }

  lemma Gives(a: Channel.Stream) returns (given: nat)
    requires Queue.Inv(a) && a.wpc.WGive? && Channel.WriterSafe(a) && Queue.Inv(Channel.WriterStep(a))
    ensures Moved(a, Channel.WriterStep(a), given, 0)
  {
    hide Queue.LocksAgree, Queue.WakeupsOwed, Queue.ReaderOk;
    given := a.wpc.chunk;
    var b := Channel.WriterStep(a);
    GiveContents(a.ring, a.wpc.off, a.wrest[..given]);
    assert ToGive(a)[given..] == a.wrest[given..] + Flat(a.wjobs) && ToGive(a)[..given] == a.wrest[..given];
    assert a.received + a.ring.Contents()[..0] == a.received && a.ring.Contents()[0..] == a.ring.Contents();
    if given == 0 { assert a.ring.Contents() + a.wrest[..given] == a.ring.Contents(); }
  }

  lemma WriterGivesNothing(a: Channel.Stream)
    requires Queue.Inv(a) && Channel.WriterCan(a) && Channel.WriterSafe(a) && !a.wpc.WGive?
    ensures var b := Channel.WriterStep(a);
            && b.ring.Valid() && |b.ring.mem| == |a.ring.mem|
            && b.ring.Contents() == a.ring.Contents() && b.received == a.received
            && ToGive(b) == ToGive(a) && ToTake(b) == ToTake(a)
  {
    hide Queue.LocksAgree, Queue.WakeupsOwed, Queue.ReaderOk, Vrb.Contents;
    if a.wpc.WCopy? && a.wpc.copied < a.wpc.chunk {
      Queue.CopyByteReserved(a.ring, a.wrest, a.wpc.off, a.wpc.chunk, a.wpc.copied, a.wpc.done);
    }
  }

  lemma ReaderMoved(a: Channel.Stream) returns (taken: nat)
    requires Queue.Inv(a) && Channel.ReaderCan(a) && Channel.ReaderSafe(a)
    ensures Queue.Inv(Channel.ReaderStep(a)) && Moved(a, Channel.ReaderStep(a), 0, taken)
    ensures TakesAtOnce(a) ==> taken == 0 || taken == ToTake(a)
  {
    hide Channel.ReaderStep, Channel.ReaderCan, Channel.ReaderSafe, Queue.Inv, Moved, ToGive, ToTake, Vrb.Contents,
      Vrb.Valid, TakesAtOnce;
    Queue.ReaderKeeps(a);
    if a.rpc.RTake? {
      taken := Takes(a);
    } else {
      taken := 0;
      ReaderTakesNothing(a);
      NothingMoves(a, Channel.ReaderStep(a));
    }
  }

  lemma Takes(a: Channel.Stream) returns (taken: nat)
    requires Queue.Inv(a) && a.rpc.RTake? && Channel.ReaderSafe(a) && Queue.Inv(Channel.ReaderStep(a))
    ensures Moved(a, Channel.ReaderStep(a), 0, taken)
    ensures TakesAtOnce(a) ==> taken == ToTake(a)
  {
    hide Queue.LocksAgree, Queue.WakeupsOwed, Queue.WriterOk;
    taken := a.rpc.chunk;
    var b := Channel.ReaderStep(a);
    TakeContents(a.ring, taken);
    assert a.rbuf == a.ring.Contents()[..taken];
    assert ToGive(a)[0..] == ToGive(a);
  }

  lemma ReaderTakesNothing(a: Channel.Stream)
    requires Queue.Inv(a) && Channel.ReaderCan(a) && Channel.ReaderSafe(a) && !a.rpc.RTake?
    ensures var b := Channel.ReaderStep(a);
            && b.ring.Valid() && |b.ring.mem| == |a.ring.mem|
            && b.ring.Contents() == a.ring.Contents() && b.received == a.received
            && ToGive(b) == ToGive(a) && ToTake(b) == ToTake(a)
  {
    hide Queue.LocksAgree, Queue.WakeupsOwed, Queue.WriterOk, Vrb.Contents;
  }

  /** Every step of a channel gives the next bytes, or takes the oldest, or neither. */
  lemma StepMoves(a: Channel.Stream, m: Channel.Move, b: Channel.Stream) returns (given: nat, taken: nat)
    requires Queue.Inv(a) && Channel.Next(a, m, b)
    ensures Queue.Inv(b) && Moved(a, b, given, taken)
    ensures TakesAtOnce(a) ==> TakesAtOnce(b) && (taken == 0 || taken == ToTake(a))
  {
    hide Channel.ReaderStep, Channel.WriterStep, Moved, ToGive, ToTake, Vrb.Contents, TakesAtOnce;
    Queue.NextKeeps(a, m, b);
    AtOnceKeeps(a, m, b);
    given, taken := 0, 0;
    match m
    case WriterMoves => given := WriterMoved(a);
    case ReaderMoves => taken := ReaderMoved(a);
    case _ => WakesMoveNothing(a, m, b);
  }

  lemma WakesMoveNothing(a: Channel.Stream, m: Channel.Move, b: Channel.Stream)
    requires Queue.Inv(a) && Channel.Next(a, m, b) && (m == Channel.WriterWakes || m == Channel.ReaderWakes)
    requires Queue.Inv(b)
    ensures Moved(a, b, 0, 0)
  {
    NothingMoves(a, b);
  }

  lemma AtOnceKeeps(a: Channel.Stream, m: Channel.Move, b: Channel.Stream)
    requires Channel.Next(a, m, b)
    ensures TakesAtOnce(a) ==> TakesAtOnce(b)
  {
  }

  // ---------------------------------------------------------------- the whole

  /** Threads and server with what they are at, and the two channels. The queues of `sys` are those in
      the rings. */
  datatype Whole<H> = Whole(sys: System<H>, call: Channel.Stream, ret: Channel.Stream)

  /** A step of a thread or of the server outside the channels, or one in which it asks for a write, a
      read, a peek or a take; or a step of one side of a channel. */
  datatype Act =
    | Alone(m: Move)
    | AsksToSend(client: nat, n: nat)
    | AsksToReceive(n: nat)
    | AsksToReply(n: nat)
    | AsksToPeek(client: nat)
    | AsksToTake(client: nat)
    | AsksToRead(client: nat, n: nat)
    | OnCall(step: Channel.Move)
    | OnReturn(step: Channel.Move)

  /** The steps that move no byte. */
  predicate MovesNothing<H>(cfg: Config<H>, s: System<H>, m: Move) {
    match m
    case ClientMoves(c) =>
      c < |s.clients| &&
      (match s.clients[c].pc
       case CSend(sent) => sent == |s.clients[c].job|
       case CMatched => false
       case CRead => !cfg.service.wants(s.clients[c].job, s.clients[c].got)
       case _ => true)
    case ServerMoves =>
      match s.server
      case Receiving(buf) => !cfg.service.more(buf)
      case Replying(rest) => rest == []
  }

  /** Whoever makes the step is not inside an operation of a channel. */
  predicate Outside<H>(w: Whole<H>, m: Move) {
    match m
    case ClientMoves(c) =>
      c < |w.sys.clients| &&
      (match w.sys.clients[c].pc
       case CSend(_) => WriterFree(w.call)
       case CPeek => ReaderFree(w.ret)
       case CRead => ReaderFree(w.ret)
       case _ => true)
    case ServerMoves =>
      match w.sys.server
      case Receiving(_) => ReaderFree(w.call)
      case Replying(_) => WriterFree(w.ret)
  }

  /** Whatever the next bytes are, the handler receives `n` more. */
  ghost predicate ServerReads<H>(cfg: Config<H>, s: System<H>, n: nat) {
    s.server.Receiving? && forall d: seq<byte> :: |d| < n ==> cfg.service.more(s.server.buf + d)
  }

  /** Whatever the next bytes are, the stub of the client receives `n` more. */
  ghost predicate ClientReads<H>(cfg: Config<H>, k: Client, n: nat) {
    k.pc.CRead? && forall d: seq<byte> :: |d| < n ==> cfg.service.wants(k.job, k.got + d)
  }

  function Minus(m: nat, n: nat): nat {
    if m >= n then m - n else 0
  }

  function Given(a: Channel.Stream, b: Channel.Stream): nat {
    Minus(|ToGive(a)|, |ToGive(b)|)
  }

  function Taken(a: Channel.Stream, b: Channel.Stream): seq<byte> {
    if |a.received| <= |b.received| then b.received[|a.received|..] else []
  }

  /** A thread in the middle of a write has sent what was given, one in a read has got what was taken. */
  function Sender(k: Client, given: nat): Client {
    if k.pc.CSend? then k.(pc := CSend(k.pc.sent + given)) else k
  }

  function Reader(k: Client, taken: seq<byte>): Client {
    if taken == [] then k
    else if k.pc.CRead? then k.(got := k.got + taken)
    else if k.pc.CMatched? then k.(pc := CRead, got := [])
    else k
  }

  /** What a step of the call channel is to the threads and the server. */
  ghost function CallCarried<H>(s: System<H>, a: Channel.Stream, b: Channel.Stream): System<H>
    requires b.ring.Valid()
  {
    s.(call := b.ring.Contents(),
       clients := if s.callLock.By? && s.callLock.client < |s.clients|
                  then s.clients[s.callLock.client := Sender(s.clients[s.callLock.client], Given(a, b))] else s.clients,
       server := if s.server.Receiving? then Receiving(s.server.buf + Taken(a, b)) else s.server)
  }

  /** What a step of the return channel is to them. */
  ghost function ReturnCarried<H>(s: System<H>, a: Channel.Stream, b: Channel.Stream): System<H>
    requires b.ring.Valid()
  {
    s.(ret := b.ring.Contents(),
       clients := if s.retLock.By? && s.retLock.client < |s.clients|
                  then s.clients[s.retLock.client := Reader(s.clients[s.retLock.client], Taken(a, b))] else s.clients,
       server := if s.server.Replying? && Given(a, b) <= |s.server.rest| then Replying(s.server.rest[Given(a, b)..])
                 else s.server)
  }

  ghost predicate WholeNext<H>(cfg: Config<H>, w: Whole<H>, act: Act, x: Whole<H>) {
    var s := w.sys;
    match act
    case Alone(m) =>
      MovesNothing(cfg, s, m) && Outside(w, m) && Next(cfg, s, m, x.sys) && x.call == w.call && x.ret == w.ret
    case AsksToSend(c, n) =>
      && s.callLock == By(c) && c < |s.clients| && s.clients[c].pc.CSend? && WriterFree(w.call)
      && s.clients[c].pc.sent + n <= |s.clients[c].job|
      && x == w.(call := w.call.(wjobs := [s.clients[c].job[s.clients[c].pc.sent..s.clients[c].pc.sent + n]]))
    case AsksToReceive(n) =>
      ServerReads(cfg, s, n) && ReaderFree(w.call) && x == w.(call := w.call.(rjobs := [Channel.Read(n)]))
    case AsksToReply(n) =>
      && s.server.Replying? && n <= |s.server.rest| && WriterFree(w.ret)
      && x == w.(ret := w.ret.(wjobs := [s.server.rest[..n]]))
    case AsksToPeek(c) =>
      && s.retLock == By(c) && c < |s.clients| && s.clients[c].pc.CPeek? && ReaderFree(w.ret)
      && x == w.(ret := w.ret.(rjobs := [Channel.Peek(U32_SIZE)]))
    // the take names its peek again, which finds the bytes still there
    case AsksToTake(c) =>
      && s.retLock == By(c) && c < |s.clients| && s.clients[c].pc.CMatched? && ReaderFree(w.ret)
      && x == w.(ret := w.ret.(rjobs := [Channel.PeekTake(U32_SIZE)]))
    case AsksToRead(c, n) =>
      && s.retLock == By(c) && c < |s.clients| && ClientReads(cfg, s.clients[c], n) && ReaderFree(w.ret)
      && x == w.(ret := w.ret.(rjobs := [Channel.Read(n)]))
    case OnCall(step) =>
      && Channel.Next(w.call, step, x.call) && x.call.ring.Valid()
      && x.ret == w.ret && x.sys == CallCarried(s, w.call, x.call)
    case OnReturn(step) =>
      && Channel.Next(w.ret, step, x.ret) && x.ret.ring.Valid()
      && x.call == w.call && x.sys == ReturnCarried(s, w.ret, x.ret)
  }

  ghost predicate WholeInit<H>(cfg: Config<H>, w: Whole<H>) {
    && Init(w.sys) && GoodJobs(cfg, w.sys.clients)
    && Channel.Init(w.call) && WriterFree(w.call) && ReaderFree(w.call) && |w.call.ring.mem| == cfg.callCap
    && Channel.Init(w.ret) && WriterFree(w.ret) && ReaderFree(w.ret) && |w.ret.ring.mem| == cfg.retCap
  }

  ghost predicate WholeRun<H>(cfg: Config<H>, wholes: seq<Whole<H>>, acts: seq<Act>) {
    && |wholes| == |acts| + 1 && WholeInit(cfg, wholes[0])
    && forall i :: 0 <= i < |acts| ==> WholeNext(cfg, wholes[i], acts[i], wholes[i + 1])
  }

  // ---------------------------------------------------------------- what ties threads and channels

  ghost predicate Sending<H>(s: System<H>, data: seq<byte>) {
    && s.callLock.By? && s.callLock.client < |s.clients|
    && var k := s.clients[s.callLock.client];
       k.pc.CSend? && k.pc.sent <= |k.job| && data <= k.job[k.pc.sent..]
  }

  ghost predicate Taking<H>(cfg: Config<H>, s: System<H>, ch: Channel.Stream) {
    && s.retLock.By? && s.retLock.client < |s.clients|
    && var k := s.clients[s.retLock.client];
       ClientReads(cfg, k, ToTake(ch)) || (k.pc.CMatched? && ToTake(ch) == U32_SIZE && TakesAtOnce(ch))
  }

  ghost predicate CallSide<H>(cfg: Config<H>, s: System<H>, ch: Channel.Stream) {
    && ch.ring.Valid() && Queue.Inv(ch) && |ch.ring.mem| == cfg.callCap && ch.ring.Contents() == s.call
    && (ToGive(ch) != [] ==> Sending(s, ToGive(ch)))
    && (ToTake(ch) > 0 ==> ServerReads(cfg, s, ToTake(ch)))
  }

  ghost predicate ReturnSide<H>(cfg: Config<H>, s: System<H>, ch: Channel.Stream) {
    && ch.ring.Valid() && Queue.Inv(ch) && |ch.ring.mem| == cfg.retCap && ch.ring.Contents() == s.ret
    && (ToGive(ch) != [] ==> s.server.Replying? && ToGive(ch) <= s.server.rest)
    && (ToTake(ch) > 0 ==> Taking(cfg, s, ch))
  }

  lemma HowMuch(a: Channel.Stream, b: Channel.Stream, given: nat, taken: nat)
    requires a.ring.Valid() && b.ring.Valid() && Moved(a, b, given, taken)
    ensures Given(a, b) == given && Taken(a, b) == a.ring.Contents()[..taken]
  {
  }

  lemma CallGiven<H>(cfg: Config<H>, s: System<H>, a: Channel.Stream, b: Channel.Stream, given: nat)
    returns (states: seq<System<H>>, moves: seq<Move>)
    requires CallSide(cfg, s, a) && |s.clients| == |cfg.ids| && b.ring.Valid() && Moved(a, b, given, 0) && given > 0
    ensures Run(cfg, states, moves) && states[0] == s && states[|moves|] == CallCarried(s, a, b)
  {
    hide Run, ToGive, ToTake, Queue.Inv, Vrb.Contents, ServerReads;
    HowMuch(a, b, given, 0);
    var c := s.callLock.client;
    SentOn(s.clients[c].job, s.clients[c].pc.sent, ToGive(a), given);
    states, moves := SendsAreMoves(cfg, s, c, given);
    SameServer(s, a.ring.Contents());
  }

  lemma SameServer<H>(s: System<H>, contents: seq<byte>)
    ensures s.server.Receiving? ==> Receiving(s.server.buf + contents[..0]) == s.server
  {
    if s.server.Receiving? { assert s.server.buf + contents[..0] == s.server.buf; }
  }

  lemma CallTaken<H>(cfg: Config<H>, s: System<H>, a: Channel.Stream, b: Channel.Stream, taken: nat)
    returns (states: seq<System<H>>, moves: seq<Move>)
    requires CallSide(cfg, s, a) && |s.clients| == |cfg.ids| && b.ring.Valid() && Moved(a, b, 0, taken) && taken > 0
    ensures Run(cfg, states, moves) && states[0] == s && states[|moves|] == CallCarried(s, a, b)
  {
    hide Run, ToGive, ToTake, Queue.Inv, Vrb.Contents, Sending;
    HowMuch(a, b, 0, taken);
    states, moves := ReceivesAreMoves(cfg, s, taken);
    SameSender(s);
  }

  lemma CallRests<H>(cfg: Config<H>, s: System<H>, a: Channel.Stream, b: Channel.Stream)
    requires CallSide(cfg, s, a) && b.ring.Valid() && Moved(a, b, 0, 0)
    ensures CallCarried(s, a, b) == s
  {
    hide ToGive, ToTake, Queue.Inv, Vrb.Contents, Sending, ServerReads;
    HowMuch(a, b, 0, 0);
    SameSender(s);
    SameServer(s, a.ring.Contents());
    assert a.ring.Contents()[0..] == a.ring.Contents();
  }

  /** A step of the call channel is a run of the machine. */
  lemma OnCallIsRun<H>(cfg: Config<H>, s: System<H>, a: Channel.Stream, b: Channel.Stream, given: nat, taken: nat)
    returns (states: seq<System<H>>, moves: seq<Move>)
    requires CallSide(cfg, s, a) && |s.clients| == |cfg.ids| && b.ring.Valid() && Moved(a, b, given, taken)
    ensures Run(cfg, states, moves) && states[0] == s && states[|moves|] == CallCarried(s, a, b)
  {
    hide Run, CallCarried, ToGive, ToTake, Queue.Inv, Vrb.Contents, Sending, ServerReads;
    if given > 0 {
      states, moves := CallGiven(cfg, s, a, b, given);
    } else if taken > 0 {
      states, moves := CallTaken(cfg, s, a, b, taken);
    } else {
      states, moves := [s], [];
      OneState(cfg, s);
      CallRests(cfg, s, a, b);
    }
  }

  lemma SameSender<H>(s: System<H>)
    ensures s.callLock.By? && s.callLock.client < |s.clients|
            ==> s.clients[s.callLock.client := Sender(s.clients[s.callLock.client], 0)] == s.clients
  {
  }

  lemma SameReader<H>(s: System<H>, contents: seq<byte>)
    ensures s.retLock.By? && s.retLock.client < |s.clients|
            ==> s.clients[s.retLock.client := Reader(s.clients[s.retLock.client], contents[..0])] == s.clients
  {
  }

  lemma ReturnGiven<H>(cfg: Config<H>, s: System<H>, a: Channel.Stream, b: Channel.Stream, given: nat)
    returns (states: seq<System<H>>, moves: seq<Move>)
    requires ReturnSide(cfg, s, a) && |s.clients| == |cfg.ids| && b.ring.Valid() && Moved(a, b, given, 0) && given > 0
    ensures Run(cfg, states, moves) && states[0] == s && states[|moves|] == ReturnCarried(s, a, b)
  {
    hide Run, ToGive, ToTake, Queue.Inv, Vrb.Contents, Taking;
    HowMuch(a, b, given, 0);
    SentOn(s.server.rest, 0, ToGive(a), given);
    states, moves := RepliesAreMoves(cfg, s, given);
    SameReader(s, a.ring.Contents());
  }

  lemma ReturnTaken<H>(cfg: Config<H>, s: System<H>, a: Channel.Stream, b: Channel.Stream, taken: nat)
    returns (states: seq<System<H>>, moves: seq<Move>)
    requires ReturnSide(cfg, s, a) && |s.clients| == |cfg.ids| && b.ring.Valid() && Moved(a, b, 0, taken) && taken > 0
    requires TakesAtOnce(a) ==> taken == ToTake(a)
    ensures Run(cfg, states, moves) && states[0] == s && states[|moves|] == ReturnCarried(s, a, b)
  {
    hide ToGive, ToTake, Queue.Inv, Vrb.Contents, TakesAtOnce;
    HowMuch(a, b, 0, taken);
    var c := s.retLock.client;
    if s.clients[c].pc.CRead? {
      states, moves := ReadsAreMoves(cfg, s, c, taken);
    } else {
      states, moves := [s, ClientStep(cfg, s, c)], [ClientMoves(c)];
    }
    SameRest(s);
  }

  lemma SameRest<H>(s: System<H>)
    ensures s.server.Replying? ==> Replying(s.server.rest[0..]) == s.server
  {
    if s.server.Replying? { assert s.server.rest[0..] == s.server.rest; }
  }

  lemma ReturnRests<H>(cfg: Config<H>, s: System<H>, a: Channel.Stream, b: Channel.Stream)
    requires ReturnSide(cfg, s, a) && b.ring.Valid() && Moved(a, b, 0, 0)
    ensures ReturnCarried(s, a, b) == s
  {
    hide ToGive, ToTake, Queue.Inv, Vrb.Contents, Taking;
    HowMuch(a, b, 0, 0);
    SameReader(s, a.ring.Contents());
    SameRest(s);
    assert a.ring.Contents()[0..] == a.ring.Contents();
  }

  /** A step of the return channel is a run of the machine. */
  lemma OnReturnIsRun<H>(cfg: Config<H>, s: System<H>, a: Channel.Stream, b: Channel.Stream, given: nat, taken: nat)
    returns (states: seq<System<H>>, moves: seq<Move>)
    requires ReturnSide(cfg, s, a) && |s.clients| == |cfg.ids| && b.ring.Valid() && Moved(a, b, given, taken)
    requires TakesAtOnce(a) ==> taken == 0 || taken == ToTake(a)
    ensures Run(cfg, states, moves) && states[0] == s && states[|moves|] == ReturnCarried(s, a, b)
  {
    hide Run, ReturnCarried, ToGive, ToTake, Queue.Inv, Vrb.Contents, TakesAtOnce, Taking;
    if given > 0 {
      states, moves := ReturnGiven(cfg, s, a, b, given);
    } else if taken > 0 {
      states, moves := ReturnTaken(cfg, s, a, b, taken);
    } else {
      states, moves := [s], [];
      OneState(cfg, s);
      ReturnRests(cfg, s, a, b);
    }
  }

  // ---------------------------------------------------------------- what every step keeps

  lemma OnCallKeepsCall<H>(cfg: Config<H>, s: System<H>, a: Channel.Stream, b: Channel.Stream, given: nat, taken: nat)
    requires CallSide(cfg, s, a) && Queue.Inv(b) && Moved(a, b, given, taken)
    ensures CallSide(cfg, CallCarried(s, a, b), b)
  {
    hide ToGive, ToTake, Vrb.Contents, Queue.LocksAgree, Queue.WriterOk, Queue.ReaderOk, Queue.WakeupsOwed;
    HowMuch(a, b, given, taken);
    var t := CallCarried(s, a, b);
    if ToGive(b) != [] {
      var k := s.clients[s.callLock.client];
      SentOn(k.job, k.pc.sent, ToGive(a), given);
    }
    if ToTake(b) > 0 {
      forall d: seq<byte> | |d| < ToTake(b) ensures cfg.service.more(t.server.buf + d) {
        Assoc(s.server.buf, a.ring.Contents()[..taken], d);
        assert |a.ring.Contents()[..taken] + d| < ToTake(a);
      }
    }
  }

  lemma OnCallKeepsReturn<H>(cfg: Config<H>, s: System<H>, a: Channel.Stream, b: Channel.Stream, ch: Channel.Stream)
    requires ReturnSide(cfg, s, ch) && b.ring.Valid()
    ensures ReturnSide(cfg, CallCarried(s, a, b), ch)
  {
    hide ToGive, ToTake, Vrb.Contents, Queue.Inv, TakesAtOnce;
  }

  lemma OnReturnKeepsReturn<H>(cfg: Config<H>, s: System<H>, a: Channel.Stream, b: Channel.Stream, given: nat,
                               taken: nat)
    requires ReturnSide(cfg, s, a) && Queue.Inv(b) && Moved(a, b, given, taken)
    requires TakesAtOnce(a) ==> TakesAtOnce(b) && (taken == 0 || taken == ToTake(a))
    ensures ReturnSide(cfg, ReturnCarried(s, a, b), b)
  {
    hide ToGive, ToTake, Vrb.Contents, TakesAtOnce, Queue.LocksAgree, Queue.WriterOk, Queue.ReaderOk, Queue.WakeupsOwed;
    HowMuch(a, b, given, taken);
    var t := ReturnCarried(s, a, b);
    if ToGive(b) != [] {
      SentOn(s.server.rest, 0, ToGive(a), given);
    }
    if ToTake(b) > 0 {
      var k := s.clients[s.retLock.client];
      if k.pc.CRead? {
        StillReads(cfg, k, a.ring.Contents()[..taken], ToTake(a));
      }
    }
  }

  lemma StillReads<H>(cfg: Config<H>, k: Client, data: seq<byte>, n: nat)
    requires ClientReads(cfg, k, n) && |data| <= n
    ensures ClientReads(cfg, Reader(k, data), n - |data|)
  {
    forall d: seq<byte> | |d| < n - |data| ensures cfg.service.wants(k.job, Reader(k, data).got + d) {
      Assoc(k.got, data, d);
      assert |data + d| < n;
      if data == [] { assert data + d == d; }
    }
  }

  lemma OnReturnKeepsCall<H>(cfg: Config<H>, s: System<H>, a: Channel.Stream, b: Channel.Stream, ch: Channel.Stream)
    requires CallSide(cfg, s, ch) && b.ring.Valid()
    ensures CallSide(cfg, ReturnCarried(s, a, b), ch)
  {
    hide ToGive, ToTake, Vrb.Contents, Queue.Inv;
  }

  lemma ClientAlone<H>(cfg: Config<H>, s: System<H>, c: nat, t: System<H>)
    requires MovesNothing(cfg, s, ClientMoves(c)) && Next(cfg, s, ClientMoves(c), t)
    ensures t.call == s.call && t.ret == s.ret && t.server == s.server && |t.clients| == |s.clients|
    ensures forall d :: 0 <= d < |s.clients| && d != c ==> t.clients[d] == s.clients[d]
  {
    hide EncodeU32;
  }

  lemma ServerAlone<H>(cfg: Config<H>, s: System<H>, t: System<H>)
    requires MovesNothing(cfg, s, ServerMoves) && Next(cfg, s, ServerMoves, t)
    ensures t.call == s.call && t.ret == s.ret && t.clients == s.clients
    ensures t.callLock == s.callLock && t.retLock == s.retLock
  {
  }

  /** A step outside the channels leaves whoever is inside one where it is. */
  lemma AloneKeepsCall<H>(cfg: Config<H>, s: System<H>, m: Move, t: System<H>, ch: Channel.Stream)
    requires CallSide(cfg, s, ch) && MovesNothing(cfg, s, m) && Next(cfg, s, m, t)
    requires LocksOk(t.callLock, t.retLock, t.clients)
    ensures CallSide(cfg, t, ch)
  {
    hide ToGive, ToTake, Vrb.Contents, Queue.Inv, Next;
    match m
    case ClientMoves(c) => ClientAlone(cfg, s, c, t);
    case ServerMoves =>
      ServerAlone(cfg, s, t);
      if s.server.Receiving? { assert s.server.buf + [] == s.server.buf; }
  }

  lemma AloneKeepsReturn<H>(cfg: Config<H>, s: System<H>, m: Move, t: System<H>, ch: Channel.Stream)
    requires ReturnSide(cfg, s, ch) && MovesNothing(cfg, s, m) && Next(cfg, s, m, t)
    requires LocksOk(t.callLock, t.retLock, t.clients)
    ensures ReturnSide(cfg, t, ch)
  {
    hide ToGive, ToTake, Vrb.Contents, Queue.Inv, TakesAtOnce, Next;
    match m
    case ClientMoves(c) =>
      ClientAlone(cfg, s, c, t);
      if ToTake(ch) > 0 {
        var k := s.clients[s.retLock.client];
        assert k.got + [] == k.got;
      }
    case ServerMoves => ServerAlone(cfg, s, t);
  }

  lemma WritesKeep(ch: Channel.Stream, data: seq<byte>)
    requires Queue.Inv(ch) && WriterFree(ch)
    ensures var x := ch.(wjobs := [data]); Queue.Inv(x) && ToGive(x) == data && ToTake(x) == ToTake(ch)
    ensures TakesAtOnce(ch) ==> TakesAtOnce(ch.(wjobs := [data]))
  {
    hide Vrb.Contents, Queue.LocksAgree, Queue.ReaderOk, Queue.WakeupsOwed;
    assert [data][1..] == [] && Flat([data]) == data && [] + data == data;
  }

  lemma ReadsKeep(ch: Channel.Stream, job: Channel.Job)
    requires Queue.Inv(ch) && ReaderFree(ch)
    ensures var x := ch.(rjobs := [job]); Queue.Inv(x) && ToGive(x) == ToGive(ch) && ToTake(x) == Stream.Demand(job)
    ensures job.PeekTake? ==> TakesAtOnce(ch.(rjobs := [job]))
  {
    hide Vrb.Contents, Queue.LocksAgree, Queue.WriterOk, Queue.WakeupsOwed;
    assert [job][1..] == [] && Stream.TotalDemand([job]) == Stream.Demand(job);
  }

  /** Asking for an operation puts its bytes before the channel. */
  lemma AsksKeep<H>(cfg: Config<H>, w: Whole<H>, act: Act, x: Whole<H>)
    requires WholeNext(cfg, w, act, x) && !act.Alone? && !act.OnCall? && !act.OnReturn?
    requires CallSide(cfg, w.sys, w.call) && ReturnSide(cfg, w.sys, w.ret)
    ensures x.sys == w.sys && CallSide(cfg, x.sys, x.call) && ReturnSide(cfg, x.sys, x.ret)
  {
    hide Vrb.Contents, Queue.Inv, ToGive, ToTake, WriterFree, ReaderFree, TakesAtOnce;
    match act
    case AsksToSend(c, n) =>
      var k := w.sys.clients[c];
      WritesKeep(w.call, k.job[k.pc.sent..k.pc.sent + n]);
    case AsksToReceive(n) => ReadsKeep(w.call, Channel.Read(n));
    case AsksToReply(n) => WritesKeep(w.ret, w.sys.server.rest[..n]);
    case AsksToPeek(c) => ReadsKeep(w.ret, Channel.Peek(U32_SIZE));
    case AsksToTake(c) => ReadsKeep(w.ret, Channel.PeekTake(U32_SIZE));
    case AsksToRead(c, n) => ReadsKeep(w.ret, Channel.Read(n));
  }

  // ---------------------------------------------------------------- whole runs

  lemma JoinRuns<H>(cfg: Config<H>, a: seq<System<H>>, am: seq<Move>, b: seq<System<H>>, bm: seq<Move>)
    requires Run(cfg, a, am) && Run(cfg, b, bm) && a[|am|] == b[0]
    ensures Run(cfg, a + b[1..], am + bm) && (a + b[1..])[0] == a[0] && (a + b[1..])[|am + bm|] == b[|bm|]
  {
    hide Next;
    forall i | 0 <= i < |am + bm| ensures Next(cfg, (a + b[1..])[i], (am + bm)[i], (a + b[1..])[i + 1]) {
      if i < |am| {
        assert Next(cfg, a[i], am[i], a[i + 1]);
      } else {
        assert Next(cfg, b[i - |am|], bm[i - |am|], b[i - |am| + 1]);
      }
    }
  }

  /** A step of the whole is a run of the machine, of no step or several, and keeps threads and channels
      together. */
  lemma WholeStepIsRun<H(!new)>(cfg: Config<H>, asked: seq<seq<seq<byte>>>, h: H, w: Whole<H>, act: Act, x: Whole<H>)
    returns (states: seq<System<H>>, moves: seq<Move>)
    requires Inv(cfg, asked, h, w.sys) && WholeNext(cfg, w, act, x)
    requires CallSide(cfg, w.sys, w.call) && ReturnSide(cfg, w.sys, w.ret)
    ensures Run(cfg, states, moves) && states[0] == w.sys && states[|moves|] == x.sys
    ensures CallSide(cfg, x.sys, x.call) && ReturnSide(cfg, x.sys, x.ret)
  {
    hide CallSide, ReturnSide, CallCarried, ReturnCarried, Run, Moved, ToTake, TakesAtOnce, Channel.Next, Queue.Inv,
      GoodConfig, Flows, History, CountsOk, EntriesOk;
    SameClients(cfg, asked, h, w.sys);
    match act
    case Alone(m) =>
      states, moves := [w.sys, x.sys], [m];
      OneStep(cfg, w.sys, m, x.sys);
      NextKeeps(cfg, asked, h, w.sys, m, x.sys);
      AloneKeepsCall(cfg, w.sys, m, x.sys, w.call);
      AloneKeepsReturn(cfg, w.sys, m, x.sys, w.ret);
    case OnCall(step) =>
      SideIsSound(cfg, w);
      var given, taken := StepMoves(w.call, step, x.call);
      states, moves := OnCallIsRun(cfg, w.sys, w.call, x.call, given, taken);
      OnCallKeepsCall(cfg, w.sys, w.call, x.call, given, taken);
      OnCallKeepsReturn(cfg, w.sys, w.call, x.call, w.ret);
    case OnReturn(step) =>
      SideIsSound(cfg, w);
      var given, taken := StepMoves(w.ret, step, x.ret);
      states, moves := OnReturnIsRun(cfg, w.sys, w.ret, x.ret, given, taken);
      OnReturnKeepsReturn(cfg, w.sys, w.ret, x.ret, given, taken);
      OnReturnKeepsCall(cfg, w.sys, w.ret, x.ret, w.call);
    case _ =>
      states, moves := [w.sys], [];
      OneState(cfg, w.sys);
      AsksKeep(cfg, w, act, x);
  }

  lemma SameClients<H(!new)>(cfg: Config<H>, asked: seq<seq<seq<byte>>>, h: H, s: System<H>)
    requires Inv(cfg, asked, h, s)
    ensures |s.clients| == |cfg.ids| == |asked|
  {
  }

  lemma SideIsSound<H>(cfg: Config<H>, w: Whole<H>)
    requires CallSide(cfg, w.sys, w.call) && ReturnSide(cfg, w.sys, w.ret)
    ensures Queue.Inv(w.call) && Queue.Inv(w.ret)
  {
  }

  lemma OneStep<H>(cfg: Config<H>, s: System<H>, m: Move, t: System<H>)
    requires Next(cfg, s, m, t)
    ensures Run(cfg, [s, t], [m])
  {
  }

  lemma WholeBegins<H>(cfg: Config<H>, w: Whole<H>)
    requires WholeInit(cfg, w)
    ensures CallSide(cfg, w.sys, w.call) && ReturnSide(cfg, w.sys, w.ret)
  {
    Queue.InitInv(w.call);
    Queue.InitInv(w.ret);
  }

  /** Every run of threads and server over the channels, whatever the scheduling and however the ring and
      the peers cut the transfers into chunks, is a run of the protocol machine, whose queues are what
      lies in the rings. */
  lemma {:induction false} WholeRunIsRun<H(!new)>(cfg: Config<H>, wholes: seq<Whole<H>>, acts: seq<Act>, k: nat)
    returns (states: seq<System<H>>, moves: seq<Move>)
    requires GoodConfig(cfg) && WholeRun(cfg, wholes, acts) && k < |wholes|
    ensures Run(cfg, states, moves) && states[0] == wholes[0].sys && states[|moves|] == wholes[k].sys
    ensures CallSide(cfg, wholes[k].sys, wholes[k].call) && ReturnSide(cfg, wholes[k].sys, wholes[k].ret)
    ensures wholes[k].call.ring.Valid() && wholes[k].sys.call == wholes[k].call.ring.Contents()
    ensures wholes[k].ret.ring.Valid() && wholes[k].sys.ret == wholes[k].ret.ring.Contents()
  {
    hide Next, WholeNext, GoodConfig, Inv, GoodJobs, Init, Channel.Init, Sending, Taking, ServerReads, Queue.Inv,
      Vrb.Contents;
    if k == 0 {
      WholeBegins(cfg, wholes[0]);
      states, moves := [wholes[0].sys], [];
    } else {
      states, moves := WholeRunIsRun(cfg, wholes, acts, k - 1);
      RunKeeps(cfg, states, moves, |moves|);
      var asked, h := Asked(states[0].clients), states[0].heap;
      var more, steps := WholeStepIsRun(cfg, asked, h, wholes[k - 1], acts[k - 1], wholes[k]);
      JoinRuns(cfg, states, moves, more, steps);
      states, moves := states + more[1..], moves + steps;
    }
  }

  /** So over the channels, too, each thread gets its own replies, each once and in order, from one
      sequential execution. */
  lemma EachThreadGetsItsReplies<H(!new)>(cfg: Config<H>, wholes: seq<Whole<H>>, acts: seq<Act>, k: nat, c: nat)
    requires GoodConfig(cfg) && WholeRun(cfg, wholes, acts) && k < |wholes| && c < |wholes[0].sys.clients|
    ensures var s := wholes[k].sys;
            && |s.clients| == |wholes[0].sys.clients|
            && Sequential(cfg.service, wholes[0].sys.heap, s.log)
            && FramesOf(s.log, c) <= wholes[0].sys.clients[c].jobs
            && s.clients[c].results <= PayloadsOf(cfg.service, s.log, c)
            && (!Outstanding(cfg.service, s.clients[c]) ==> s.clients[c].results == PayloadsOf(cfg.service, s.log, c))
  {
    hide Next, WholeNext, GoodConfig, GoodJobs, Init, Channel.Init, CallSide, ReturnSide, Sequential, FramesOf,
      PayloadsOf, Outstanding;
    var states, moves := WholeRunIsRun(cfg, wholes, acts, k);
    EachClientGetsItsReplies(cfg, states, moves, |moves|, c);
  }

  function Fresh(cap: nat): Channel.Stream {
    var ring := Vrb(seq(cap, _ => 0), 0, 0);
    Channel.Stream(ring, Channel.Free, Channel.Free, Channel.WIdle, [], [], Channel.RIdle, Channel.Read(0), [], [], [])
  }

  /** Whatever the threads start with, there is a whole that begins with it on fresh channels. */
  lemma SomeWholeBegins<H(!new)>(cfg: Config<H>, s: System<H>) returns (w: Whole<H>)
    requires GoodConfig(cfg) && Init(s) && GoodJobs(cfg, s.clients)
    ensures w.sys == s && WholeInit(cfg, w) && WholeRun(cfg, [w], [])
  {
    hide GoodService, GoodJobs;
    w := Whole(s, Fresh(cfg.callCap), Fresh(cfg.retCap));
  }
}
