/** Calls made through stub, transport, dispatcher and handler, against the same calls made directly. */
module GlesRemote {
  import opened Bytes
  import opened Serializer
  import opened Wire
  import opened GlesWire
  import opened GlesFrames
  import opened GlesCalls
  import opened GlesServer
  import opened GlesMeaning
  import opened GlesProgram
  import opened RpcMachine
  import opened RpcInvariant
  import opened RpcSafety
  import opened RpcSteps
  import opened RpcProgress
  import opened RpcBounds
  import opened RpcChannels

  /** The serving process: the real GL, and the vertex arrays enabled in it. */
  datatype State<G> = State(g: G, formats: map<u32, Format>)

  function Execute<G>(gl: Gl<G>, s: State<G>, r: Request): (State<G>, seq<byte>) {
    var (g, payload) := Perform(gl, s.g, Observed(s.formats, r));
    (State(g, FormatsAfter(s.formats, r)), payload)
  }

  /** A byte more, whatever it is, completes the request and is none of it. */
  ghost predicate EndsInWait(b: seq<byte>) {
    Receive(b).More? && forall x: byte :: Receive(b + [x]).Got? && Receive(b + [x]).rest == [x]
  }

  /** The request all of whose bytes are there. */
  ghost function Arrived(b: seq<byte>): Got<Request> {
    if EndsInWait(b) then Got(Receive(b + [0]).value, []) else Receive(b)
  }

  /** GL behind the dispatcher. */
  ghost function Remote<G>(gl: Gl<G>): Service<State<G>> {
    Service(
      b => Arrived(b).More?,
      b => EndsInWait(b),
      (s, f) => if Arrived(f).Got? then Execute(gl, s, Arrived(f).value) else (s, []),
      f => Arrived(f).Got? && Answers(Arrived(f).value),
      f => Arrived(f).Got? && StubReceives(Arrived(f).value).Some?,
      (f, p) => Arrived(f).Got? && StubReceives(Arrived(f).value).Some? && |p| < StubReceives(Arrived(f).value).value)
  }

  lemma AnsweredInFull<G(!new)>(gl: Gl<G>, s: State<G>, r: Request)
    requires GoodGl(gl) && Answers(r)
    ensures |Execute(gl, s, r).1| == ReplyLength(r.cmd, r.args)
  {
    assert Observed(s.formats, r) == Observed(map[], r);
  }

  lemma AnswersAwaited(r: Request)
    requires Answers(r)
    ensures StubReceives(r) == Some(ReplyLength(r.cmd, r.args))
  {
    hide StubReceives, ReplyLength, HandlerForm;
    RepliesAsAwaited(r);
  }

  /** Every value-returning handler answers with what its stub waits for. */
  lemma RemoteIsGood<G(!new)>(gl: Gl<G>)
    requires GoodGl(gl)
    ensures GoodService(Remote(gl))
  {
    hide ReplyLength, Answers, StubReceives, ReceiveBody, HandlerForm, Execute, GoodGl;
    var svc := Remote(gl);
    assert Receive([]).More? && Receive([] + [0]).More?;
    forall s: State<G>, f: seq<byte> | ExactRequest(svc, f) && svc.answers(f)
      ensures ExactReply(svc, f, svc.exec(s, f).1)
    {
      AnsweredInFull(gl, s, Arrived(f).value);
      AnswersAwaited(Arrived(f).value);
    }
  }

  lemma NotBefore(id: u32, r: Request, k: nat)
    requires Sendable(r) && k < |Frame(id, r)|
    ensures Arrived(Frame(id, r)[..k]).More?
  {
    hide Receive, Frame, AllFit;
    var f := Frame(id, r);
    WaitsForWholeFrame(id, r, k);
    assert f[..k] + [f[k]] == f[..k + 1];
    if k + 1 < |f| {
      WaitsForWholeFrame(id, r, k + 1);
    } else {
      assert f[..k + 1] == f;
      WholeFrame(id, r);
    }
  }

  /** Without anything behind it a whole frame is received, or nothing is. */
  lemma WholeFrame(id: u32, r: Request)
    requires Sendable(r)
    ensures Receive(Frame(id, r)) == if Complete(r) then Got(r, []) else More
  {
    hide Receive, Frame, EndsInData;
    var f := Frame(id, r);
    assert f + [] == f;
    if Complete(r) {
      ReceivesFrame(id, r, []);
    } else {
      ReceivesFrame(id, r, [0]);
      DrawReceivedExactly(id, r, []);
      if Receive(f).Got? { ReceiveMore(f, [0]); }
    }
  }

  /** A frame arrives as sent with its last byte; its handler lingers when it ends in an empty read. */
  lemma FrameArrives(id: u32, r: Request)
    requires Sendable(r)
    ensures Arrived(Frame(id, r)) == Got(r, [])
    ensures EndsInWait(Frame(id, r)) <==> !Complete(r)
  {
    hide Receive, Frame, Complete, AllFit;
    WholeFrame(id, r);
    forall x: byte ensures Receive(Frame(id, r) + [x]) == Got(r, [x]) {
      ReceivesFrame(id, r, [x]);
    }
  }

  lemma FrameIsGood<G>(gl: Gl<G>, id: u32, r: Request)
    requires Sendable(r)
    ensures GoodRequest(Remote(gl), id, Frame(id, r))
    ensures Remote(gl).lingers(Frame(id, r)) <==> !Complete(r)
  {
    hide Receive, Body, EndsInWait, Arrived, Encodable, AllFit, EndsInData, StubReceives, ReplyLength, HandlerForm;
    var f := Frame(id, r);
    assert f[4..8] == EncodeU32(id);
    FrameArrives(id, r);
    HandledInForm(r);
    RepliesAsAwaited(r);
    forall k | 0 <= k < |f| ensures Remote(gl).more(f[..k]) {
      NotBefore(id, r, k);
    }
  }

  /** What the stub of a call sends. */
  function Job(id: u32, c: Call): seq<byte>
    requires Callable(c)
  {
    Frame(id, RequestOf(c))
  }

  function Jobs(id: u32, calls: seq<Call>): (r: seq<seq<byte>>)
    requires AllFaithful(calls)
    ensures |r| == |calls|
    ensures forall i :: 0 <= i < |r| ==> r[i] == Job(id, calls[i])
  {
    if |calls| == 0 then [] else [Job(id, calls[0])] + Jobs(id, calls[1..])
  }

  // ---------------------------------------------------------------- calls made directly

  /** A call whose stub receives a value. */
  predicate Returns(c: Call)
    requires Callable(c)
  {
    StubReceives(RequestOf(c)).Some?
  }

  /** The call made to GL itself. */
  function DirectStep<G>(gl: Gl<G>, g: G, c: Call): (G, seq<byte>)
    requires Callable(c) && Faithful(c)
  {
    MeaningExactly(map[], c);
    gl(g, Meaning(c))
  }

  /** The values returned by calls made directly, one after the other. */
  function DirectResults<G>(gl: Gl<G>, g: G, calls: seq<Call>): seq<seq<byte>>
    requires AllFaithful(calls)
  {
    if |calls| == 0 then []
    else
      var (next, value) := DirectStep(gl, g, calls[0]);
      (if Returns(calls[0]) then [value] else []) + DirectResults(gl, next, calls[1..])
  }

  function DirectState<G>(gl: Gl<G>, g: G, calls: seq<Call>): G
    requires AllFaithful(calls)
  {
    if |calls| == 0 then g else DirectState(gl, DirectStep(gl, g, calls[0]).0, calls[1..])
  }

  lemma MeansSomething(c: Call)
    requires Callable(c) && (Draws(c) ==> EnabledSized(c.tracked.attribs))
    ensures Meaning(c) != Nothing
  {
  }

  lemma StepIsDirect<G>(gl: Gl<G>, s: State<G>, id: u32, c: Call)
    requires Callable(c) && Faithful(c) && (Draws(c) ==> s.formats.Keys <= EnabledFor(c))
    ensures var (t, value) := Remote(gl).exec(s, Job(id, c));
            && (t.g, value) == DirectStep(gl, s.g, c)
            && t.formats.Keys == if Draws(c) then EnabledFor(c) else s.formats.Keys
    ensures Remote(gl).answers(Job(id, c)) == Returns(c)
  {
    hide Receive, Meaning, Observed, FormatsAfter, Faithful, Frame, EnabledFor, Answers, StubReceives, ReplyLength,
      HandlerForm, RequestOf;
    var f := Frame(id, RequestOf(c));
    MeaningExactly(s.formats, c);
    EnabledAfter(s.formats, c);
    FaithfulIsSendable(c);
    FrameArrives(id, RequestOf(c));
    HandledInForm(RequestOf(c));
    RepliesAsAwaited(RequestOf(c));
    MeansSomething(c);
    if Draws(c) { assert s.formats.Keys + EnabledFor(c) == EnabledFor(c); }
  }

  lemma {:induction false} LocalIsDirect<G>(gl: Gl<G>, s: State<G>, id: u32, calls: seq<Call>)
    requires AllFaithful(calls) && KeptEnabled(s.formats.Keys, calls)
    ensures LocalResults(Remote(gl), s, Jobs(id, calls)) == DirectResults(gl, s.g, calls)
    ensures LocalState(Remote(gl), s, Jobs(id, calls)).g == DirectState(gl, s.g, calls)
    decreases |calls|
  {
    hide Remote, Job, Faithful, Callable, DirectStep, Returns, EnabledFor;
    if |calls| > 0 {
      StepIsDirect(gl, s, id, calls[0]);
      LocalIsDirect(gl, Remote(gl).exec(s, Job(id, calls[0])).0, id, calls[1..]);
    }
  }

  // ---------------------------------------------------------------- over the transport

  ghost function GlesConfig<G>(gl: Gl<G>, id: u32, callCap: nat, retCap: nat): Config<State<G>> {
    Config(Remote(gl), [id], callCap, retCap, false)
  }

  /** A thread's own transport, before its first call. */
  ghost predicate Begins<G>(id: u32, calls: seq<Call>, s: System<State<G>>)
    requires AllFaithful(calls)
  {
    Init(s) && |s.clients| == 1 && s.clients[0].jobs == Jobs(id, calls)
  }

  /** The transport and its requests are such that every theorem about shared transports applies: no
      deadlock, each reply to its call, everything finished in the end. */
  lemma GlesConfigIsGood<G(!new)>(gl: Gl<G>, id: u32, callCap: nat, retCap: nat, calls: seq<Call>, clients: seq<Client>)
    requires GoodGl(gl) && AllFaithful(calls) && callCap >= 1 && retCap >= U32_SIZE
    requires |clients| == 1 && clients[0].jobs == Jobs(id, calls)
    ensures GoodConfig(GlesConfig(gl, id, callCap, retCap)) && GoodJobs(GlesConfig(gl, id, callCap, retCap), clients)
    ensures NoneLingersLast(Remote(gl), Asked(clients)) <==> |calls| == 0 || !EndsEmpty(calls[|calls| - 1])
  {
    hide GoodService, GoodRequest, Remote, GoodGl, Sendable, Complete, Frame, Faithful, Encodable;
    RemoteIsGood(gl);
    forall i | 0 <= i < |calls| ensures GoodRequest(Remote(gl), id, Jobs(id, calls)[i]) {
      FaithfulIsSendable(calls[i]);
      FrameIsGood(gl, id, RequestOf(calls[i]));
    }
    if |calls| > 0 {
      FaithfulIsSendable(calls[|calls| - 1]);
      FrameIsGood(gl, id, RequestOf(calls[|calls| - 1]));
    }
    assert Asked(clients) == [Jobs(id, calls)];
  }

  lemma {:induction false} KeptInPrefix(before: set<u32>, calls: seq<Call>, n: nat)
    requires AllFaithful(calls) && KeptEnabled(before, calls) && n <= |calls|
    ensures AllFaithful(calls[..n]) && KeptEnabled(before, calls[..n])
    decreases n
  {
    hide Faithful, Callable, EnabledFor;
    if n > 0 {
      KeptInPrefix(if Draws(calls[0]) then EnabledFor(calls[0]) else before, calls[1..], n - 1);
      assert calls[..n][1..] == calls[1..][..n - 1];
    }
  }

  lemma JobsOfPrefix(id: u32, calls: seq<Call>, n: nat)
    requires AllFaithful(calls) && n <= |calls|
    ensures AllFaithful(calls[..n]) && Jobs(id, calls[..n]) == Jobs(id, calls)[..n]
  {
    hide Faithful, Callable, Job;
  }

  /** The first requests, executed directly, are the first calls made directly. */
  lemma PrefixIsDirect<G>(gl: Gl<G>, s: State<G>, id: u32, calls: seq<Call>, executed: seq<seq<byte>>)
    requires AllFaithful(calls) && KeptEnabled(s.formats.Keys, calls) && executed <= Jobs(id, calls)
    ensures |executed| <= |calls| && forall i :: 0 <= i < |executed| ==> executed[i] == Job(id, calls[i])
    ensures AllFaithful(calls[..|executed|])
    ensures LocalState(Remote(gl), s, executed).g == DirectState(gl, s.g, calls[..|executed|])
  {
    hide Remote, Job, Faithful, Callable, DirectState, LocalState, DirectResults, LocalResults, KeptEnabled;
    var n := |executed|;
    assert executed == Jobs(id, calls)[..n];
    KeptInPrefix(s.formats.Keys, calls, n);
    JobsOfPrefix(id, calls, n);
    LocalIsDirect(gl, s, id, calls[..n]);
  }

  /** The server has executed the first calls, in order, and GL is in the state in which making those
      directly leaves it; the values returned so far are the first of those of direct execution, all of
      them once the thread is done, and then all calls have been executed but those still on their way. */
  ghost predicate AsDirect<G>(gl: Gl<G>, id: u32, calls: seq<Call>, g: G, s: System<State<G>>)
    requires AllFaithful(calls)
  {
    var executed := FramesOf(s.log, 0);
    && |executed| <= |calls| && |s.clients| == 1
    && (forall i :: 0 <= i < |executed| ==> executed[i] == Job(id, calls[i]))
    && AllFaithful(calls[..|executed|]) && s.heap.g == DirectState(gl, g, calls[..|executed|])
    && s.clients[0].results <= DirectResults(gl, g, calls)
    && (s.clients[0].pc == CIdle && s.clients[0].jobs == [] ==>
          && s.clients[0].results == DirectResults(gl, g, calls)
          && (s.pending == [] ==> |executed| == |calls|))
  }

  /** Remote equals local for the GLES calls of a thread, over every chunking and scheduling, when no
      array is disabled between draws. */
  lemma RemoteEqualsDirect<G(!new)>(gl: Gl<G>, id: u32, callCap: nat, retCap: nat, calls: seq<Call>,
                                    states: seq<System<State<G>>>, moves: seq<Move>, k: nat)
    requires GoodGl(gl) && AllFaithful(calls) && callCap >= 1 && retCap >= U32_SIZE
    requires Run(GlesConfig(gl, id, callCap, retCap), states, moves) && k < |states|
    requires Begins(id, calls, states[0]) && KeptEnabled(states[0].heap.formats.Keys, calls)
    ensures AsDirect(gl, id, calls, states[0].heap.g, states[k])
  {
    hide Remote, Job, Faithful, DirectResults, DirectState, LocalResults, LocalState, Run, GoodGl, GoodJobs, GoodConfig,
      NoneLingersLast, EndsEmpty, KeptEnabled, FramesOf, Callable, Asked;
    GlesConfigIsGood(gl, id, callCap, retCap, calls, states[0].clients);
    RemoteEqualsLocal(GlesConfig(gl, id, callCap, retCap), states, moves, k);
    LocalIsDirect(gl, states[0].heap, id, calls);
    PrefixIsDirect(gl, states[0].heap, id, calls, FramesOf(states[k].log, 0));
  }

  /** And so it is with the two channels themselves in shared memory, step by step. */
  lemma RemoteEqualsDirectOverChannels<G(!new)>(gl: Gl<G>, id: u32, callCap: nat, retCap: nat, calls: seq<Call>,
                                                wholes: seq<Whole<State<G>>>, acts: seq<Act>, k: nat)
    requires GoodGl(gl) && AllFaithful(calls) && callCap >= 1 && retCap >= U32_SIZE
    requires WholeRun(GlesConfig(gl, id, callCap, retCap), wholes, acts) && k < |wholes|
    requires Begins(id, calls, wholes[0].sys) && KeptEnabled(wholes[0].sys.heap.formats.Keys, calls)
    ensures AsDirect(gl, id, calls, wholes[0].sys.heap.g, wholes[k].sys)
  {
    hide Remote, Faithful, Callable, GoodGl, GoodJobs, GoodConfig, NoneLingersLast, EndsEmpty, KeptEnabled, AsDirect,
      Next, WholeNext, Init, Asked, CallSide, ReturnSide;
    GlesConfigIsGood(gl, id, callCap, retCap, calls, wholes[0].sys.clients);
    var states, moves := WholeRunIsRun(GlesConfig(gl, id, callCap, retCap), wholes, acts, k);
    RemoteEqualsDirect(gl, id, callCap, retCap, calls, states, moves, |moves|);
  }

  /** As many bytes as the stub of a request receives. */
  ghost function ReplySize(f: seq<byte>): nat {
    if Arrived(f).Got? && Answers(Arrived(f).value) then ReplyLength(Arrived(f).value.cmd, Arrived(f).value.args) else 0
  }

  lemma RepliesHaveSize<G(!new)>(gl: Gl<G>)
    requires GoodGl(gl)
    ensures RepliesWithin(Remote(gl), ReplySize)
  {
    hide ReplyLength, Answers, Receive, EndsInWait, Execute, GoodGl;
    var svc := Remote(gl);
    forall s: State<G>, f: seq<byte> | ExactRequest(svc, f) && svc.answers(f)
      ensures |svc.exec(s, f).1| <= ReplySize(f)
    {
      AnsweredInFull(gl, s, Arrived(f).value);
    }
  }

  /** The calls of a thread come to an end: no run of them, whatever the scheduling, has more steps than
      the calls are worth, and one that can go no further has returned from all of them, everything
      executed but for a last draw of no vertices. */
  lemma EveryRunEnds<G(!new)>(gl: Gl<G>, id: u32, callCap: nat, retCap: nat, calls: seq<Call>,
                              states: seq<System<State<G>>>, moves: seq<Move>)
    requires GoodGl(gl) && AllFaithful(calls) && callCap >= 1 && retCap >= U32_SIZE
    requires Run(GlesConfig(gl, id, callCap, retCap), states, moves) && Begins(id, calls, states[0])
    ensures |moves| <= Effort(states[0]) + Owed(GlesConfig(gl, id, callCap, retCap), ReplySize, states[0])
    ensures var cfg, s := GlesConfig(gl, id, callCap, retCap), states[|moves|];
            && ((forall m: Move, t: System<State<G>> :: !Next(cfg, s, m, t)) <==> AtRest(cfg, s))
            && (|calls| == 0 || !EndsEmpty(calls[|calls| - 1]) ==> (AtRest(cfg, s) <==> Quiet(s)))
  {
    hide Remote, Next, Init, GoodGl, GoodJobs, GoodConfig, NoneLingersLast, EndsEmpty, RepliesWithin, Effort, Owed,
      MissCount, AtRest, Quiet, Callable, Faithful;
    var cfg := GlesConfig(gl, id, callCap, retCap);
    GlesConfigIsGood(gl, id, callCap, retCap, calls, states[0].clients);
    RepliesHaveSize(gl);
    RunsAreBounded(cfg, ReplySize, states, moves);
    LoneClientNeverMisses(cfg, states, moves, |moves|);
    assert moves[..|moves|] == moves;
    NeverDeadlocks(cfg, states, moves, |moves|);
  }

  /** There are runs to which this applies, for any faithful calls on a fresh server: the one that has
      only begun, and whatever the theorems on calls make of it. */
  lemma SomeRunBegins<G(!new)>(g: G, id: u32, calls: seq<Call>) returns (s: System<State<G>>)
    requires AllFaithful(calls)
    ensures Begins(id, calls, s) && s.heap == State(g, map[])
    ensures GoodGl<G>(Zeros()) && Run(GlesConfig<G>(Zeros(), id, 1, U32_SIZE), [s], [])
    ensures KeptEnabled({}, calls) ==> KeptEnabled(s.heap.formats.Keys, calls)
  {
    SomeGlIsGood<G>();
    s := System([], [], Holder.Free, Holder.Free, [Client(CIdle, [], Jobs(id, calls), [], [])], Receiving([]),
                State(g, map[]), [], [], []);
    assert s.heap.formats.Keys == {};
  }
}
