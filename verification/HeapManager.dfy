/** The heap manager: any number of threads of any number of processes share one transport to it. */
module HeapManager {
  import opened Bytes
  import Layout
  import opened RpcMachine
  import opened RpcInvariant
  import opened RpcSteps
  import opened RpcSafety
  import opened RpcProgress
  import opened RpcBounds

  const HMGR_ALLOC: u32 := 0
  const HMGR_FREE: u32 := 1
  const REQUEST_SIZE: nat := 4 + 4 + 8

  /** The memory of three pages leaves a page for each direction. */
  const CAPACITY: nat := 4096

  lemma CapacityOfThreePages()
    ensures Layout.VrbTailSize(3 * 4096) == CAPACITY
  {
  }

  datatype HeapCall = Alloc(length: u64) | Release(offset: u64)

  /** The heap itself: an allocation yields an offset, a release a status. */
  datatype Heap<!H> = Heap(alloc: (H, u64) -> (H, u64), release: (H, u64) -> (H, i32))

  /** A call made directly: the heap afterwards, and the value returned as its bytes. */
  function Perform<H>(heap: Heap<H>, h: H, c: HeapCall): (H, seq<byte>) {
    match c
    case Alloc(length) =>
      var (h', offset) := heap.alloc(h, length);
      (h', EncodeU64(offset))
    case Release(offset) =>
      var (h', status) := heap.release(h, offset);
      (h', EncodeU32(Unsigned(status)))
  }

  // ---------------------------------------------------------------- requests

  /** The command id, the call id and one size_t. */
  function CallBytes(id: u32, c: HeapCall): (r: seq<byte>)
    ensures |r| == REQUEST_SIZE
  {
    match c
    case Alloc(length) => EncodeU32(HMGR_ALLOC) + EncodeU32(id) + EncodeU64(length)
    case Release(offset) => EncodeU32(HMGR_FREE) + EncodeU32(id) + EncodeU64(offset)
  }

  function CommandOf(b: seq<byte>): u32
    requires |b| >= U32_SIZE
  {
    DecodeU32(b[..U32_SIZE])
  }

  /** The request a handler has received: the argument as the bytes of the size_t. */
  function Received(b: seq<byte>): HeapCall
    requires |b| == REQUEST_SIZE
  {
    if CommandOf(b) == HMGR_ALLOC then Alloc(DecodeU64(b[8..16])) else Release(DecodeU64(b[8..16]))
  }

  function ReplySize(b: seq<byte>): nat
    requires |b| == REQUEST_SIZE
  {
    if CommandOf(b) == HMGR_ALLOC then U64_SIZE else U32_SIZE
  }

  /** Both commands have one handler each; both answer, and both stubs wait for it. */
  function Manager<H>(heap: Heap<H>): Service<H> {
    Service(
      b => |b| < U32_SIZE || (|b| < REQUEST_SIZE && CommandOf(b) <= HMGR_FREE),
      b => false,
      (h, f) => if |f| == REQUEST_SIZE then Perform(heap, h, Received(f)) else (h, []),
      f => |f| == REQUEST_SIZE,
      f => true,
      (f, p) => |f| == REQUEST_SIZE && |p| < ReplySize(f))
  }

  lemma ReceivesCall(id: u32, c: HeapCall)
    ensures Received(CallBytes(id, c)) == c && CommandOf(CallBytes(id, c)) <= HMGR_FREE
    ensures CallBytes(id, c)[..4] == EncodeU32(if c.Alloc? then 0x0 else 0x1)
    ensures CallBytes(id, c)[4..8] == EncodeU32(id)
    ensures CallBytes(id, c)[8..] == EncodeU64(match c case Alloc(length) => length case Release(offset) => offset)
  {
    hide EncodeU32, EncodeU64, DecodeU32, DecodeU64;
    var b := CallBytes(id, c);
    var cmd := if c.Alloc? then HMGR_ALLOC else HMGR_FREE;
    var arg := if c.Alloc? then c.length else c.offset;
    assert b[..4] == EncodeU32(cmd) && b[4..8] == EncodeU32(id) && b[8..16] == EncodeU64(arg);
    U32RoundTrip(cmd);
    U64RoundTrip(arg);
  }

  lemma ManagerIsGood<H(!new)>(heap: Heap<H>)
    ensures GoodService(Manager(heap))
  {
    hide DecodeU32, DecodeU64, EncodeU32, EncodeU64;
  }

  lemma CallIsGood<H>(heap: Heap<H>, id: u32, c: HeapCall)
    ensures GoodRequest(Manager(heap), id, CallBytes(id, c))
  {
    hide EncodeU32, EncodeU64, DecodeU32, DecodeU64, CallBytes;
    var f := CallBytes(id, c);
    ReceivesCall(id, c);
    forall k | 0 <= k < |f| ensures Manager(heap).more(f[..k]) {
      if k >= 4 { assert f[..k][..4] == f[..4]; }
    }
  }

  function Jobs(id: u32, calls: seq<HeapCall>): (r: seq<seq<byte>>)
    ensures |r| == |calls|
    ensures forall i :: 0 <= i < |r| ==> r[i] == CallBytes(id, calls[i])
  {
    seq(|calls|, i requires 0 <= i < |calls| => CallBytes(id, calls[i]))
  }

  /** Threads with distinct call ids, each with its calls to make. */
  ghost predicate Setup<H>(ids: seq<u32>, calls: seq<seq<HeapCall>>, s: System<H>) {
    && Init(s) && |s.clients| == |ids| == |calls|
    && (forall i, j :: 0 <= i < j < |ids| ==> ids[i] != ids[j])
    && forall c :: 0 <= c < |ids| ==> s.clients[c].jobs == Jobs(ids[c], calls[c])
  }

  function HeapConfig<H>(heap: Heap<H>, ids: seq<u32>): Config<H> {
    Config(Manager(heap), ids, CAPACITY, CAPACITY, true)
  }

  lemma SetupIsGood<H(!new)>(heap: Heap<H>, ids: seq<u32>, calls: seq<seq<HeapCall>>, s: System<H>)
    requires Setup(ids, calls, s)
    ensures GoodConfig(HeapConfig(heap, ids)) && GoodJobs(HeapConfig(heap, ids), s.clients)
  {
    hide GoodService, GoodRequest, Manager, CallBytes;
    ManagerIsGood(heap);
    forall c, i | 0 <= c < |ids| && 0 <= i < |calls[c]|
      ensures GoodRequest(Manager(heap), ids[c], Jobs(ids[c], calls[c])[i])
    {
      CallIsGood(heap, ids[c], calls[c][i]);
    }
  }

  // ---------------------------------------------------------------- linearizability

  /** Every executed call of `c` has a reply. */
  ghost predicate AllAnswer<H>(svc: Service<H>, log: seq<Executed>, c: nat) {
    forall k :: 0 <= k < |log| && log[k].client == c ==> svc.answers(log[k].frame)
  }

  lemma AnswersSplit<H>(svc: Service<H>, log: seq<Executed>, c: nat)
    requires AllAnswer(svc, log, c) && log != []
    ensures AllAnswer(svc, log[1..], c) && (log[0].client == c ==> svc.answers(log[0].frame))
  {
  }

  /** Where in the log the `i`th executed call of `c` stands. */
  lemma {:induction false} Locate<H>(svc: Service<H>, log: seq<Executed>, c: nat, i: nat) returns (j: nat)
    requires AllAnswer(svc, log, c)
    requires i < |PayloadsOf(svc, log, c)|
    ensures j < |log| && log[j].client == c && log[j].payload == PayloadsOf(svc, log, c)[i]
    ensures i < |FramesOf(log, c)| && log[j].frame == FramesOf(log, c)[i]
    decreases |log|
  {
    hide AllAnswer;
    AsManyPayloads(svc, log, c);
    AnswersSplit(svc, log, c);
    if log[0].client == c && i == 0 {
      j := 0;
    } else {
      j := Locate(svc, log[1..], c, if log[0].client == c then i - 1 else i);
      j := j + 1;
    }
  }

  lemma {:induction false} AsManyPayloads<H>(svc: Service<H>, log: seq<Executed>, c: nat)
    requires AllAnswer(svc, log, c)
    ensures |PayloadsOf(svc, log, c)| == |FramesOf(log, c)|
    decreases |log|
  {
    hide AllAnswer;
    if log != [] {
      AnswersSplit(svc, log, c);
      AsManyPayloads(svc, log[1..], c);
    }
  }

  lemma {:induction false} FrameIsListed(log: seq<Executed>, c: nat, k: nat) returns (i: nat)
    requires k < |log| && log[k].client == c
    ensures i < |FramesOf(log, c)| && FramesOf(log, c)[i] == log[k].frame
    decreases |log|
  {
    if k == 0 {
      i := 0;
    } else {
      i := FrameIsListed(log[1..], c, k - 1);
      if log[0].client == c { i := i + 1; }
    }
  }

  lemma AllAnswered<H>(heap: Heap<H>, log: seq<Executed>, c: nat, id: u32, calls: seq<HeapCall>)
    requires FramesOf(log, c) <= Jobs(id, calls)
    ensures AllAnswer(Manager(heap), log, c)
  {
    hide CallBytes;
    forall k | 0 <= k < |log| && log[k].client == c ensures Manager(heap).answers(log[k].frame) {
      var i := FrameIsListed(log, c, k);
    }
  }

  /** The heap goes from one call to the next. */
  lemma HeapStep<H>(svc: Service<H>, h: H, log: seq<Executed>, j: nat)
    requires j < |log|
    ensures HeapAfter(svc, h, log[..j + 1]) == svc.exec(HeapAfter(svc, h, log[..j]), log[j].frame).0
  {
    assert log[..j + 1][..j] == log[..j];
  }

  /** Calls of all threads take effect one at a time, the heap being that at the end: whatever the
      interleaving, the `i`th value a thread has received is what the allocator returned to its `i`th call
      at that call's place in the one order in which the server has executed them. */
  lemma CallsAreLinearizable<H(!new)>(heap: Heap<H>, ids: seq<u32>, calls: seq<seq<HeapCall>>,
                                      states: seq<System<H>>, moves: seq<Move>, k: nat, c: nat, i: nat)
    returns (j: nat)
    requires Run(HeapConfig(heap, ids), states, moves) && k < |states| && Setup(ids, calls, states[0])
    requires c < |ids| == |states[k].clients| && i < |states[k].clients[c].results|
    ensures var s := states[k];
            && i < |calls[c]| && j < |s.log| && s.log[j].client == c
            && s.log[j].frame == CallBytes(ids[c], calls[c][i])
    ensures var s, svc, h := states[k], Manager(heap), states[0].heap;
            var before, after := HeapAfter(svc, h, s.log[..j]), HeapAfter(svc, h, s.log[..j + 1]);
            match calls[c][i]
            case Alloc(length) =>
              && after == heap.alloc(before, length).0
              && s.clients[c].results[i] == EncodeU64(heap.alloc(before, length).1)
            case Release(offset) =>
              && after == heap.release(before, offset).0
              && s.clients[c].results[i] == EncodeU32(Unsigned(heap.release(before, offset).1))
    ensures var s, svc, h := states[k], Manager(heap), states[0].heap;
            HeapAfter(svc, h, []) == h && HeapAfter(svc, h, s.log) == s.heap
  {
    hide Run, Init, GoodConfig, GoodJobs, CallBytes, HeapAfter, FramesOf, PayloadsOf, GoodService, Received,
      EncodeU32, EncodeU64;
    var s, svc := states[k], Manager(heap);
    SetupIsGood(heap, ids, calls, states[0]);
    EachClientGetsItsReplies(HeapConfig(heap, ids), states, moves, k, c);
    HeapOfLog(heap, ids, calls, states, moves, k);
    AllAnswered(heap, s.log, c, ids[c], calls[c]);
    j := Locate(svc, s.log, c, i);
    ReceivesCall(ids[c], calls[c][i]);
    HeapStep(svc, states[0].heap, s.log, j);
  }

  lemma HeapOfLog<H(!new)>(heap: Heap<H>, ids: seq<u32>, calls: seq<seq<HeapCall>>,
                           states: seq<System<H>>, moves: seq<Move>, k: nat)
    requires Run(HeapConfig(heap, ids), states, moves) && k < |states| && Setup(ids, calls, states[0])
    ensures HeapAfter(Manager(heap), states[0].heap, []) == states[0].heap
    ensures HeapAfter(Manager(heap), states[0].heap, states[k].log) == states[k].heap
  {
    hide Run, Init, GoodConfig, GoodJobs, Control, Flows, HistoryOk, Sequential;
    SetupIsGood(heap, ids, calls, states[0]);
    RunKeeps(HeapConfig(heap, ids), states, moves, k);
  }

  /** And no thread waits for ever: from wherever a run has got to, it can go on until every call of
      every thread has returned. */
  lemma CallsCanFinish<H(!new)>(heap: Heap<H>, ids: seq<u32>, calls: seq<seq<HeapCall>>,
                                states: seq<System<H>>, moves: seq<Move>, k: nat)
    returns (further: seq<System<H>>, more: seq<Move>)
    requires Run(HeapConfig(heap, ids), states, moves) && k < |states| && Setup(ids, calls, states[0])
    ensures Run(HeapConfig(heap, ids), further, more) && further[0] == states[k]
    ensures var t := further[|more|];
            && Quiet(t) && |t.clients| == |ids|
            && forall c :: 0 <= c < |ids| ==> |t.clients[c].results| == |calls[c]|
  {
    hide Next, Init, GoodConfig, GoodJobs, Inv, Quiet, AtRest, FramesOf, PayloadsOf, Manager, NoneLingersLast;
    var cfg, asked, h := HeapConfig(heap, ids), Asked(states[0].clients), states[0].heap;
    SetupIsGood(heap, ids, calls, states[0]);
    RunKeeps(cfg, states, moves, k);
    further, more := CanAlwaysFinish(cfg, asked, h, states[k]);
    var t := further[|more|];
    RestIsQuiet(cfg, asked, h, t);
    NoneLingers(heap, ids, asked);
    SameThreads(cfg, asked, h, t);
    forall c | 0 <= c < |ids| ensures |t.clients[c].results| == |calls[c]| {
      QuietMeansServed(cfg, asked, h, t, c);
      AllAnswered(heap, t.log, c, ids[c], calls[c]);
      AsManyPayloads(Manager(heap), t.log, c);
    }
  }

  lemma NoneLingers<H>(heap: Heap<H>, ids: seq<u32>, asked: seq<seq<seq<byte>>>)
    ensures NoneLingersLast(HeapConfig(heap, ids).service, asked)
  {
  }

  lemma SameThreads<H(!new)>(cfg: Config<H>, asked: seq<seq<seq<byte>>>, h: H, s: System<H>)
    requires Inv(cfg, asked, h, s)
    ensures |s.clients| == |asked|
  {
  }

  // ---------------------------------------------------------------- how long a run can be

  function CallCounts(calls: seq<seq<HeapCall>>): (r: seq<nat>)
    ensures |r| == |calls|
  {
    seq(|calls|, c requires 0 <= c < |calls| => |calls[c]|)
  }

  lemma {:induction false} SumScale(ws: seq<nat>, k: nat, vs: seq<nat>)
    requires |ws| == |vs| && forall i :: 0 <= i < |ws| ==> ws[i] == k * vs[i]
    ensures Sum(ws) == k * Sum(vs)
  {
    if ws != [] {
      SumScale(ws[1..], k, vs[1..]);
    }
  }

  /** An offset or a status. */
  function LongestReply(f: seq<byte>): nat {
    U64_SIZE
  }

  /** What one call costs: 196 for its request, and 38 for its reply of at most eight bytes. */
  lemma {:induction false} CostOfJobs<H>(heap: Heap<H>, jobs: seq<seq<byte>>)
    requires forall i :: 0 <= i < |jobs| ==> |jobs[i]| == REQUEST_SIZE
    ensures JobsWeight(jobs) == 196 * |jobs|
    ensures JobsCost(Manager(heap), LongestReply, jobs) == 38 * |jobs|
  {
    if jobs != [] {
      CostOfJobs(heap, jobs[1..]);
    }
  }

  lemma CostOfCalls<H>(heap: Heap<H>, ids: seq<u32>, calls: seq<seq<HeapCall>>, s: System<H>)
    requires Setup(ids, calls, s)
    ensures Effort(s) + Owed(HeapConfig(heap, ids), LongestReply, s) == 234 * Sum(CallCounts(calls))
  {
    hide Sum, JobsWeight, JobsCost, Manager, CallBytes;
    var owed := UnstartedCosts(Manager(heap), LongestReply, s.clients);
    forall c | 0 <= c < |ids|
      ensures Efforts(s.clients)[c] == 196 * CallCounts(calls)[c] && owed[c] == 38 * CallCounts(calls)[c]
    {
      CostOfJobs(heap, s.clients[c].jobs);
    }
    SumScale(Efforts(s.clients), 196, CallCounts(calls));
    SumScale(owed, 38, CallCounts(calls));
  }

  lemma RepliesAreShort<H(!new)>(heap: Heap<H>)
    ensures RepliesWithin(Manager(heap), LongestReply)
  {
    hide EncodeU32, EncodeU64, DecodeU32, DecodeU64;
  }

  /** Under any scheduling the calls of all threads take at most 234 steps each, and four for every peek
      that finds the call id of another thread. */
  lemma CallsAreBounded<H(!new)>(heap: Heap<H>, ids: seq<u32>, calls: seq<seq<HeapCall>>,
                                 states: seq<System<H>>, moves: seq<Move>)
    requires Run(HeapConfig(heap, ids), states, moves) && Setup(ids, calls, states[0])
    ensures |moves| <= 234 * Sum(CallCounts(calls)) + 4 * MissCount(HeapConfig(heap, ids), states, moves)
  {
    hide Next, Init, GoodConfig, GoodJobs, Manager, Effort, Owed, MissCount, RepliesWithin, Sum;
    SetupIsGood(heap, ids, calls, states[0]);
    RepliesAreShort(heap);
    RunsAreBounded(HeapConfig(heap, ids), LongestReply, states, moves);
    CostOfCalls(heap, ids, calls, states[0]);
  }

  /** Any threads with distinct call ids, and any calls, make a run to which this applies. */
  lemma SomeRunBegins<H>(heap: Heap<H>, h: H, ids: seq<u32>, calls: seq<seq<HeapCall>>) returns (s: System<H>)
    requires |calls| == |ids| && forall i, j :: 0 <= i < j < |ids| ==> ids[i] != ids[j]
    ensures Setup(ids, calls, s) && s.heap == h && Run(HeapConfig(heap, ids), [s], [])
  {
    var clients := seq(|ids|, c requires 0 <= c < |ids| => Client(CIdle, [], Jobs(ids[c], calls[c]), [], []));
    s := System([], [], Holder.Free, Holder.Free, clients, Receiving([]), h, [], [], []);
  }
}
