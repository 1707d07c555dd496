/** One thread's calls to the heap manager, step by step, while other threads take their replies from
    the same return channel. */
module HeapClient {
  import opened Bytes
  import opened HeapManager
  import opened RpcInvariant
  import opened RpcMachine
  import opened RpcReplies

  datatype Reply = Reply(id: u32, payload: seq<byte>)

  /** Replies as they lie in the return channel. */
  function Stream(replies: seq<Reply>): seq<byte> {
    if replies == [] then [] else (EncodeU32(replies[0].id) + replies[0].payload) + Stream(replies[1..])
  }

  lemma {:induction false} StreamSplit(replies: seq<Reply>, n: nat)
    requires n <= |replies|
    ensures Stream(replies) == Stream(replies[..n]) + Stream(replies[n..])
  {
    hide EncodeU32;
    if n > 0 {
      StreamSplit(replies[1..], n - 1);
      assert replies[..n][1..] == replies[1..][..n - 1] && replies[1..][n - 1..] == replies[n..];
      Assoc(EncodeU32(replies[0].id) + replies[0].payload, Stream(replies[..n][1..]), Stream(replies[n..]));
    } else {
      assert replies[0..] == replies;
    }
  }

  lemma HeadOf(replies: seq<Reply>, rest: seq<byte>)
    requires replies != []
    ensures |Stream(replies) + rest| >= U32_SIZE
    ensures (Stream(replies) + rest)[..U32_SIZE] == EncodeU32(replies[0].id)
  {
    hide EncodeU32;
    assert Stream(replies) + rest == EncodeU32(replies[0].id) + (replies[0].payload + (Stream(replies[1..]) + rest));
  }

  /** The transport as one thread sees it. Receiving waits, so `ret` is what is in the channel and
      what will come into it; `ahead` are the replies to other threads in front of this one's. How
      often the lock is got again before another thread has moved is bounded by `idle`. */
  class SharedTransport {
    var sent: seq<byte>
    var ret: seq<byte>
    var ocLock: bool
    var icLock: bool
    var ahead: seq<Reply>
    var idle: nat

    /** The reply to `callId` comes behind those ahead. */
    ghost predicate Awaits(callId: u32, payload: seq<byte>, after: seq<byte>)
      reads this
    {
      && ret == Stream(ahead) + (EncodeU32(callId) + payload + after)
      && forall i :: 0 <= i < |ahead| ==> ahead[i].id != callId
    }

    constructor (ret: seq<byte>, ahead: seq<Reply>, idle: nat)
      ensures sent == [] && !ocLock && !icLock
      ensures this.ret == ret && this.ahead == ahead && this.idle == idle
    {
      this.sent, this.ocLock, this.icLock, this.ret, this.ahead, this.idle := [], false, false, ret, ahead, idle;
    }

    /** While the return lock is free other threads take their replies, whole. */
    method PeersMove(ghost callId: u32, ghost payload: seq<byte>, ghost after: seq<byte>)
      requires !icLock && Awaits(callId, payload, after)
      modifies this`ret, this`ahead, this`idle
      ensures Awaits(callId, payload, after)
      ensures ahead != [] ==> |ahead| + idle < old(|ahead| + idle)
      ensures |ahead| <= old(|ahead|) && idle <= old(idle)
    {
      hide EncodeU32;
      var n: nat :| n <= |ahead|;
      if n == 0 && idle > 0 {
        idle := idle - 1;
      } else if ahead != [] {
        n := if n == 0 then 1 else n;
        StreamSplit(ahead, n);
        ghost var mine := EncodeU32(callId) + payload + after;
        assert Stream(ahead) + mine == Stream(ahead[..n]) + (Stream(ahead[n..]) + mine);
        ret := ret[|Stream(ahead[..n])|..];
        ahead := ahead[n..];
      }
    }

    method StartSending(cmdId: u32, callId: u32)
      requires !ocLock
      modifies this`ocLock, this`sent
      ensures ocLock && sent == old(sent) + EncodeU32(cmdId) + EncodeU32(callId)
    {
      ocLock := true;
      sent := sent + EncodeU32(cmdId);
      sent := sent + EncodeU32(callId);
    }

    method StopSending()
      modifies this`ocLock
      ensures !ocLock
    {
      ocLock := false;
    }

    /** Peek under the lock, take the call id if it is this call's, else let the others have the lock.
        The loop ends with the lock held and this call's payload at the head. */
    method StartReceiving(callId: u32, ghost payload: seq<byte>, ghost after: seq<byte>)
      requires !icLock && Awaits(callId, payload, after)
      modifies this`icLock, this`ret, this`ahead, this`idle
      ensures icLock && ret == payload + after && ahead == []
    {
      hide EncodeU32, Stream;
      NoReplies();
      while true
        invariant !icLock && Awaits(callId, payload, after)
        decreases |ahead| + idle
      {
        PeersMove(callId, payload, after);
        icLock := true;
        if ahead != [] {
          HeadOf(ahead, EncodeU32(callId) + payload + after);
        }
        if ret[..U32_SIZE] == EncodeU32(callId) {
          if ahead != [] { U32Injective(ahead[0].id, callId); }
          assert ret == EncodeU32(callId) + payload + after;
          ret := ret[U32_SIZE..];
          break;
        }
        icLock := false;
      }
    }

    method ReceiveData(length: nat) returns (data: seq<byte>)
      requires length <= |ret|
      modifies this`ret
      ensures data == old(ret)[..length] && ret == old(ret)[length..]
    {
      data := ret[..length];
      ret := ret[length..];
    }

    method StopReceiving()
      modifies this`icLock
      ensures !icLock
    {
      icLock := false;
    }

    /** The offset returned is the one in the reply to this very call; no lock is kept. */
    method GvAlloc(callId: u32, length: u64, ghost offset: u64, ghost after: seq<byte>) returns (r: u64)
      requires !ocLock && !icLock && Awaits(callId, EncodeU64(offset), after)
      modifies this
      ensures sent == old(sent) + CallBytes(callId, Alloc(length))
      ensures CallBytes(callId, Alloc(length)) == EncodeU32(0x0) + EncodeU32(callId) + EncodeU64(length)
      ensures r == offset && ret == after && !ocLock && !icLock
    {
      hide EncodeU32, EncodeU64, DecodeU64, Stream;
      StartSending(HMGR_ALLOC, callId);
      sent := sent + EncodeU64(length);
      StopSending();
      assert sent == old(sent) + CallBytes(callId, Alloc(length));
      StartReceiving(callId, EncodeU64(offset), after);
      var data := ReceiveData(U64_SIZE);
      assert data == EncodeU64(offset);
      U64RoundTrip(offset);
      r := DecodeU64(data);
      StopReceiving();
    }

    method GvFree(callId: u32, offset: u64, ghost status: i32, ghost after: seq<byte>) returns (r: i32)
      requires !ocLock && !icLock && Awaits(callId, EncodeU32(Unsigned(status)), after)
      modifies this
      ensures sent == old(sent) + CallBytes(callId, Release(offset))
      ensures CallBytes(callId, Release(offset)) == EncodeU32(0x1) + EncodeU32(callId) + EncodeU64(offset)
      ensures r == status && ret == after && !ocLock && !icLock
    {
      hide EncodeU32, EncodeU64, DecodeU32, Stream;
      StartSending(HMGR_FREE, callId);
      sent := sent + EncodeU64(offset);
      StopSending();
      assert sent == old(sent) + CallBytes(callId, Release(offset));
      StartReceiving(callId, EncodeU32(Unsigned(status)), after);
      var data := ReceiveData(U32_SIZE);
      assert data == EncodeU32(Unsigned(status));
      U32RoundTrip(Unsigned(status));
      r := Signed(DecodeU32(data));
      StopReceiving();
    }
  }

  lemma NoReplies()
    ensures Stream([]) == []
  {
  }

  // ---------------------------------------------------------------- what the protocol leaves to a thread

  function RepliesOf(ids: seq<u32>, es: seq<Executed>): (r: seq<Reply>)
    requires forall i :: 0 <= i < |es| ==> es[i].client < |ids|
    ensures |r| == |es| && forall i :: 0 <= i < |r| ==> r[i] == Reply(ids[es[i].client], es[i].payload)
  {
    seq(|es|, i requires 0 <= i < |es| => Reply(ids[es[i].client], es[i].payload))
  }

  lemma {:induction false} StreamOfReplies(ids: seq<u32>, es: seq<Executed>)
    requires forall i :: 0 <= i < |es| ==> es[i].client < |ids|
    ensures FlatDue(ids, es) == Stream(RepliesOf(ids, es))
  {
    hide EncodeU32;
    if es == [] {
      NoReplies();
    } else {
      StreamOfReplies(ids, es[1..]);
      assert RepliesOf(ids, es)[1..] == RepliesOf(ids, es[1..]);
    }
  }

  /** A stub of the heap manager reads this many bytes and no other payload. */
  lemma PayloadSize<H>(heap: Heap<H>, id: u32, call: HeapCall, payload: seq<byte>)
    requires ExactReply(Manager(heap), CallBytes(id, call), payload)
    ensures |payload| == if call.Alloc? then U64_SIZE else U32_SIZE
  {
    hide CallBytes;
    var f := CallBytes(id, call);
    ReceivesCall(id, call);
    var size := ReplySize(f);
    assert size == if call.Alloc? then U64_SIZE else U32_SIZE;
    assert size <= |payload| ==> !Manager(heap).wants(f, payload[..size]);
  }

  /** From the moment a thread has begun a call, in any run of any threads, and whenever no reply is
      being read, the return channel holds what `Awaits` says, or it will: whole replies to other
      threads, then the reply to this call. */
  lemma ProtocolAwaits<H(!new)>(heap: Heap<H>, ids: seq<u32>, calls: seq<seq<HeapCall>>,
                                states: seq<System<H>>, moves: seq<Move>, k: nat, c: nat, call: HeapCall)
    returns (ahead: seq<Reply>, payload: seq<byte>, after: seq<byte>)
    requires Run(HeapConfig(heap, ids), states, moves) && k < |states| && Setup(ids, calls, states[0])
    requires c < |states[k].clients| == |ids| && Outstanding(Manager(heap), states[k].clients[c])
    requires states[k].clients[c].job == CallBytes(ids[c], call) && NobodyReads(states[k].clients)
    ensures ReturnStream(HeapConfig(heap, ids), states[k]) == Stream(ahead) + (EncodeU32(ids[c]) + payload + after)
    ensures forall i :: 0 <= i < |ahead| ==> ahead[i].id != ids[c]
    ensures call.Alloc? ==> exists offset: u64 :: payload == EncodeU64(offset)
    ensures call.Release? ==> exists status: i32 :: payload == EncodeU32(Unsigned(status))
  {
    hide Run, Init, GoodConfig, GoodJobs, CallBytes, Manager, Outstanding, EncodeU64, EncodeU32, DecodeU32, DecodeU64,
      FlatDue, Stream, ReturnStream, ExactReply;
    SetupIsGood(heap, ids, calls, states[0]);
    var others, own, rest := OwnReplyComes(HeapConfig(heap, ids), states, moves, k, c);
    NothingConsumed(ids, states[k].retLock, states[k].clients);
    StreamOfReplies(ids, others);
    ahead, payload, after := RepliesOf(ids, others), own.payload, rest;
    PayloadSize(heap, ids[c], call, payload);
    if call.Alloc? {
      U64OfBytes(payload);
    } else {
      U32OfBytes(payload);
      SignedRoundTrip(DecodeU32(payload));
    }
  }

  /** Any thread with a call to make gets there: once it has the lock, its call has begun. */
  lemma SomeThreadAwaits<H(!new)>(heap: Heap<H>, h: H, ids: seq<u32>, calls: seq<seq<HeapCall>>, c: nat)
    returns (states: seq<System<H>>, moves: seq<Move>)
    requires |calls| == |ids| && forall i, j :: 0 <= i < j < |ids| ==> ids[i] != ids[j]
    requires c < |ids| && calls[c] != []
    ensures Run(HeapConfig(heap, ids), states, moves) && |moves| == 2 && Setup(ids, calls, states[0])
    ensures |states[2].clients| == |ids| && Outstanding(Manager(heap), states[2].clients[c])
    ensures states[2].clients[c].job == CallBytes(ids[c], calls[c][0]) && NobodyReads(states[2].clients)
  {
    hide CallBytes;
    var cfg := HeapConfig(heap, ids);
    var s0 := SomeRunBegins(heap, h, ids, calls);
    var s1 := ClientStep(cfg, s0, c);
    var s2 := ClientStep(cfg, s1, c);
    assert s0.clients[c].jobs[0] == CallBytes(ids[c], calls[c][0]);
    states, moves := [s0, s1, s2], [ClientMoves(c), ClientMoves(c)];
  }

  lemma SignedRoundTrip(n: u32)
    ensures Unsigned(Signed(n)) == n
  {
  }
}
