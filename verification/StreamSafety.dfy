/** Safety of the channel over whole runs: order, chunk safety, stable peeks and owed wake-ups. */
module StreamSafety {
  import opened Bytes
  import opened RingBuffer
  import opened StreamMachine
  import opened StreamInvariant

  lemma {:induction false} RunKeeps(states: seq<Stream>, moves: seq<Move>, k: nat)
    requires Run(states, moves) && k < |states|
    ensures Inv(states[k]) && AllBytes(states[k]) == Flat(states[0].wjobs)
  {
    if k == 0 {
      InitInv(states[0]);
    } else {
      RunKeeps(states, moves, k - 1);
      NextKeeps(states[k - 1], moves[k - 1], states[k]);
    }
  }

  /** First in, first out, over every interleaving and any number of wraps: what the writer was
      asked to send is what was received, then the ring, then what has not been given yet. */
  lemma FirstInFirstOut(states: seq<Stream>, moves: seq<Move>, k: nat)
    requires Run(states, moves) && k < |states|
    ensures states[k].ring.Valid()
    ensures Flat(states[0].wjobs)
         == states[k].received + states[k].ring.Contents() + (states[k].wrest + Flat(states[k].wjobs))
  {
    RunKeeps(states, moves, k);
  }

  /** The ring operations are never asked for more than there is, in any reachable state. */
  lemma NeverOverruns(states: seq<Stream>, moves: seq<Move>, k: nat)
    requires Run(states, moves) && k < |states|
    ensures WriterSafe(states[k]) && ReaderSafe(states[k])
  {
    RunKeeps(states, moves, k);
    InvSafe(states[k]);
  }

  /** Every step of every run is a step of a bounded queue, or none. */
  lemma RefinesQueue(states: seq<Stream>, moves: seq<Move>, k: nat)
    requires Run(states, moves) && k < |moves|
    ensures states[k].ring.Valid() && states[k + 1].ring.Valid()
    ensures QueueStep(states[k], states[k + 1])
    ensures |states[k].ring.Contents()| <= |states[k].ring.mem|
  {
    RunKeeps(states, moves, k);
    NextKeeps(states[k], moves[k], states[k + 1]);
  }

  /** While the writer copies with no lock held, its cell is the free cell the current head would
      name, whatever takes and rebases happened since it read the head; it is no cell that holds
      data, so none that the reader copies from or has peeked at. */
  lemma CopiesAreDisjoint(s: Stream, i: nat, j: nat)
    requires Inv(s) && s.wpc.WCopy? && i < s.wpc.chunk && j < s.ring.DataLength()
    ensures s.wpc.off + i < 2 * |s.ring.mem| && s.ring.last + i < s.ring.first + |s.ring.mem|
    ensures s.ring.Cell(s.wpc.off + i) == s.ring.Cell(s.ring.last + i)
    ensures s.ring.Cell(s.wpc.off + i) != s.ring.Cell(s.ring.first + j)
    ensures s.rpc.RCopy? || s.rpc.RPeeked? ==> s.rpc.off == s.ring.first
    ensures s.rpc.RCopy? ==> s.rpc.chunk <= s.ring.DataLength()
    ensures s.rpc.RPeeked? ==> s.rjob.n <= s.ring.DataLength()
  {
  }

  // ---------------------------------------------------------------- peeks

  /** A run during which the reader does nothing, so any number of gives may happen. */
  ghost predicate ReaderRests(states: seq<Stream>, moves: seq<Move>) {
    && |states| == |moves| + 1
    && forall i :: 0 <= i < |moves| ==>
         moves[i] != ReaderMoves && Next(states[i], moves[i], states[i + 1])
  }

  /** All a writer step does to the ring, seen from the reading side. */
  lemma WriterOnlyAdds(s: Stream)
    requires Inv(s) && WriterCan(s) && WriterSafe(s)
    ensures OnlyAdded(s.ring, WriterStep(s).ring)
  {
    match s.wpc
    case WCopy(off, chunk, i, _) =>
      if i < chunk { PokeKeepsContents(s.ring, off, i, s.wrest[i]); }
    case WGive(off, chunk, _) => GiveContents(s.ring, off, s.wrest[..chunk]);
    case _ =>
  }

  /** All a reader step does to the ring, seen from the writing side: a space pointer read before
      it, even one that a rebase made stale, is as good after it. */
  lemma ReaderOnlyTakes(s: Stream)
    requires Inv(s) && ReaderCan(s) && ReaderSafe(s)
    ensures OnlyTaken(s.ring, ReaderStep(s).ring)
  {
    if s.rpc.RTake? {
      TakeIsOnlyTaken(s.ring, s.rpc.chunk);
    }
  }

  lemma WriterKeepsPeek(s: Stream, m: Move, t: Stream)
    requires Inv(s) && s.rpc.RPeeked? && m != ReaderMoves && Next(s, m, t)
    ensures Inv(t) && t.rpc == s.rpc && t.rjob == s.rjob
    ensures s.ring.Contents() <= t.ring.Contents()
  {
    NextKeeps(s, m, t);
    if m == WriterMoves {
      WriterOnlyAdds(s);
    }
  }

  /** A peeked window lies in the mapping, shows the oldest bytes, and goes on showing them
      however much the writer gives until the reader moves on. */
  lemma {:induction false} PeekIsStable(states: seq<Stream>, moves: seq<Move>)
    requires ReaderRests(states, moves) && Inv(states[0]) && states[0].rpc.RPeeked?
    ensures var s, t := states[0], states[|moves|];
            var off, n := s.rpc.off, s.rjob.n;
            && Inv(t) && t.rpc == s.rpc && t.rjob == s.rjob
            && off + n <= 2 * |s.ring.mem| && off + n <= 2 * |t.ring.mem|
            && n <= |s.ring.Contents()|
            && s.ring.Contents() <= t.ring.Contents()
            && t.ring.Window(off, n) == s.ring.Window(off, n) == s.ring.Contents()[..n]
    decreases |moves|
  {
    var s := states[0];
    PeekedWindow(s);
    if moves != [] {
      WriterKeepsPeek(s, moves[0], states[1]);
      PeekIsStable(states[1..], moves[1..]);
      assert states[1].ring.Contents()[..s.rjob.n] == s.ring.Contents()[..s.rjob.n];
      PeekedWindow(states[1]);
    }
  }

  // ---------------------------------------------------------------- what each request delivers

  /** How many bytes a job removes from the stream. */
  function Demand(job: Job): nat {
    match job
    case Read(n) => n
    case Peek(n) => 0
    case PeekTake(n) => n
  }

  function TotalDemand(jobs: seq<Job>): nat {
    if jobs == [] then 0 else Demand(jobs[0]) + TotalDemand(jobs[1..])
  }

  /** What the job in progress has still to remove. */
  function StillDue(pc: ReaderPc, job: Job): nat {
    match pc
    case RIdle => 0
    case RNotifyLock(_) => if job.Read? then job.n else 0
    case RNotify(_) => if job.Read? then job.n else 0
    case RNotifyUnlock(_) => if job.Read? then job.n else 0
    case _ => Demand(job)
  }

  /** What the reader was asked to remove altogether: a constant of the run. */
  function Ordered(s: Stream): nat {
    |s.received| + StillDue(s.rpc, s.rjob) + TotalDemand(s.rjobs)
  }

  lemma WriterKeepsOrder(s: Stream)
    requires WriterCan(s) && WriterSafe(s)
    ensures Ordered(WriterStep(s)) == Ordered(s)
  {
  }

  lemma ReaderKeepsOrder(s: Stream)
    requires Inv(s) && ReaderCan(s) && ReaderSafe(s)
    ensures Ordered(ReaderStep(s)) == Ordered(s)
  {
  }

  lemma OrderedKeeps(s: Stream, m: Move, t: Stream)
    requires Inv(s) && Next(s, m, t)
    ensures Ordered(t) == Ordered(s)
  {
    match m
    case ReaderMoves => ReaderKeepsOrder(s);
    case WriterMoves => WriterKeepsOrder(s);
    case _ =>
  }

  lemma {:induction false} RunOrdered(states: seq<Stream>, moves: seq<Move>, k: nat)
    requires Run(states, moves) && k < |states|
    ensures Ordered(states[k]) == TotalDemand(states[0].rjobs)
  {
    if k > 0 {
      RunOrdered(states, moves, k - 1);
      RunKeeps(states, moves, k - 1);
      OrderedKeeps(states[k - 1], moves[k - 1], states[k]);
    }
  }

  /** Between two jobs the reader has exactly the bytes its finished jobs asked for, in order,
      however they were chunked and interleaved. A peek counts for nothing, and a peek of `n` with
      its take counts like a read of `n`. */
  lemma DeliveredSoFar(states: seq<Stream>, moves: seq<Move>, k: nat)
    requires Run(states, moves) && k < |states| && states[k].rpc == RIdle
    ensures var n := TotalDemand(states[0].rjobs) - TotalDemand(states[k].rjobs);
            0 <= n <= |Flat(states[0].wjobs)| && states[k].received == Flat(states[0].wjobs)[..n]
  {
    RunKeeps(states, moves, k);
    RunOrdered(states, moves, k);
  }

  /** A read of `n`, or a peek of `n` and its take, delivers the first `n` bytes; a peek alone none. */
  lemma OneJobDelivers(states: seq<Stream>, moves: seq<Move>, k: nat)
    requires Run(states, moves) && k < |states| && |states[0].rjobs| == 1
    requires states[k].rpc == RIdle && states[k].rjobs == []
    ensures match states[0].rjobs[0]
            case Read(n) => n <= |Flat(states[0].wjobs)| && states[k].received == Flat(states[0].wjobs)[..n]
            case Peek(_) => states[k].received == []
            case PeekTake(n) => n <= |Flat(states[0].wjobs)| && states[k].received == Flat(states[0].wjobs)[..n]
  {
    hide Run;
    DeliveredSoFar(states, moves, k);
    assert states[0].rjobs[1..] == [];
  }

  /** Two runs with the same outgoing bytes, one reading `n` where the other peeks `n` and takes:
      after that job both readers hold the same bytes. */
  lemma PeekTakeIsRead(a: seq<Stream>, am: seq<Move>, i: nat, b: seq<Stream>, bm: seq<Move>, j: nat,
                       before: seq<Job>, n: nat, after: seq<Job>)
    requires Run(a, am) && i < |a| && Run(b, bm) && j < |b|
    requires Flat(a[0].wjobs) == Flat(b[0].wjobs)
    requires a[0].rjobs == before + [Read(n)] + after && b[0].rjobs == before + [PeekTake(n)] + after
    requires a[i].rpc == RIdle && a[i].rjobs == after && b[j].rpc == RIdle && b[j].rjobs == after
    ensures a[i].received == b[j].received
  {
    DeliveredSoFar(a, am, i);
    DeliveredSoFar(b, bm, j);
    SwapJob(before, n, after);
  }

  lemma {:induction false} SwapJob(before: seq<Job>, n: nat, after: seq<Job>)
    ensures TotalDemand(before + [Read(n)] + after) == TotalDemand(before + [PeekTake(n)] + after)
  {
    if before == [] {
      assert [Read(n)] + after == before + [Read(n)] + after;
      assert [PeekTake(n)] + after == before + [PeekTake(n)] + after;
      assert ([Read(n)] + after)[1..] == ([PeekTake(n)] + after)[1..];
    } else {
      SwapJob(before[1..], n, after);
      assert (before + [Read(n)] + after)[1..] == before[1..] + [Read(n)] + after;
      assert (before + [PeekTake(n)] + after)[1..] == before[1..] + [PeekTake(n)] + after;
    }
  }

  // ---------------------------------------------------------------- blocking

  /** No wake-up is lost: a side parked although it could go on is about to be notified. */
  lemma NoLostWakeup(states: seq<Stream>, moves: seq<Move>, k: nat)
    requires Run(states, moves) && k < |states|
    ensures states[k].ring.Valid()
    ensures states[k].wpc.WParked? && states[k].ring.SpaceLength() > 0
            ==> states[k].rpc.RNotifyLock? || states[k].rpc.RNotify?
    ensures states[k].rpc.RParked? && states[k].ring.DataLength() >= Threshold(states[k].rjob)
            ==> states[k].wpc.WNotifyLock? || states[k].wpc.WNotify?
  {
    RunKeeps(states, moves, k);
  }

  /** The writer waits for space, or has nothing to do. */
  predicate WriterRests(s: Stream)
    requires s.ring.first <= s.ring.last
  {
    (s.wpc.WIdle? && s.wjobs == []) || (s.wpc.WParked? && s.ring.DataLength() == |s.ring.mem|)
  }

  /** The reader waits for data, or has nothing to do. */
  predicate ReaderWaits(s: Stream)
    requires s.ring.first <= s.ring.last
  {
    (s.rpc.RIdle? && s.rjobs == []) || (s.rpc.RParked? && s.ring.DataLength() < Threshold(s.rjob))
  }

  /** The channel stands still exactly when each side is out of work or rightly waiting. */
  lemma StandstillExactly(s: Stream)
    requires Inv(s)
    ensures !WriterCan(s) && !ReaderCan(s) <==> WriterRests(s) && ReaderWaits(s)
  {
    match (s.notFullAccess, s.notEmptyAccess) {
      case (Held(Writer), _) =>
      case (Held(Reader), _) =>
      case (Free, Held(Writer)) =>
      case (Free, Held(Reader)) =>
      case (Free, Free) =>
    }
  }

  /** A writer and a reader in the middle of transfers are never both blocked, provided no peek
      asks for more than the ring can hold. */
  lemma NeverBothBlocked(s: Stream)
    requires Inv(s) && !s.wpc.WIdle? && !s.rpc.RIdle?
    requires Threshold(s.rjob) <= |s.ring.mem|
    ensures WriterCan(s) || ReaderCan(s)
  {
    StandstillExactly(s);
  }
}
