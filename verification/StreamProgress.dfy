/** Progress of the channel: every run is bounded by the bytes asked for, and a run that can go no
    further has completed exactly when the requests could be met at all. */
module StreamProgress {
  import opened Bytes
  import opened RingBuffer
  import opened StreamMachine
  import opened StreamInvariant
  import opened StreamSafety

  // ---------------------------------------------------------------- the measure

  function WriteJobsWork(jobs: seq<seq<byte>>): nat {
    if jobs == [] then 0 else 100 * (|jobs[0]| + 1) + WriteJobsWork(jobs[1..])
  }

  /** A loop iteration that is not the last leaves room for the next one, paid for by its chunk. */
  function Again(done: bool): nat {
    if done then 0 else 60
  }

  function WriterRank(pc: WriterPc): int {
    match pc
    case WIdle => 0
    case WNotifyUnlock(done) => 1 + Again(done)
    case WNotify(done) => 10 + Again(done)
    case WNotifyLock(done) => 11 + Again(done)
    case WGive(_, chunk, _) => 12 - chunk
    case WCopy(_, _, copied, _) => 14 - copied
    case WPtr(_) => 15
    case WUnlock(_) => 16
    case WParked => 16
    case WPark => 17
    case WTest => 18
    case WWoken => 19
    case WLock => 20
  }

  function ReadJobsWork(jobs: seq<Job>): nat {
    if jobs == [] then 0 else 100 * (Demand(jobs[0]) + 1) + ReadJobsWork(jobs[1..])
  }

  function ReaderRank(pc: ReaderPc, buf: seq<byte>): int {
    match pc
    case RIdle => 0
    case RNotifyUnlock(done) => 1 + Again(done)
    case RNotify(done) => 10 + Again(done)
    case RNotifyLock(done) => 11 + Again(done)
    case RTake(_, _) => 12 - |buf|
    case RPeeked(_) => 13
    case RCopy(_, _, _) => 14 - |buf|
    case RPtr(_) => 15
    case RUnlock(_) => 16
    case RParked => 16
    case RPark => 17
    case RTest => 18
    case RWoken => 19
    case RLock => 20
  }

  function WriterWork(s: Stream): int {
    100 * |s.wrest| + WriteJobsWork(s.wjobs) + WriterRank(s.wpc)
  }

  function ReaderWork(s: Stream): int {
    100 * StillDue(s.rpc, s.rjob) + ReadJobsWork(s.rjobs) + ReaderRank(s.rpc, s.rbuf)
  }

  function Measure(s: Stream): int {
    WriterWork(s) + ReaderWork(s)
  }

  lemma MeasureNonNegative(s: Stream)
    requires Inv(s)
    ensures Measure(s) >= 0
  {
  }

  lemma WriterBegins(s: Stream)
    requires Inv(s) && WriterCan(s) && WriterSafe(s) && s.wpc.WIdle?
    ensures Measure(WriterStep(s)) < Measure(s)
  {
  }

  lemma WriterGoesOn(s: Stream)
    requires Inv(s) && WriterCan(s) && WriterSafe(s)
    requires s.wpc.WLock? || s.wpc.WTest? || s.wpc.WPark? || s.wpc.WWoken? || s.wpc.WUnlock? || s.wpc.WPtr?
    ensures Measure(WriterStep(s)) < Measure(s)
  {
    hide Inv, ReaderRank, WriteJobsWork, ReadJobsWork;
  }

  lemma WriterEnds(s: Stream)
    requires Inv(s) && WriterCan(s) && (s.wpc.WNotifyLock? || s.wpc.WNotifyUnlock?)
    ensures Measure(WriterStep(s)) < Measure(s)
  {
  }

  lemma WriterCopies(s: Stream)
    requires Inv(s) && WriterCan(s) && WriterSafe(s) && (s.wpc.WCopy? || s.wpc.WGive?)
    ensures Measure(WriterStep(s)) < Measure(s)
  {
  }

  /** Waking the reader costs less than the notification pays. */
  lemma WriterNotifies(s: Stream)
    requires Inv(s) && s.wpc.WNotify?
    ensures Measure(WriterStep(s)) < Measure(s)
  {
    assert ReaderWork(WriterStep(s)) <= ReaderWork(s) + 3;
  }

  lemma WriterDecreases(s: Stream)
    requires Inv(s) && WriterCan(s) && WriterSafe(s)
    ensures Measure(WriterStep(s)) < Measure(s)
  {
    hide Inv, WriterSafe, WriterStep, Measure;
    match s.wpc
    case WIdle => WriterBegins(s);
    case WCopy(_, _, _, _) => WriterCopies(s);
    case WGive(_, _, _) => WriterCopies(s);
    case WNotify(_) => WriterNotifies(s);
    case WNotifyLock(_) => WriterEnds(s);
    case WNotifyUnlock(_) => WriterEnds(s);
    case _ => WriterGoesOn(s);
  }

  lemma ReaderBegins(s: Stream)
    requires Inv(s) && ReaderCan(s) && ReaderSafe(s) && s.rpc.RIdle?
    ensures Measure(ReaderStep(s)) < Measure(s)
  {
  }

  lemma ReaderGoesOn(s: Stream)
    requires Inv(s) && ReaderCan(s) && ReaderSafe(s)
    requires s.rpc.RLock? || s.rpc.RTest? || s.rpc.RPark? || s.rpc.RWoken? || s.rpc.RUnlock? || s.rpc.RPtr?
    ensures Measure(ReaderStep(s)) < Measure(s)
  {
    hide Inv, WriterRank, WriteJobsWork, ReadJobsWork;
  }

  lemma ReaderEnds(s: Stream)
    requires Inv(s) && ReaderCan(s) && (s.rpc.RNotifyLock? || s.rpc.RNotifyUnlock?)
    ensures Measure(ReaderStep(s)) < Measure(s)
  {
  }

  lemma ReaderCopies(s: Stream)
    requires Inv(s) && ReaderCan(s) && ReaderSafe(s) && (s.rpc.RCopy? || s.rpc.RPeeked? || s.rpc.RTake?)
    ensures Measure(ReaderStep(s)) < Measure(s)
  {
  }

  lemma ReaderNotifies(s: Stream)
    requires Inv(s) && s.rpc.RNotify?
    ensures Measure(ReaderStep(s)) < Measure(s)
  {
    assert WriterWork(ReaderStep(s)) <= WriterWork(s) + 3;
  }

  lemma ReaderDecreases(s: Stream)
    requires Inv(s) && ReaderCan(s) && ReaderSafe(s)
    ensures Measure(ReaderStep(s)) < Measure(s)
  {
    hide Inv, ReaderSafe, ReaderStep, Measure;
    match s.rpc
    case RIdle => ReaderBegins(s);
    case RCopy(_, _, _) => ReaderCopies(s);
    case RPeeked(_) => ReaderCopies(s);
    case RTake(_, _) => ReaderCopies(s);
    case RNotify(_) => ReaderNotifies(s);
    case RNotifyLock(_) => ReaderEnds(s);
    case RNotifyUnlock(_) => ReaderEnds(s);
    case _ => ReaderGoesOn(s);
  }

  /** Every step but a spurious wake-up lowers the measure. */
  lemma NextDecreases(s: Stream, m: Move, t: Stream)
    requires Inv(s) && Next(s, m, t)
    ensures Measure(t) <= Measure(s) + if Spurious(m) then 3 else -1
  {
    match m
    case WriterMoves => WriterDecreases(s);
    case ReaderMoves => ReaderDecreases(s);
    case _ =>
  }

  predicate Spurious(m: Move) {
    m == WriterWakes || m == ReaderWakes
  }

  function SpuriousCount(moves: seq<Move>): nat {
    if moves == [] then 0
    else SpuriousCount(moves[..|moves| - 1]) + if Spurious(moves[|moves| - 1]) then 1 else 0
  }

  lemma {:induction false} BoundedUpTo(states: seq<Stream>, moves: seq<Move>, k: nat)
    requires Run(states, moves) && k <= |moves|
    ensures k + Measure(states[k]) <= Measure(states[0]) + 4 * SpuriousCount(moves[..k])
  {
    hide Inv, Next, Init, Measure;
    if k > 0 {
      BoundedUpTo(states, moves, k - 1);
      assert moves[..k][..k - 1] == moves[..k - 1];
      RunKeeps(states, moves, k - 1);
      NextDecreases(states[k - 1], moves[k - 1], states[k]);
    }
  }

  /** Transfers of any size, larger than the ring or not, take a bounded number of steps: at most
      the initial measure, and four more for every spurious wake-up. */
  lemma RunsAreBounded(states: seq<Stream>, moves: seq<Move>)
    requires Run(states, moves)
    ensures |moves| + Measure(states[|moves|]) <= Measure(states[0]) + 4 * SpuriousCount(moves)
    ensures |moves| <= Measure(states[0]) + 4 * SpuriousCount(moves)
  {
    hide Inv, Next, Init, Measure, SpuriousCount;
    BoundedUpTo(states, moves, |moves|);
    assert moves[..|moves|] == moves;
    RunKeeps(states, moves, |moves|);
    MeasureNonNegative(states[|moves|]);
  }

  // ---------------------------------------------------------------- completion

  /** What must arrive for a job to be served: at least one byte even for an empty read. */
  function Need(job: Job): nat {
    match job
    case Read(n) => if n == 0 then 1 else n
    case Peek(n) => n
    case PeekTake(n) => n
  }

  /** The jobs can be served in turn from `avail` bytes through a ring of `cap`. */
  predicate Feasible(jobs: seq<Job>, avail: int, cap: nat) {
    jobs == [] ||
    (Need(jobs[0]) <= avail && (jobs[0].Read? || jobs[0].n <= cap)
     && Feasible(jobs[1..], avail - Demand(jobs[0]), cap))
  }

  /** The jobs the reader has not been served yet. */
  function Unserved(s: Stream): seq<Job> {
    match s.rpc
    case RIdle => s.rjobs
    case RNotifyLock(done) => if done then s.rjobs else [s.rjob] + s.rjobs
    case RNotify(done) => if done then s.rjobs else [s.rjob] + s.rjobs
    case RNotifyUnlock(done) => if done then s.rjobs else [s.rjob] + s.rjobs
    case _ => [s.rjob] + s.rjobs
  }

  /** The bytes not received yet. */
  function Coming(s: Stream): nat
    requires s.ring.first <= s.ring.last
  {
    s.ring.DataLength() + |s.wrest| + |Flat(s.wjobs)|
  }

  ghost predicate CanBeServed(s: Stream)
    requires s.ring.Valid()
  {
    Feasible(Unserved(s), Coming(s), |s.ring.mem|)
  }

  lemma WriterKeepsFeasible(s: Stream)
    requires Inv(s) && WriterCan(s) && WriterSafe(s)
    ensures WriterStep(s).ring.Valid()
    ensures CanBeServed(WriterStep(s)) == CanBeServed(s)
  {
    var t := WriterStep(s);
    assert Unserved(t) == Unserved(s);
    assert Coming(t) == Coming(s);
  }

  lemma TakeKeepsFeasible(s: Stream)
    requires Inv(s) && s.rpc.RTake? && ReaderSafe(s)
    ensures ReaderStep(s).ring.Valid()
    ensures CanBeServed(ReaderStep(s)) == CanBeServed(s)
  {
    var t := ReaderStep(s);
    assert Coming(t) == Coming(s) - s.rpc.chunk;
    assert ([s.rjob] + s.rjobs)[1..] == s.rjobs;
    if !s.rpc.done {
      assert ([t.rjob] + t.rjobs)[1..] == s.rjobs;
    }
  }

  lemma ReaderKeepsFeasible(s: Stream)
    requires Inv(s) && ReaderCan(s) && ReaderSafe(s)
    ensures ReaderStep(s).ring.Valid()
    ensures CanBeServed(ReaderStep(s)) == CanBeServed(s)
  {
    var t := ReaderStep(s);
    match s.rpc
    case RTake(_, _) => TakeKeepsFeasible(s);
    case RIdle => assert Unserved(t) == s.rjobs;
    case RPeeked(_) =>
      assert ([s.rjob] + s.rjobs)[1..] == s.rjobs;
    case _ =>
  }

  lemma NextKeepsFeasible(s: Stream, m: Move, t: Stream)
    requires Inv(s) && Next(s, m, t)
    ensures t.ring.Valid() && CanBeServed(t) == CanBeServed(s)
  {
    match m
    case WriterMoves => WriterKeepsFeasible(s);
    case ReaderMoves => ReaderKeepsFeasible(s);
    case _ =>
  }

  lemma {:induction false} RunKeepsFeasible(states: seq<Stream>, moves: seq<Move>, k: nat)
    requires Run(states, moves) && k < |states|
    ensures states[0].ring.Valid() && states[k].ring.Valid()
    ensures CanBeServed(states[k]) == CanBeServed(states[0])
  {
    RunKeeps(states, moves, k);
    if k > 0 {
      RunKeepsFeasible(states, moves, k - 1);
      RunKeeps(states, moves, k - 1);
      NextKeepsFeasible(states[k - 1], moves[k - 1], states[k]);
    } else {
      RunKeeps(states, moves, 0);
    }
  }

  predicate Completed(s: Stream) {
    s.wpc == WIdle && s.wjobs == [] && s.rpc == RIdle && s.rjobs == []
  }

  /** What a write waits to have space for: one byte even for an empty write. */
  function Least(job: seq<byte>): nat {
    if job == [] then 1 else |job|
  }

  /** The writes can be made in turn with room for `room` bytes. */
  predicate WritesFit(jobs: seq<seq<byte>>, room: int) {
    jobs == [] || (Least(jobs[0]) <= room && WritesFit(jobs[1..], room - |jobs[0]|))
  }

  /** The writes the writer has not completed yet. */
  function Unwritten(s: Stream): seq<seq<byte>> {
    match s.wpc
    case WIdle => s.wjobs
    case WNotifyLock(done) => if done then s.wjobs else [s.wrest] + s.wjobs
    case WNotify(done) => if done then s.wjobs else [s.wrest] + s.wjobs
    case WNotifyUnlock(done) => if done then s.wjobs else [s.wrest] + s.wjobs
    case _ => [s.wrest] + s.wjobs
  }

  /** How much the writer can give until the end: what is free, and what the reader will still remove. */
  function Room(s: Stream): nat
    requires s.ring.Valid()
  {
    StillDue(s.rpc, s.rjob) + TotalDemand(s.rjobs) + s.ring.SpaceLength()
  }

  ghost predicate CanBeWritten(s: Stream)
    requires s.ring.Valid()
  {
    WritesFit(Unwritten(s), Room(s))
  }

  /** The reader frees what it receives. */
  lemma ReaderFrees(s: Stream)
    requires Inv(s) && ReaderCan(s) && ReaderSafe(s)
    ensures ReaderStep(s).ring.Valid()
    ensures ReaderStep(s).ring.SpaceLength() - |ReaderStep(s).received| == s.ring.SpaceLength() - |s.received|
    ensures Unwritten(ReaderStep(s)) == Unwritten(s)
  {
    hide WriterOk, WakeupsOwed, LocksAgree, Vrb.Contents, Vrb.Window;
  }

  lemma ReaderKeepsRoom(s: Stream)
    requires Inv(s) && ReaderCan(s) && ReaderSafe(s)
    ensures ReaderStep(s).ring.Valid()
    ensures CanBeWritten(ReaderStep(s)) == CanBeWritten(s)
  {
    hide WriterOk, ReaderOk, WakeupsOwed, LocksAgree, ReaderStep, ReaderCan, StillDue, TotalDemand, Unwritten,
      WritesFit;
    ReaderFrees(s);
    ReaderKeepsOrder(s);
  }

  /** A chunk given leaves as much of the write as it leaves room. */
  lemma FitsAfterChunk(rest: seq<byte>, jobs: seq<seq<byte>>, room: int, n: nat)
    requires n <= |rest| && n <= room && room >= 1
    ensures n < |rest| ==> (WritesFit([rest] + jobs, room) <==> WritesFit([rest[n..]] + jobs, room - n))
    ensures n == |rest| ==> (WritesFit([rest] + jobs, room) <==> WritesFit(jobs, room - n))
  {
    assert ([rest] + jobs)[1..] == jobs && ([rest[n..]] + jobs)[1..] == jobs;
  }

  lemma GiveKeepsFit(s: Stream)
    requires Inv(s) && s.wpc.WGive? && WriterSafe(s)
    ensures WriterStep(s).ring.Valid()
    ensures CanBeWritten(WriterStep(s)) == CanBeWritten(s)
  {
    hide WritesFit, StillLast, LocksAgree, WakeupsOwed, ReaderOk;
    FitsAfterChunk(s.wrest, s.wjobs, Room(s), s.wpc.chunk);
  }

  lemma WriterKeepsFit(s: Stream)
    requires Inv(s) && WriterCan(s) && WriterSafe(s)
    ensures WriterStep(s).ring.Valid()
    ensures CanBeWritten(WriterStep(s)) == CanBeWritten(s)
  {
    hide WritesFit, StillLast, LocksAgree, WakeupsOwed, ReaderOk;
    match s.wpc
    case WGive(_, _, _) => GiveKeepsFit(s);
    case WIdle => assert [s.wjobs[0]] + s.wjobs[1..] == s.wjobs;
    case _ =>
  }

  lemma NextKeepsFit(s: Stream, m: Move, t: Stream)
    requires Inv(s) && Next(s, m, t)
    ensures t.ring.Valid() && CanBeWritten(t) == CanBeWritten(s)
  {
    hide WritesFit, WriterStep, ReaderStep, WriterOk, ReaderOk, LocksAgree, WakeupsOwed;
    match m
    case WriterMoves => WriterKeepsFit(s);
    case ReaderMoves => ReaderKeepsRoom(s);
    case _ =>
  }

  lemma {:induction false} RunKeepsFit(states: seq<Stream>, moves: seq<Move>, k: nat)
    requires Run(states, moves) && k < |states|
    ensures states[0].ring.Valid() && states[k].ring.Valid()
    ensures CanBeWritten(states[k]) == CanBeWritten(states[0])
  {
    hide CanBeWritten, Next, Init, WriterOk, ReaderOk, LocksAgree, WakeupsOwed;
    RunKeeps(states, moves, k);
    RunKeeps(states, moves, 0);
    if k > 0 {
      RunKeepsFit(states, moves, k - 1);
      RunKeeps(states, moves, k - 1);
      NextKeepsFit(states[k - 1], moves[k - 1], states[k]);
    }
  }

  /** A standstill of jobs that can all be met is the end of them. */
  lemma StandstillCompletes(s: Stream)
    requires Inv(s) && WriterRests(s) && ReaderWaits(s)
    ensures Completed(s) <==> CanBeServed(s) && CanBeWritten(s)
  {
    if s.rpc.RParked? { assert Unserved(s)[0] == s.rjob; }
    if s.wpc.WParked? { assert Unwritten(s)[0] == s.wrest; }
  }

  /** When no side can move, all transfers are complete if and only if they could be met: the reads,
      peeks and takes in turn from the bytes written, no peek beyond the ring, and the writes in turn
      into the ring and what is read from it. A read waits for data, and a write for space, before it
      looks at its length, so even an empty one needs a byte. */
  lemma CompletesExactly(states: seq<Stream>, moves: seq<Move>)
    requires Run(states, moves)
    requires var s := states[|moves|]; !WriterCan(s) && !ReaderCan(s)
    ensures Completed(states[|moves|])
       <==> (Feasible(states[0].rjobs, |Flat(states[0].wjobs)|, |states[0].ring.mem|)
             && WritesFit(states[0].wjobs, TotalDemand(states[0].rjobs) + |states[0].ring.mem|))
  {
    hide Feasible, WritesFit, Next, WriterOk, ReaderOk, LocksAgree, WakeupsOwed, TotalDemand;
    var t := states[|moves|];
    RunKeeps(states, moves, |moves|);
    RunKeepsFeasible(states, moves, |moves|);
    RunKeepsFit(states, moves, |moves|);
    StandstillExactly(t);
    StandstillCompletes(t);
  }

  /** An empty read on a channel on which nothing is ever written parks for good. */
  lemma EmptyReadBlocks(s: Stream) returns (states: seq<Stream>, moves: seq<Move>)
    requires Init(s) && s.wjobs == [] && s.rjobs == [Read(0)]
    ensures Run(states, moves) && states[0] == s
    ensures var t := states[|moves|]; !WriterCan(t) && !ReaderCan(t) && !Completed(t)
  {
    var s1 := s.(rpc := RLock, rjob := Read(0), rjobs := []);
    var s2 := s1.(rpc := RTest, notEmptyAccess := Held(Reader));
    var s3 := s2.(rpc := RPark);
    var s4 := s3.(rpc := RParked, notEmptyAccess := Free);
    states := [s, s1, s2, s3, s4];
    moves := [ReaderMoves, ReaderMoves, ReaderMoves, ReaderMoves];
    assert Next(s, ReaderMoves, s1);
    assert Next(s1, ReaderMoves, s2);
    assert Next(s2, ReaderMoves, s3);
    assert Next(s3, ReaderMoves, s4);
  }
}
