/** One writer process and one reader process on one channel, as a step machine. A step is one
    lock acquisition or release, one region under the head lock, one byte of an unlocked copy, one
    park or one notification. Conditions follow the usual contract: waiting releases the mutex and
    parks in one step, a notification wakes the parked waiter if there is one, and a parked waiter
    may also wake without one. */
module StreamMachine {
  import opened Bytes
  import opened RingBuffer

  datatype Side = Writer | Reader
  datatype Holder = Free | Held(side: Side)

  /** What the reader is asked to do: read `n` bytes, look at the next `n`, or look and then take. */
  datatype Job = Read(n: nat) | Peek(n: nat) | PeekTake(n: nat)

  datatype WriterPc =
    | WIdle
    | WLock | WTest | WPark | WParked | WWoken
    | WUnlock(space: nat)
    | WPtr(space: nat)
    | WCopy(off: nat, chunk: nat, copied: nat, done: bool)
    | WGive(off: nat, chunk: nat, done: bool)
    | WNotifyLock(done: bool) | WNotify(done: bool) | WNotifyUnlock(done: bool)

  datatype ReaderPc =
    | RIdle
    | RLock | RTest | RPark | RParked | RWoken
    | RUnlock(len: nat)
    | RPtr(len: nat)
    | RCopy(off: nat, chunk: nat, done: bool)
    | RPeeked(off: nat)
    | RTake(chunk: nat, done: bool)
    | RNotifyLock(done: bool) | RNotify(done: bool) | RNotifyUnlock(done: bool)

  /** `wrest` is what the current write has not given yet and `wjobs` the writes to come. `rbuf`
      holds the bytes the reader got through the mapping for its current chunk; `received` holds
      those of the chunks it has taken. */
  datatype Stream = Stream(
    ring: Vrb,
    notFullAccess: Holder, notEmptyAccess: Holder,
    wpc: WriterPc, wrest: seq<byte>, wjobs: seq<seq<byte>>,
    rpc: ReaderPc, rjob: Job, rbuf: seq<byte>, rjobs: seq<Job>,
    received: seq<byte>)

  /** The head and the processes as they are when the transport has just been created. */
  predicate Init(s: Stream) {
    && |s.ring.mem| > 0 && s.ring.first == 0 && s.ring.last == 0
    && s.notFullAccess == Free && s.notEmptyAccess == Free
    && s.wpc == WIdle && s.wrest == []
    && s.rpc == RIdle && s.rbuf == [] && s.received == []
  }

  // ---------------------------------------------------------------- the writer

  /** The next writer step can be taken now; a spurious wake-up is not counted. */
  predicate WriterCan(s: Stream) {
    match s.wpc
    case WIdle => s.wjobs != []
    case WLock => s.notFullAccess == Free
    case WWoken => s.notFullAccess == Free
    case WParked => false
    case WNotifyLock(_) => s.notEmptyAccess == Free
    case _ => true
  }

  /** The next writer step touches only mapped memory and gives no more than the ring can hold. */
  ghost predicate WriterSafe(s: Stream) {
    && s.ring.Valid()
    && match s.wpc
       case WCopy(off, chunk, i, _) => i < chunk ==> i < |s.wrest| && off + i < 2 * |s.ring.mem|
       case WGive(_, chunk, _) => chunk <= s.ring.SpaceLength() && chunk <= |s.wrest|
       case _ => true
  }

  function WriterStep(s: Stream): Stream
    requires WriterCan(s) && WriterSafe(s)
  {
    match s.wpc
    case WIdle => s.(wpc := WLock, wrest := s.wjobs[0], wjobs := s.wjobs[1..])
    case WLock => s.(wpc := WTest, notFullAccess := Held(Writer))
    case WTest =>
      var space := s.ring.SpaceLength();
      if space == 0 then s.(wpc := WPark) else s.(wpc := WUnlock(space))
    case WPark => s.(wpc := WParked, notFullAccess := Free)
    case WWoken => s.(wpc := WTest, notFullAccess := Held(Writer))
    case WUnlock(space) => s.(wpc := WPtr(space), notFullAccess := Free)
    case WPtr(space) =>
      if space >= |s.wrest| then s.(wpc := WCopy(s.ring.last, |s.wrest|, 0, true))
      else s.(wpc := WCopy(s.ring.last, space, 0, false))
    case WCopy(off, chunk, i, done) =>
      if i < chunk then s.(ring := s.ring.Poke(off + i, s.wrest[i]), wpc := WCopy(off, chunk, i + 1, done))
      else s.(wpc := WGive(off, chunk, done))
    case WGive(off, chunk, done) =>
      s.(ring := s.ring.Give(chunk), wrest := s.wrest[chunk..], wpc := WNotifyLock(done))
    case WNotifyLock(done) => s.(wpc := WNotify(done), notEmptyAccess := Held(Writer))
    case WNotify(done) =>
      s.(wpc := WNotifyUnlock(done), rpc := if s.rpc == RParked then RWoken else s.rpc)
    case WNotifyUnlock(done) =>
      s.(wpc := if done then WIdle else WLock, notEmptyAccess := Free)
  }

  // ---------------------------------------------------------------- the reader

  /** How much data the reader waits for: any at all for a read, all of it for a peek. */
  function Threshold(job: Job): nat {
    match job
    case Read(_) => 1
    case Peek(n) => n
    case PeekTake(n) => n
  }

  predicate ReaderCan(s: Stream) {
    match s.rpc
    case RIdle => s.rjobs != []
    case RLock => s.notEmptyAccess == Free
    case RWoken => s.notEmptyAccess == Free
    case RParked => false
    case RNotifyLock(_) => s.notFullAccess == Free
    case _ => true
  }

  /** The next reader step looks only at mapped memory and takes no more than the ring holds. */
  ghost predicate ReaderSafe(s: Stream) {
    && s.ring.Valid()
    && match s.rpc
       case RCopy(off, chunk, _) => |s.rbuf| < chunk ==> off + |s.rbuf| < 2 * |s.ring.mem|
       case RPeeked(off) => off + s.rjob.n <= 2 * |s.ring.mem|
       case RTake(chunk, _) => chunk <= s.ring.DataLength() && (s.rjob.Read? ==> chunk <= s.rjob.n)
       case _ => true
  }

  ghost function ReaderStep(s: Stream): Stream
    requires ReaderCan(s) && ReaderSafe(s)
  {
    match s.rpc
    case RIdle => s.(rpc := RLock, rjob := s.rjobs[0], rjobs := s.rjobs[1..])
    case RLock => s.(rpc := RTest, notEmptyAccess := Held(Reader))
    case RTest =>
      var len := s.ring.DataLength();
      if len < Threshold(s.rjob) then s.(rpc := RPark) else s.(rpc := RUnlock(len))
    case RPark => s.(rpc := RParked, notEmptyAccess := Free)
    case RWoken => s.(rpc := RTest, notEmptyAccess := Held(Reader))
    case RUnlock(len) => s.(rpc := RPtr(len), notEmptyAccess := Free)
    case RPtr(len) =>
      if !s.rjob.Read? then s.(rpc := RPeeked(s.ring.first))
      else if len >= s.rjob.n then s.(rpc := RCopy(s.ring.first, s.rjob.n, true))
      else s.(rpc := RCopy(s.ring.first, len, false))
    case RCopy(off, chunk, done) =>
      if |s.rbuf| < chunk then s.(rbuf := s.rbuf + [s.ring.mem[s.ring.Cell(off + |s.rbuf|)]])
      else s.(rpc := RTake(chunk, done))
    case RPeeked(off) =>
      if s.rjob.Peek? then s.(rpc := RIdle)
      else s.(rpc := RTake(s.rjob.n, true), rbuf := s.ring.Window(off, s.rjob.n))
    case RTake(chunk, done) =>
      s.(ring := s.ring.Take(chunk), received := s.received + s.rbuf, rbuf := [],
         rjob := if s.rjob.Read? then Read(s.rjob.n - chunk) else s.rjob,
         rpc := RNotifyLock(done))
    case RNotifyLock(done) => s.(rpc := RNotify(done), notFullAccess := Held(Reader))
    case RNotify(done) =>
      s.(rpc := RNotifyUnlock(done), wpc := if s.wpc == WParked then WWoken else s.wpc)
    case RNotifyUnlock(done) =>
      s.(rpc := if done then RIdle else RLock, notFullAccess := Free)
  }

  // ---------------------------------------------------------------- runs

  datatype Move = WriterMoves | ReaderMoves | WriterWakes | ReaderWakes

  ghost predicate Next(s: Stream, m: Move, t: Stream) {
    match m
    case WriterMoves => WriterCan(s) && WriterSafe(s) && t == WriterStep(s)
    case ReaderMoves => ReaderCan(s) && ReaderSafe(s) && t == ReaderStep(s)
    case WriterWakes => s.wpc == WParked && t == s.(wpc := WWoken)
    case ReaderWakes => s.rpc == RParked && t == s.(rpc := RWoken)
  }

  ghost predicate Run(states: seq<Stream>, moves: seq<Move>) {
    && |states| == |moves| + 1
    && Init(states[0])
    && forall i :: 0 <= i < |moves| ==> Next(states[i], moves[i], states[i + 1])
  }
}
