/** What every step of the stream machine keeps. */
module StreamInvariant {
  import opened Bytes
  import opened RingBuffer
  import opened StreamMachine

  /** Each mutex is held by the side whose program counter lies inside the critical section. */
  ghost predicate LocksAgree(notFull: Holder, notEmpty: Holder, w: WriterPc, r: ReaderPc) {
    && (notFull == Held(Writer) <==> w.WTest? || w.WPark? || w.WUnlock?)
    && (notFull == Held(Reader) <==> r.RNotify? || r.RNotifyUnlock?)
    && (notEmpty == Held(Reader) <==> r.RTest? || r.RPark? || r.RUnlock?)
    && (notEmpty == Held(Writer) <==> w.WNotify? || w.WNotifyUnlock?)
  }

  /** The writer's chunk lies in free cells reached through a space pointer that may be stale, and
      its first `copied` bytes are in place. */
  ghost predicate Reserved(ring: Vrb, rest: seq<byte>, off: nat, chunk: nat, copied: nat, done: bool)
    requires ring.Valid()
  {
    && StillLast(ring, off)
    && off + chunk <= 2 * |ring.mem|
    && copied <= chunk <= ring.SpaceLength() && ring.SpaceLength() >= 1
    && chunk <= |rest|
    && (done <==> chunk == |rest|)
    && (chunk == 0 ==> done)
    && View(ring.mem, off, copied) == rest[..copied]
  }

  ghost predicate WriterOk(ring: Vrb, pc: WriterPc, rest: seq<byte>)
    requires ring.Valid()
  {
    match pc
    case WIdle => rest == []
    case WUnlock(space) => 1 <= space <= ring.SpaceLength()
    case WPtr(space) => 1 <= space <= ring.SpaceLength()
    case WCopy(off, chunk, copied, done) => Reserved(ring, rest, off, chunk, copied, done)
    case WGive(off, chunk, done) => Reserved(ring, rest, off, chunk, chunk, done)
    case WNotifyLock(done) => done <==> rest == []
    case WNotify(done) => done <==> rest == []
    case WNotifyUnlock(done) => done <==> rest == []
    case _ => true
  }

  ghost predicate Taking(job: Job, chunk: nat, done: bool) {
    match job
    case Read(n) => chunk <= n && (done <==> chunk == n) && (chunk == 0 ==> done)
    case Peek(n) => false
    case PeekTake(n) => chunk == n && done
  }

  ghost predicate Taken(job: Job, done: bool) {
    match job
    case Read(n) => done <==> n == 0
    case Peek(n) => false
    case PeekTake(n) => done
  }

  ghost predicate ReaderOk(ring: Vrb, pc: ReaderPc, job: Job, buf: seq<byte>)
    requires ring.Valid()
  {
    match pc
    case RUnlock(len) => Threshold(job) <= len <= ring.DataLength() && buf == []
    case RPtr(len) => Threshold(job) <= len <= ring.DataLength() && buf == []
    case RCopy(off, chunk, done) =>
      && job.Read? && Taking(job, chunk, done)
      && off == ring.first && chunk <= ring.DataLength() && Threshold(job) <= ring.DataLength()
      && |buf| <= chunk && buf <= ring.Contents()
    case RPeeked(off) => !job.Read? && off == ring.first && job.n <= ring.DataLength() && buf == []
    case RTake(chunk, done) =>
      && Taking(job, chunk, done) && Threshold(job) <= ring.DataLength()
      && |buf| == chunk && buf <= ring.Contents()
    case RNotifyLock(done) => Taken(job, done) && buf == []
    case RNotify(done) => Taken(job, done) && buf == []
    case RNotifyUnlock(done) => Taken(job, done) && buf == []
    case _ => buf == []
  }

  /** A side that is about to park, or has parked, although its condition holds is owed a
      notification: the other side is between its change of the head and its notification. */
  ghost predicate WakeupsOwed(ring: Vrb, w: WriterPc, r: ReaderPc, job: Job)
    requires ring.Valid()
  {
    && ((w.WPark? || w.WParked?) && ring.SpaceLength() > 0 ==> r.RNotifyLock? || r.RNotify?)
    && ((r.RPark? || r.RParked?) && ring.DataLength() >= Threshold(job) ==> w.WNotifyLock? || w.WNotify?)
  }

  ghost predicate Inv(s: Stream) {
    && s.ring.Valid()
    && LocksAgree(s.notFullAccess, s.notEmptyAccess, s.wpc, s.rpc)
    && WriterOk(s.ring, s.wpc, s.wrest)
    && ReaderOk(s.ring, s.rpc, s.rjob, s.rbuf)
    && WakeupsOwed(s.ring, s.wpc, s.rpc, s.rjob)
  }

  /** Everything the writer was asked to send, in order: received, in the ring, or still to come. */
  ghost function AllBytes(s: Stream): seq<byte>
    requires s.ring.Valid()
  {
    s.received + s.ring.Contents() + (s.wrest + Flat(s.wjobs))
  }

  /** The ring as the bounded queue the layers above see: a step changes nothing in it, appends the
      next bytes of the current write, or removes its oldest bytes and delivers them. */
  ghost predicate QueueStep(s: Stream, t: Stream)
    requires s.ring.Valid() && t.ring.Valid()
  {
    || (t.ring.Contents() == s.ring.Contents() && t.received == s.received)
    || (t.received == s.received
        && exists n: nat {:trigger s.wrest[..n]} | n <= |s.wrest| ::
             t.ring.Contents() == s.ring.Contents() + s.wrest[..n] && t.wrest == s.wrest[n..])
    || (exists n: nat {:trigger s.ring.Contents()[n..]} | n <= s.ring.DataLength() ::
          t.ring.Contents() == s.ring.Contents()[n..] && t.received == s.received + s.ring.Contents()[..n])
  }

  lemma InitInv(s: Stream)
    requires Init(s)
    ensures Inv(s) && AllBytes(s) == Flat(s.wjobs)
  {
  }

  /** No reachable step leaves mapped memory or over-runs the head, so the error exits of the ring
      operations, which would leave the head lock held, are never taken. */
  lemma InvSafe(s: Stream)
    requires Inv(s)
    ensures WriterSafe(s) && ReaderSafe(s)
  {
  }

  /** A step that leaves the ring and the pending bytes alone moves no byte. */
  lemma SameBytes(s: Stream, t: Stream)
    requires s.ring.Valid() && t.ring == s.ring
    requires t.received == s.received && t.wrest == s.wrest && t.wjobs == s.wjobs
    ensures AllBytes(t) == AllBytes(s) && QueueStep(s, t)
  {
  }

  // ---------------------------------------------------------------- writer steps

  /** The reader's side depends on the ring only through its contents and where they start. */
  lemma SameForReader(ring: Vrb, ring': Vrb, pc: ReaderPc, job: Job, buf: seq<byte>)
    requires ring.Valid() && ring'.Valid() && ReaderOk(ring, pc, job, buf)
    requires ring'.first == ring.first && ring'.last == ring.last && ring'.Contents() == ring.Contents()
    ensures ReaderOk(ring', pc, job, buf)
  {
  }

  lemma CopyByteReserved(ring: Vrb, rest: seq<byte>, off: nat, chunk: nat, i: nat, done: bool)
    requires ring.Valid() && Reserved(ring, rest, off, chunk, i, done) && i < chunk
    ensures off + i < 2 * |ring.mem|
    ensures var ring' := ring.Poke(off + i, rest[i]);
            && ring'.Valid() && ring'.Contents() == ring.Contents()
            && Reserved(ring', rest, off, chunk, i + 1, done)
  {
    PokeKeepsContents(ring, off, i, rest[i]);
    PokeExtendsWindow(ring, off, i, rest[i]);
    assert rest[..i + 1] == rest[..i] + [rest[i]];
  }

  lemma CopyByteKeeps(s: Stream)
    requires Inv(s) && s.wpc.WCopy? && s.wpc.copied < s.wpc.chunk
    ensures WriterSafe(s) && Inv(WriterStep(s))
    ensures AllBytes(WriterStep(s)) == AllBytes(s) && QueueStep(s, WriterStep(s))
  {
    hide Flat, ReaderOk, View;
    var WCopy(off, chunk, i, done) := s.wpc;
    CopyByteReserved(s.ring, s.wrest, off, chunk, i, done);
    SameForReader(s.ring, s.ring.Poke(off + i, s.wrest[i]), s.rpc, s.rjob, s.rbuf);
  }

  lemma GiveKeeps(s: Stream)
    requires Inv(s) && s.wpc.WGive?
    ensures WriterSafe(s) && Inv(WriterStep(s))
    ensures AllBytes(WriterStep(s)) == AllBytes(s) && QueueStep(s, WriterStep(s))
  {
    hide Flat, View;
    var n := s.wpc.chunk;
    GiveContents(s.ring, s.wpc.off, s.wrest[..n]);
    assert s.wrest == s.wrest[..n] + s.wrest[n..];
  }

  lemma WriterStartKeeps(s: Stream)
    requires Inv(s) && s.wpc.WIdle? && s.wjobs != []
    ensures Inv(WriterStep(s))
    ensures AllBytes(WriterStep(s)) == AllBytes(s) && QueueStep(s, WriterStep(s))
  {
    assert Flat(s.wjobs) == s.wjobs[0] + Flat(s.wjobs[1..]);
  }

  lemma WriterWaitKeeps(s: Stream)
    requires Inv(s) && WriterCan(s)
    requires s.wpc.WLock? || s.wpc.WTest? || s.wpc.WPark? || s.wpc.WWoken? || s.wpc.WUnlock?
    ensures Inv(WriterStep(s))
  {
  }

  lemma WriterChunkKeeps(s: Stream)
    requires Inv(s) && (s.wpc.WPtr? || (s.wpc.WCopy? && s.wpc.copied == s.wpc.chunk))
    ensures Inv(WriterStep(s))
  {
  }

  lemma WriterNotifyKeeps(s: Stream)
    requires Inv(s) && WriterCan(s)
    requires s.wpc.WNotifyLock? || s.wpc.WNotify? || s.wpc.WNotifyUnlock?
    ensures Inv(WriterStep(s))
  {
  }

  /** The writer steps that leave the ring alone. */
  lemma WriterControlKeeps(s: Stream)
    requires Inv(s) && WriterCan(s)
    requires !s.wpc.WIdle? && !s.wpc.WGive? && (s.wpc.WCopy? ==> s.wpc.copied == s.wpc.chunk)
    ensures WriterSafe(s) && Inv(WriterStep(s))
    ensures AllBytes(WriterStep(s)) == AllBytes(s) && QueueStep(s, WriterStep(s))
  {
    hide AllBytes, QueueStep, WriterOk, ReaderOk, WakeupsOwed, LocksAgree;
    SameBytes(s, WriterStep(s));
    match s.wpc
    case WPtr(_) => WriterChunkKeeps(s);
    case WCopy(_, _, _, _) => WriterChunkKeeps(s);
    case WNotifyLock(_) => WriterNotifyKeeps(s);
    case WNotify(_) => WriterNotifyKeeps(s);
    case WNotifyUnlock(_) => WriterNotifyKeeps(s);
    case _ => WriterWaitKeeps(s);
  }

  lemma WriterKeeps(s: Stream)
    requires Inv(s) && WriterCan(s)
    ensures WriterSafe(s) && Inv(WriterStep(s))
    ensures AllBytes(WriterStep(s)) == AllBytes(s) && QueueStep(s, WriterStep(s))
  {
    match s.wpc
    case WIdle => WriterStartKeeps(s);
    case WCopy(_, chunk, i, _) =>
      if i < chunk { CopyByteKeeps(s); } else { WriterControlKeeps(s); }
    case WGive(_, _, _) => GiveKeeps(s);
    case _ => WriterControlKeeps(s);
  }

  // ---------------------------------------------------------------- reader steps

  /** What a completed peek points at is the head of the data. */
  lemma PeekedWindow(s: Stream)
    requires Inv(s) && s.rpc.RPeeked?
    ensures s.rpc.off + s.rjob.n <= 2 * |s.ring.mem|
    ensures s.ring.Window(s.rpc.off, s.rjob.n) == s.ring.Contents()[..s.rjob.n]
  {
  }

  lemma CopyOutKeeps(s: Stream)
    requires Inv(s) && s.rpc.RCopy?
    ensures ReaderSafe(s) && Inv(ReaderStep(s))
  {
    hide WriterOk, View;
    var RCopy(off, chunk, done) := s.rpc;
    var i := |s.rbuf|;
    if i < chunk {
      ContentsAt(s.ring, i);
      assert s.rbuf + [s.ring.Contents()[i]] <= s.ring.Contents();
    }
  }

  lemma ContentsAt(ring: Vrb, i: nat)
    requires ring.Valid() && i < ring.DataLength()
    ensures ring.first + i < 2 * |ring.mem|
    ensures ring.Contents()[i] == ring.mem[ring.Cell(ring.first + i)]
  {
  }

  lemma PeekedKeeps(s: Stream)
    requires Inv(s) && s.rpc.RPeeked?
    ensures ReaderSafe(s) && Inv(ReaderStep(s))
  {
    hide WriterOk, View;
    PeekedWindow(s);
  }

  /** The reader looks at the ring and changes nothing in it. */
  lemma LookKeeps(s: Stream)
    requires Inv(s) && (s.rpc.RCopy? || s.rpc.RPeeked?)
    ensures ReaderSafe(s) && Inv(ReaderStep(s))
    ensures AllBytes(ReaderStep(s)) == AllBytes(s) && QueueStep(s, ReaderStep(s))
  {
    hide AllBytes, QueueStep, WriterOk, ReaderOk, WakeupsOwed, LocksAgree;
    if s.rpc.RCopy? { CopyOutKeeps(s); } else { PeekedKeeps(s); }
    SameBytes(s, ReaderStep(s));
  }

  /** Whatever the writer read from the head before a take is still good after it. */
  lemma TakeKeepsWriterOk(ring: Vrb, chunk: nat, pc: WriterPc, rest: seq<byte>)
    requires ring.Valid() && chunk <= ring.DataLength() && WriterOk(ring, pc, rest)
    ensures ring.Take(chunk).Valid() && WriterOk(ring.Take(chunk), pc, rest)
  {
    match pc
    case WCopy(off, _, _, _) => TakeKeepsStillLast(ring, off, chunk);
    case WGive(off, _, _) => TakeKeepsStillLast(ring, off, chunk);
    case _ =>
  }

  lemma TakeMovesBytes(s: Stream)
    requires Inv(s) && s.rpc.RTake?
    ensures ReaderSafe(s) && ReaderStep(s).ring.Valid()
    ensures AllBytes(ReaderStep(s)) == AllBytes(s) && QueueStep(s, ReaderStep(s))
  {
    hide Flat, LocksAgree, WriterOk, WakeupsOwed;
    var chunk := s.rpc.chunk;
    TakeContents(s.ring, chunk);
    assert s.rbuf == s.ring.Contents()[..chunk];
    assert s.ring.Contents() == s.ring.Contents()[..chunk] + s.ring.Contents()[chunk..];
  }

  lemma TakeKeeps(s: Stream)
    requires Inv(s) && s.rpc.RTake?
    ensures ReaderSafe(s) && Inv(ReaderStep(s))
    ensures AllBytes(ReaderStep(s)) == AllBytes(s) && QueueStep(s, ReaderStep(s))
  {
    TakeMovesBytes(s);
    TakeKeepsWriterOk(s.ring, s.rpc.chunk, s.wpc, s.wrest);
  }

  lemma ReaderWaitKeeps(s: Stream)
    requires Inv(s) && ReaderCan(s)
    requires s.rpc.RLock? || s.rpc.RTest? || s.rpc.RPark? || s.rpc.RWoken? || s.rpc.RUnlock?
    ensures Inv(ReaderStep(s))
  {
  }

  lemma ReaderChunkKeeps(s: Stream)
    requires Inv(s) && ReaderCan(s) && (s.rpc.RIdle? || s.rpc.RPtr?)
    ensures Inv(ReaderStep(s))
  {
  }

  lemma ReaderNotifyKeeps(s: Stream)
    requires Inv(s) && ReaderCan(s)
    requires s.rpc.RNotifyLock? || s.rpc.RNotify? || s.rpc.RNotifyUnlock?
    ensures Inv(ReaderStep(s))
  {
  }

  /** The reader steps that leave the ring and the reader's buffer alone. */
  lemma ReaderControlKeeps(s: Stream)
    requires Inv(s) && ReaderCan(s)
    requires !s.rpc.RCopy? && !s.rpc.RPeeked? && !s.rpc.RTake?
    ensures ReaderSafe(s) && Inv(ReaderStep(s))
    ensures AllBytes(ReaderStep(s)) == AllBytes(s) && QueueStep(s, ReaderStep(s))
  {
    hide AllBytes, QueueStep, WriterOk, ReaderOk, WakeupsOwed, LocksAgree;
    SameBytes(s, ReaderStep(s));
    match s.rpc
    case RIdle => ReaderChunkKeeps(s);
    case RPtr(_) => ReaderChunkKeeps(s);
    case RNotifyLock(_) => ReaderNotifyKeeps(s);
    case RNotify(_) => ReaderNotifyKeeps(s);
    case RNotifyUnlock(_) => ReaderNotifyKeeps(s);
    case _ => ReaderWaitKeeps(s);
  }

  lemma ReaderKeeps(s: Stream)
    requires Inv(s) && ReaderCan(s)
    ensures ReaderSafe(s) && Inv(ReaderStep(s))
    ensures AllBytes(ReaderStep(s)) == AllBytes(s) && QueueStep(s, ReaderStep(s))
  {
    match s.rpc
    case RCopy(_, _, _) => LookKeeps(s);
    case RPeeked(_) => LookKeeps(s);
    case RTake(_, _) => TakeKeeps(s);
    case _ => ReaderControlKeeps(s);
  }

  lemma NextKeeps(s: Stream, m: Move, t: Stream)
    requires Inv(s) && Next(s, m, t)
    ensures Inv(t) && AllBytes(t) == AllBytes(s) && QueueStep(s, t)
  {
    match m
    case WriterMoves => WriterKeeps(s);
    case ReaderMoves => ReaderKeeps(s);
    case WriterWakes => SameBytes(s, t);
    case ReaderWakes => SameBytes(s, t);
  }
}
