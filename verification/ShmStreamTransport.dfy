/** The stream operations of one channel on the shared storage itself. Each operation is written as
    the process runs it, with the peer process let loose wherever the head lock is not held: the
    peer's writer may give while this side reads, the peer's reader may take while it writes. */
module ShmStreamTransport {
  import opened Bytes
  import opened RingBuffer

  class Channel {
    /** The storage, mapped twice back to back, and the shared head. */
    const mem: array<byte>
    var first: nat
    var last: nat

    /** The peer: what it has still to write, how much it will still take, and what it has taken. */
    var outgoing: seq<byte>
    var appetite: nat
    var drained: seq<byte>

    /** How many more times a wait will return without a notification. */
    var spurious: nat

    ghost function Head(): Vrb
      reads this, mem
    {
      Vrb(mem[..], first, last)
    }

    ghost predicate Valid()
      reads this, mem
    {
      Head().Valid()
    }

    /** The bytes this side will read, in order. */
    ghost function Incoming(): seq<byte>
      requires Valid()
      reads this, mem
    {
      Head().Contents() + outgoing
    }

    /** The bytes this side has written, as far as the channel still shows them. */
    ghost function Written(): seq<byte>
      requires Valid()
      reads this, mem
    {
      drained + Head().Contents()
    }

    /** How many bytes can be written before the peer's reader stops taking. */
    ghost function Room(): nat
      requires Valid()
      reads this, mem
    {
      Head().SpaceLength() + appetite
    }

    constructor (storage: array<byte>)
      requires storage.Length > 0
      ensures mem == storage && Valid() && Head().Contents() == []
      ensures outgoing == [] && appetite == 0 && drained == [] && spurious == 0
    {
      mem := storage;
      first, last := 0, 0;
      outgoing, appetite, drained, spurious := [], 0, [], 0;
    }

    // -------------------------------------------------------------- head lock regions

    method GetDataLength() returns (n: nat)
      requires Valid()
      ensures n == Head().DataLength()
    {
      n := last - first;
    }

    method GetDataPtr() returns (off: nat)
      requires Valid()
      ensures off == first
    {
      off := first;
    }

    method GetSpaceLength() returns (n: nat)
      requires Valid()
      ensures n == Head().SpaceLength()
    {
      n := mem.Length - (last - first);
    }

    method GetSpacePtr() returns (off: nat)
      requires Valid()
      ensures off == last
    {
      off := last;
    }

    method Take(amount: nat)
      requires Valid() && amount <= Head().DataLength()
      modifies this`first, this`last
      ensures Head() == old(Head().Take(amount))
      ensures Valid() && Head().Contents() == old(Head().Contents())[amount..]
    {
      TakeContents(Head(), amount);
      first := first + amount;
      if first >= mem.Length {
        first, last := first - mem.Length, last - mem.Length;
      }
    }

    method Give(amount: nat)
      requires Valid() && amount <= Head().SpaceLength()
      modifies this`last
      ensures Head() == old(Head().Give(amount)) && Valid()
    {
      last := last + amount;
    }

    method Load(off: nat) returns (b: byte)
      requires off < 2 * mem.Length
      ensures b == Head().mem[Head().Cell(off)]
    {
      b := mem[if off < mem.Length then off else off - mem.Length];
    }

    method Store(off: nat, b: byte)
      requires off < 2 * mem.Length
      modifies mem
      ensures Head() == old(Head().Poke(off, b))
    {
      mem[if off < mem.Length then off else off - mem.Length] := b;
    }

    // -------------------------------------------------------------- the peer process

    /** The peer copies `n` bytes out of the mapping. */
    method CopyFrom(off: nat, n: nat) returns (data: seq<byte>)
      requires off + n <= 2 * mem.Length
      ensures data == View(mem[..], off, n)
    {
      data := [];
      for i := 0 to n
        invariant data == View(mem[..], off, i)
      {
        var b := Load(off + i);
        data := data + [b];
      }
    }

    /** The peer copies bytes into free cells of the mapping. */
    method CopyTo(off: nat, data: seq<byte>)
      requires Valid() && StillLast(Head(), off)
      requires |data| <= Head().SpaceLength() && off + |data| <= 2 * mem.Length
      modifies mem
      ensures Valid() && Head().Contents() == old(Head().Contents())
      ensures View(mem[..], off, |data|) == data
    {
      for i := 0 to |data|
        invariant Valid() && Head().Contents() == old(Head().Contents())
        invariant View(mem[..], off, i) == data[..i]
      {
        PokeKeepsContents(Head(), off, i, data[i]);
        PokeExtendsWindow(Head(), off, i, data[i]);
        Store(off + i, data[i]);
      }
    }

    /** The peer's writer gives any amount, at least `atLeast`. */
    method PeerGives(atLeast: nat)
      requires Valid() && atLeast <= Head().SpaceLength() && atLeast <= |outgoing|
      modifies this`last, this`outgoing, mem
      ensures OnlyAdded(old(Head()), Head()) && Incoming() == old(Incoming())
      ensures |outgoing| + atLeast <= old(|outgoing|)
    {
      var n: nat :| atLeast <= n <= mem.Length - (last - first) && n <= |outgoing|;
      CopyTo(last, outgoing[..n]);
      GiveContents(Head(), last, outgoing[..n]);
      Give(n);
      assert outgoing == outgoing[..n] + outgoing[n..];
      outgoing := outgoing[n..];
    }

    /** The peer's reader takes any amount, at least `atLeast`. */
    method PeerTakes(atLeast: nat)
      requires Valid() && atLeast <= Head().DataLength() && atLeast <= appetite
      modifies this`first, this`last, this`appetite, this`drained
      ensures OnlyTaken(old(Head()), Head()) && Written() == old(Written()) && Room() == old(Room())
      ensures appetite + atLeast <= old(appetite)
    {
      var n: nat :| atLeast <= n <= last - first && n <= appetite;
      ghost var start := Head();
      var taken := CopyFrom(first, n);
      assert taken == start.Contents()[..n];
      assert start.Contents() == start.Contents()[..n] + start.Contents()[n..];
      TakeIsOnlyTaken(start, n);
      Take(n);
      drained := drained + taken;
      appetite := appetite - n;
    }

    /** Park on `notEmpty`. A notified reader finds more data; a spurious one may not. */
    method WaitNotEmpty()
      requires Valid() && Head().SpaceLength() > 0 && outgoing != []
      modifies this`last, this`outgoing, this`spurious, mem
      ensures OnlyAdded(old(Head()), Head()) && Incoming() == old(Incoming())
      ensures |outgoing| + spurious < old(|outgoing| + spurious)
      ensures |outgoing| <= old(|outgoing|) && spurious <= old(spurious)
    {
      var notified: bool := *;
      if !notified && spurious > 0 {
        spurious := spurious - 1;
      } else {
        PeerGives(1);
      }
    }

    /** Park on `notFull`. */
    method WaitNotFull()
      requires Valid() && Head().DataLength() > 0 && appetite > 0
      modifies this`first, this`last, this`appetite, this`drained, this`spurious
      ensures OnlyTaken(old(Head()), Head()) && Written() == old(Written()) && Room() == old(Room())
      ensures appetite + spurious < old(appetite + spurious)
      ensures appetite <= old(appetite) && spurious <= old(spurious)
    {
      var notified: bool := *;
      if !notified && spurious > 0 {
        spurious := spurious - 1;
      } else {
        PeerTakes(1);
      }
    }

    // -------------------------------------------------------------- reading

    /** Copy out of the data window while the peer's writer goes on. */
    method MemcpyOut(to: array<byte>, at: nat, off: nat, n: nat)
      requires Valid() && to != mem && at + n <= to.Length
      requires off == first && n <= Head().DataLength()
      modifies this`last, this`outgoing, mem, to
      ensures OnlyAdded(old(Head()), Head()) && Incoming() == old(Incoming())
      ensures to[at..at + n] == old(Incoming()[..n])
      ensures to[..at] == old(to[..at]) && to[at + n..] == old(to[at + n..])
    {
      ghost var all := Incoming();
      for i := 0 to n
        invariant OnlyAdded(old(Head()), Head()) && Incoming() == all
        invariant to[at..at + i] == all[..i]
        invariant to[..at] == old(to[..at]) && to[at + n..] == old(to[at + n..])
      {
        PeerGives(0);
        var b := Load(off + i);
        assert b == Head().Contents()[i] == all[i];
        to[at + i] := b;
      }
    }

    /** Deliver the next `length` bytes. The peer must have them to give, and at least one even for
        an empty read, which waits for data like any other. */
    method Read(to: array<byte>, length: nat)
      requires Valid() && to != mem && length <= to.Length
      requires length <= |Incoming()| && Incoming() != []
      modifies this`first, this`last, this`outgoing, this`spurious, mem, to
      ensures Valid()
      ensures to[..length] == old(Incoming())[..length] && to[length..] == old(to[length..])
      ensures Incoming() == old(Incoming())[length..]
    {
      hide Vrb.Contents;
      ghost var all := Incoming();
      var toAddr, restLength, done := 0, length, false;
      while !done
        invariant Valid() && (!done ==> restLength <= |Incoming()| && Incoming() != [])
        invariant !done ==> toAddr + restLength == length
        invariant done ==> toAddr == length
        invariant toAddr <= length && to[..toAddr] == all[..toAddr] && to[length..] == old(to[length..])
        invariant Incoming() == all[toAddr..]
        decreases !done, restLength
      {
        var chunk := ReadNext(to, toAddr, length, restLength, all);
        toAddr := toAddr + chunk;
        done := chunk == restLength;
        restLength := restLength - chunk;
      }
    }

    /** Wait for data and read what there is of the rest: all of it, or a chunk that is not empty. */
    method ReadNext(to: array<byte>, toAddr: nat, length: nat, restLength: nat, ghost all: seq<byte>)
      returns (chunk: nat)
      requires Valid() && to != mem && toAddr + restLength == length <= to.Length && length <= |all|
      requires restLength <= |Incoming()| && Incoming() != []
      requires Incoming() == all[toAddr..] && to[..toAddr] == all[..toAddr]
      modifies this`first, this`last, this`outgoing, this`spurious, mem, to
      ensures Valid() && chunk <= restLength && (chunk == 0 ==> restLength == 0)
      ensures Incoming() == all[toAddr + chunk..] && to[..toAddr + chunk] == all[..toAddr + chunk]
      ensures to[length..] == old(to[length..])
    {
      hide StillLast, View, Vrb.Contents, Vrb.Window;
      var dataLength := AwaitData(1);
      PeerGives(0);
      var offset := GetDataPtr();
      chunk := if dataLength >= restLength then restLength else dataLength;
      ReadChunk(to, toAddr, length, offset, chunk, all);
    }

    /** Wait under `notEmptyAccess` until at least `threshold` bytes are there. */
    method AwaitData(threshold: nat) returns (dataLength: nat)
      requires Valid() && threshold <= |Incoming()| && threshold <= mem.Length
      modifies this`last, this`outgoing, this`spurious, mem
      ensures OnlyAdded(old(Head()), Head()) && Incoming() == old(Incoming())
      ensures threshold <= dataLength <= Head().DataLength()
    {
      dataLength := GetDataLength();
      while dataLength < threshold
        invariant OnlyAdded(old(Head()), Head()) && Incoming() == old(Incoming())
        invariant dataLength == Head().DataLength()
        decreases |outgoing| + spurious
      {
        WaitNotEmpty();
        dataLength := GetDataLength();
      }
    }

    /** Copy one chunk of a read to its place and take it. */
    method ReadChunk(to: array<byte>, at: nat, length: nat, off: nat, n: nat, ghost all: seq<byte>)
      requires Valid() && to != mem && at + n <= length <= to.Length && length <= |all|
      requires off == first && n <= Head().DataLength()
      requires Incoming() == all[at..] && to[..at] == all[..at]
      modifies this`first, this`last, this`outgoing, mem, to
      ensures Valid() && Incoming() == all[at + n..] && to[..at + n] == all[..at + n]
      ensures to[length..] == old(to[length..])
    {
      hide OnlyAdded, StillLast, View;
      MemcpyOut(to, at, off, n);
      assert to[..at + n] == to[..at] + to[at..at + n];
      assert to[length..] == to[at + n..][length - at - n..];
      Take(n);
    }

    /** Show the next `numBytes` bytes in place: the result is an offset into the mapping. */
    method Peek(numBytes: nat) returns (offset: nat)
      requires Valid() && numBytes <= |Incoming()| && numBytes <= mem.Length
      modifies this`last, this`outgoing, this`spurious, mem
      ensures OnlyAdded(old(Head()), Head()) && Incoming() == old(Incoming())
      ensures offset + numBytes <= 2 * mem.Length && numBytes <= Head().DataLength()
      ensures View(mem[..], offset, numBytes) == Incoming()[..numBytes]
    {
      var dataLength := AwaitData(numBytes);
      PeerGives(0);
      offset := GetDataPtr();
      assert Head().Window(offset, numBytes) == Head().Contents()[..numBytes];
    }

    /** Remove bytes that were peeked at. */
    method TakeFunc(length: nat)
      requires Valid() && length <= Head().DataLength()
      modifies this`first, this`last
      ensures Valid() && Incoming() == old(Incoming())[length..]
    {
      Take(length);
    }

    // -------------------------------------------------------------- writing

    /** Wait under `notFullAccess` until there is space. */
    method AwaitSpace() returns (spaceLength: nat)
      requires Valid() && Room() > 0
      modifies this`first, this`last, this`appetite, this`drained, this`spurious
      ensures OnlyTaken(old(Head()), Head()) && Written() == old(Written()) && Room() == old(Room())
      ensures 1 <= spaceLength <= Head().SpaceLength()
    {
      spaceLength := GetSpaceLength();
      while spaceLength == 0
        invariant OnlyTaken(old(Head()), Head()) && Written() == old(Written()) && Room() == old(Room())
        invariant spaceLength == Head().SpaceLength()
        decreases appetite + spurious
      {
        WaitNotFull();
        spaceLength := GetSpaceLength();
      }
    }

    /** Copy one byte into the free window; the peer's reader may take, and rebase, just before. */
    method CopyByteIn(off: nat, i: nat, b: byte)
      requires Valid() && StillLast(Head(), off) && i < Head().SpaceLength() && off + i < 2 * mem.Length
      modifies this`first, this`last, this`appetite, this`drained, mem
      ensures Valid() && Written() == old(Written()) && Room() == old(Room())
      ensures StillLast(Head(), off) && old(Head().SpaceLength()) <= Head().SpaceLength()
      ensures View(mem[..], off, i + 1) == old(View(mem[..], off, i)) + [b]
    {
      hide OnlyTaken;
      PeerTakes(0);
      PokeKeepsContents(Head(), off, i, b);
      PokeExtendsWindow(Head(), off, i, b);
      Store(off + i, b);
    }

    /** Copy into the free window while the peer's reader goes on. */
    method MemcpyIn(from: array<byte>, at: nat, off: nat, n: nat)
      requires Valid() && from != mem && at + n <= from.Length
      requires StillLast(Head(), off) && n <= Head().SpaceLength() && off + n <= 2 * mem.Length
      modifies this`first, this`last, this`appetite, this`drained, mem
      ensures Valid() && Written() == old(Written()) && Room() == old(Room())
      ensures StillLast(Head(), off) && n <= Head().SpaceLength()
      ensures View(mem[..], off, n) == from[at..at + n]
    {
      for i := 0 to n
        invariant Valid() && Written() == old(Written()) && Room() == old(Room())
        invariant StillLast(Head(), off) && n <= Head().SpaceLength()
        invariant View(mem[..], off, i) == from[at..at + i]
      {
        CopyByteIn(off, i, from[at + i]);
      }
      PeerTakes(0);
    }

    /** Give what has been copied through a space pointer, stale or not. */
    method GiveCopied(ghost off: nat, n: nat, ghost data: seq<byte>)
      requires Valid() && StillLast(Head(), off) && |data| == n <= Head().SpaceLength()
      requires off + n <= 2 * mem.Length && View(mem[..], off, n) == data
      modifies this`last
      ensures Valid() && Written() == old(Written()) + data && Room() == old(Room()) - n
    {
      GiveContents(Head(), off, data);
      Give(n);
      assert old(drained + Head().Contents()) + data == drained + (old(Head().Contents()) + data);
    }

    /** Copy one chunk of a write to its place and give it. */
    method WriteChunk(from: array<byte>, at: nat, off: nat, n: nat, ghost before: seq<byte>)
      requires Valid() && from != mem && at + n <= from.Length && Written() == before + from[..at]
      requires StillLast(Head(), off) && n <= Head().SpaceLength() && off + n <= 2 * mem.Length
      modifies this`first, this`last, this`appetite, this`drained, mem
      ensures Valid() && Written() == before + from[..at + n]
      ensures Room() == old(Room()) - n
    {
      hide OnlyTaken, StillLast, View;
      assert from[..at + n] == from[..at] + from[at..at + n];
      MemcpyIn(from, at, off, n);
      GiveCopied(off, n, from[at..at + n]);
    }

    /** Append `length` bytes to the stream. The peer must be going to take enough for them to fit,
        and for one byte of space even for an empty write. */
    method Write(from: array<byte>, length: nat)
      requires Valid() && from != mem && length <= from.Length
      requires length <= Room() && Room() > 0
      modifies this`first, this`last, this`appetite, this`drained, this`spurious, mem
      ensures Valid()
      ensures Written() == old(Written()) + from[..length]
      ensures Room() == old(Room()) - length
    {
      var fromAddr, restLength, done := 0, length, false;
      while !done
        invariant Valid()
        invariant !done ==> fromAddr + restLength == length && restLength <= Room() && Room() > 0
        invariant done ==> fromAddr == length
        invariant fromAddr <= length
        invariant Written() == old(Written()) + from[..fromAddr]
        invariant Room() == old(Room()) - fromAddr
        decreases !done, restLength
      {
        var spaceLength := AwaitSpace();
        PeerTakes(0);
        var offset := GetSpacePtr();
        if spaceLength >= restLength {
          WriteChunk(from, fromAddr, offset, restLength, old(Written()));
          fromAddr := fromAddr + restLength;
          done := true;
        } else {
          WriteChunk(from, fromAddr, offset, spaceLength, old(Written()));
          fromAddr := fromAddr + spaceLength;
          restLength := restLength - spaceLength;
        }
      }
    }
  }
}
