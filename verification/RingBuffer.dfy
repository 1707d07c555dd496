/** The virtual ring buffer the channel rests on: `cap` bytes of storage mapped twice, back to
    back, so that a window that starts anywhere in the first copy is contiguous. */
module RingBuffer {
  import opened Bytes

  /** The bytes seen through the double mapping of `mem` at `off`, `off + 1`, ... */
  ghost function View(mem: seq<byte>, off: nat, n: nat): (w: seq<byte>)
    requires off + n <= 2 * |mem|
    ensures |w| == n
  {
    seq(n, i requires 0 <= i < n => if off + i < |mem| then mem[off + i] else mem[off + i - |mem|])
  }

  /** The shared head together with the storage. Offsets are those kept in the head: `first` lies
      in the first copy, `last` may lie in the second one. */
  datatype Vrb = Vrb(mem: seq<byte>, first: nat, last: nat) {

    ghost predicate Valid() {
      first < |mem| && first <= last <= first + |mem|
    }

    function DataLength(): nat
      requires first <= last
    {
      last - first
    }

    function SpaceLength(): nat
      requires Valid()
    {
      |mem| - (last - first)
    }

    /** The storage cell behind a mapped offset. */
    function Cell(off: nat): (c: nat)
      requires off < 2 * |mem|
      ensures c < |mem|
    {
      if off < |mem| then off else off - |mem|
    }

    ghost function Window(off: nat, n: nat): (w: seq<byte>)
      requires off + n <= 2 * |mem|
      ensures |w| == n
    {
      View(mem, off, n)
    }

    /** The bytes in the ring, oldest first. */
    ghost function Contents(): (c: seq<byte>)
      requires Valid()
      ensures |c| == DataLength()
    {
      Window(first, last - first)
    }

    /** Store one byte through the mapping. */
    function Poke(off: nat, b: byte): (r: Vrb)
      requires off < 2 * |mem|
      ensures |r.mem| == |mem|
    {
      this.(mem := mem[Cell(off) := b])
    }

    function Give(n: nat): Vrb
      requires Valid() && n <= SpaceLength()
    {
      this.(last := last + n)
    }

    /** Drop `n` bytes; both pointers are rebased when `first` leaves the first copy. */
    function Take(n: nat): Vrb
      requires Valid() && n <= DataLength()
    {
      if first + n < |mem| then this.(first := first + n)
      else this.(first := first + n - |mem|, last := last - |mem|)
    }
  }

  /** `off` still names the first free cell, although `last` may have been rebased since it was read. */
  ghost predicate StillLast(r: Vrb, off: nat) {
    off < 2 * |r.mem| && (off == r.last || off == r.last + |r.mem|)
  }

  /** A cell reached from a possibly stale space pointer holds no data, so storing there changes
      nothing the reader can see. */
  lemma PokeKeepsContents(r: Vrb, off: nat, i: nat, b: byte)
    requires r.Valid() && StillLast(r, off)
    requires i < r.SpaceLength() && off + i < 2 * |r.mem|
    ensures r.Poke(off + i, b).Valid()
    ensures r.Poke(off + i, b).Contents() == r.Contents()
  {
    var p := r.Poke(off + i, b);
    forall k | 0 <= k < r.DataLength()
      ensures p.Contents()[k] == r.Contents()[k]
    {
      assert r.Cell(r.first + k) != r.Cell(off + i);
      assert p.Contents()[k] == p.mem[p.Cell(p.first + k)];
      assert r.Contents()[k] == r.mem[r.Cell(r.first + k)];
    }
  }

  lemma PokeExtendsWindow(r: Vrb, off: nat, i: nat, b: byte)
    requires i < |r.mem| && off + i < 2 * |r.mem|
    ensures View(r.Poke(off + i, b).mem, off, i + 1) == View(r.mem, off, i) + [b]
  {
  }

  lemma GiveContents(r: Vrb, off: nat, data: seq<byte>)
    requires r.Valid() && StillLast(r, off) && |data| <= r.SpaceLength()
    requires off + |data| <= 2 * |r.mem| && r.Window(off, |data|) == data
    ensures r.Give(|data|).Valid()
    ensures r.Give(|data|).Contents() == r.Contents() + data
  {
    var g := r.Give(|data|);
    forall k | 0 <= k < |g.Contents()|
      ensures g.Contents()[k] == (r.Contents() + data)[k]
    {
      assert g.Contents()[k] == r.mem[r.Cell(r.first + k)];
      if k < r.DataLength() {
        assert r.Contents()[k] == r.mem[r.Cell(r.first + k)];
      } else {
        var j := k - r.DataLength();
        assert r.Window(off, |data|)[j] == r.mem[r.Cell(off + j)];
      }
    }
    assert |g.Contents()| == |r.Contents() + data|;
  }

  lemma TakeContents(r: Vrb, n: nat)
    requires r.Valid() && n <= r.DataLength()
    ensures r.Take(n).Valid()
    ensures r.Take(n).Contents() == r.Contents()[n..]
    ensures r.Take(n).SpaceLength() == r.SpaceLength() + n
  {
    var t := r.Take(n);
    forall k | 0 <= k < t.DataLength()
      ensures t.Contents()[k] == r.Contents()[n..][k]
    {
      assert r.Contents()[n + k] == r.mem[r.Cell(r.first + n + k)];
      assert t.Contents()[k] == t.mem[t.Cell(t.first + k)];
    }
  }

  /** Taking leaves a space pointer that was current, or stale by one rebase, usable. */
  lemma TakeKeepsStillLast(r: Vrb, off: nat, n: nat)
    requires r.Valid() && StillLast(r, off) && n <= r.DataLength()
    ensures StillLast(r.Take(n), off)
  {
  }

  /** What the writing side may have done to the ring: data was only added. */
  ghost predicate OnlyAdded(r: Vrb, s: Vrb) {
    && r.Valid() && s.Valid()
    && |s.mem| == |r.mem| && s.first == r.first
    && r.Contents() <= s.Contents()
  }

  /** What the reading side may have done to the ring: data was only taken. */
  ghost predicate OnlyTaken(r: Vrb, s: Vrb) {
    && r.Valid() && s.Valid()
    && s.mem == r.mem
    && r.SpaceLength() <= s.SpaceLength()
    && (forall off :: StillLast(r, off) ==> StillLast(s, off))
  }

  lemma TakeIsOnlyTaken(r: Vrb, n: nat)
    requires r.Valid() && n <= r.DataLength()
    ensures OnlyTaken(r, r.Take(n))
  {
    TakeContents(r, n);
    forall off | StillLast(r, off) ensures StillLast(r.Take(n), off) {
      TakeKeepsStillLast(r, off, n);
    }
  }
}
