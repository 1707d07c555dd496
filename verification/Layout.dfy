/** Where the transport file and the two channels lie in it and in a process, with the machine's
    wrapping 64-bit sizes. */
module Layout {
  import opened Bytes

  const PAGE: nat := 4096

  /** `length - systemPageSize` as a size_t. */
  function TailSize(length: u64): u64 {
    if length >= PAGE then length - PAGE else length + (U64_LIMIT - PAGE)
  }

  /** Half of it: the capacity of one channel. */
  function VrbTailSize(length: u64): u64 {
    TailSize(length) / 2
  }

  /** The check the constructor makes before it maps anything. */
  predicate LengthAccepted(length: u64) {
    length > 0 && VrbTailSize(length) % PAGE == 0
  }

  /** Accepted are one page, then an even number of pages, then possibly one byte; a length below
      one page is refused although its tail wraps around. */
  lemma AcceptedExactly(length: u64)
    ensures LengthAccepted(length)
       <==> length >= PAGE && ((length - PAGE) % (2 * PAGE) == 0 || (length - PAGE) % (2 * PAGE) == 1)
  {
    var t := TailSize(length);
    var h := t / 2;
    assert t == 2 * h + t % 2;
    if length >= PAGE {
      var q, r := t / (2 * PAGE), t % (2 * PAGE);
      assert t == 8192 * q + r;
      assert h == 4096 * q + r / 2;
      assert h % 4096 == r / 2;
    } else if length > 0 {
      var d := PAGE - length;
      assert t == U64_LIMIT - d && 1 <= d < 4096;
      assert h == 4096 * 0x7_FFFF_FFFF_FFFF + (4096 - (d + 1) / 2);
      assert h % 4096 == 4096 - (d + 1) / 2;
    }
  }

  /** A size_t sum of two or three sizes. */
  function Wrap(n: nat): u64
    requires n < 2 * U64_LIMIT
  {
    if n < U64_LIMIT then n else n - U64_LIMIT
  }

  /** One mapped region: `size` bytes of the file from `file` on appear from `at` on. */
  datatype Region = Region(at: nat, file: nat, size: nat)

  /** The regions a process maps over its reserved range, relative to the range's base: the head,
      then the call channel's storage twice, then the return channel's storage twice. */
  function RegionAt(length: u64, k: nat): Region
    requires k < 5
  {
    var cap: nat := VrbTailSize(length);
    var tail: nat := TailSize(length);
    match k
    case 0 => Region(0, 0, PAGE)
    case 1 => Region(PAGE, PAGE, cap)
    case 2 => Region(Wrap(PAGE + cap), PAGE, cap)
    case 3 => Region(Wrap(PAGE + tail), Wrap(PAGE + cap), cap)
    case _ => Region(Wrap(PAGE + tail + cap), Wrap(PAGE + cap), cap)
  }

  /** For two channels of `q` pages each: the first page, the call channel from there on twice, and behind
      it the return channel twice; in the file each is there once. */
  lemma RegionsAre(length: u64, q: nat)
    requires length == 4096 + 2 * 4096 * q && 4096 + 4 * 4096 * q < U64_LIMIT
    ensures RegionAt(length, 0) == Region(0, 0, 4096)
    ensures RegionAt(length, 1) == Region(4096, 4096, 4096 * q)
    ensures RegionAt(length, 2) == Region(4096 + 4096 * q, 4096, 4096 * q)
    ensures RegionAt(length, 3) == Region(4096 + 2 * 4096 * q, 4096 + 4096 * q, 4096 * q)
    ensures RegionAt(length, 4) == Region(4096 + 3 * 4096 * q, 4096 + 4096 * q, 4096 * q)
    ensures Reserved(length) == 4096 + 4 * 4096 * q && VrbTailSize(length) == 4096 * q
  {
  }

  const CALL: nat := 1
  const RETURN: nat := 3

  /** The size of the reserved range. */
  function Reserved(length: u64): nat {
    Wrap(length + TailSize(length))
  }

  predicate Inside(length: u64, k: nat, v: nat)
    requires k < 5
  {
    RegionAt(length, k).at <= v < RegionAt(length, k).at + RegionAt(length, k).size
  }

  predicate Mapped(length: u64, v: nat) {
    exists k: nat :: k < 5 && Inside(length, k, v)
  }

  /** Exactly the bytes of the reserved range are mapped, each by one region. */
  ghost predicate Tiles(length: u64) {
    && (forall v: nat :: Mapped(length, v) <==> v < Reserved(length))
    && (forall v: nat, j: nat, k: nat :: j < 5 && k < 5 && Inside(length, j, v) && Inside(length, k, v) ==> j == k)
  }

  /** Fixed mappings can be made: addresses and file offsets are multiples of a page. */
  predicate PageAligned(length: u64) {
    forall k: nat :: k < 5 ==> RegionAt(length, k).at % PAGE == 0 && RegionAt(length, k).file % PAGE == 0
  }

  ghost predicate GoodLayout(length: u64) {
    VrbTailSize(length) > 0 && PageAligned(length) && Tiles(length)
  }

  lemma EvenTailTiles(length: u64)
    requires length > PAGE && TailSize(length) == 2 * VrbTailSize(length)
    requires length + TailSize(length) < U64_LIMIT
    ensures Tiles(length)
  {
    var cap: nat := VrbTailSize(length);
    forall v: nat ensures Mapped(length, v) <==> v < Reserved(length) {
      if v < PAGE { assert Inside(length, 0, v); }
      else if v < PAGE + cap { assert Inside(length, 1, v); }
      else if v < PAGE + 2 * cap { assert Inside(length, 2, v); }
      else if v < PAGE + 3 * cap { assert Inside(length, 3, v); }
      else if v < PAGE + 4 * cap { assert Inside(length, 4, v); }
    }
  }

  lemma PageMultiple(n: nat)
    ensures (PAGE * n) % PAGE == 0
  {
  }

  lemma EvenTailAligned(length: u64, q: nat)
    requires length == PAGE + 2 * PAGE * q && length + TailSize(length) < U64_LIMIT
    ensures VrbTailSize(length) == PAGE * q && PageAligned(length)
  {
    forall k: nat | k < 5
      ensures RegionAt(length, k).at % PAGE == 0 && RegionAt(length, k).file % PAGE == 0
    {
      var at := [0, 1, q + 1, 2 * q + 1, 3 * q + 1][k];
      var file := [0, 1, 1, q + 1, q + 1][k];
      assert RegionAt(length, k).at == PAGE * at && RegionAt(length, k).file == PAGE * file;
      PageMultiple(at);
      PageMultiple(file);
    }
  }

  lemma PageAndOne(n: nat)
    ensures (PAGE * n + 1) % PAGE == 1
  {
  }

  lemma OddTailMisaligned(length: u64, q: nat)
    requires length == PAGE + 2 * PAGE * q + 1
    ensures !PageAligned(length)
  {
    assert VrbTailSize(length) == PAGE * q;
    assert RegionAt(length, 3).at == PAGE * (2 * q + 1) + 1;
    PageAndOne(2 * q + 1);
  }

  /** When the size of the reservation wraps around, the second copy of the call channel lies
      outside it. */
  lemma WrappedDoesNotTile(length: u64)
    requires length > PAGE && TailSize(length) == 2 * VrbTailSize(length)
    requires length + TailSize(length) >= U64_LIMIT
    ensures !Tiles(length)
  {
    assert Inside(length, 2, length - 1);
    assert Mapped(length, length - 1);
  }

  /** Of the accepted lengths exactly those with a whole, positive number of pages for each channel,
      and whose reservation does not wrap around, give page-aligned regions that tile the reserved
      range: a lone first page leaves no channel, and the odd byte shifts the return channel. */
  lemma LayoutExactly(length: u64)
    requires LengthAccepted(length)
    ensures GoodLayout(length)
       <==> length > PAGE && (length - PAGE) % (2 * PAGE) == 0 && 2 * length - PAGE < U64_LIMIT
  {
    AcceptedExactly(length);
    var q := (length - PAGE) / (2 * PAGE);
    if (length - PAGE) % (2 * PAGE) == 1 {
      assert length == PAGE + 2 * PAGE * q + 1;
      OddTailMisaligned(length, q);
    } else if q > 0 {
      assert length == PAGE + 2 * PAGE * q;
      assert TailSize(length) == 2 * VrbTailSize(length);
      if 2 * length - PAGE < U64_LIMIT {
        EvenTailAligned(length, q);
        EvenTailTiles(length);
      } else {
        WrappedDoesNotTile(length);
      }
    }
  }

  /** The region that shows position `i` of a channel's double mapping. */
  function RegionOf(length: u64, channel: nat, i: nat): nat {
    if i < VrbTailSize(length) then channel else channel + 1
  }

  /** The file byte a process reaches at position `i` of a channel, following its mappings. */
  function FileByte(length: u64, channel: nat, i: nat): int
    requires channel == CALL || channel == RETURN
  {
    var r := RegionAt(length, RegionOf(length, channel, i));
    r.file + (RegionAt(length, channel).at + i - r.at)
  }

  /** In a good layout every position of a channel's double mapping lies in the region meant for it,
      positions a capacity apart name the same byte of the file, and no byte of one channel is one of
      the other or of the head. */
  lemma MirrorsAndDisjoint(length: u64, c: nat, i: nat, j: nat)
    requires LengthAccepted(length) && GoodLayout(length)
    requires c == CALL || c == RETURN
    requires i < 2 * VrbTailSize(length) && j < 2 * VrbTailSize(length)
    ensures Inside(length, RegionOf(length, c, i), RegionAt(length, c).at + i)
    ensures i < VrbTailSize(length) ==> FileByte(length, c, i) == FileByte(length, c, i + VrbTailSize(length))
    ensures PAGE <= FileByte(length, CALL, i) < FileByte(length, RETURN, j) < length
  {
    LayoutExactly(length);
    var q := (length - PAGE) / (2 * PAGE);
    assert length == PAGE + 2 * PAGE * q;
    assert TailSize(length) == 2 * VrbTailSize(length);
  }

  /** The region an address of a process lies in, counted from the base it maps at; five for none. */
  function RegionHit(length: u64, v: int): nat {
    if v < 0 then 5
    else if Inside(length, 0, v) then 0
    else if Inside(length, 1, v) then 1
    else if Inside(length, 2, v) then 2
    else if Inside(length, 3, v) then 3
    else if Inside(length, 4, v) then 4
    else 5
  }

  /** The byte of the shared memory behind an address of a process that has mapped the transport, which
      starts at `offset` in that memory, at `base`. */
  function Reached(base: nat, offset: nat, length: u64, address: int): int {
    var k := RegionHit(length, address - base);
    if k == 5 then -1 else offset + RegionAt(length, k).file + (address - base - RegionAt(length, k).at)
  }

  lemma HitsItsRegion(length: u64, c: nat, i: nat)
    requires LengthAccepted(length) && GoodLayout(length)
    requires (c == CALL || c == RETURN) && i < 2 * VrbTailSize(length)
    ensures RegionHit(length, RegionAt(length, c).at + i) == RegionOf(length, c, i)
  {
    LayoutExactly(length);
    var q := (length - PAGE) / (2 * PAGE);
    assert length == PAGE + 2 * PAGE * q;
    assert TailSize(length) == 2 * VrbTailSize(length);
  }

  /** Processes that map at different bases and follow the same head offset reach the same byte. */
  lemma SameByteInEveryProcess(length: u64, offset: nat, p: nat, q: nat, c: nat, i: nat)
    requires LengthAccepted(length) && GoodLayout(length)
    requires (c == CALL || c == RETURN) && i < 2 * VrbTailSize(length)
    ensures Reached(p, offset, length, p + RegionAt(length, c).at + i) == offset + FileByte(length, c, i)
    ensures Reached(q, offset, length, q + RegionAt(length, c).at + i) == offset + FileByte(length, c, i)
  {
    hide RegionHit, GoodLayout;
    HitsItsRegion(length, c, i);
  }
}
