/** Vertex fetch as section 2.8 of the OpenGL ES 2.0 specification has it, the gathering of client
    arrays into tightly packed ones, and what a draw from the packed arrays then fetches. */
module VertexArrays {
  import opened Bytes
  import opened Serializer

  const GL_BYTE: u32 := 0x1400
  const GL_UNSIGNED_BYTE: u32 := 0x1401
  const GL_SHORT: u32 := 0x1402
  const GL_UNSIGNED_SHORT: u32 := 0x1403
  const GL_FLOAT: u32 := 0x1406
  const GL_FIXED: u32 := 0x140C

  /** The conversion to a GLsizei, which keeps the low 32 bits. */
  function AsGLsizei(n: int): i32 {
    Signed(n % U32_LIMIT)
  }

  /** The conversion of a GLsizei to a size_t: a negative one becomes huge. */
  function AsSize(n: i32): nat {
    if n >= 0 then n else n + U64_LIMIT
  }

  /** The value of an int expression that does not overflow. */
  predicate IsInt(n: int) {
    -0x8000_0000 <= n < 0x8000_0000
  }

  /** The size of a component; for other types the program leaves it undefined. */
  function SizeByType(kind: u32): nat {
    if kind == GL_BYTE || kind == GL_UNSIGNED_BYTE then 1
    else if kind == GL_SHORT || kind == GL_UNSIGNED_SHORT then 2
    else if kind == GL_FIXED || kind == GL_FLOAT then 4
    else 0
  }

  predicate KnownType(kind: u32) {
    SizeByType(kind) > 0
  }

  /** What a process reads at each address. */
  type Memory = int -> byte

  /** A memory with some bytes at zero. */
  function Loaded(data: seq<byte>): Memory {
    (p: int) => if 0 <= p < |data| then data[p] else 0
  }

  datatype Attrib = Attrib(
    enabled: bool, index: u32, size: i32, kind: u32, normalized: byte, stride: i32, ptr: u64)

  function Slice(mem: Memory, at: int, n: nat): (r: seq<byte>)
    ensures |r| == n
  {
    seq(n, i requires 0 <= i < n => mem(at + i))
  }

  function VertexSize(a: Attrib): nat
    requires a.size >= 0
  {
    a.size * SizeByType(a.kind)
  }

  /** The size of a vertex is defined, and a GLsizei. */
  predicate Measured(a: Attrib) {
    a.size >= 0 && KnownType(a.kind) && VertexSize(a) < 0x8000_0000
  }

  /** The distance from one vertex to the next: a zero stride means tightly packed. */
  function Step(a: Attrib): int
    requires a.size >= 0
  {
    if a.stride == 0 then VertexSize(a) else a.stride
  }

  /** The bytes of attribute `a` for vertex `v`. */
  function Fetch(mem: Memory, a: Attrib, v: int): (r: seq<byte>)
    requires a.size >= 0
  {
    Slice(mem, a.ptr + v * Step(a), VertexSize(a))
  }

  /** The vertices `first`, ..., `first + count - 1` one behind the other. */
  function Packed(mem: Memory, a: Attrib, first: int, count: nat): seq<byte>
    requires a.size >= 0
  {
    if count == 0 then [] else Packed(mem, a, first, count - 1) + Fetch(mem, a, first + count - 1)
  }

  lemma MulNext(n: int, s: int)
    ensures (n + 1) * s == n * s + s
  {
  }

  lemma {:induction false} PackedLength(mem: Memory, a: Attrib, first: int, count: nat)
    requires a.size >= 0
    ensures |Packed(mem, a, first, count)| == count * VertexSize(a)
  {
    if count > 0 {
      PackedLength(mem, a, first, count - 1);
      MulNext(count - 1, VertexSize(a));
    }
  }

  lemma SliceJoin(mem: Memory, at: int, m: nat, n: nat)
    ensures Slice(mem, at, m) + Slice(mem, at + m, n) == Slice(mem, at, m + n)
  {
  }

  /** Tightly packed vertices already lie one behind the other. */
  lemma {:induction false} TightIsContiguous(mem: Memory, a: Attrib, first: int, count: nat)
    requires a.size >= 0 && a.stride == 0
    ensures Packed(mem, a, first, count) == Slice(mem, a.ptr + first * VertexSize(a), count * VertexSize(a))
  {
    var vs := VertexSize(a);
    if count > 0 {
      TightIsContiguous(mem, a, first, count - 1);
      assert (first + count - 1) * vs == first * vs + (count - 1) * vs;
      MulNext(count - 1, vs);
      SliceJoin(mem, a.ptr + first * vs, (count - 1) * vs, vs);
    }
  }

  // ---------------------------------------------------------------- gathering

  /** What the client sends for one attribute. */
  function Gathered(mem: Memory, a: Attrib, first: int, count: int): seq<byte>
    requires a.size >= 0
  {
    if count > 0 && a.stride >= 0 then Packed(mem, a, first, count) else []
  }

  /** When vertex `n` lies before the end of the walk. */
  lemma BeforeEnd(p: int, first: int, n: int, count: int, stride: int)
    ensures p + (first + n) * stride < p + (first + count) * stride
       <==> (stride > 0 && n < count) || (stride < 0 && n > count)
  {
    assert (first + count) * stride == (first + n) * stride + (count - n) * stride;
    if n < count && stride > 0 { assert (count - n) * stride > 0; }
    else if n > count && stride < 0 { assert (count - n) * stride > 0; }
    else if n < count && stride <= 0 { assert (count - n) * stride <= 0; }
    else if n >= count && stride >= 0 { assert (count - n) * stride <= 0; }
  }

  lemma EmptyVertices(mem: Memory, a: Attrib, first: int, m: nat, n: nat)
    requires a.size >= 0 && VertexSize(a) == 0
    ensures Packed(mem, a, first, m) == Packed(mem, a, first, n)
  {
    PackedLength(mem, a, first, m);
    PackedLength(mem, a, first, n);
  }

  /** Where C defines the walk over the vertices: no int expression overflows, a tight block has a
      non-negative size, and the walk comes to an end. */
  predicate WalkDefined(a: Attrib, first: int, count: int) {
    && Measured(a)
    && IsInt(first + count) && IsInt(first * Step(a)) && IsInt((first + count) * Step(a))
    && (a.stride == 0 ==> count * VertexSize(a) < 0x8000_0000)
    && (count >= 0 || a.stride >= 0)
  }

  /** Both paths, one block for tight arrays and one vertex at a time for strided ones, send exactly
      the packed vertices. */
  method Gather(conn: Connection, mem: Memory, a: Attrib, first: int, count: int)
    requires WalkDefined(a, first, count)
    modifies conn`sent
    ensures conn.sent == old(conn.sent) + Gathered(mem, a, first, count)
  {
    var vertexSize := VertexSize(a);
    var stride, blockSize, blockStep: i32;
    if a.stride == 0 {
      stride := AsGLsizei(vertexSize);
      blockSize := AsGLsizei(count * vertexSize);
      blockStep := AsGLsizei(count * vertexSize);
    } else {
      stride := a.stride;
      blockSize := AsGLsizei(vertexSize);
      blockStep := a.stride;
    }
    assert stride == Step(a);
    GatherFrom(conn, mem, a, first, count, stride, blockSize, blockStep);
  }

  lemma TightBlock(count: int, size: nat)
    requires count > 0 && size > 0 && count * size < 0x8000_0000
    ensures AsGLsizei(count * size) == count * size > 0
  {
  }

  lemma Distributes(m: int, n: int, s: int)
    ensures m * s + n * s == (m + n) * s
  {
  }

  lemma NoVertices(mem: Memory, a: Attrib, first: int)
    requires a.size >= 0
    ensures Packed(mem, a, first, 0) == []
  {
  }

  /** A turn sends the vertices up to number `m`: all of a tight array, or one more. */
  lemma OneTurn(mem: Memory, a: Attrib, first: int, n: nat, count: int, j: int, blockSize: i32, blockStep: i32, m: nat)
    requires WalkDefined(a, first, count) && n < count && Step(a) > 0 && j == a.ptr + (first + n) * Step(a)
    requires a.stride == 0 ==> n == 0 && m == count && blockSize == blockStep == AsGLsizei(count * VertexSize(a))
    requires a.stride != 0 ==> m == n + 1 && blockSize == AsGLsizei(VertexSize(a)) && blockStep == Step(a)
    ensures Packed(mem, a, first, m) == Packed(mem, a, first, n) + Slice(mem, j, AsSize(blockSize))
    ensures j + blockStep == a.ptr + (first + m) * Step(a) && blockStep > 0
  {
    hide Slice;
    var stride := Step(a);
    if a.stride == 0 {
      TightIsContiguous(mem, a, first, count);
      TightBlock(count, stride);
      Distributes(first, count, stride);
    } else {
      MulNext(first + n, stride);
      assert Slice(mem, j, AsSize(blockSize)) == Fetch(mem, a, first + n);
    }
  }

  /** The loop. */
  method GatherFrom(conn: Connection, mem: Memory, a: Attrib, first: int, count: int,
                    stride: i32, blockSize: i32, blockStep: i32)
    requires WalkDefined(a, first, count) && stride == Step(a)
    requires blockSize == AsGLsizei(if a.stride == 0 then count * VertexSize(a) else VertexSize(a))
    requires blockStep == if a.stride == 0 then blockSize else stride
    modifies conn`sent
    ensures conn.sent == old(conn.sent) + Gathered(mem, a, first, count)
  {
    hide Packed, Slice, Fetch, AsGLsizei;
    var j := a.ptr + first * stride;
    var end := a.ptr + (first + count) * stride;
    ghost var n: nat := 0;
    NoVertices(mem, a, first);
    while j < end
      invariant n > 0 ==> stride > 0 && n <= count && (a.stride == 0 ==> n == count)
      invariant j == a.ptr + (first + n) * stride
      invariant conn.sent == old(conn.sent) + Packed(mem, a, first, n)
      decreases end - j
    {
      BeforeEnd(a.ptr, first, n, count, stride);
      ghost var m: nat := if a.stride == 0 then count else n + 1;
      OneTurn(mem, a, first, n, count, j, blockSize, blockStep, m);
      conn.SendData(Slice(mem, j, AsSize(blockSize)));
      n := m;
      j := j + blockStep;
    }
    BeforeEnd(a.ptr, first, n, count, stride);
    if count > 0 && stride == 0 {
      EmptyVertices(mem, a, first, n, count);
    }
  }

  /** What the server receives for an attribute: the size of the packed vertices, as a GLsizei. */
  function DueSize(count: int, size: int): nat {
    AsSize(AsGLsizei(count * size))
  }

  /** The walk gathers what is due: it goes forward over some vertices, whose packed size is a GLsizei,
      or nothing is due. */
  predicate Walkable(a: Attrib, count: int)
    requires a.size >= 0
  {
    if count > 0 && a.stride >= 0 then count * VertexSize(a) < 0x8000_0000
    else count * VertexSize(a) % U32_LIMIT == 0
  }

  lemma DueExactly(n: nat)
    requires n < 0x4000_0000_0000_0000
    ensures AsSize(AsGLsizei(n)) == n <==> n < 0x8000_0000
  {
  }

  lemma ProductBound(m: nat, n: nat)
    requires m < 0x8000_0000 && n < 0x8000_0000
    ensures m * n < 0x4000_0000_0000_0000
  {
    if m > 0 {
      assert m * n <= m * 0x7fff_ffff;
    }
  }

  /** The client sends as many bytes as the server receives exactly when the walk gathers what is due. */
  lemma GatheredLengthExactly(mem: Memory, a: Attrib, first: int, count: i32)
    requires a.size >= 0 && VertexSize(a) < 0x8000_0000
    ensures |Gathered(mem, a, first, count)| == DueSize(count, VertexSize(a)) <==> Walkable(a, count)
  {
    var size := count * VertexSize(a);
    if count > 0 && a.stride >= 0 {
      PackedLength(mem, a, first, count);
      ProductBound(count, VertexSize(a));
      DueExactly(size);
    }
  }

  /** 2^28 vertices of four floats: of their 4 GB nothing is received. */
  lemma HugeBlockIsNothing()
    ensures DueSize(0x1000_0000, 4 * SizeByType(GL_FLOAT)) == 0
  {
  }

  // ---------------------------------------------------------------- drawing from packed arrays

  /** The attribute as the server sets it up: stride zero, at the buffer it received into. */
  function AsReceived(a: Attrib, buffer: u64): Attrib {
    a.(stride := 0, ptr := buffer)
  }

  lemma {:induction false} PackedAt(mem: Memory, a: Attrib, first: int, count: nat, v: nat)
    requires a.size >= 0 && v < count
    ensures (v + 1) * VertexSize(a) <= |Packed(mem, a, first, count)|
    ensures 0 <= v * VertexSize(a) <= (v + 1) * VertexSize(a)
    ensures Packed(mem, a, first, count)[v * VertexSize(a)..(v + 1) * VertexSize(a)] == Fetch(mem, a, first + v)
  {
    var vs := VertexSize(a);
    PackedLength(mem, a, first, count);
    PackedLength(mem, a, first, count - 1);
    MulNext(v, vs);
    MulNext(count - 1, vs);
    if v < count - 1 {
      PackedAt(mem, a, first, count - 1, v);
    }
  }

  lemma SliceOfSlice(mem: Memory, at: int, n: nat, from: nat, m: nat)
    requires from + m <= n
    ensures Slice(mem, at, n)[from..from + m] == Slice(mem, at + from, m)
  {
  }

  /** Vertex `v` of the packed array is vertex `first + v` of the client's. */
  lemma FetchesSame(mem: Memory, a: Attrib, first: int, count: nat, server: Memory, buffer: u64, v: nat)
    requires a.size >= 0 && v < count
    requires Slice(server, buffer, count * VertexSize(a)) == Packed(mem, a, first, count)
    ensures Fetch(server, AsReceived(a, buffer), v) == Fetch(mem, a, first + v)
  {
    var vs := VertexSize(a);
    PackedAt(mem, a, first, count, v);
    PackedLength(mem, a, first, count);
    MulNext(v, vs);
    SliceOfSlice(server, buffer, count * vs, v * vs, vs);
  }

  // ---------------------------------------------------------------- component for component

  /** The six types, with the sizes of their components. */
  lemma KnownTypesAre(kind: u32)
    ensures KnownType(kind) <==> kind in {0x1400, 0x1401, 0x1402, 0x1403, 0x140C, 0x1406}
    ensures kind == 0x1400 || kind == 0x1401 ==> SizeByType(kind) == 1
    ensures kind == 0x1402 || kind == 0x1403 ==> SizeByType(kind) == 2
    ensures kind == 0x140C || kind == 0x1406 ==> SizeByType(kind) == 4
  {
  }

  lemma MulBound(c: nat, size: nat, b: nat, bytes: nat)
    requires c < size && b < bytes
    ensures 0 <= c * bytes + b < size * bytes
  {
    var more: nat := size - c - 1;
    assert size * bytes == c * bytes + bytes + more * bytes;
    assert more * bytes >= 0 && c * bytes >= 0;
  }

  /** Byte `b` of component `c` of a vertex lies where section 2.8 says: `stride` bytes from one vertex to
      the next, or if that is zero as many as a vertex has. */
  lemma FetchIs(mem: Memory, a: Attrib, v: int, c: nat, b: nat, bytes: nat)
    requires a.size >= 0 && c < a.size && b < bytes
    requires (a.kind, bytes) in {(0x1400, 1), (0x1401, 1), (0x1402, 2), (0x1403, 2), (0x140C, 4), (0x1406, 4)}
    ensures 0 <= c * bytes + b < |Fetch(mem, a, v)| == a.size * bytes
    ensures Fetch(mem, a, v)[c * bytes + b]
         == mem(a.ptr + v * (if a.stride == 0 then a.size * bytes else a.stride) + c * bytes + b)
  {
    MulBound(c, a.size, b, bytes);
  }

  /** What is sent for an attribute has all bytes of all components of `count` vertices from `first` on, each
      component `c` of each vertex `v` being the one in the client's memory. */
  lemma GatheredIs(mem: Memory, a: Attrib, first: int, count: int, v: nat, c: nat, b: nat, bytes: nat)
    requires a.size >= 0 && a.stride >= 0 && v < count && c < a.size && b < bytes
    requires (a.kind, bytes) in {(0x1400, 1), (0x1401, 1), (0x1402, 2), (0x1403, 2), (0x140C, 4), (0x1406, 4)}
    ensures |Gathered(mem, a, first, count)| == count * (a.size * bytes)
    ensures 0 <= v * (a.size * bytes) + c * bytes + b < count * (a.size * bytes)
    ensures Gathered(mem, a, first, count)[v * (a.size * bytes) + c * bytes + b]
         == mem(a.ptr + (first + v) * (if a.stride == 0 then a.size * bytes else a.stride) + c * bytes + b)
  {
    hide Fetch, Packed;
    var vs := VertexSize(a);
    PackedLength(mem, a, first, count);
    PackedAt(mem, a, first, count, v);
    MulNext(v, vs);
    MulBound(c, a.size, b, bytes);
    FetchIs(mem, a, first + v, c, b, bytes);
    assert Gathered(mem, a, first, count)[v * vs..(v + 1) * vs][c * bytes + b]
        == Gathered(mem, a, first, count)[v * vs + (c * bytes + b)];
  }

  /** The size the server computes is the product cut to 32 bits, and a huge one if those make a negative
      GLsizei. */
  lemma DueSizeIs(count: int, size: int)
    ensures var low := count * size % 0x1_0000_0000;
            DueSize(count, size) == if low < 0x8000_0000 then low else low + 0xFFFF_FFFF_0000_0000
  {
  }

  // ---------------------------------------------------------------- indexed drawing

  /** The types of index an indexed draw is made for. */
  predicate IndexType(kind: u32) {
    kind == GL_UNSIGNED_BYTE || kind == GL_UNSIGNED_SHORT
  }

  /** Index `i` of an index array of bytes or of little-endian shorts. */
  function IndexAt(kind: u32, indices: seq<byte>, i: nat): (r: nat)
    requires (i + 1) * SizeByType(kind) <= |indices|
    requires IndexType(kind)
    ensures r < 0x1_0000
  {
    if kind == GL_UNSIGNED_BYTE then indices[i] as nat
    else indices[2 * i] as nat + 256 * (indices[2 * i + 1] as nat)
  }

  ghost predicate IsMaxIndex(kind: u32, indices: seq<byte>, count: nat, max: nat)
    requires count * SizeByType(kind) <= |indices|
    requires IndexType(kind)
  {
    && (forall i: nat :: i < count ==> IndexAt(kind, indices, i) <= max)
    && (if count == 0 then max == 0 else exists i: nat :: i < count && IndexAt(kind, indices, i) == max)
  }

  function MaxIndex(kind: u32, indices: seq<byte>, count: nat): (r: nat)
    requires count * SizeByType(kind) <= |indices|
    requires IndexType(kind)
    ensures r < 0x1_0000
  {
    if count == 0 then 0
    else
      var before := MaxIndex(kind, indices, count - 1);
      if IndexAt(kind, indices, count - 1) > before then IndexAt(kind, indices, count - 1) else before
  }

  lemma {:induction false} MaxIndexIsMax(kind: u32, indices: seq<byte>, count: nat)
    requires count * SizeByType(kind) <= |indices|
    requires IndexType(kind)
    ensures IsMaxIndex(kind, indices, count, MaxIndex(kind, indices, count))
  {
    if count > 0 {
      MaxIndexIsMax(kind, indices, count - 1);
      if MaxIndex(kind, indices, count) == 0 {
        assert IndexAt(kind, indices, count - 1) == 0;
      }
    }
  }

  /** Indices laid out in memory, a byte or a short each, the low byte of a short first. */
  function ByteIndices(xs: seq<nat>): (r: seq<byte>)
    requires forall i :: 0 <= i < |xs| ==> xs[i] < 0x100
    ensures |r| == |xs| && forall i :: 0 <= i < |r| ==> r[i] as nat == xs[i]
  {
    if xs == [] then [] else [xs[0] as byte] + ByteIndices(xs[1..])
  }

  function ShortIndices(xs: seq<nat>): (r: seq<byte>)
    requires forall i :: 0 <= i < |xs| ==> xs[i] < 0x1_0000
    ensures |r| == 2 * |xs|
    ensures forall i :: 0 <= i < |xs| ==> r[2 * i] as nat == xs[i] % 0x100 && r[2 * i + 1] as nat == xs[i] / 0x100
  {
    if xs == [] then [] else [(xs[0] % 0x100) as byte, (xs[0] / 0x100) as byte] + ShortIndices(xs[1..])
  }

  /** Reading the indices gives the list back. */
  lemma IndexOfList(xs: seq<nat>, i: nat)
    requires i < |xs|
    ensures (forall k :: 0 <= k < |xs| ==> xs[k] < 0x100) ==> IndexAt(0x1401, ByteIndices(xs), i) == xs[i]
    ensures (forall k :: 0 <= k < |xs| ==> xs[k] < 0x1_0000) ==> IndexAt(0x1403, ShortIndices(xs), i) == xs[i]
  {
  }

  lemma MaxIsUnique(kind: u32, indices: seq<byte>, count: nat, max: nat)
    requires IndexType(kind) && count * SizeByType(kind) <= |indices| && IsMaxIndex(kind, indices, count, max)
    ensures max == MaxIndex(kind, indices, count)
  {
    MaxIndexIsMax(kind, indices, count);
  }

  lemma MaxOfBytes(xs: seq<nat>, max: nat)
    requires forall i :: 0 <= i < |xs| ==> xs[i] <= max < 0x100
    requires if xs == [] then max == 0 else exists i :: 0 <= i < |xs| && xs[i] == max
    ensures MaxIndex(0x1401, ByteIndices(xs), |xs|) == max
  {
    hide MaxIndex, IndexAt, ByteIndices;
    forall i: nat | i < |xs| ensures IndexAt(0x1401, ByteIndices(xs), i) == xs[i] {
      IndexOfList(xs, i);
    }
    MaxIsUnique(0x1401, ByteIndices(xs), |xs|, max);
  }

  /** The largest index is the maximum of the list, zero for none. */
  lemma MaxOfShorts(xs: seq<nat>, max: nat)
    requires forall i :: 0 <= i < |xs| ==> xs[i] <= max < 0x1_0000
    requires if xs == [] then max == 0 else exists i :: 0 <= i < |xs| && xs[i] == max
    ensures MaxIndex(0x1403, ShortIndices(xs), |xs|) == max
  {
    hide MaxIndex, IndexAt, ShortIndices;
    forall i: nat | i < |xs| ensures IndexAt(0x1403, ShortIndices(xs), i) == xs[i] {
      IndexOfList(xs, i);
    }
    MaxIsUnique(0x1403, ShortIndices(xs), |xs|, max);
  }

  method GetMaxIndexub(indices: seq<byte>, numIndices: nat) returns (max: nat)
    requires numIndices <= |indices|
    ensures IsMaxIndex(GL_UNSIGNED_BYTE, indices, numIndices, max)
    ensures forall i :: 0 <= i < numIndices ==> indices[i] as nat <= max
    ensures if numIndices == 0 then max == 0 else exists i :: 0 <= i < numIndices && indices[i] as nat == max
  {
    max := 0;
    for i := 0 to numIndices
      invariant forall k: nat :: k < i ==> IndexAt(GL_UNSIGNED_BYTE, indices, k) <= max
      invariant max == 0 || exists k: nat :: k < i && IndexAt(GL_UNSIGNED_BYTE, indices, k) == max
    {
      if indices[i] as nat > max {
        max := indices[i] as nat;
        assert IndexAt(GL_UNSIGNED_BYTE, indices, i) == max;
      }
    }
    if numIndices > 0 && max == 0 {
      assert IndexAt(GL_UNSIGNED_BYTE, indices, 0) == max;
    }
    forall i: nat | i < numIndices ensures IndexAt(GL_UNSIGNED_BYTE, indices, i) == indices[i] as nat {
    }
  }

  method GetMaxIndexus(indices: seq<byte>, numIndices: nat) returns (max: nat)
    requires 2 * numIndices <= |indices|
    ensures IsMaxIndex(GL_UNSIGNED_SHORT, indices, numIndices, max)
    ensures forall i :: 0 <= i < numIndices ==> indices[2 * i] as nat + 0x100 * (indices[2 * i + 1] as nat) <= max
    ensures if numIndices == 0 then max == 0
            else exists i :: 0 <= i < numIndices && indices[2 * i] as nat + 0x100 * (indices[2 * i + 1] as nat) == max
  {
    max := 0;
    for i := 0 to numIndices
      invariant forall k: nat :: k < i ==> IndexAt(GL_UNSIGNED_SHORT, indices, k) <= max
      invariant max == 0 || exists k: nat :: k < i && IndexAt(GL_UNSIGNED_SHORT, indices, k) == max
    {
      var index := indices[2 * i] as nat + 256 * (indices[2 * i + 1] as nat);
      assert IndexAt(GL_UNSIGNED_SHORT, indices, i) == index;
      if index > max {
        max := index;
      }
    }
    if numIndices > 0 && max == 0 {
      assert IndexAt(GL_UNSIGNED_SHORT, indices, 0) == max;
    }
    forall i: nat | i < numIndices
      ensures IndexAt(GL_UNSIGNED_SHORT, indices, i) == indices[2 * i] as nat + 0x100 * (indices[2 * i + 1] as nat)
    {
    }
  }

  /** A prefix of `n` vertices has every indexed vertex exactly if it is at least as long as the one
      shipped, which is one longer than the largest index. */
  lemma ShortestPrefix(kind: u32, indices: seq<byte>, count: nat, max: nat, n: nat)
    requires IndexType(kind)
    requires count > 0 && count * SizeByType(kind) <= |indices| && IsMaxIndex(kind, indices, count, max)
    ensures (forall i: nat :: i < count ==> IndexAt(kind, indices, i) < n) <==> max + 1 <= n
  {
  }

  /** Every index of an indexed draw fetches remotely what it fetches locally. */
  lemma IndexedFetchesSame(mem: Memory, a: Attrib, kind: u32, indices: seq<byte>, count: nat, max: nat,
                           server: Memory, buffer: u64, i: nat)
    requires a.size >= 0 && i < count
    requires IndexType(kind)
    requires count * SizeByType(kind) <= |indices| && IsMaxIndex(kind, indices, count, max)
    requires Slice(server, buffer, (max + 1) * VertexSize(a)) == Packed(mem, a, 0, max + 1)
    ensures Fetch(server, AsReceived(a, buffer), IndexAt(kind, indices, i)) == Fetch(mem, a, IndexAt(kind, indices, i))
  {
    FetchesSame(mem, a, 0, max + 1, server, buffer, IndexAt(kind, indices, i));
  }
}
