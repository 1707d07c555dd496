/** API calls: what the stub of each sends, what the call means locally, and what the handler that
    receives the request then asks of the real GL. */
module GlesCalls {
  import opened Bytes
  import opened Serializer
  import opened Wire
  import opened VertexArrays
  import opened StateTracker
  import opened GlesWire
  import opened GlesFrames

  /** A call with the client state it depends on: its memory and its vertex attributes. */
  datatype Call =
    | Values(cmd: u32, args: seq<byte>)
    | Carries(cmd: u32, args: seq<byte>, data: seq<byte>)
    | Uploads(target: u32, data: seq<byte>, usage: u32)
    | Sources(mem: Memory, shader: u32, count: i32, strings: seq<u64>, lengths: Option<seq<i32>>, lens: seq<nat>)
    | Arrays(mem: Memory, tracked: Tracked, bound: bool, mode: u32, first: i32, count: i32)
    | Elements(mem: Memory, tracked: Tracked, bound: bool, mode: u32, count: i32, kind: u32, indices: u64)

  // ---------------------------------------------------------------- vertex attributes sent

  predicate Sized(slots: seq<Attrib>) {
    forall i :: 0 <= i < |slots| ==> slots[i].size >= 0
  }

  function SentAttribOf(mem: Memory, a: Attrib, base: int, n: int, bound: bool): SentAttrib
    requires a.size >= 0
  {
    SentAttrib(a.index, Unsigned(a.size), a.kind, a.normalized, Unsigned(a.stride), a.ptr,
               if bound then [] else Gathered(mem, a, base, n))
  }

  function SentAttribs(mem: Memory, slots: seq<Attrib>, base: int, n: int, bound: bool): (r: seq<SentAttrib>)
    requires Sized(slots)
    ensures |r| == |slots|
  {
    if slots == [] then []
    else [SentAttribOf(mem, slots[0], base, n, bound)] + SentAttribs(mem, slots[1..], base, n, bound)
  }

  function ArraysOf(mem: Memory, slots: seq<Attrib>, base: int, n: i32, bound: bool): SentArrays
    requires Sized(slots)
  {
    SentArrays(Unsigned(n), bound, SentAttribs(mem, slots, base, n, bound))
  }

  predicate AllMeasured(slots: seq<Attrib>) {
    forall i :: 0 <= i < |slots| ==> Measured(slots[i])
  }

  lemma FitsExactly(mem: Memory, a: Attrib, base: int, n: i32)
    requires Measured(a)
    ensures Fits(SentAttribOf(mem, a, base, n, false), Unsigned(n), false) <==> Walkable(a, n)
  {
    hide Gathered;
    GatheredLengthExactly(mem, a, base, n);
  }

  /** The data of a draw is what the server receives exactly when each walk gathers what is due; always
      with a buffer bound. */
  lemma {:induction false} DrawFitsExactly(mem: Memory, slots: seq<Attrib>, base: int, n: i32, bound: bool)
    requires Sized(slots) && (bound || AllMeasured(slots))
    ensures AllFit(SentAttribs(mem, slots, base, n, bound), Unsigned(n), bound)
       <==> bound || forall i :: 0 <= i < |slots| ==> Walkable(slots[i], n)
  {
    hide Measured, Walkable, Gathered;
    if slots != [] {
      var sent := SentAttribs(mem, slots, base, n, bound);
      var others := SentAttribs(mem, slots[1..], base, n, bound);
      DrawFitsExactly(mem, slots[1..], base, n, bound);
      if !bound { FitsExactly(mem, slots[0], base, n); }
      FitSplit(sent[0], others, Unsigned(n), bound);
      WalkSplit(slots, n);
    }
  }

  lemma WalkSplit(slots: seq<Attrib>, n: int)
    requires slots != [] && Sized(slots)
    ensures (forall i :: 0 <= i < |slots| ==> Walkable(slots[i], n))
       <==> Walkable(slots[0], n) && forall i :: 0 <= i < |slots[1..]| ==> Walkable(slots[1..][i], n)
  {
    hide Walkable;
    assert forall i :: 0 <= i < |slots[1..]| ==> slots[1..][i] == slots[i + 1];
  }

  // ---------------------------------------------------------------- shader sources sent

  predicate Ends(b: seq<byte>, n: nat) {
    n < |b| && b[n] == 0 && forall k :: 0 <= k < n ==> b[k] != 0
  }

  /** A C string of length `n`. */
  predicate IsString(mem: Memory, p: int, n: nat) {
    Ends(Slice(mem, p, n + 1), n)
  }

  /** The length that goes with string `i`; negative for one that ends at its NUL. */
  function LengthOf(lengths: Option<seq<i32>>, i: nat): i32
    requires lengths.Some? ==> i < |lengths.value|
  {
    if lengths.Some? then lengths.value[i] else -1
  }

  /** How many characters string `i` has; `len` is what strlen says of it. */
  function TextLength(length: i32, len: nat): nat {
    if length < 0 then len else length
  }

  predicate StringsOk(mem: Memory, strings: seq<u64>, lengths: Option<seq<i32>>, lens: seq<nat>) {
    && |strings| == |lens| < 0x8000_0000
    && (lengths.Some? ==> |lengths.value| == |strings|)
    && forall i :: 0 <= i < |strings| ==>
         lens[i] + 1 < U64_LIMIT && (LengthOf(lengths, i) < 0 ==> IsString(mem, strings[i], lens[i]))
  }

  /** There are `count` strings, none for a negative count; an array of lengths cannot be of negative size. */
  predicate SourcesOk(mem: Memory, count: i32, strings: seq<u64>, lengths: Option<seq<i32>>, lens: seq<nat>) {
    && StringsOk(mem, strings, lengths, lens)
    && |strings| == Times(Unsigned(count))
    && (lengths.Some? ==> count >= 0)
  }

  /** What is sent for string `i` is taken from the first string, whatever `i`. */
  function SentStrings(mem: Memory, strings: seq<u64>, lengths: Option<seq<i32>>, lens: seq<nat>,
                       i: nat): (r: seq<seq<byte>>)
    requires StringsOk(mem, strings, lengths, lens) && i <= |strings|
    ensures |r| == |strings| - i
    ensures forall k :: 0 <= k < |r| ==> |r[k]| < U64_LIMIT
    decreases |strings| - i
  {
    if i == |strings| then []
    else [Slice(mem, strings[0], TextLength(LengthOf(lengths, i), lens[i]) + 1)]
         + SentStrings(mem, strings, lengths, lens, i + 1)
  }

  function EncodeInts(ints: seq<i32>): (r: seq<byte>)
    ensures |r| == 4 * |ints|
  {
    if ints == [] then [] else EncodeU32(Unsigned(ints[0])) + EncodeInts(ints[1..])
  }

  function EncodeLengths(lengths: Option<seq<i32>>): Option<seq<byte>> {
    if lengths.Some? then Some(EncodeInts(lengths.value)) else None
  }

  // ---------------------------------------------------------------- requests

  function IndexBytes(mem: Memory, indices: u64, count: nat, kind: u32): (r: seq<byte>)
    requires IndexType(kind)
    ensures |r| == count * SizeByType(kind)
  {
    Slice(mem, indices, count * SizeByType(kind))
  }

  /** The vertices shipped for an indexed draw. */
  function Shipped(mem: Memory, indices: u64, count: nat, kind: u32): (r: i32)
    requires IndexType(kind)
    ensures r > 0
  {
    MaxIndex(kind, IndexBytes(mem, indices, count, kind), count) + 1
  }

  predicate TrackedOk(t: Tracked) {
    t.num <= |t.attribs| == MAX_NUM_VERTEX_ATTRIBS && Sized(t.attribs[..t.num])
  }

  /** With no buffer bound, the walks over the arrays to be sent are defined. */
  predicate WalksDefined(slots: seq<Attrib>, base: int, n: int, bound: bool) {
    bound || forall i :: 0 <= i < |slots| ==> WalkDefined(slots[i], base, n)
  }

  /** What C demands of a caller. */
  predicate Callable(c: Call) {
    match c
    case Values(_, _) => true
    case Carries(_, _, data) => |data| < U64_LIMIT
    case Uploads(_, data, _) => |data| < U64_LIMIT
    case Sources(mem, _, count, strings, lengths, lens) => SourcesOk(mem, count, strings, lengths, lens)
    case Arrays(_, t, bound, _, first, count) => TrackedOk(t) && WalksDefined(t.attribs[..t.num], first, count, bound)
    case Elements(mem, t, bound, _, count, kind, indices) =>
      && TrackedOk(t) && count >= 0 && IndexType(kind)
      && WalksDefined(t.attribs[..t.num], 0, Shipped(mem, indices, count, kind), bound)
  }

  function RequestOf(c: Call): (r: Request)
    requires Callable(c)
    ensures Encodable(r)
  {
    match c
    case Values(cmd, args) => Plain(cmd, args)
    case Carries(cmd, args, data) => WithData(cmd, args, data)
    case Uploads(target, data, usage) => BufferData(target, data, usage)
    case Sources(mem, shader, count, strings, lengths, lens) =>
      ShaderSource(shader, Unsigned(count), EncodeLengths(lengths), SentStrings(mem, strings, lengths, lens, 0))
    case Arrays(mem, t, bound, mode, first, count) =>
      DrawArrays(mode, Unsigned(first), Unsigned(count), ArraysOf(mem, t.attribs[..t.num], first, count, bound))
    case Elements(mem, t, bound, mode, count, kind, indices) =>
      DrawElements(mode, Unsigned(count), kind, IndexBytes(mem, indices, count, kind),
                   ArraysOf(mem, t.attribs[..t.num], 0, Shipped(mem, indices, count, kind), bound))
  }

  /** How many vertices a draw sends for each array. */
  function VertexCount(c: Call): i32
    requires Callable(c) && (c.Arrays? || c.Elements?)
  {
    if c.Arrays? then c.count else Shipped(c.mem, c.indices, c.count, c.kind)
  }

  /** Each walk gathers what is due. */
  predicate GathersWhatIsDue(c: Call)
    requires Callable(c) && (c.Arrays? || c.Elements?)
  {
    var n := VertexCount(c);
    c.bound || forall i :: 0 <= i < c.tracked.num ==> Walkable(c.tracked.attribs[..c.tracked.num][i], n)
  }

  /** The last attribute brings data, or none is sent, or none is due. */
  predicate EndsGathering(c: Call)
    requires Callable(c) && (c.Arrays? || c.Elements?)
  {
    var n := VertexCount(c);
    var slots := c.tracked.attribs[..c.tracked.num];
    c.bound || slots == [] || GathersSome(slots[|slots| - 1], n)
  }

  predicate GathersSome(a: Attrib, n: int)
    requires a.size >= 0
  {
    n > 0 && a.stride >= 0 && VertexSize(a) > 0
  }

  lemma GathersSomeExactly(mem: Memory, a: Attrib, base: int, n: int)
    requires a.size >= 0
    ensures Gathered(mem, a, base, n) != [] <==> GathersSome(a, n)
  {
    if n > 0 && a.stride >= 0 {
      PackedLength(mem, a, base, n);
      assert VertexSize(a) > 0 ==> n * VertexSize(a) > 0;
    }
  }

  lemma {:induction false} SentAt(mem: Memory, slots: seq<Attrib>, base: int, n: int, bound: bool, i: nat)
    requires Sized(slots) && i < |slots|
    ensures SentAttribs(mem, slots, base, n, bound)[i] == SentAttribOf(mem, slots[i], base, n, bound)
  {
    hide SentAttribOf;
    if i > 0 {
      SentAt(mem, slots[1..], base, n, bound, i - 1);
    }
  }

  lemma EndsExactly(mem: Memory, slots: seq<Attrib>, base: int, n: int, bound: bool)
    requires Sized(slots)
    ensures EndsInData(SentAttribs(mem, slots, base, n, bound), bound)
       <==> bound || slots == [] || GathersSome(slots[|slots| - 1], n)
  {
    hide SentAttribs, Gathered;
    if !bound && slots != [] {
      SentAt(mem, slots, base, n, bound, |slots| - 1);
      GathersSomeExactly(mem, slots[|slots| - 1], base, n);
    }
  }

  /** Whatever follows it, a draw is received as it was sent, nothing left over or missing, exactly when
      each walk over the client's memory gathers what is due; with nothing following, the last one
      must gather something, for an empty read waits for the next request. */
  lemma DrawFramedExactly(id: u32, c: Call, rest: seq<byte>)
    requires Callable(c) && (c.Arrays? || c.Elements?)
    ensures Receive(Frame(id, RequestOf(c)) + rest) == Got(RequestOf(c), rest)
       <==> GathersWhatIsDue(c) && (rest != [] || EndsGathering(c))
  {
    hide Receive, Frame, AllFit, EndsInData, Walkable, GathersSome, SentAttribs, WalkDefined, KnownKinds;
    var slots := c.tracked.attribs[..c.tracked.num];
    var base := if c.Arrays? then c.first else 0;
    var n := VertexCount(c);
    DefinedKinds(c.mem, slots, base, n, c.bound);
    DrawReceivedExactly(id, RequestOf(c), rest);
    DrawFitsExactly(c.mem, slots, base, n, c.bound);
    EndsExactly(c.mem, slots, base, n, c.bound);
  }

  lemma DefinedKinds(mem: Memory, slots: seq<Attrib>, base: int, n: i32, bound: bool)
    requires Sized(slots) && WalksDefined(slots, base, n, bound)
    ensures bound || AllMeasured(slots)
    ensures KnownKinds(ArraysOf(mem, slots, base, n, bound))
  {
    hide SentAttribs, Gathered;
    if !bound {
      forall i | 0 <= i < |slots|
        ensures Measured(slots[i]) && KnownType(SentAttribs(mem, slots, base, n, bound)[i].kind)
      {
        assert WalkDefined(slots[i], base, n);
        SentAt(mem, slots, base, n, bound, i);
      }
    }
  }

  /** A draw of no vertices, with an attribute enabled, is not received until something follows. */
  lemma EmptyDrawWaits(id: u32, c: Call)
    requires Callable(c) && c.Arrays? && !c.bound && c.count == 0 && c.tracked.num > 0
    ensures Receive(Frame(id, RequestOf(c))) == More
    ensures forall next :: next != [] ==> Receive(Frame(id, RequestOf(c)) + next) == Got(RequestOf(c), next)
  {
    hide Receive, Frame;
    var f, byte0 := Frame(id, RequestOf(c)), [0 as byte];
    assert f + [] == f;
    DrawFramedExactly(id, c, []);
    DrawFramedExactly(id, c, byte0);
    if Receive(f).Got? {
      ReceiveMore(f, byte0);
      assert false;
    }
    forall next: seq<byte> | next != []
      ensures Receive(Frame(id, RequestOf(c)) + next) == Got(RequestOf(c), next)
    {
      DrawFramedExactly(id, c, next);
    }
  }

  /** A draw whose packed vertices are 2 GB or more for some array is never received as it was sent. */
  lemma HugeDrawLost(id: u32, c: Call, rest: seq<byte>, i: nat)
    requires Callable(c) && (c.Arrays? || c.Elements?) && !c.bound && i < c.tracked.num
    requires var a := c.tracked.attribs[..c.tracked.num][i];
             VertexCount(c) > 0 && a.stride >= 0 && VertexCount(c) * VertexSize(a) >= 0x8000_0000
    ensures Receive(Frame(id, RequestOf(c)) + rest) != Got(RequestOf(c), rest)
  {
    hide Receive, Frame, RequestOf, WalkDefined, VertexSize, VertexCount;
    DrawFramedExactly(id, c, rest);
    assert !Walkable(c.tracked.attribs[..c.tracked.num][i], VertexCount(c));
  }

  /** There are such draws: 2^28 vertices of four floats from one array with a stride of one byte. */
  lemma HugeDrawsExist(mem: Memory) returns (c: Call)
    ensures Callable(c) && c.Arrays? && !c.bound && 0 < c.tracked.num
    ensures var a := c.tracked.attribs[..c.tracked.num][0];
            VertexCount(c) > 0 && a.stride >= 0 && VertexCount(c) * VertexSize(a) >= 0x8000_0000
  {
    var attribs := seq(MAX_NUM_VERTEX_ATTRIBS, k requires 0 <= k < MAX_NUM_VERTEX_ATTRIBS =>
      Attrib(k == 0, k, 4, GL_FLOAT, 0, 1, 0));
    c := Arrays(mem, Tracked(attribs, 1), false, 4, 0, 0x1000_0000);
    assert attribs[..1] == [attribs[0]];
  }
}
