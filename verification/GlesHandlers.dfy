/** The dispatch loop and its handlers, step by step: they read the connection, keep received arrays in
    the server's memory, call the real GL, release the memory and send replies. */
module GlesHandlers {
  import opened Bytes
  import opened Serializer
  import opened Wire
  import opened VertexArrays
  import opened GlesWire
  import opened GlesFrames
  import opened GlesCalls
  import opened GlesServer
  import opened GlesRemote

  method ReceiveWord(conn: Connection) returns (w: u32)
    requires Word(conn.incoming).Got?
    modifies conn`incoming
    ensures Word(old(conn.incoming)) == Got(w, conn.incoming)
    ensures |old(conn.incoming)| == |conn.incoming| + U32_SIZE
  {
    var bytes := conn.ReceiveData(U32_SIZE);
    w := DecodeU32(bytes);
  }

  method ReceiveWords(conn: Connection) returns (x: u32, y: u32, z: u32)
    requires Words(conn.incoming).Got?
    modifies conn`incoming
    ensures Words(old(conn.incoming)) == Got((x, y, z), conn.incoming)
    ensures |old(conn.incoming)| == |conn.incoming| + 3 * U32_SIZE
  {
    hide Word;
    x := ReceiveWord(conn);
    y := ReceiveWord(conn);
    z := ReceiveWord(conn);
  }

  lemma VarSizeShrinks(b: seq<byte>)
    requires VarSize(b).Got?
    ensures |VarSize(b).rest| <= |b|
  {
  }

  lemma VarSizeDecodes(b: seq<byte>)
    requires VarSize(b).Got?
    ensures DecodeOne(VarShape, b) == Some((Var(VarSize(b).value), VarSize(b).rest))
  {
    var n := Long(b).value;
    assert b[U64_SIZE..][..n] == b[U64_SIZE..U64_SIZE + n];
    assert b[U64_SIZE..][n..] == b[U64_SIZE + n..];
  }

  method ReceiveVar(conn: Connection) returns (data: seq<byte>)
    requires VarSize(conn.incoming).Got?
    modifies conn`incoming
    ensures VarSize(old(conn.incoming)) == Got(data, conn.incoming)
    ensures |conn.incoming| <= |old(conn.incoming)|
  {
    hide VarSize, DecodeOne;
    VarSizeDecodes(conn.incoming);
    VarSizeShrinks(conn.incoming);
    var buffer := conn.ReceiveVarSizeData();
    data := match buffer case None => [] case Some(b) => b;
  }

  method ReceiveStringLoop(conn: Connection, count: nat) returns (strings: seq<seq<byte>>)
    requires ReceiveStrings(conn.incoming, count).Got?
    modifies conn`incoming
    ensures ReceiveStrings(old(conn.incoming), count) == Got(strings, conn.incoming)
    ensures |conn.incoming| <= |old(conn.incoming)|
  {
    hide VarSize, ReceiveStrings;
    strings := [];
    ghost var whole := ReceiveStrings(conn.incoming, count);
    assert [] + whole.value == whole.value;
    for i := 0 to count
      invariant ReceiveStrings(conn.incoming, count - i).Got?
      invariant |conn.incoming| <= |old(conn.incoming)|
      invariant var rest := ReceiveStrings(conn.incoming, count - i);
                strings + rest.value == whole.value && rest.rest == whole.rest
    {
      ghost var others := StringsSplit(conn.incoming, count - i);
      var s := ReceiveVar(conn);
      assert strings + ([s] + others) == (strings + [s]) + others;
      strings := strings + [s];
    }
    NoStrings(conn.incoming);
    assert strings + [] == strings;
  }

  lemma StringsSplit(b: seq<byte>, n: nat) returns (others: seq<seq<byte>>)
    requires n > 0 && ReceiveStrings(b, n).Got?
    ensures VarSize(b).Got?
    ensures ReceiveStrings(VarSize(b).rest, n - 1) == Got(others, ReceiveStrings(b, n).rest)
    ensures ReceiveStrings(b, n).value == [VarSize(b).value] + others
  {
    hide VarSize;
    others := ReceiveStrings(VarSize(b).rest, n - 1).value;
  }

  lemma NoStrings(b: seq<byte>)
    ensures ReceiveStrings(b, 0) == Got([], b)
  {
  }

  /** Both loops of the shader-source handler. */
  method HandleShaderSource(conn: Connection) returns (r: Request)
    requires ReceiveShader(conn.incoming).Got?
    modifies conn`incoming
    ensures ReceiveShader(old(conn.incoming)) == Got(r, conn.incoming) && r.ShaderSource?
    ensures |conn.incoming| <= |old(conn.incoming)|
  {
    hide ReceiveStrings, VarSize, Word;
    var shader, count, passingType := ReceiveWords(conn);
    var lengths := None;
    if passingType == 1 {
      var data := ReceiveVar(conn);
      lengths := Some(data);
    }
    var strings := ReceiveStringLoop(conn, Times(count));
    r := ShaderSource(shader, count, lengths, strings);
  }

  /** What the other handlers receive behind the call id. */
  method ReceiveArguments(conn: Connection, cmd: u32) returns (r: Request)
    requires ReceiveBody(cmd, conn.incoming).Got?
    requires HandlerForm(cmd) != ArraysForm && HandlerForm(cmd) != ElementsForm && HandlerForm(cmd) != EmptyForm
    modifies conn`incoming
    ensures ReceiveBody(cmd, old(conn.incoming)) == Got(r, conn.incoming)
    ensures !r.DrawArrays? && !r.DrawElements? && |conn.incoming| <= |old(conn.incoming)|
  {
    hide ReceiveShader, VarSize, HandlerForm, Word;
    var form := HandlerForm(cmd);
    if form.PlainForm? || form.DataForm? {
      var args := [];
      if form.args > 0 {
        args := conn.ReceiveData(form.args);
      }
      assert old(conn.incoming)[0..] == old(conn.incoming);
      if form.DataForm? {
        var data := ReceiveVar(conn);
        r := WithData(cmd, args, data);
      } else {
        r := Plain(cmd, args);
      }
    } else if form.ShaderForm? {
      r := HandleShaderSource(conn);
    } else {
      var target := ReceiveWord(conn);
      var data := ReceiveVar(conn);
      var usage := ReceiveWord(conn);
      r := BufferData(target, data, usage);
    }
  }

  // ---------------------------------------------------------------- arrays in memory

  /** Memory with `data` stored at `at`. */
  function Stored(mem: Memory, at: int, data: seq<byte>): Memory {
    (p: int) => if at <= p < at + |data| then data[p - at] else mem(p)
  }

  lemma StoredSlice(mem: Memory, at: int, data: seq<byte>)
    ensures Slice(Stored(mem, at, data), at, |data|) == data
  {
  }

  lemma StoredBeside(mem: Memory, at: int, data: seq<byte>, p: int, n: nat)
    requires p + n <= at
    ensures Slice(Stored(mem, at, data), p, n) == Slice(mem, p, n)
  {
  }

  /** The array the server specifies for a received attribute. */
  function Specified(s: SentAttrib, bound: bool, ptr: u64): Attrib {
    Attrib(true, s.index, Signed(s.size), s.kind, s.normalized, if bound then Signed(s.stride) else 0, ptr)
  }

  function FormatOfArray(a: Attrib): Format {
    Format(Unsigned(a.size), a.kind, a.normalized)
  }

  function FormatsIn(arrays: map<u32, Attrib>): map<u32, Format> {
    map i | i in arrays :: FormatOfArray(arrays[i])
  }

  /** Element `e` of an array of `n` bytes in memory. */
  function ElementIn(mem: Memory, a: Attrib, n: nat, e: int): seq<byte> {
    var size := Times(Unsigned(a.size)) * SizeByType(a.kind);
    if e >= 0 && (e + 1) * size <= n then Slice(mem, a.ptr + e * size, size) else []
  }

  /** What a draw sees of the enabled arrays, `blocks` being the sizes of those received for it. */
  function SeenInMemory(mem: Memory, arrays: map<u32, Attrib>, blocks: map<u32, nat>, elements: seq<int>)
    : map<u32, Seen>
  {
    map i | i in arrays ::
      Seen(FormatOfArray(arrays[i]),
           if i !in blocks then Stale
           else Fetched(seq(|elements|, k requires 0 <= k < |elements| =>
             ElementIn(mem, arrays[i], blocks[i], elements[k]))))
  }

  /** The same with a buffer bound, `now` being the arrays specified for this draw. */
  function InBufferSeen(arrays: map<u32, Attrib>, now: set<u32>): map<u32, Seen> {
    map i | i in arrays ::
      Seen(FormatOfArray(arrays[i]), if i in now then InBuffer(arrays[i].stride, arrays[i].ptr) else Stale)
  }

  /** Then the arrays are specified as received, at their places in the buffer. */
  predicate AllInPlace(arrays: map<u32, Attrib>, now: set<u32>, last: map<u32, SentAttrib>) {
    && now == last.Keys && last.Keys <= arrays.Keys
    && forall i :: i in last ==> arrays[i] == Specified(last[i], true, last[i].ptr)
  }

  /** The array of an attribute is specified as received and, below `top`, holds its data. */
  predicate Holds(mem: Memory, a: Attrib, s: SentAttrib, top: nat) {
    && a == Specified(s, false, a.ptr)
    && a.ptr + |s.data| <= top && Slice(mem, a.ptr, |s.data|) == s.data
  }

  /** All arrays of a draw do, the last received for each number. */
  ghost predicate AllHeld(mem: Memory, arrays: map<u32, Attrib>, blocks: map<u32, nat>, last: map<u32, SentAttrib>,
                          top: nat)
  {
    && blocks.Keys == last.Keys && last.Keys <= arrays.Keys
    && forall i :: i in last ==> blocks[i] == |last[i].data| && Holds(mem, arrays[i], last[i], top)
  }

  lemma HoldsStill(mem: Memory, a: Attrib, s: SentAttrib, top: nat, data: seq<byte>)
    requires Holds(mem, a, s, top)
    ensures Holds(Stored(mem, top, data), a, s, top + |data|)
  {
    hide Slice, Stored;
    StoredBeside(mem, top, data, a.ptr, |s.data|);
  }

  lemma HoldsNew(mem: Memory, s: SentAttrib, top: u64)
    ensures Holds(Stored(mem, top, s.data), Specified(s, false, top), s, top + |s.data|)
  {
    hide Slice, Stored;
    StoredSlice(mem, top, s.data);
  }

  lemma HeldNext(mem: Memory, arrays: map<u32, Attrib>, blocks: map<u32, nat>, last: map<u32, SentAttrib>, top: u64,
                 s: SentAttrib)
    requires AllHeld(mem, arrays, blocks, last, top)
    ensures AllHeld(Stored(mem, top, s.data), arrays[s.index := Specified(s, false, top)],
                    blocks[s.index := |s.data|], last[s.index := s], top + |s.data|)
  {
    hide Holds, Stored, Specified;
    HoldsNew(mem, s, top);
    forall i | i in last ensures Holds(Stored(mem, top, s.data), arrays[i], last[i], top + |s.data|) {
      HoldsStill(mem, arrays[i], last[i], top, s.data);
    }
  }

  lemma InPlaceNext(arrays: map<u32, Attrib>, blocks: map<u32, nat>, last: map<u32, SentAttrib>, s: SentAttrib)
    requires AllInPlace(arrays, blocks.Keys, last)
    ensures AllInPlace(arrays[s.index := Specified(s, true, s.ptr)], blocks[s.index := |s.data|].Keys,
                       last[s.index := s])
  {
    hide Specified;
  }

  lemma ElementHeld(mem: Memory, a: Attrib, s: SentAttrib, top: nat, e: int)
    requires Holds(mem, a, s, top)
    ensures ElementIn(mem, a, |s.data|, e) == ReceivedElement(s, e)
  {
    var size := Times(s.size) * SizeByType(s.kind);
    if e >= 0 && (e + 1) * size <= |s.data| {
      ElementRange(e, size);
      SliceOfSlice(mem, a.ptr, |s.data|, e * size, size);
    }
  }

  lemma SeenHeld(mem: Memory, a: Attrib, s: SentAttrib, top: nat, elements: seq<int>)
    requires Holds(mem, a, s, top)
    ensures seq(|elements|, k requires 0 <= k < |elements| => ElementIn(mem, a, |s.data|, elements[k]))
         == seq(|elements|, k requires 0 <= k < |elements| => ReceivedElement(s, elements[k]))
  {
    hide ElementIn, ReceivedElement, Holds;
    forall k | 0 <= k < |elements|
      ensures ElementIn(mem, a, |s.data|, elements[k]) == ReceivedElement(s, elements[k])
    {
      ElementHeld(mem, a, s, top, elements[k]);
    }
  }

  lemma FormatKept(before: map<u32, Format>, arrays: map<u32, Attrib>, sent: seq<SentAttrib>, i: u32)
    requires FormatsIn(arrays) == Specify(before, sent) && i in arrays
    ensures i !in LastSent(sent) ==> i in before && FormatOfArray(arrays[i]) == before[i]
    ensures i in LastSent(sent) ==> FormatOfArray(arrays[i]) == FormatOf(LastSent(sent)[i])
  {
    hide LastSent, FormatOfArray, FormatOf;
    assert FormatsIn(arrays)[i] == FormatOfArray(arrays[i]);
  }

  lemma SameArrays(before: map<u32, Format>, arrays: map<u32, Attrib>, sent: seq<SentAttrib>)
    requires FormatsIn(arrays) == Specify(before, sent)
    ensures arrays.Keys == before.Keys + LastSent(sent).Keys
  {
    hide LastSent, FormatOfArray, FormatOf;
    assert FormatsIn(arrays).Keys == arrays.Keys;
  }

  lemma ArraySeen(mem: Memory, a: Attrib, n: nat, s: SentAttrib, top: nat, elements: seq<int>)
    requires Holds(mem, a, s, top) && n == |s.data|
    ensures Seen(FormatOfArray(a),
                 Fetched(seq(|elements|, k requires 0 <= k < |elements| => ElementIn(mem, a, n, elements[k]))))
         == SeenIn(s, elements)
  {
    hide ElementIn, ReceivedElement, Slice;
    SeenHeld(mem, a, s, top, elements);
  }

  /** A draw from memory sees what was received for it, and of the other enabled arrays that they are. */
  lemma SeesWhatWasReceived(mem: Memory, before: map<u32, Format>, arrays: map<u32, Attrib>, blocks: map<u32, nat>,
                            sent: seq<SentAttrib>, top: nat, elements: seq<int>)
    requires AllHeld(mem, arrays, blocks, LastSent(sent), top)
    requires FormatsIn(arrays) == Specify(before, sent)
    ensures SeenInMemory(mem, arrays, blocks, elements) == AllSeen(before, sent, elements)
  {
    hide LastSent, ElementIn, SeenIn, FormatOfArray, FormatOf, FormatsIn, Specify, Holds;
    var last := LastSent(sent);
    var seen, all := SeenInMemory(mem, arrays, blocks, elements), AllSeen(before, sent, elements);
    SameArrays(before, arrays, sent);
    assert all.Keys == before.Keys + last.Keys;
    forall i | i in arrays ensures seen[i] == all[i] {
      FormatKept(before, arrays, sent, i);
      if i in last { ArraySeen(mem, arrays[i], blocks[i], last[i], top, elements); }
    }
  }

  /** A draw from a buffer sees the places received for it, and of the other enabled arrays that they are. */
  lemma SeesPlaces(before: map<u32, Format>, arrays: map<u32, Attrib>, now: set<u32>, sent: seq<SentAttrib>)
    requires AllInPlace(arrays, now, LastSent(sent)) && FormatsIn(arrays) == Specify(before, sent)
    ensures InBufferSeen(arrays, now) == StaleIn(before) + InBufferNow(sent)
  {
    hide LastSent, FormatOfArray, FormatOf, FormatsIn, Specify;
    var seen, all := InBufferSeen(arrays, now), StaleIn(before) + InBufferNow(sent);
    SameArrays(before, arrays, sent);
    assert all.Keys == before.Keys + LastSent(sent).Keys;
    forall i | i in arrays ensures seen[i] == all[i] {
      FormatKept(before, arrays, sent, i);
    }
  }

  lemma FormatsNext(before: map<u32, Format>, arrays: map<u32, Attrib>, sent: seq<SentAttrib>, s: SentAttrib, a: Attrib)
    requires FormatsIn(arrays) == Specify(before, sent) && FormatOfArray(a) == FormatOf(s)
    ensures FormatsIn(arrays[s.index := a]) == Specify(before, sent + [s])
    ensures LastSent(sent + [s]) == LastSent(sent)[s.index := s]
  {
    hide FormatOfArray, FormatOf;
    assert (sent + [s])[..|sent|] == sent;
    var after, all := FormatsIn(arrays[s.index := a]), Specify(before, sent + [s]);
    forall i | i in after ensures i in all && after[i] == all[i] {
      if i != s.index { assert FormatsIn(arrays)[i] == Specify(before, sent)[i]; }
    }
    forall i | i in all ensures i in after {
      if i != s.index { assert i in Specify(before, sent); }
    }
  }

  // ---------------------------------------------------------------- the server

  /** The reply to a request: its call id, as it came, and the value. */
  function ReplyTo<G>(gl: Gl<G>, s: State<G>, b: seq<byte>, r: Request): seq<byte> {
    if Answers(r) && |b| >= 8 then b[4..8] + Execute(gl, s, r).1 else []
  }

  /** The state after `n` turns of the loop on `b`, and the replies. */
  function Served<G>(gl: Gl<G>, s: State<G>, b: seq<byte>, n: nat): (State<G>, seq<byte>)
    decreases n
  {
    if n == 0 then (s, [])
    else
      match Receive(b)
      case More => (s, [])
      case Got(r, rest) =>
        var (t, replies) := Served(gl, Execute(gl, s, r).0, rest, n - 1);
        (t, ReplyTo(gl, s, b, r) + replies)
  }

  lemma NoneReceived(mem: Memory, arrays: map<u32, Attrib>, top: nat)
    ensures FormatsIn(arrays) == Specify(FormatsIn(arrays), []) && AllHeld(mem, arrays, map[], LastSent([]), top)
    ensures AllInPlace(arrays, {}, LastSent([]))
  {
  }

  lemma SameWithoutArrays(formats: map<u32, Format>, r: Request)
    requires !r.DrawArrays? && !r.DrawElements?
    ensures Observed(formats, r) == Observed(map[], r) && FormatsAfter(formats, r) == formats
  {
  }

  lemma DrawsDoNotAnswer(r: Request)
    requires r.DrawArrays? || r.DrawElements?
    ensures !Answers(r)
  {
  }

  lemma NothingDone<G>(gl: Gl<G>, s: State<G>, cmd: u32)
    ensures Execute(gl, s, Unused(cmd)).0 == s && !Answers(Unused(cmd))
  {
  }

  /** The serving process: the real GL and its enabled vertex arrays, the memory, and from where on it is free. */
  class GlServer<G> {
    const gl: Gl<G>
    var g: G
    var mem: Memory
    var top: nat
    var arrays: map<u32, Attrib>

    constructor (gl: Gl<G>, g: G)
      ensures this.gl == gl && Now() == State(g, map[]) && top == 0
    {
      this.gl, this.g, mem, top, arrays := gl, g, Loaded([]), 0, map[];
      new;
      assert FormatsIn(arrays) == map[];
    }

    ghost function Now(): State<G>
      reads this
    {
      State(g, FormatsIn(arrays))
    }

    method Malloc(data: seq<byte>) returns (ptr: u64)
      requires top + |data| < U64_LIMIT
      modifies this`mem, this`top
      ensures ptr == old(top) && top == old(top) + |data|
      ensures mem == Stored(old(mem), ptr, data)
    {
      ptr := top;
      mem := Stored(mem, top, data);
      top := top + |data|;
    }

    /** Released memory reads as anything. */
    method Free(ptr: u64, n: nat)
      modifies this`mem
    {
      var junk: seq<byte> := *;
      mem := Stored(mem, ptr, if |junk| == n then junk else []);
    }

    /** Receive one attribute and specify its array; with no buffer bound the array is what follows. */
    method ReceiveVertexAttrib(conn: Connection, numVertices: u32, bound: bool) returns (a: SentAttrib, ptr: u64)
      requires ReceiveAttrib(conn.incoming, numVertices, bound).Got? && top + |conn.incoming| < U64_LIMIT
      modifies this`mem, this`top, this`arrays, conn`incoming
      ensures ReceiveAttrib(old(conn.incoming), numVertices, bound) == Got(a, conn.incoming)
      ensures arrays == old(arrays)[a.index := Specified(a, bound, ptr)]
      ensures if bound then ptr == a.ptr && mem == old(mem) && top == old(top)
              else ptr == old(top) && mem == Stored(old(mem), ptr, a.data) && top == old(top) + |a.data|
      ensures top + |conn.incoming| <= old(top + |conn.incoming|)
    {
      hide Stored, BlockSize;
      var head := conn.ReceiveData(HEAD_SIZE);
      var h := DecodeHead(head);
      var stride := Signed(h.stride);
      ptr := h.ptr;
      a := h;
      if !bound {
        var blockSize := BlockSize(numVertices, h.size, h.kind);
        stride := 0;
        var data := conn.ReceiveData(blockSize);
        a := h.(data := data);
        ptr := Malloc(data);
      }
      arrays := arrays[h.index := Attrib(true, h.index, Signed(h.size), h.kind, h.normalized, stride, ptr)];
    }

    /** The loop over the attributes takes exactly what the client's loop sent. */
    method ReceiveEach(conn: Connection, n: nat, numVertices: u32, bound: bool)
      returns (sent: seq<SentAttrib>, ptrs: seq<u64>, blocks: map<u32, nat>)
      requires ReceiveAttribs(conn.incoming, n, numVertices, bound).Got? && top + |conn.incoming| < U64_LIMIT
      modifies this`mem, this`top, this`arrays, conn`incoming
      ensures ReceiveAttribs(old(conn.incoming), n, numVertices, bound) == Got(sent, conn.incoming)
      ensures |ptrs| == |sent| && FormatsIn(arrays) == Specify(old(FormatsIn(arrays)), sent)
      ensures if bound then AllInPlace(arrays, blocks.Keys, LastSent(sent))
              else AllHeld(mem, arrays, blocks, LastSent(sent), top)
      ensures top + |conn.incoming| <= old(top + |conn.incoming|)
    {
      hide ReceiveAttrib, ReceiveAttribs, Stored, FormatsIn, Specify, LastSent, AllHeld, AllInPlace;
      sent, ptrs, blocks := [], [], map[];
      NoneReceived(mem, arrays, top);
      ghost var whole := ReceiveAttribs(conn.incoming, n, numVertices, bound);
      assert [] + whole.value == whole.value;
      for i := 0 to n
        invariant ReceiveAttribs(conn.incoming, n - i, numVertices, bound).Got?
        invariant var rest := ReceiveAttribs(conn.incoming, n - i, numVertices, bound);
                  sent + rest.value == whole.value && rest.rest == whole.rest
        invariant |ptrs| == |sent| && FormatsIn(arrays) == Specify(old(FormatsIn(arrays)), sent)
        invariant if bound then AllInPlace(arrays, blocks.Keys, LastSent(sent))
                  else AllHeld(mem, arrays, blocks, LastSent(sent), top)
        invariant top + |conn.incoming| <= old(top + |conn.incoming|)
      {
        ghost var head, others := AttribsSplit(conn.incoming, n - i, numVertices, bound);
        ghost var mem0, top0, arrays0 := mem, top, arrays;
        var a, ptr := ReceiveVertexAttrib(conn, numVertices, bound);
        FormatsNext(old(FormatsIn(arrays)), arrays0, sent, a, Specified(a, bound, ptr));
        if bound {
          InPlaceNext(arrays0, blocks, LastSent(sent), a);
        } else {
          HeldNext(mem0, arrays0, blocks, LastSent(sent), top0, a);
        }
        assert sent + ([a] + others.value) == (sent + [a]) + others.value;
        sent, ptrs, blocks := sent + [a], ptrs + [ptr], blocks[a.index := |a.data|];
      }
      NoAttribs(conn.incoming, numVertices, bound);
      assert sent + [] == sent;
    }

    method ReceiveVertexAttribArrays(conn: Connection)
      returns (s: SentArrays, ptrs: seq<u64>, blocks: map<u32, nat>, anyBufferBound: bool)
      requires ReceiveArrays(conn.incoming).Got? && top + |conn.incoming| < U64_LIMIT
      modifies this`mem, this`top, this`arrays, conn`incoming
      ensures ReceiveArrays(old(conn.incoming)) == Got(s, conn.incoming) && s.bound == anyBufferBound
      ensures |ptrs| == |s.attribs| && FormatsIn(arrays) == Specify(old(FormatsIn(arrays)), s.attribs)
      ensures if anyBufferBound then AllInPlace(arrays, blocks.Keys, LastSent(s.attribs))
              else AllHeld(mem, arrays, blocks, LastSent(s.attribs), top)
      ensures top + |conn.incoming| <= old(top + |conn.incoming|)
    {
      hide ReceiveAttribs, AllHeld, AllInPlace, Specify, FormatsIn, LastSent, Word;
      var numAttribs, numVertices, bound := ReceiveWords(conn);
      anyBufferBound := bound != 0;
      var attribs;
      attribs, ptrs, blocks := ReceiveEach(conn, Times(numAttribs), numVertices, anyBufferBound);
      s := SentArrays(numVertices, anyBufferBound, attribs);
    }

    /** A call of the real GL. */
    method Call(c: GlCommand) returns (value: seq<byte>)
      modifies this`g
      ensures (g, value) == Perform(gl, old(g), c)
    {
      var (next, v) := Perform(gl, g, c);
      g, value := next, v;
    }

    /** Receive, draw from element 0, and free what was received; GL is asked for what `Observed` says and
        keeps its arrays. */
    method HandleDrawArrays(conn: Connection) returns (r: Request)
      requires ReceiveDrawArrays(conn.incoming).Got? && top + |conn.incoming| < U64_LIMIT
      modifies this, conn`incoming
      ensures ReceiveDrawArrays(old(conn.incoming)) == Got(r, conn.incoming)
      ensures r.DrawArrays? && Now() == Execute(gl, old(Now()), r).0
      ensures top + |conn.incoming| <= old(top + |conn.incoming|)
    {
      hide ReceiveArrays, Word, AllHeld, AllInPlace, Specify, FormatsIn, LastSent, SeenInMemory, AllSeen, InBufferSeen,
        StaleIn, InBufferNow, Perform;
      var mode, first, count := ReceiveWords(conn);
      var s, ptrs, blocks, anyBuffersBound := ReceiveVertexAttribArrays(conn);
      r := DrawArrays(mode, first, count, s);
      if anyBuffersBound {
        SeesPlaces(old(FormatsIn(arrays)), arrays, blocks.Keys, s.attribs);
        var elements := Numbers(Signed(first), Times(count));
        var value := Call(DrawBound(DRAWARRAYS, mode, count, elements, InBufferSeen(arrays, blocks.Keys)));
      } else {
        SeesWhatWasReceived(mem, old(FormatsIn(arrays)), arrays, blocks, s.attribs, top, Numbers(0, Times(count)));
        var value := Call(Draw(DRAWARRAYS, mode, count, SeenInMemory(mem, arrays, blocks, Numbers(0, Times(count)))));
        for i := 0 to |ptrs|
          modifies this`mem
        {
          Free(ptrs[i], |s.attribs[i].data|);
        }
      }
    }

    method HandleDrawElements(conn: Connection) returns (r: Request)
      requires ReceiveDrawElements(conn.incoming).Got? && top + |conn.incoming| < U64_LIMIT
      modifies this, conn`incoming
      ensures ReceiveDrawElements(old(conn.incoming)) == Got(r, conn.incoming)
      ensures r.DrawElements? && Now() == Execute(gl, old(Now()), r).0
      ensures top + |conn.incoming| <= old(top + |conn.incoming|)
    {
      hide ReceiveArrays, Word, VarSize, AllHeld, AllInPlace, Specify, FormatsIn, LastSent, SeenInMemory, AllSeen,
        InBufferSeen, StaleIn, InBufferNow, Perform, ElementList;
      var mode, count, kind := ReceiveWords(conn);
      var indices := ReceiveVar(conn);
      var s, ptrs, blocks, anyBuffersBound := ReceiveVertexAttribArrays(conn);
      r := DrawElements(mode, count, kind, indices, s);
      var elements := ElementList(kind, indices, Times(count));
      if anyBuffersBound {
        SeesPlaces(old(FormatsIn(arrays)), arrays, blocks.Keys, s.attribs);
        var value := Call(DrawBound(DRAWELEMENTS, mode, count, elements, InBufferSeen(arrays, blocks.Keys)));
      } else {
        SeesWhatWasReceived(mem, old(FormatsIn(arrays)), arrays, blocks, s.attribs, top, elements);
        var value := Call(Draw(DRAWELEMENTS, mode, count, SeenInMemory(mem, arrays, blocks, elements)));
      }
    }

    /** The handlers without vertex arrays: call GL and, if there is one, send the reply. */
    method Finish(conn: Connection, callId: seq<byte>, r: Request)
      requires !r.DrawArrays? && !r.DrawElements?
      modifies this`g, conn`sent
      ensures Now() == Execute(gl, old(Now()), r).0
      ensures conn.sent == old(conn.sent) + if Answers(r) then callId + Execute(gl, old(Now()), r).1 else []
    {
      hide Perform, Answers, FormatsIn;
      SameWithoutArrays(FormatsIn(arrays), r);
      var value := Call(Observed(map[], r));
      if Answers(r) {
        conn.SendData(callId);
        conn.SendData(value);
      }
    }

    /** One turn of the dispatch loop: it consumes exactly one request, asks the real GL for what the
        request means in the present state, and sends exactly its reply. */
    method DispatchOne(conn: Connection) returns (r: Request)
      requires Receive(conn.incoming).Got? && top + |conn.incoming| < U64_LIMIT
      modifies this, conn
      ensures Receive(old(conn.incoming)) == Got(r, conn.incoming)
      ensures Now() == Execute(gl, old(Now()), r).0
      ensures conn.sent == old(conn.sent) + ReplyTo(gl, old(Now()), old(conn.incoming), r)
      ensures top + |conn.incoming| <= old(top + |conn.incoming|)
    {
      hide ReceiveDrawArrays, ReceiveDrawElements, ReceiveShader, VarSize, HandlerForm, Execute, FormatsIn, Answers,
        DecodeU32;
      ghost var b := conn.incoming;
      var cmd := ReceiveWord(conn);
      if HandlerForm(cmd) == EmptyForm {
        r := Unused(cmd);
        NothingDone(gl, Now(), cmd);
      } else {
        var callId := conn.ReceiveData(U32_SIZE);
        assert callId == b[4..8];
        if HandlerForm(cmd) == ArraysForm {
          r := HandleDrawArrays(conn);
          DrawsDoNotAnswer(r);
        } else if HandlerForm(cmd) == ElementsForm {
          r := HandleDrawElements(conn);
          DrawsDoNotAnswer(r);
        } else {
          r := ReceiveArguments(conn, cmd);
          Finish(conn, callId, r);
        }
      }
    }

    /** `n` turns of the loop serve the first `n` requests, in order. */
    method DispatchLoop(conn: Connection, n: nat) returns (rs: seq<Request>)
      requires Dispatch(conn.incoming, n).Got? && top + |conn.incoming| < U64_LIMIT
      modifies this, conn
      ensures Dispatch(old(conn.incoming), n) == Got(rs, conn.incoming)
      ensures var (t, replies) := Served(gl, old(Now()), old(conn.incoming), n);
              Now() == t && conn.sent == old(conn.sent) + replies
    {
      hide Receive, Dispatch, Execute, FormatsIn, ReplyTo, Served;
      rs := [];
      ghost var whole := Dispatch(conn.incoming, n);
      ghost var final := Served(gl, Now(), conn.incoming, n);
      assert [] + whole.value == whole.value;
      for i := 0 to n
        invariant top + |conn.incoming| < U64_LIMIT
        invariant Dispatch(conn.incoming, n - i).Got?
        invariant var rest := Dispatch(conn.incoming, n - i);
                  rs + rest.value == whole.value && rest.rest == whole.rest
        invariant var (t, replies) := Served(gl, Now(), conn.incoming, n - i);
                  t == final.0 && conn.sent + replies == old(conn.sent) + final.1
      {
        ghost var others := DispatchSplit(conn.incoming, n - i);
        ServedStep(gl, Now(), conn.incoming, n - i, conn.sent);
        var r := DispatchOne(conn);
        assert rs + ([r] + others) == (rs + [r]) + others;
        rs := rs + [r];
      }
      NoTurns(gl, Now(), conn.incoming);
      assert rs + [] == rs && conn.sent + [] == conn.sent;
    }
  }

  lemma ServedStep<G>(gl: Gl<G>, s: State<G>, b: seq<byte>, n: nat, sent: seq<byte>)
    requires n > 0 && Receive(b).Got?
    ensures var Got(r, rest) := Receive(b);
            var (t, replies) := Served(gl, Execute(gl, s, r).0, rest, n - 1);
            && Served(gl, s, b, n).0 == t
            && sent + Served(gl, s, b, n).1 == (sent + ReplyTo(gl, s, b, r)) + replies
  {
    hide Receive, Execute, ReplyTo;
    var Got(r, rest) := Receive(b);
    Assoc(sent, ReplyTo(gl, s, b, r), Served(gl, Execute(gl, s, r).0, rest, n - 1).1);
  }

  lemma DispatchSplit(b: seq<byte>, n: nat) returns (others: seq<Request>)
    requires n > 0 && Dispatch(b, n).Got?
    ensures Receive(b).Got?
    ensures Dispatch(Receive(b).rest, n - 1) == Got(others, Dispatch(b, n).rest)
    ensures Dispatch(b, n).value == [Receive(b).value] + others
  {
    hide Receive;
    others := Dispatch(Receive(b).rest, n - 1).value;
  }

  lemma NoTurns<G>(gl: Gl<G>, s: State<G>, b: seq<byte>)
    ensures Dispatch(b, 0) == Got([], b) && Served(gl, s, b, 0) == (s, [])
  {
  }

  /** What a draw from the server's memory fetches of an array received for it is what the client's own
      array holds. */
  lemma ServerFetchesSame(mem: Memory, a: Attrib, base: int, n: i32, server: Memory, held: Attrib, top: nat, v: nat)
    requires a.size >= 0 && a.stride >= 0 && v < n
    requires Holds(server, held, SentAttribOf(mem, a, base, n, false), top)
    ensures held.enabled && held.size == a.size && Fetch(server, held, v) == Fetch(mem, a, base + v)
  {
    hide Fetch, Slice, Packed;
    PackedLength(mem, a, base, n);
    FetchesSame(mem, a, base, n, server, held.ptr, v);
    SameFetch(server, held, AsReceived(a, held.ptr), v);
  }

  lemma SameFetch(mem: Memory, a: Attrib, b: Attrib, v: int)
    requires a.size == b.size >= 0 && a.kind == b.kind && a.stride == b.stride && a.ptr == b.ptr
    ensures Fetch(mem, a, v) == Fetch(mem, b, v)
  {
  }
}
