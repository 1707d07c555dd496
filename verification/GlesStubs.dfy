/** The client stubs, writing to their connection step by step. */
module GlesStubs {
  import opened Bytes
  import opened Serializer
  import opened Wire
  import opened VertexArrays
  import opened StateTracker
  import opened GlesWire
  import opened GlesFrames
  import opened GlesCalls
  import opened GlesServer
  import opened GlesMeaning

  /** The command id, then the call id. */
  method StartSending(conn: Connection, cmd: u32, id: u32)
    modifies conn`sent
    ensures conn.sent == old(conn.sent) + (EncodeU32(cmd) + EncodeU32(id))
  {
    conn.SendData(EncodeU32(cmd));
    conn.SendData(EncodeU32(id));
  }

  /** On a transport of its own the thread finds its call id at the head. */
  method StartReceiving(conn: Connection, id: u32)
    requires |conn.incoming| >= U32_SIZE && conn.incoming[..U32_SIZE] == EncodeU32(id)
    modifies conn`incoming
    ensures conn.incoming == old(conn.incoming)[U32_SIZE..]
  {
    var head := conn.ReceiveData(U32_SIZE);
  }

  // ---------------------------------------------------------------- draws

  method SendVertexAttrib(conn: Connection, mem: Memory, a: Attrib, first: int, count: int, bound: bool)
    requires a.size >= 0 && (bound || WalkDefined(a, first, count))
    modifies conn`sent
    ensures conn.sent == old(conn.sent) + AttribBytes(SentAttribOf(mem, a, first, count, bound))
  {
    hide Gathered, EncodeU32, EncodeU64;
    ghost var s := SentAttribOf(mem, a, first, count, bound);
    conn.SendData(EncodeU32(a.index));
    conn.SendData(EncodeU32(Unsigned(a.size)));
    conn.SendData(EncodeU32(a.kind));
    conn.SendData([a.normalized]);
    conn.SendData(EncodeU32(Unsigned(a.stride)));
    conn.SendData(EncodeU64(a.ptr));
    assert conn.sent == old(conn.sent) + HeadBytes(s);
    if bound {
      assert conn.sent == conn.sent + s.data;
    } else {
      Gather(conn, mem, a, first, count);
    }
  }

  lemma NextSent(mem: Memory, slots: seq<Attrib>, i: nat, first: int, count: int, bound: bool)
    requires Sized(slots) && i < |slots|
    ensures AttribsBytes(SentAttribs(mem, slots[i..], first, count, bound))
         == AttribBytes(SentAttribOf(mem, slots[i], first, count, bound))
          + AttribsBytes(SentAttribs(mem, slots[i + 1..], first, count, bound))
  {
    assert slots[i..][1..] == slots[i + 1..];
  }

  /** The loop over the attributes. */
  method SendEach(conn: Connection, mem: Memory, attribs: seq<Attrib>, first: int, count: int, bound: bool)
    requires Sized(attribs) && WalksDefined(attribs, first, count, bound)
    modifies conn`sent
    ensures conn.sent == old(conn.sent) + AttribsBytes(SentAttribs(mem, attribs, first, count, bound))
  {
    hide AttribBytes, SentAttribOf, WalkDefined;
    assert attribs[0..] == attribs;
    for i := 0 to |attribs|
      invariant conn.sent + AttribsBytes(SentAttribs(mem, attribs[i..], first, count, bound))
             == old(conn.sent) + AttribsBytes(SentAttribs(mem, attribs, first, count, bound))
    {
      NextSent(mem, attribs, i, first, count, bound);
      Assoc(conn.sent, AttribBytes(SentAttribOf(mem, attribs[i], first, count, bound)),
            AttribsBytes(SentAttribs(mem, attribs[i + 1..], first, count, bound)));
      SendVertexAttrib(conn, mem, attribs[i], first, count, bound);
    }
    assert attribs[|attribs|..] == [];
  }

  method SendVertexAttribArrays(conn: Connection, mem: Memory, tracker: VertexAttribs, first: int, count: i32,
                                bound: bool)
    requires tracker.Valid() && TrackedOk(tracker.Now())
    requires WalksDefined(tracker.attribs[..tracker.numEnabled], first, count, bound)
    modifies conn`sent
    ensures conn.sent == old(conn.sent)
                       + ArraysBytes(ArraysOf(mem, tracker.attribs[..tracker.numEnabled], first, count, bound))
  {
    hide EncodeU32, AttribsBytes, SentAttribs, CountEnabled, WalkDefined;
    var attribs := tracker.GetEnabledVertexAttribs();
    assert attribs == tracker.attribs[..tracker.numEnabled];
    conn.SendData(EncodeU32(|attribs|));
    conn.SendData(EncodeU32(Unsigned(count)));
    conn.SendData(EncodeU32(if bound then 1 else 0));
    SendEach(conn, mem, attribs, first, count, bound);
  }

  method GlDrawArrays(conn: Connection, id: u32, mem: Memory, tracker: VertexAttribs, bound: bool,
                      mode: u32, first: i32, count: i32)
    requires tracker.Valid() && TrackedOk(tracker.Now())
    requires WalksDefined(tracker.attribs[..tracker.numEnabled], first, count, bound)
    modifies conn`sent
    ensures conn.sent == old(conn.sent) + Frame(id, RequestOf(Arrays(mem, tracker.Now(), bound, mode, first, count)))
  {
    hide EncodeU32, ArraysBytes, SentAttribs, CountEnabled, WalkDefined;
    StartSending(conn, DRAWARRAYS, id);
    conn.SendData(EncodeU32(mode));
    conn.SendData(EncodeU32(Unsigned(first)));
    conn.SendData(EncodeU32(Unsigned(count)));
    SendVertexAttribArrays(conn, mem, tracker, first, count, bound);
  }

  // ---------------------------------------------------------------- indexed draws

  /** The part of an indexed draw in front of the attributes. */
  function ElementsHead(id: u32, mode: u32, count: u32, kind: u32, indices: seq<byte>): seq<byte>
    requires |indices| < U64_LIMIT
  {
    EncodeU32(DRAWELEMENTS) + EncodeU32(id) + EncodeU32(mode) + EncodeU32(count) + EncodeU32(kind) + EncodeVar(indices)
  }

  lemma ElementsFrame(id: u32, c: Call)
    requires Callable(c) && c.Elements?
    ensures var data, slots := IndexBytes(c.mem, c.indices, c.count, c.kind), c.tracked.attribs[..c.tracked.num];
            Frame(id, RequestOf(c)) == ElementsHead(id, c.mode, c.count, c.kind, data)
              + ArraysBytes(ArraysOf(c.mem, slots, 0, MaxIndex(c.kind, data, c.count) + 1, c.bound))
  {
    hide EncodeU32, EncodeVar, ArraysBytes, SentAttribs, MaxIndex, Slice;
  }

  /** As many vertices as the largest index calls for. */
  method SendShipped(conn: Connection, mem: Memory, tracker: VertexAttribs, bound: bool, kind: u32, data: seq<byte>,
                     count: i32)
    requires tracker.Valid() && TrackedOk(tracker.Now())
    requires IndexType(kind) && count >= 0 && |data| == count * SizeByType(kind)
    requires WalksDefined(tracker.attribs[..tracker.numEnabled], 0, MaxIndex(kind, data, count) + 1, bound)
    modifies conn`sent
    ensures conn.sent == old(conn.sent)
              + ArraysBytes(ArraysOf(mem, tracker.attribs[..tracker.numEnabled], 0, MaxIndex(kind, data, count) + 1,
                                     bound))
  {
    hide ArraysBytes, SentAttribs, CountEnabled, MaxIndex, IsMaxIndex, WalkDefined;
    var max: nat;
    if kind == GL_UNSIGNED_BYTE {
      max := GetMaxIndexub(data, count);
    } else {
      max := GetMaxIndexus(data, count);
    }
    MaxIsUnique(kind, data, count, max);
    SendVertexAttribArrays(conn, mem, tracker, 0, max + 1, bound);
  }

  /** With another type of index the attributes are not sent at all. `stray` is what the size of an
      index is when its type is none of the known ones and the size stays uninitialised. */
  method GlDrawElements(conn: Connection, id: u32, mem: Memory, tracker: VertexAttribs, bound: bool,
                        mode: u32, count: i32, kind: u32, indices: u64, stray: nat)
    requires tracker.Valid() && TrackedOk(tracker.Now()) && count >= 0 && count * stray < U64_LIMIT
    requires IndexType(kind) ==>
               WalksDefined(tracker.attribs[..tracker.numEnabled], 0, Shipped(mem, indices, count, kind), bound)
    modifies conn`sent
    ensures IndexType(kind) ==>
              conn.sent == old(conn.sent)
                + Frame(id, RequestOf(Elements(mem, tracker.Now(), bound, mode, count, kind, indices)))
    ensures !IndexType(kind) ==>
              var size := if KnownType(kind) then SizeByType(kind) else stray;
              conn.sent == old(conn.sent) + ElementsHead(id, mode, count, kind, Slice(mem, indices, count * size))
  {
    hide EncodeU32, EncodeVar, ArraysBytes, SentAttribs, CountEnabled, MaxIndex, Slice, Frame, RequestOf, WalkDefined;
    var size := if KnownType(kind) then SizeByType(kind) else stray;
    var data := Slice(mem, indices, count * size);
    StartSending(conn, DRAWELEMENTS, id);
    conn.SendData(EncodeU32(mode));
    conn.SendData(EncodeU32(count));
    conn.SendData(EncodeU32(kind));
    conn.SendVarSizeData(data);
    assert conn.sent == old(conn.sent) + ElementsHead(id, mode, count, kind, data);
    if IndexType(kind) {
      ElementsFrame(id, Elements(mem, tracker.Now(), bound, mode, count, kind, indices));
      SendShipped(conn, mem, tracker, bound, kind, data, count);
    }
  }

  /** The handler then goes on waiting for attributes, and takes the next request for them. */
  lemma OtherIndexTypesWait(id: u32, mode: u32, count: u32, kind: u32, indices: seq<byte>)
    requires |indices| < U64_LIMIT
    ensures Receive(ElementsHead(id, mode, count, kind, indices)) == More
  {
    hide ReceiveArrays, VarSize, EncodeVar, EncodeU32, Word;
    var b := ElementsHead(id, mode, count, kind, indices);
    var b3 := EncodeVar(indices) + [];
    var b2 := EncodeU32(mode) + (EncodeU32(count) + (EncodeU32(kind) + b3));
    assert b == EncodeU32(DRAWELEMENTS) + (EncodeU32(id) + b2);
    ReadsWord(DRAWELEMENTS, EncodeU32(id) + b2);
    ReadsWord(id, b2);
    ReadsWords(mode, count, kind, b3);
    ReceivesVar(indices, []);
    NoArraysYet();
  }

  lemma NoArraysYet()
    ensures ReceiveArrays([]).More?
  {
  }

  // ---------------------------------------------------------------- shader sources

  function SourcesHead(id: u32, shader: u32, count: u32, lengths: Option<seq<byte>>): seq<byte>
    requires lengths.Some? ==> |lengths.value| < U64_LIMIT
  {
    EncodeU32(SHADERSOURCE) + EncodeU32(id) + EncodeU32(shader) + EncodeU32(count)
    + EncodeU32(if lengths.Some? then 1 else 0) + LengthsBytes(lengths)
  }

  lemma SourcesFrame(id: u32, shader: u32, count: u32, lengths: Option<seq<byte>>, strings: seq<seq<byte>>)
    requires Encodable(ShaderSource(shader, count, lengths, strings))
    ensures Frame(id, ShaderSource(shader, count, lengths, strings))
         == SourcesHead(id, shader, count, lengths) + StringsBytes(strings)
  {
    Regroup(EncodeU32(SHADERSOURCE), EncodeU32(id), EncodeU32(shader), EncodeU32(count),
            EncodeU32(if lengths.Some? then 1 else 0), LengthsBytes(lengths), StringsBytes(strings));
  }

  lemma Regroup(a: seq<byte>, b: seq<byte>, c: seq<byte>, d: seq<byte>, e: seq<byte>, f: seq<byte>, g: seq<byte>)
    ensures a + (b + (c + (d + (e + (f + g))))) == (a + b + c + d + e + f) + g
  {
    Assoc(a + b + c + d + e, f, g);
    Assoc(a + b + c + d, e, f + g);
    Assoc(a + b + c, d, e + (f + g));
    Assoc(a + b, c, d + (e + (f + g)));
    Assoc(a, b, c + (d + (e + (f + g))));
  }

  /** Each string is sent from where the first one starts. */
  method GlShaderSource(conn: Connection, id: u32, mem: Memory, shader: u32, count: i32, strings: seq<u64>,
                        lengths: Option<seq<i32>>, lens: seq<nat>)
    requires SourcesOk(mem, count, strings, lengths, lens)
    modifies conn`sent
    ensures conn.sent == old(conn.sent) + Frame(id, RequestOf(Sources(mem, shader, count, strings, lengths, lens)))
  {
    hide EncodeU32, EncodeVar, SentStrings, StringsBytes, StringsOk, EncodeInts, Frame;
    LengthsSmall(mem, strings, lengths, lens);
    SourcesFrame(id, shader, Unsigned(count), EncodeLengths(lengths), SentStrings(mem, strings, lengths, lens, 0));
    StartSending(conn, SHADERSOURCE, id);
    conn.SendData(EncodeU32(shader));
    conn.SendData(EncodeU32(Unsigned(count)));
    if lengths == None {
      conn.SendData(EncodeU32(0));
      assert LengthsBytes(None) == [];
    } else {
      conn.SendData(EncodeU32(1));
      conn.SendVarSizeData(EncodeInts(lengths.value));
    }
    assert conn.sent == old(conn.sent) + SourcesHead(id, shader, Unsigned(count), EncodeLengths(lengths));
    SendStrings(conn, mem, count, strings, lengths, lens);
  }

  lemma LengthsSmall(mem: Memory, strings: seq<u64>, lengths: Option<seq<i32>>, lens: seq<nat>)
    requires StringsOk(mem, strings, lengths, lens)
    ensures |strings| < 0x8000_0000 && (lengths.Some? ==> |lengths.value| == |strings|)
  {
  }

  /** The loop over the strings: none for a negative count. */
  method SendStrings(conn: Connection, mem: Memory, count: i32, strings: seq<u64>, lengths: Option<seq<i32>>,
                     lens: seq<nat>)
    requires SourcesOk(mem, count, strings, lengths, lens)
    modifies conn`sent
    ensures conn.sent == old(conn.sent) + StringsBytes(SentStrings(mem, strings, lengths, lens, 0))
  {
    hide EncodeVar, Slice, IsString;
    var i := 0;
    while i < count
      invariant 0 <= i <= |strings|
      invariant conn.sent + StringsBytes(SentStrings(mem, strings, lengths, lens, i))
             == old(conn.sent) + StringsBytes(SentStrings(mem, strings, lengths, lens, 0))
    {
      var length: int := if lengths == None || lengths.value[i] < 0 then lens[i] else lengths.value[i];
      var piece := Slice(mem, strings[0], length + 1);
      NextString(mem, strings, lengths, lens, i, piece);
      Assoc(conn.sent, EncodeVar(piece), StringsBytes(SentStrings(mem, strings, lengths, lens, i + 1)));
      conn.SendVarSizeData(piece);
      i := i + 1;
    }
  }

  lemma NextString(mem: Memory, strings: seq<u64>, lengths: Option<seq<i32>>, lens: seq<nat>, i: nat, piece: seq<byte>)
    requires StringsOk(mem, strings, lengths, lens) && i < |strings|
    requires piece == Slice(mem, strings[0], TextLength(LengthOf(lengths, i), lens[i]) + 1)
    ensures |piece| < U64_LIMIT
    ensures StringsBytes(SentStrings(mem, strings, lengths, lens, i))
         == EncodeVar(piece) + StringsBytes(SentStrings(mem, strings, lengths, lens, i + 1))
  {
    hide EncodeVar, Slice, IsString;
    var all := SentStrings(mem, strings, lengths, lens, i);
    assert all[0] == piece && all[1..] == SentStrings(mem, strings, lengths, lens, i + 1);
  }

  // ---------------------------------------------------------------- fixed-size requests and replies

  /** A float travels as its four bytes. */
  method GlClearColor(conn: Connection, id: u32, red: u32, green: u32, blue: u32, alpha: u32)
    modifies conn`sent
    ensures var args := EncodeU32(red) + EncodeU32(green) + EncodeU32(blue) + EncodeU32(alpha);
            conn.sent == old(conn.sent) + Frame(id, Plain(0x38, args)) && Sendable(Plain(0x38, args))
  {
    hide EncodeU32;
    StartSending(conn, 0x38, id);
    conn.SendData(EncodeU32(red));
    conn.SendData(EncodeU32(green));
    conn.SendData(EncodeU32(blue));
    conn.SendData(EncodeU32(alpha));
  }

  /** What the stub of glGenTextures receives: its call id, and then as many names as it asked for. */
  function ReceiveNames(b: seq<byte>, n: i32): Got<seq<byte>> {
    var (id, rest) :- Take(b, U32_SIZE);
    Read(rest, NamesSize(n))
  }

  /** The stub returns on its own reply, with its names and nothing left over or missing, exactly when
      it asked for some or a byte of a further reply is there. */
  lemma NamesReceivedExactly(id: u32, n: i32, names: seq<byte>, rest: seq<byte>)
    requires |names| == NamesSize(n)
    ensures ReceiveNames(EncodeU32(id) + names + rest, n) == Got(names, rest) <==> n != 0 || rest != []
    ensures n == 0 && rest == [] ==> ReceiveNames(EncodeU32(id) + names + rest, n) == More
  {
    hide EncodeU32;
    Assoc(EncodeU32(id), names, rest);
    TakesFront(EncodeU32(id), names + rest);
    TakesFront(names, rest);
  }

  /** `n` names come back behind the call id. */
  method GlGenTextures(conn: Connection, id: u32, n: i32) returns (textures: seq<byte>)
    requires |conn.incoming| >= U32_SIZE && conn.incoming[..U32_SIZE] == EncodeU32(id)
    requires ReceiveNames(conn.incoming, n).Got?
    modifies conn
    ensures var args := EncodeU32(Unsigned(n));
            conn.sent == old(conn.sent) + Frame(id, Plain(0x42, args)) && Sendable(Plain(0x42, args))
    ensures ReceiveNames(old(conn.incoming), n) == Got(textures, conn.incoming)
    ensures old(conn.incoming) == EncodeU32(id) + textures + conn.incoming && |textures| == NamesSize(n)
    ensures n >= 0 ==> |textures| == 4 * n
  {
    hide EncodeU32;
    StartSending(conn, 0x42, id);
    conn.SendData(EncodeU32(Unsigned(n)));
    StartReceiving(conn, id);
    textures := conn.ReceiveData(NamesSize(n));
  }

  method GlGetShaderiv(conn: Connection, id: u32, shader: u32, pname: u32) returns (params: seq<byte>)
    requires |conn.incoming| >= U32_SIZE + 4 && conn.incoming[..U32_SIZE] == EncodeU32(id)
    modifies conn
    ensures var args := EncodeU32(shader) + EncodeU32(pname);
            conn.sent == old(conn.sent) + Frame(id, Plain(0x2e, args)) && Sendable(Plain(0x2e, args))
    ensures old(conn.incoming) == EncodeU32(id) + params + conn.incoming && |params| == 4
  {
    hide EncodeU32;
    StartSending(conn, 0x2e, id);
    conn.SendData(EncodeU32(shader));
    conn.SendData(EncodeU32(pname));
    StartReceiving(conn, id);
    params := conn.ReceiveData(4);
  }

  lemma NameReads(mem: Memory, name: u64, len: nat)
    requires IsString(mem, name, len)
    ensures UpToNul(Slice(mem, name, len + 1)) == Slice(mem, name, len)
  {
    UpToNulIs(Slice(mem, name, len + 1), len);
    assert Slice(mem, name, len + 1)[..len] == Slice(mem, name, len);
  }

  /** The name travels with its NUL. */
  method GlBindAttribLocation(conn: Connection, id: u32, mem: Memory, program: u32, index: u32, name: u64, len: nat)
    requires IsString(mem, name, len) && len + 1 < U64_LIMIT
    modifies conn`sent
    ensures var r := WithData(0x33, EncodeU32(program) + EncodeU32(index), Slice(mem, name, len + 1));
            conn.sent == old(conn.sent) + Frame(id, r) && Sendable(r) && UpToNul(r.data) == Slice(mem, name, len)
  {
    hide EncodeU32, EncodeVar, UpToNul, IsString, Slice;
    var data := Slice(mem, name, len + 1);
    NameReads(mem, name, len);
    StartSending(conn, 0x33, id);
    conn.SendData(EncodeU32(program));
    conn.SendData(EncodeU32(index));
    conn.SendVarSizeData(data);
  }

  /** The size goes in front, as for a length-prefixed field, but the data is sent even when empty. */
  method GlBufferData(conn: Connection, id: u32, mem: Memory, target: u32, size: u64, data: u64, usage: u32)
    modifies conn`sent
    ensures conn.sent == old(conn.sent) + Frame(id, BufferData(target, Slice(mem, data, size), usage))
  {
    hide EncodeU32, EncodeU64, Slice;
    StartSending(conn, BUFFERDATA, id);
    conn.SendData(EncodeU32(target));
    conn.SendData(EncodeU64(size));
    conn.SendData(Slice(mem, data, size));
    conn.SendData(EncodeU32(usage));
  }
}
