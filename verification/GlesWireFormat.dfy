/** The bytes of every request, field by field, as its stub writes them. */
module GlesWireFormat {
  import opened Bytes
  import opened Serializer
  import opened Wire
  import opened VertexArrays
  import opened GlesWire
  import opened GlesFrames
  import opened GlesCalls

  // ---------------------------------------------------------------- prototypes

  /** What a parameter of a GL function travels as: a word for enums, names, integers, floats and sizes,
      and a length with the bytes for a string or an array. Places for results are not sent. */
  datatype Parameter = OneWord | Array

  /** The parameters of the functions whose stubs only send and receive them, from the prototypes of the
      OpenGL ES 2.0 specification. */
  function Prototype(cmd: u32): Option<seq<Parameter>> {
    match cmd
    case 0x2b => Some([OneWord])                            // CreateShader(type)
    case 0x2d => Some([OneWord])                            // CompileShader(shader)
    case 0x2e => Some([OneWord, OneWord])                   // GetShaderiv(shader, pname, params)
    case 0x30 => Some([OneWord])                            // DeleteShader(shader)
    case 0x31 => Some([])                                   // CreateProgram()
    case 0x32 => Some([OneWord, OneWord])                   // AttachShader(program, shader)
    case 0x33 => Some([OneWord, OneWord, Array])            // BindAttribLocation(program, index, name)
    case 0x34 => Some([OneWord])                            // LinkProgram(program)
    case 0x35 => Some([OneWord, OneWord])                   // GetProgramiv(program, pname, params)
    case 0x37 => Some([OneWord])                            // DeleteProgram(program)
    case 0x38 => Some([OneWord, OneWord, OneWord, OneWord]) // ClearColor(red, green, blue, alpha)
    case 0x39 => Some([OneWord, OneWord, OneWord, OneWord]) // Viewport(x, y, width, height)
    case 0x3a => Some([OneWord])                            // Clear(mask)
    case 0x3b => Some([OneWord])                            // UseProgram(program)
    case 0x3f => Some([])                                   // GetError()
    case 0x40 => Some([])                                   // Finish()
    case 0x41 => Some([OneWord, OneWord])                   // PixelStorei(pname, param)
    case 0x42 => Some([OneWord])                            // GenTextures(n, textures)
    case 0x43 => Some([OneWord, OneWord])                   // BindTexture(target, texture)
    // TexImage2D(target, level, internalformat, width, height, border, format, type, pixels)
    case 0x44 => Some([OneWord, OneWord, OneWord, OneWord, OneWord, OneWord, OneWord, OneWord, Array])
    case 0x45 => Some([OneWord, OneWord, OneWord])          // TexParameteri(target, pname, param)
    case 0x46 => Some([OneWord])                            // ActiveTexture(texture)
    case 0x47 => Some([OneWord, OneWord])                   // Uniform1i(location, v0)
    case 0x49 => Some([OneWord, Array])                     // GetAttribLocation(program, name)
    case 0x4a => Some([OneWord, Array])                     // GetUniformLocation(program, name)
    case 0x4b => Some([OneWord, Array])                     // DeleteTextures(n, textures)
    case 0x4c => Some([OneWord])                            // GenBuffers(n, buffers)
    case 0x4d => Some([OneWord, OneWord])                   // BindBuffer(target, buffer)
    case 0x4f => Some([OneWord, Array])                     // DeleteBuffers(n, buffers)
    case _ => None
  }

  /** Stub and handler of every such function handle four bytes for each word parameter, and then the
      length-prefixed field if there is an array. */
  lemma FormsFollowPrototypes(cmd: u32)
    requires Prototype(cmd).Some?
    ensures var ps := Prototype(cmd).value;
            var form := if ps != [] && ps[|ps| - 1] == Array then DataForm(4 * (|ps| - 1)) else PlainForm(4 * |ps|);
            StubForm(cmd) == form && HandlerForm(cmd) == form
  {
  }

  /** The other modelled functions have requests of their own. */
  lemma OtherForms(cmd: u32)
    requires Prototype(cmd).None?
    ensures StubForm(cmd) == match cmd
                             case 0x2c => ShaderForm
                             case 0x3e => ArraysForm
                             case 0x48 => ElementsForm
                             case 0x4e => BufferForm
                             case _ => NoForm
  {
  }

  /** The handlers in the other places of the jump table receive nothing, not even the call id. */
  lemma UnusedPlaces(cmd: u32, rest: seq<byte>)
    ensures HandlerForm(cmd) == EmptyForm <==> cmd in {0, 1, 2, 3, 4, 5, 6, 7, 8, 9, 0x3c, 0x3d}
    ensures HandlerForm(cmd) == EmptyForm ==> Receive(EncodeU32(cmd) + rest) == Got(Unused(cmd), rest)
  {
    hide ReceiveBody, EncodeU32;
    ReadsWord(cmd, rest);
  }

  // ---------------------------------------------------------------- fixed-size arguments and data

  lemma ValuesSent(id: u32, cmd: u32, args: seq<byte>)
    ensures Frame(id, RequestOf(Values(cmd, args))) == EncodeU32(cmd) + EncodeU32(id) + args
  {
    hide EncodeU32;
  }

  lemma DataSent(id: u32, cmd: u32, args: seq<byte>, data: seq<byte>)
    requires |data| < U64_LIMIT
    ensures Frame(id, RequestOf(Carries(cmd, args, data)))
         == EncodeU32(cmd) + EncodeU32(id) + args + EncodeU64(|data|) + data
  {
    hide EncodeU32, EncodeU64;
  }

  lemma BufferSent(id: u32, target: u32, data: seq<byte>, usage: u32)
    requires |data| < U64_LIMIT
    ensures Frame(id, RequestOf(Uploads(target, data, usage)))
         == EncodeU32(0x4e) + EncodeU32(id) + EncodeU32(target) + EncodeU64(|data|) + data + EncodeU32(usage)
  {
    hide EncodeU32, EncodeU64;
  }

  // ---------------------------------------------------------------- shader sources

  /** Without lengths a zero says so; with them a one, and their size in bytes. Then come the strings. */
  lemma SourcesSent(id: u32, mem: Memory, shader: u32, count: i32, strings: seq<u64>, lengths: Option<seq<i32>>,
                    lens: seq<nat>)
    requires SourcesOk(mem, count, strings, lengths, lens)
    ensures Frame(id, RequestOf(Sources(mem, shader, count, strings, lengths, lens)))
         == EncodeU32(0x2c) + EncodeU32(id) + EncodeU32(shader) + EncodeU32(Unsigned(count))
            + (match lengths
               case None => EncodeU32(0)
               case Some(ints) => EncodeU32(1) + EncodeU64(4 * |ints|) + EncodeInts(ints))
            + StringsBytes(SentStrings(mem, strings, lengths, lens, 0))
  {
    hide EncodeU32, EncodeU64, StringsBytes, SentStrings, StringsOk, EncodeInts;
  }

  lemma NoStringSent()
    ensures StringsBytes([]) == []
  {
  }

  lemma FirstString(strings: seq<seq<byte>>)
    requires strings != [] && forall k :: 0 <= k < |strings| ==> |strings[k]| < U64_LIMIT
    ensures StringsBytes(strings) == EncodeU64(|strings[0]|) + strings[0] + StringsBytes(strings[1..])
  {
    hide EncodeU64;
  }

  lemma TextFits(mem: Memory, strings: seq<u64>, lengths: Option<seq<i32>>, lens: seq<nat>, i: nat)
    requires StringsOk(mem, strings, lengths, lens) && i < |strings|
    ensures var n := if lengths.None? || lengths.value[i] < 0 then lens[i] else lengths.value[i];
            n == TextLength(LengthOf(lengths, i), lens[i]) && n + 1 < U64_LIMIT
  {
    hide IsString;
  }

  lemma NextSent(mem: Memory, strings: seq<u64>, lengths: Option<seq<i32>>, lens: seq<nat>, i: nat)
    requires StringsOk(mem, strings, lengths, lens) && i <= |strings|
    ensures SentStrings(mem, strings, lengths, lens, |strings|) == []
    ensures i < |strings| ==>
              var n := if lengths.None? || lengths.value[i] < 0 then lens[i] else lengths.value[i];
              n + 1 < U64_LIMIT &&
              SentStrings(mem, strings, lengths, lens, i)
                == [Slice(mem, strings[0], n + 1)] + SentStrings(mem, strings, lengths, lens, i + 1)
  {
    hide Slice, StringsOk, TextLength, LengthOf;
    if i < |strings| {
      TextFits(mem, strings, lengths, lens, i);
    }
  }

  /** Each string is its length and its characters, the NUL or one character more included, taken from where
      the first string starts. */
  lemma StringSent(mem: Memory, strings: seq<u64>, lengths: Option<seq<i32>>, lens: seq<nat>, i: nat)
    requires StringsOk(mem, strings, lengths, lens) && i <= |strings|
    ensures StringsBytes(SentStrings(mem, strings, lengths, lens, |strings|)) == []
    ensures i < |strings| ==>
              var n := if lengths.None? || lengths.value[i] < 0 then lens[i] else lengths.value[i];
              n + 1 < U64_LIMIT &&
              StringsBytes(SentStrings(mem, strings, lengths, lens, i))
                == EncodeU64(n + 1) + Slice(mem, strings[0], n + 1)
                   + StringsBytes(SentStrings(mem, strings, lengths, lens, i + 1))
  {
    hide EncodeU64, Slice, StringsOk, StringsBytes, SentStrings;
    NoStringSent();
    NextSent(mem, strings, lengths, lens, i);
    if i < |strings| {
      FirstString(SentStrings(mem, strings, lengths, lens, i));
    }
  }

  // ---------------------------------------------------------------- draws

  /** The six fields of an attribute, and with no buffer bound its vertices. */
  lemma AttributeSent(mem: Memory, a: Attrib, base: int, n: int, bound: bool)
    requires a.size >= 0
    ensures AttribBytes(SentAttribOf(mem, a, base, n, bound))
         == EncodeU32(a.index) + EncodeU32(Unsigned(a.size)) + EncodeU32(a.kind) + [a.normalized]
            + EncodeU32(Unsigned(a.stride)) + EncodeU64(a.ptr)
            + if bound then [] else Gathered(mem, a, base, n)
  {
    hide EncodeU32, EncodeU64, Gathered;
  }

  lemma AttributesSent(mem: Memory, slots: seq<Attrib>, base: int, n: int, bound: bool)
    requires Sized(slots)
    ensures AttribsBytes(SentAttribs(mem, [], base, n, bound)) == []
    ensures slots != [] ==>
              (AttribsBytes(SentAttribs(mem, slots, base, n, bound))
               == AttribBytes(SentAttribOf(mem, slots[0], base, n, bound))
                  + AttribsBytes(SentAttribs(mem, slots[1..], base, n, bound)))
  {
    hide AttribBytes, SentAttribOf;
  }

  lemma ArraysSent(id: u32, c: Call)
    requires Callable(c) && c.Arrays?
    ensures var slots := c.tracked.attribs[..c.tracked.num];
            (Frame(id, RequestOf(c))
             == EncodeU32(0x3e) + EncodeU32(id) + EncodeU32(c.mode) + EncodeU32(Unsigned(c.first))
                + EncodeU32(Unsigned(c.count))
                + EncodeU32(c.tracked.num) + EncodeU32(Unsigned(c.count)) + EncodeU32(if c.bound then 1 else 0)
                + AttribsBytes(SentAttribs(c.mem, slots, c.first, c.count, c.bound)))
  {
    hide EncodeU32, AttribsBytes, SentAttribs;
  }

  lemma Ungroup(a: seq<byte>, b: seq<byte>, c: seq<byte>, d: seq<byte>, e: seq<byte>, f: seq<byte>)
    ensures a + (b + (c + (d + (e + f)))) == a + b + c + d + e + f
  {
    Assoc(a, b, c + (d + (e + f)));
    Assoc(a + b, c, d + (e + f));
    Assoc(a + b + c, d, e + f);
    Assoc(a + b + c + d, e, f);
  }

  lemma IndexedRequest(c: Call, bytes: nat)
    requires Callable(c) && c.Elements? && (c.kind, bytes) in {(0x1401, 1), (0x1403, 2)}
    ensures var data, slots := Slice(c.mem, c.indices, c.count * bytes), c.tracked.attribs[..c.tracked.num];
            && |data| == c.count * SizeByType(c.kind)
            && var vertices := MaxIndex(c.kind, data, c.count) + 1;
               RequestOf(c) == DrawElements(c.mode, c.count, c.kind, data, SentArrays(vertices, c.bound,
                                            SentAttribs(c.mem, slots, 0, vertices, c.bound)))
  {
    hide SentAttribs, MaxIndex, Slice;
  }

  lemma UngroupTail(a: seq<byte>, b: seq<byte>, c: seq<byte>, d: seq<byte>, e: seq<byte>, f: seq<byte>, g: seq<byte>)
    ensures a + ((b + c) + (d + (e + (f + g)))) == a + b + c + d + e + f + g
  {
    Assoc(a, b, c);
    Assoc(a, b + c, d + (e + (f + g)));
    Assoc(a + b + c, d, e + (f + g));
    Assoc(a + b + c + d, e, f + g);
    Assoc(a + b + c + d + e, f, g);
  }

  lemma IndexedBody(mode: u32, count: u32, kind: u32, data: seq<byte>, vertices: u32, bound: bool,
                    attribs: seq<SentAttrib>)
    requires Encodable(DrawElements(mode, count, kind, data, SentArrays(vertices, bound, attribs)))
    ensures var n, m, flag := EncodeU32(|attribs|), EncodeU32(vertices), EncodeU32(if bound then 1 else 0);
            (Body(DrawElements(mode, count, kind, data, SentArrays(vertices, bound, attribs)))
             == EncodeU32(mode) + (EncodeU32(count) + (EncodeU32(kind) +
                  ((EncodeU64(|data|) + data) + (n + (m + (flag + AttribsBytes(attribs))))))))
  {
    hide EncodeU32, EncodeU64, AttribsBytes;
  }

  lemma IndexedFrame(id: u32, mode: u32, count: u32, kind: u32, data: seq<byte>, vertices: u32, bound: bool,
                     attribs: seq<SentAttrib>)
    requires Encodable(DrawElements(mode, count, kind, data, SentArrays(vertices, bound, attribs)))
    ensures Frame(id, DrawElements(mode, count, kind, data, SentArrays(vertices, bound, attribs)))
         == EncodeU32(0x48) + EncodeU32(id) + EncodeU32(mode) + EncodeU32(count) + EncodeU32(kind)
            + EncodeU64(|data|) + data
            + EncodeU32(|attribs|) + EncodeU32(vertices) + EncodeU32(if bound then 1 else 0) + AttribsBytes(attribs)
  {
    hide EncodeU32, EncodeU64, AttribsBytes, Body;
    var n, m, flag := EncodeU32(|attribs|), EncodeU32(vertices), EncodeU32(if bound then 1 else 0);
    IndexedBody(mode, count, kind, data, vertices, bound, attribs);
    var tail := (EncodeU64(|data|) + data) + (n + (m + (flag + AttribsBytes(attribs))));
    Ungroup(EncodeU32(0x48), EncodeU32(id), EncodeU32(mode), EncodeU32(count), EncodeU32(kind), tail);
    UngroupTail(EncodeU32(0x48) + EncodeU32(id) + EncodeU32(mode) + EncodeU32(count) + EncodeU32(kind),
                EncodeU64(|data|), data, n, m, flag, AttribsBytes(attribs));
  }

  /** As many vertices are sent of each array as the largest index calls for. */
  lemma ElementsSent(id: u32, c: Call, bytes: nat)
    requires Callable(c) && c.Elements? && (c.kind, bytes) in {(0x1401, 1), (0x1403, 2)}
    ensures var data, slots := Slice(c.mem, c.indices, c.count * bytes), c.tracked.attribs[..c.tracked.num];
            && |data| == c.count * SizeByType(c.kind)
            && var vertices := MaxIndex(c.kind, data, c.count) + 1;
               (Frame(id, RequestOf(c))
                == EncodeU32(0x48) + EncodeU32(id) + EncodeU32(c.mode) + EncodeU32(c.count) + EncodeU32(c.kind)
                   + EncodeU64(c.count * bytes) + data
                   + EncodeU32(c.tracked.num) + EncodeU32(vertices) + EncodeU32(if c.bound then 1 else 0)
                   + AttribsBytes(SentAttribs(c.mem, slots, 0, vertices, c.bound)))
  {
    hide EncodeU32, EncodeU64, AttribsBytes, SentAttribs, MaxIndex, Slice, Frame, RequestOf;
    var data, slots := Slice(c.mem, c.indices, c.count * bytes), c.tracked.attribs[..c.tracked.num];
    IndexedRequest(c, bytes);
    IndexedFrame(id, c.mode, c.count, c.kind, data, MaxIndex(c.kind, data, c.count) + 1, c.bound,
                 SentAttribs(c.mem, slots, 0, MaxIndex(c.kind, data, c.count) + 1, c.bound));
  }
}
