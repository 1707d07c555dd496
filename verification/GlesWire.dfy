/** The requests of the GLES stubs, and what the handlers receive of them. */
module GlesWire {
  import opened Bytes
  import opened Serializer
  import opened Wire
  import opened VertexArrays

  const SHADERSOURCE: u32 := 0x2c
  const DRAWARRAYS: u32 := 0x3e
  const DRAWELEMENTS: u32 := 0x48
  const BUFFERDATA: u32 := 0x4e

  /** How the arguments of a command travel: fixed-size fields, the same with one length-prefixed
      field behind them, or one of the forms whose length depends on the values sent. `EmptyForm` is
      that of a handler that receives nothing, and `NoForm` stands for a command outside this model. */
  datatype Form =
    | PlainForm(args: nat)
    | DataForm(args: nat)
    | ShaderForm | ArraysForm | ElementsForm | BufferForm
    | EmptyForm | NoForm

  /** What the client stub of a command sends after the two ids. */
  function StubForm(cmd: u32): Form {
    match cmd
    case 0x2b => PlainForm(4)    // glCreateShader: type
    case 0x2d => PlainForm(4)    // glCompileShader: shader
    case 0x2e => PlainForm(4 + 4) // glGetShaderiv: shader, pname
    case 0x30 => PlainForm(4)    // glDeleteShader: shader
    case 0x31 => PlainForm(0)    // glCreateProgram
    case 0x32 => PlainForm(4 + 4) // glAttachShader: program, shader
    case 0x33 => DataForm(4 + 4) // glBindAttribLocation: program, index, name
    case 0x34 => PlainForm(4)    // glLinkProgram: program
    case 0x35 => PlainForm(4 + 4) // glGetProgramiv: program, pname
    case 0x37 => PlainForm(4)    // glDeleteProgram: program
    case 0x38 => PlainForm(4 + 4 + 4 + 4) // glClearColor: red, green, blue, alpha
    case 0x39 => PlainForm(4 + 4 + 4 + 4) // glViewport: x, y, width, height
    case 0x3a => PlainForm(4)    // glClear: mask
    case 0x3b => PlainForm(4)    // glUseProgram: program
    case 0x3f => PlainForm(0)    // glGetError
    case 0x40 => PlainForm(0)    // glFinish
    case 0x41 => PlainForm(4 + 4) // glPixelStorei: pname, param
    case 0x42 => PlainForm(4)    // glGenTextures: n
    case 0x43 => PlainForm(4 + 4) // glBindTexture: target, texture
    case 0x44 => DataForm(4 + 4 + 4 + 4 + 4 + 4 + 4 + 4) // glTexImage2D: target to type, data
    case 0x45 => PlainForm(4 + 4 + 4) // glTexParameteri: target, pname, param
    case 0x46 => PlainForm(4)    // glActiveTexture: texture
    case 0x47 => PlainForm(4 + 4) // glUniform1i: location, v0
    case 0x49 => DataForm(4)     // glGetAttribLocation: program, name
    case 0x4a => DataForm(4)     // glGetUniformLocation: program, name
    case 0x4b => DataForm(4)     // glDeleteTextures: n, textures
    case 0x4c => PlainForm(4)    // glGenBuffers: n
    case 0x4d => PlainForm(4 + 4) // glBindBuffer: target, buffer
    case 0x4f => DataForm(4)     // glDeleteBuffers: n, buffers
    case _ =>
      if cmd == SHADERSOURCE then ShaderForm
      else if cmd == DRAWARRAYS then ArraysForm
      else if cmd == DRAWELEMENTS then ElementsForm
      else if cmd == BUFFERDATA then BufferForm
      else NoForm
  }

  /** What the handler in the jump table's place receives after the command id and the call id. */
  function HandlerForm(cmd: u32): Form {
    match cmd
    case 0x2b | 0x2d | 0x30 => PlainForm(4)        // _glCreateShader, _glCompileShader, _glDeleteShader
    case 0x31 | 0x3f | 0x40 => PlainForm(0)        // _glCreateProgram, _glGetError, _glFinish
    case 0x34 | 0x37 | 0x3b => PlainForm(4)        // _glLinkProgram, _glDeleteProgram, _glUseProgram
    case 0x3a | 0x46 => PlainForm(4)               // _glClear, _glActiveTexture
    case 0x42 | 0x4c => PlainForm(4)               // _glGenTextures, _glGenBuffers
    case 0x2e | 0x32 | 0x35 => PlainForm(4 + 4)    // _glGetShaderiv, _glAttachShader, _glGetProgramiv
    case 0x41 | 0x43 => PlainForm(4 + 4)           // _glPixelStorei, _glBindTexture
    case 0x47 | 0x4d => PlainForm(4 + 4)           // _glUniform1i, _glBindBuffer
    case 0x45 => PlainForm(4 + 4 + 4)              // _glTexParameteri
    case 0x38 | 0x39 => PlainForm(4 + 4 + 4 + 4)   // _glClearColor, _glViewport
    case 0x49 | 0x4a => DataForm(4)                // _glGetAttribLocation, _glGetUniformLocation
    case 0x4b | 0x4f => DataForm(4)                // _glDeleteTextures, _glDeleteBuffers
    case 0x33 => DataForm(4 + 4)                   // _glBindAttribLocation
    case 0x44 => DataForm(8 * 4)                   // _glTexImage2D
    case 0x3c | 0x3d => EmptyForm                  // _glVertexAttribPointer, _glEnableVertexAttribArray
    case _ =>
      if cmd == SHADERSOURCE then ShaderForm
      else if cmd == DRAWARRAYS then ArraysForm
      else if cmd == DRAWELEMENTS then ElementsForm
      else if cmd == BUFFERDATA then BufferForm
      else if cmd < 0x0a then EmptyForm            // _notInUse
      else NoForm
  }

  /** Stub and handler of every modelled command agree on the fixed part. */
  lemma FormsAgree(cmd: u32)
    requires StubForm(cmd) != NoForm
    ensures HandlerForm(cmd) == StubForm(cmd)
  {
  }

  /** The size of `n` names, as a size_t: of a negative number it is huge. */
  function NamesSize(n: i32): nat {
    if n >= 0 then 4 * n else 4 * n + U64_LIMIT
  }

  /** How many bytes the client stub of a request receives behind its call id, if it receives any reply. */
  function StubReceives(r: Request): Option<nat> {
    match r
    case Plain(cmd, args) =>
      (match cmd
       case 0x2b => Some(4) // glCreateShader: name
       case 0x2e => Some(4) // glGetShaderiv: params
       case 0x31 => Some(4) // glCreateProgram: name
       case 0x35 => Some(4) // glGetProgramiv: params
       case 0x3f => Some(4) // glGetError: error
       case 0x40 => Some(0) // glFinish: only the call id
       case 0x42 => if |args| == 4 then Some(NamesSize(Signed(DecodeU32(args)))) else None // glGenTextures: textures
       case 0x4c => if |args| == 4 then Some(NamesSize(Signed(DecodeU32(args)))) else None // glGenBuffers: buffers
       case _ => None)
    case WithData(cmd, _, _) =>
      (match cmd
       case 0x49 => Some(4) // glGetAttribLocation: location
       case 0x4a => Some(4) // glGetUniformLocation: location
       case _ => None)
    case _ => None
  }

  // ---------------------------------------------------------------- requests

  /** One attribute as it travels; the data only when no buffer is bound. */
  datatype SentAttrib = SentAttrib(
    index: u32, size: u32, kind: u32, normalized: byte, stride: u32, ptr: u64, data: seq<byte>)

  datatype SentArrays = SentArrays(count: u32, bound: bool, attribs: seq<SentAttrib>)

  datatype Request =
    | Plain(cmd: u32, args: seq<byte>)
    | WithData(cmd: u32, args: seq<byte>, data: seq<byte>)
    | ShaderSource(shader: u32, count: u32, lengths: Option<seq<byte>>, strings: seq<seq<byte>>)
    | DrawArrays(mode: u32, first: u32, count: u32, arrays: SentArrays)
    | DrawElements(mode: u32, count: u32, kind: u32, indices: seq<byte>, arrays: SentArrays)
    | BufferData(target: u32, data: seq<byte>, usage: u32)
    | Unused(cmd: u32)

  /** A loop bound, an int: a negative one means no iterations. */
  function Times(n: u32): nat {
    if Signed(n) > 0 then Signed(n) else 0
  }

  /** How much the server receives for one attribute. The conversion to a GLsizei keeps the low 32 bits,
      which do not depend on how the product of the two ints before it wraps. */
  function BlockSize(count: u32, size: u32, kind: u32): nat {
    DueSize(Signed(count), Signed(size) * SizeByType(kind))
  }

  const HEAD_SIZE: nat := 4 + 4 + 4 + 1 + 4 + 8

  /** The six fixed fields of an attribute, in the order they are received. */
  function DecodeHead(h: seq<byte>): SentAttrib
    requires |h| == HEAD_SIZE
  {
    SentAttrib(DecodeU32(h[0..4]), DecodeU32(h[4..8]), DecodeU32(h[8..12]), h[12],
               DecodeU32(h[13..17]), DecodeU64(h[17..25]), [])
  }

  function DataSize(count: u32, bound: bool, a: SentAttrib): nat {
    if bound then 0 else BlockSize(count, a.size, a.kind)
  }

  /** The array behind the fixed fields, with no buffer bound. Of other types than the known ones the
      size is undefined, and a block is never got. */
  function ReceiveBlock(b: seq<byte>, count: u32, bound: bool, a: SentAttrib): Got<seq<byte>> {
    if bound then Got([], b)
    else if KnownType(a.kind) then Read(b, DataSize(count, bound, a))
    else More
  }

  function ReceiveAttrib(b: seq<byte>, count: u32, bound: bool): Got<SentAttrib> {
    var (head, b1) :- Take(b, HEAD_SIZE);
    var (data, b2) :- ReceiveBlock(b1, count, bound, DecodeHead(head));
    Got(DecodeHead(head).(data := data), b2)
  }

  function ReceiveAttribs(b: seq<byte>, n: nat, count: u32, bound: bool): Got<seq<SentAttrib>>
    decreases n
  {
    if n == 0 then Got([], b)
    else
      var (a, b1) :- ReceiveAttrib(b, count, bound);
      var (others, b2) :- ReceiveAttribs(b1, n - 1, count, bound);
      Got([a] + others, b2)
  }

  function ReceiveArrays(b: seq<byte>): Got<SentArrays> {
    var ((numAttribs, count, bound), b3) :- Words(b);
    var (attribs, b4) :- ReceiveAttribs(b3, Times(numAttribs), count, bound != 0);
    Got(SentArrays(count, bound != 0, attribs), b4)
  }

  function ReceiveStrings(b: seq<byte>, n: nat): Got<seq<seq<byte>>>
    decreases n
  {
    if n == 0 then Got([], b)
    else
      var (s, b1) :- VarSize(b);
      var (others, b2) :- ReceiveStrings(b1, n - 1);
      Got([s] + others, b2)
  }

  function ReceiveLengths(b: seq<byte>, passingType: u32): Got<Option<seq<byte>>> {
    if passingType == 1 then
      var (lengths, rest) :- VarSize(b);
      Got(Some(lengths), rest)
    else Got(None, b)
  }

  function ReceiveShader(b: seq<byte>): Got<Request> {
    var ((shader, count, passingType), b3) :- Words(b);
    var (lengths, b4) :- ReceiveLengths(b3, passingType);
    var (strings, b5) :- ReceiveStrings(b4, Times(count));
    Got(ShaderSource(shader, count, lengths, strings), b5)
  }

  function ReceiveDrawArrays(b: seq<byte>): Got<Request> {
    var ((mode, first, count), b3) :- Words(b);
    var (arrays, b4) :- ReceiveArrays(b3);
    Got(DrawArrays(mode, first, count, arrays), b4)
  }

  function ReceiveDrawElements(b: seq<byte>): Got<Request> {
    var ((mode, count, kind), b3) :- Words(b);
    var (indices, b4) :- VarSize(b3);
    var (arrays, b5) :- ReceiveArrays(b4);
    Got(DrawElements(mode, count, kind, indices, arrays), b5)
  }

  function ReceiveBufferData(b: seq<byte>): Got<Request> {
    var (target, b1) :- Word(b);
    var (data, b2) :- VarSize(b1);
    var (usage, b3) :- Word(b2);
    Got(BufferData(target, data, usage), b3)
  }

  function ReceiveBody(cmd: u32, b: seq<byte>): Got<Request> {
    match HandlerForm(cmd)
    case PlainForm(n) =>
      var (args, rest) :- Take(b, n);
      Got(Plain(cmd, args), rest)
    case DataForm(n) =>
      var (args, b1) :- Take(b, n);
      var (data, rest) :- VarSize(b1);
      Got(WithData(cmd, args, data), rest)
    case ShaderForm => ReceiveShader(b)
    case ArraysForm => ReceiveDrawArrays(b)
    case ElementsForm => ReceiveDrawElements(b)
    case BufferForm => ReceiveBufferData(b)
    case EmptyForm => Got(Unused(cmd), b)
    case NoForm => More
  }

  /** One turn of the dispatch loop: the command id, then what its handler receives. Commands outside
      this model are never got. */
  function Receive(b: seq<byte>): Got<Request> {
    var (cmd, b1) :- Word(b);
    if HandlerForm(cmd) == EmptyForm then Got(Unused(cmd), b1)
    else
      var (callId, b2) :- Word(b1);
      ReceiveBody(cmd, b2)
  }

  // ---------------------------------------------------------------- more bytes behind a request

  lemma AttribMore(b: seq<byte>, count: u32, bound: bool, tail: seq<byte>)
    requires ReceiveAttrib(b, count, bound).Got?
    ensures ReceiveAttrib(b + tail, count, bound) == ReceiveAttrib(b, count, bound).Then(tail)
  {
    TakeMore(b, HEAD_SIZE, tail);
    var head := Take(b, HEAD_SIZE);
    if !bound { ReadMore(head.rest, DataSize(count, bound, DecodeHead(head.value)), tail); }
  }

  lemma AttribsStep(b: seq<byte>, n: nat, count: u32, bound: bool, a: SentAttrib, b1: seq<byte>,
                    others: seq<SentAttrib>, b2: seq<byte>)
    requires n > 0 && ReceiveAttrib(b, count, bound) == Got(a, b1)
    requires ReceiveAttribs(b1, n - 1, count, bound) == Got(others, b2)
    ensures ReceiveAttribs(b, n, count, bound) == Got([a] + others, b2)
  {
  }

  lemma NoAttribs(b: seq<byte>, count: u32, bound: bool)
    ensures ReceiveAttribs(b, 0, count, bound) == Got([], b)
  {
  }

  lemma AttribsSplit(b: seq<byte>, n: nat, count: u32, bound: bool)
    returns (head: Got<SentAttrib>, others: Got<seq<SentAttrib>>)
    requires n > 0 && ReceiveAttribs(b, n, count, bound).Got?
    ensures head == ReceiveAttrib(b, count, bound) && head.Got?
    ensures others == ReceiveAttribs(head.rest, n - 1, count, bound) && others.Got?
    ensures ReceiveAttribs(b, n, count, bound) == Got([head.value] + others.value, others.rest)
  {
    hide ReceiveAttrib;
    head := ReceiveAttrib(b, count, bound);
    others := ReceiveAttribs(head.rest, n - 1, count, bound);
  }

  lemma {:induction false} AttribsMore(b: seq<byte>, n: nat, count: u32, bound: bool, tail: seq<byte>)
    requires ReceiveAttribs(b, n, count, bound).Got?
    ensures ReceiveAttribs(b + tail, n, count, bound) == ReceiveAttribs(b, n, count, bound).Then(tail)
    decreases n
  {
    hide ReceiveAttrib, ReceiveAttribs;
    if n == 0 {
      NoAttribs(b, count, bound);
      NoAttribs(b + tail, count, bound);
    } else {
      var head, others := AttribsSplit(b, n, count, bound);
      AttribMore(b, count, bound, tail);
      AttribsMore(head.rest, n - 1, count, bound, tail);
      AttribsStep(b + tail, n, count, bound, head.value, head.rest + tail, others.value, others.rest + tail);
    }
  }

  lemma ArraysMore(b: seq<byte>, tail: seq<byte>)
    requires ReceiveArrays(b).Got?
    ensures ReceiveArrays(b + tail) == ReceiveArrays(b).Then(tail)
  {
    WordsMore(b, tail);
    var Got((numAttribs, count, bound), b3) := Words(b);
    AttribsMore(b3, Times(numAttribs), count, bound != 0, tail);
  }

  lemma {:induction false} StringsMore(b: seq<byte>, n: nat, tail: seq<byte>)
    requires ReceiveStrings(b, n).Got?
    ensures ReceiveStrings(b + tail, n) == ReceiveStrings(b, n).Then(tail)
    decreases n
  {
    if n > 0 {
      VarSizeMore(b, tail);
      StringsMore(VarSize(b).rest, n - 1, tail);
    }
  }

  lemma StringsStep(b: seq<byte>, n: nat, s: seq<byte>, b1: seq<byte>, others: seq<seq<byte>>, b2: seq<byte>)
    requires n > 0 && VarSize(b) == Got(s, b1) && ReceiveStrings(b1, n - 1) == Got(others, b2)
    ensures ReceiveStrings(b, n) == Got([s] + others, b2)
  {
  }

  lemma LengthsMore(b: seq<byte>, passingType: u32, tail: seq<byte>)
    requires ReceiveLengths(b, passingType).Got?
    ensures ReceiveLengths(b + tail, passingType) == ReceiveLengths(b, passingType).Then(tail)
  {
    if passingType == 1 { VarSizeMore(b, tail); }
  }

  lemma ShaderMore(b: seq<byte>, tail: seq<byte>)
    requires ReceiveShader(b).Got?
    ensures ReceiveShader(b + tail) == ReceiveShader(b).Then(tail)
  {
    WordsMore(b, tail);
    var Got((shader, count, passingType), b3) := Words(b);
    LengthsMore(b3, passingType, tail);
    StringsMore(ReceiveLengths(b3, passingType).rest, Times(count), tail);
  }

  lemma DrawArraysMore(b: seq<byte>, tail: seq<byte>)
    requires ReceiveDrawArrays(b).Got?
    ensures ReceiveDrawArrays(b + tail) == ReceiveDrawArrays(b).Then(tail)
  {
    WordsMore(b, tail);
    ArraysMore(Words(b).rest, tail);
  }

  lemma DrawElementsMore(b: seq<byte>, tail: seq<byte>)
    requires ReceiveDrawElements(b).Got?
    ensures ReceiveDrawElements(b + tail) == ReceiveDrawElements(b).Then(tail)
  {
    WordsMore(b, tail);
    var b3 := Words(b).rest;
    VarSizeMore(b3, tail);
    ArraysMore(VarSize(b3).rest, tail);
  }

  lemma BufferDataMore(b: seq<byte>, tail: seq<byte>)
    requires ReceiveBufferData(b).Got?
    ensures ReceiveBufferData(b + tail) == ReceiveBufferData(b).Then(tail)
  {
    WordMore(b, tail);
    var b1 := Word(b).rest;
    VarSizeMore(b1, tail);
    WordMore(VarSize(b1).rest, tail);
  }

  lemma BodyMore(cmd: u32, b: seq<byte>, tail: seq<byte>)
    requires ReceiveBody(cmd, b).Got?
    ensures ReceiveBody(cmd, b + tail) == ReceiveBody(cmd, b).Then(tail)
  {
    match HandlerForm(cmd)
    case PlainForm(n) => TakeMore(b, n, tail);
    case DataForm(n) =>
      TakeMore(b, n, tail);
      VarSizeMore(Take(b, n).rest, tail);
    case ShaderForm => ShaderMore(b, tail);
    case ArraysForm => DrawArraysMore(b, tail);
    case ElementsForm => DrawElementsMore(b, tail);
    case BufferForm => BufferDataMore(b, tail);
    case _ =>
  }

  /** A handler never looks past its request: more bytes behind it change nothing. */
  lemma ReceiveMore(b: seq<byte>, tail: seq<byte>)
    requires Receive(b).Got?
    ensures Receive(b + tail) == Receive(b).Then(tail)
  {
    WordMore(b, tail);
    var cmd, b1 := Word(b).value, Word(b).rest;
    if HandlerForm(cmd) != EmptyForm {
      WordMore(b1, tail);
      BodyMore(cmd, Word(b1).rest, tail);
    }
  }
}
