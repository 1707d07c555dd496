/** The serving side: what the handlers of received requests ask of the real GL, whose vertex arrays
    stay specified and enabled from one draw to the next, and what they answer. */
module GlesServer {
  import opened Bytes
  import opened Serializer
  import opened VertexArrays
  import opened GlesWire
  import opened GlesFrames

  datatype Format = Format(size: u32, kind: u32, normalized: byte)

  /** What a draw finds in an enabled array: bytes for each element drawn, or a place in the bound buffer,
      or what an earlier draw left there, of whose contents nothing is said. */
  datatype Source = Fetched(elements: seq<seq<byte>>) | InBuffer(stride: i32, offset: u64) | Stale

  datatype Seen = Seen(format: Format, source: Source)

  /** What GL is asked to do. A draw sees every array enabled in GL, by number. One from a bound buffer
      depends on its contents, and so names the elements it draws. */
  datatype GlCommand =
    | Invoke(cmd: u32, args: seq<byte>, data: seq<byte>)
    | SetSource(shader: u32, count: u32, texts: seq<seq<byte>>)
    | Upload(target: u32, data: seq<byte>, usage: u32)
    | Draw(cmd: u32, mode: u32, count: u32, seen: map<u32, Seen>)
    | DrawBound(cmd: u32, mode: u32, count: u32, elements: seq<int>, seen: map<u32, Seen>)
    | Nothing

  // ---------------------------------------------------------------- vertex arrays

  function FormatOf(s: SentAttrib): Format {
    Format(s.size, s.kind, s.normalized)
  }

  lemma ElementRange(e: nat, size: nat)
    ensures 0 <= e * size <= (e + 1) * size == e * size + size
  {
  }

  /** Element `e` of a received array, which GL reads tightly packed; empty if it was not received. */
  function ReceivedElement(s: SentAttrib, e: int): seq<byte> {
    var size := Times(s.size) * SizeByType(s.kind);
    if e < 0 then []
    else
      ElementRange(e, size);
      if (e + 1) * size <= |s.data| then s.data[e * size..(e + 1) * size] else []
  }

  function SeenIn(s: SentAttrib, elements: seq<int>): Seen {
    Seen(FormatOf(s), Fetched(seq(|elements|, i requires 0 <= i < |elements| => ReceivedElement(s, elements[i]))))
  }

  /** What was received for each array; of two with the same number the later one counts. */
  function LastSent(sent: seq<SentAttrib>): map<u32, SentAttrib> {
    if sent == [] then map[] else LastSent(sent[..|sent| - 1])[sent[|sent| - 1].index := sent[|sent| - 1]]
  }

  /** The arrays received for this draw. */
  function SeenNow(sent: seq<SentAttrib>, elements: seq<int>): map<u32, Seen> {
    var last := LastSent(sent);
    map i | i in last :: SeenIn(last[i], elements)
  }

  /** The same with a buffer bound. */
  function InBufferNow(sent: seq<SentAttrib>): map<u32, Seen> {
    var last := LastSent(sent);
    map i | i in last :: Seen(FormatOf(last[i]), InBuffer(Signed(last[i].stride), last[i].ptr))
  }

  /** The arrays enabled before it. */
  function StaleIn(formats: map<u32, Format>): map<u32, Seen> {
    map i | i in formats :: Seen(formats[i], Stale)
  }

  /** All arrays enabled when it draws. */
  function AllSeen(formats: map<u32, Format>, sent: seq<SentAttrib>, elements: seq<int>): map<u32, Seen> {
    StaleIn(formats) + SeenNow(sent, elements)
  }

  /** The enabled arrays afterwards: no handler ever disables one. */
  function Specify(formats: map<u32, Format>, sent: seq<SentAttrib>): map<u32, Format> {
    var last := LastSent(sent);
    formats + map i | i in last :: FormatOf(last[i])
  }

  function Numbers(base: int, n: nat): seq<int> {
    seq(n, i requires 0 <= i < n => base + i)
  }

  /** An index as GL reads it from the index array. */
  function ElementAt(kind: u32, indices: seq<byte>, i: nat): nat {
    if IndexType(kind) && (i + 1) * SizeByType(kind) <= |indices| then IndexAt(kind, indices, i) else 0
  }

  function ElementList(kind: u32, indices: seq<byte>, n: nat): seq<int> {
    seq(n, i requires 0 <= i < n => ElementAt(kind, indices, i))
  }

  // ---------------------------------------------------------------- shader sources

  function UpToNul(b: seq<byte>): seq<byte> {
    if b == [] || b[0] == 0 then [] else [b[0]] + UpToNul(b[1..])
  }

  /** How GL reads a string: up to its NUL, or as many characters as its length says. */
  function TextRead(b: seq<byte>, length: i32): seq<byte> {
    if length < 0 then UpToNul(b) else if length <= |b| then b[..length] else b
  }

  /** The length GL is given for string `i`; no lengths are as good as negative ones. */
  function LengthReceived(lengths: Option<seq<byte>>, i: nat): i32 {
    if lengths.None? || |lengths.value| < 4 * i + 4 then -1
    else Signed(DecodeU32(lengths.value[4 * i..4 * i + 4]))
  }

  function ReceivedTexts(lengths: Option<seq<byte>>, strings: seq<seq<byte>>): (r: seq<seq<byte>>)
    ensures |r| == |strings|
  {
    seq(|strings|, i requires 0 <= i < |strings| => TextRead(strings[i], LengthReceived(lengths, i)))
  }

  // ---------------------------------------------------------------- handlers

  /** What the handler of a request asks of the real GL, with `formats` the arrays enabled before. */
  function Observed(formats: map<u32, Format>, r: Request): GlCommand {
    match r
    case Plain(cmd, args) => Invoke(cmd, args, [])
    case WithData(cmd, args, data) => Invoke(cmd, args, data)
    case ShaderSource(shader, count, lengths, strings) => SetSource(shader, count, ReceivedTexts(lengths, strings))
    case BufferData(target, data, usage) => Upload(target, data, usage)
    case DrawArrays(mode, first, count, arrays) =>
      if arrays.bound then
        DrawBound(DRAWARRAYS, mode, count, Numbers(Signed(first), Times(count)),
                  StaleIn(formats) + InBufferNow(arrays.attribs))
      else Draw(DRAWARRAYS, mode, count, AllSeen(formats, arrays.attribs, Numbers(0, Times(count))))
    case DrawElements(mode, count, kind, indices, arrays) =>
      if arrays.bound then
        DrawBound(DRAWELEMENTS, mode, count, ElementList(kind, indices, Times(count)),
                  StaleIn(formats) + InBufferNow(arrays.attribs))
      else Draw(DRAWELEMENTS, mode, count, AllSeen(formats, arrays.attribs, ElementList(kind, indices, Times(count))))
    case Unused(_) => Nothing
  }

  function FormatsAfter(formats: map<u32, Format>, r: Request): map<u32, Format> {
    if r.DrawArrays? || r.DrawElements? then Specify(formats, r.arrays.attribs) else formats
  }

  // ---------------------------------------------------------------- replies

  /** glGenTextures and glGenBuffers. */
  predicate Generates(cmd: u32) {
    cmd == 0x42 || cmd == 0x4c
  }

  predicate ReturnsValue(cmd: u32) {
    Generates(cmd) || cmd == 0x2b || cmd == 0x2e || cmd == 0x31 || cmd == 0x35 || cmd == 0x3f || cmd == 0x40
    || cmd == 0x49 || cmd == 0x4a
  }

  /** A received request with a reply: one of those commands, in the form in which it is received. */
  predicate Answers(r: Request) {
    (r.Plain? || r.WithData?) && ReturnsValue(r.cmd) && HandlerForm(r.cmd) == FormOf(r)
  }

  /** How much the handler sends: as many names as asked for, of a negative number a huge size, nothing
      for glFinish, else one word. */
  function ReplyLength(cmd: u32, args: seq<byte>): nat {
    if Generates(cmd) then
      if |args| != 4 then 0
      else if DecodeU32(args) < 0x8000_0000 then 4 * DecodeU32(args)
      else U64_LIMIT - 4 * (U32_LIMIT - DecodeU32(args))
    else if cmd == 0x40 then 0
    else 4
  }

  /** Every handler replies exactly to the requests whose stub waits for it, with as much as it receives. */
  lemma RepliesAsAwaited(r: Request)
    requires HandlerForm(Command(r)) == FormOf(r)
    ensures StubReceives(r) == if Answers(r) then Some(ReplyLength(r.cmd, r.args)) else None
  {
  }

  /** The real GL: a deterministic step on its state, with the value returned. */
  type Gl<!G> = (G, GlCommand) -> (G, seq<byte>)

  function Perform<G>(gl: Gl<G>, g: G, c: GlCommand): (G, seq<byte>) {
    if c == Nothing then (g, []) else gl(g, c)
  }

  /** What GL returns has the type its caller knows. */
  ghost predicate GoodGl<G(!new)>(gl: Gl<G>) {
    forall g: G, r: Request :: Answers(r) ==> |gl(g, Observed(map[], r)).1| == ReplyLength(r.cmd, r.args)
  }

  /** A GL that returns zeros, to see that there is one. */
  function Zeros<G>(): Gl<G> {
    (g: G, c: GlCommand) => (g, if c.Invoke? then seq(ReplyLength(c.cmd, c.args), _ => 0) else [])
  }

  lemma SomeGlIsGood<G(!new)>()
    ensures GoodGl<G>(Zeros())
  {
  }
}
