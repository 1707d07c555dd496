/** The bytes the client stubs send, and that the handlers receive exactly those. */
module GlesFrames {
  import opened Bytes
  import opened Serializer
  import opened Wire
  import opened VertexArrays
  import opened GlesWire

  function HeadBytes(a: SentAttrib): seq<byte> {
    EncodeU32(a.index) + EncodeU32(a.size) + EncodeU32(a.kind) + [a.normalized] + EncodeU32(a.stride) + EncodeU64(a.ptr)
  }

  function AttribBytes(a: SentAttrib): seq<byte> {
    HeadBytes(a) + a.data
  }

  function AttribsBytes(attribs: seq<SentAttrib>): seq<byte> {
    if attribs == [] then [] else AttribBytes(attribs[0]) + AttribsBytes(attribs[1..])
  }

  function ArraysBytes(s: SentArrays): seq<byte>
    requires |s.attribs| < U32_LIMIT
  {
    EncodeU32(|s.attribs|) + (EncodeU32(s.count) + (EncodeU32(if s.bound then 1 else 0) + AttribsBytes(s.attribs)))
  }

  function StringsBytes(strings: seq<seq<byte>>): seq<byte>
    requires forall i :: 0 <= i < |strings| ==> |strings[i]| < U64_LIMIT
  {
    if strings == [] then [] else EncodeVar(strings[0]) + StringsBytes(strings[1..])
  }

  /** An attribute carries as much data as the server will receive for it. */
  predicate Fits(a: SentAttrib, count: u32, bound: bool) {
    |a.data| == DataSize(count, bound, a) && (bound || KnownType(a.kind))
  }

  predicate AllFit(attribs: seq<SentAttrib>, count: u32, bound: bool) {
    forall i :: 0 <= i < |attribs| ==> Fits(attribs[i], count, bound)
  }

  /** Lengths and counts fit the integers that carry them. */
  predicate Encodable(r: Request) {
    match r
    case Plain(_, _) => true
    case WithData(_, _, data) => |data| < U64_LIMIT
    case ShaderSource(_, count, lengths, strings) =>
      && (lengths.Some? ==> |lengths.value| < U64_LIMIT)
      && |strings| == Times(count)
      && (forall i :: 0 <= i < |strings| ==> |strings[i]| < U64_LIMIT)
    case DrawArrays(_, _, _, arrays) => |arrays.attribs| < 0x8000_0000
    case DrawElements(_, _, _, indices, arrays) => |indices| < U64_LIMIT && |arrays.attribs| < 0x8000_0000
    case BufferData(_, data, _) => |data| < U64_LIMIT
    case Unused(_) => true
  }

  /** And what is sent is what the handler is going to receive. */
  predicate Sendable(r: Request) {
    && Encodable(r)
    && match r
       case Plain(cmd, args) => StubForm(cmd) == PlainForm(|args|)
       case WithData(cmd, args, _) => StubForm(cmd) == DataForm(|args|)
       case DrawArrays(_, _, _, arrays) => AllFit(arrays.attribs, arrays.count, arrays.bound)
       case DrawElements(_, _, _, _, arrays) => AllFit(arrays.attribs, arrays.count, arrays.bound)
       case Unused(_) => false
       case _ => true
  }

  /** The last read of a draw is not an empty one. */
  predicate EndsInData(attribs: seq<SentAttrib>, bound: bool) {
    bound || attribs == [] || attribs[|attribs| - 1].data != []
  }

  /** The handler returns on the frame alone: it does not end in an empty read, which would wait for
      the first byte of the next request. */
  predicate Complete(r: Request) {
    r.DrawArrays? || r.DrawElements? ==> EndsInData(r.arrays.attribs, r.arrays.bound)
  }

  predicate SendableArrays(s: SentArrays) {
    |s.attribs| < 0x8000_0000 && AllFit(s.attribs, s.count, s.bound)
  }

  function Command(r: Request): u32 {
    match r
    case Plain(cmd, _) => cmd
    case WithData(cmd, _, _) => cmd
    case ShaderSource(_, _, _, _) => SHADERSOURCE
    case DrawArrays(_, _, _, _) => DRAWARRAYS
    case DrawElements(_, _, _, _, _) => DRAWELEMENTS
    case BufferData(_, _, _) => BUFFERDATA
    case Unused(cmd) => cmd
  }

  function Body(r: Request): seq<byte>
    requires Encodable(r)
  {
    match r
    case Plain(_, args) => args
    case WithData(_, args, data) => args + EncodeVar(data)
    case ShaderSource(shader, count, lengths, strings) =>
      EncodeU32(shader) + (EncodeU32(count) + (EncodeU32(if lengths.Some? then 1 else 0) +
        (LengthsBytes(lengths) + StringsBytes(strings))))
    case DrawArrays(mode, first, count, arrays) =>
      EncodeU32(mode) + (EncodeU32(first) + (EncodeU32(count) + ArraysBytes(arrays)))
    case DrawElements(mode, count, kind, indices, arrays) =>
      EncodeU32(mode) + (EncodeU32(count) + (EncodeU32(kind) + (EncodeVar(indices) + ArraysBytes(arrays))))
    case BufferData(target, data, usage) => EncodeU32(target) + (EncodeVar(data) + EncodeU32(usage))
    case Unused(_) => []
  }

  function Frame(id: u32, r: Request): seq<byte>
    requires Encodable(r)
  {
    EncodeU32(Command(r)) + (EncodeU32(id) + Body(r))
  }

  // ---------------------------------------------------------------- received as sent

  lemma HeadRoundTrip(a: SentAttrib)
    ensures |HeadBytes(a)| == HEAD_SIZE && DecodeHead(HeadBytes(a)) == a.(data := [])
  {
    var h := HeadBytes(a);
    assert h[0..4] == EncodeU32(a.index);
    assert h[4..8] == EncodeU32(a.size);
    assert h[8..12] == EncodeU32(a.kind);
    assert h[13..17] == EncodeU32(a.stride);
    assert h[17..25] == EncodeU64(a.ptr);
    U32RoundTrip(a.index);
    U32RoundTrip(a.size);
    U32RoundTrip(a.kind);
    U32RoundTrip(a.stride);
    U64RoundTrip(a.ptr);
  }

  lemma ReceivesAttrib(a: SentAttrib, count: u32, bound: bool, rest: seq<byte>)
    requires Fits(a, count, bound) && (bound || a.data + rest != [])
    ensures ReceiveAttrib(AttribBytes(a) + rest, count, bound) == Got(a, rest)
  {
    HeadRoundTrip(a);
    Assoc(HeadBytes(a), a.data, rest);
    TakesFront(HeadBytes(a), a.data + rest);
    TakesFront(a.data, rest);
  }

  lemma {:induction false} ReceivesAttribs(attribs: seq<SentAttrib>, count: u32, bound: bool, rest: seq<byte>)
    requires AllFit(attribs, count, bound) && (rest != [] || EndsInData(attribs, bound))
    ensures ReceiveAttribs(AttribsBytes(attribs) + rest, |attribs|, count, bound) == Got(attribs, rest)
    decreases |attribs|
  {
    hide ReceiveAttrib, ReceiveAttribs, AttribBytes;
    if attribs == [] {
      NoAttribs(rest, count, bound);
      assert AttribsBytes(attribs) + rest == rest;
    } else {
      var others := attribs[1..];
      ReceivesAttribs(others, count, bound, rest);
      if others != [] { SomethingSent(others); }
      ReceivesOneMore(attribs[0], others, AttribsBytes(others), |attribs|, count, bound, rest);
      assert [attribs[0]] + others == attribs;
    }
  }

  lemma SomethingSent(attribs: seq<SentAttrib>)
    requires attribs != []
    ensures AttribsBytes(attribs) != []
  {
    HeadRoundTrip(attribs[0]);
  }

  lemma ReceivesOneMore(a: SentAttrib, others: seq<SentAttrib>, bytes: seq<byte>, n: nat,
                        count: u32, bound: bool, rest: seq<byte>)
    requires n > 0 && Fits(a, count, bound) && (bound || a.data != [] || bytes != [] || rest != [])
    requires ReceiveAttribs(bytes + rest, n - 1, count, bound) == Got(others, rest)
    ensures ReceiveAttribs((AttribBytes(a) + bytes) + rest, n, count, bound) == Got([a] + others, rest)
  {
    hide ReceiveAttrib, ReceiveAttribs, AttribBytes;
    Assoc(AttribBytes(a), bytes, rest);
    ReceivesAttrib(a, count, bound, bytes + rest);
    AttribsStep(AttribBytes(a) + (bytes + rest), n, count, bound, a, bytes + rest, others, rest);
  }

  lemma ReceivesArrays(s: SentArrays, rest: seq<byte>)
    requires SendableArrays(s) && (rest != [] || EndsInData(s.attribs, s.bound))
    ensures ReceiveArrays(ArraysBytes(s) + rest) == Got(s, rest)
  {
    var flag: u32 := if s.bound then 1 else 0;
    ReadsWords(|s.attribs|, s.count, flag, AttribsBytes(s.attribs) + rest);
    ReceivesAttribs(s.attribs, s.count, s.bound, rest);
    AssocWords(EncodeU32(|s.attribs|), EncodeU32(s.count), EncodeU32(flag), AttribsBytes(s.attribs), rest);
  }

  lemma AssocWords(x: seq<byte>, y: seq<byte>, z: seq<byte>, tail: seq<byte>, rest: seq<byte>)
    ensures (x + (y + (z + tail))) + rest == x + (y + (z + (tail + rest)))
  {
  }

  lemma StringsFront(strings: seq<seq<byte>>, rest: seq<byte>)
    requires strings != [] && forall i :: 0 <= i < |strings| ==> |strings[i]| < U64_LIMIT
    ensures StringsBytes(strings) + rest == EncodeVar(strings[0]) + (StringsBytes(strings[1..]) + rest)
  {
    Assoc(EncodeVar(strings[0]), StringsBytes(strings[1..]), rest);
  }

  lemma {:induction false} ReceivesStrings(strings: seq<seq<byte>>, rest: seq<byte>)
    requires forall i :: 0 <= i < |strings| ==> |strings[i]| < U64_LIMIT
    ensures ReceiveStrings(StringsBytes(strings) + rest, |strings|) == Got(strings, rest)
    decreases |strings|
  {
    if strings == [] {
      assert StringsBytes(strings) + rest == rest;
    } else {
      var s, others := strings[0], strings[1..];
      var tail := StringsBytes(others) + rest;
      ReceivesStrings(others, rest);
      ReceivesVar(s, tail);
      StringsFront(strings, rest);
      StringsStep(StringsBytes(strings) + rest, |strings|, s, tail, others, rest);
      assert [s] + others == strings;
    }
  }

  lemma ReceivesVar(data: seq<byte>, rest: seq<byte>)
    requires |data| < U64_LIMIT
    ensures VarSize(EncodeVar(data) + rest) == Got(data, rest)
  {
    ReadsVarSize(data, rest);
    Assoc(EncodeU64(|data|), data, rest);
  }

  function LengthsBytes(lengths: Option<seq<byte>>): seq<byte>
    requires lengths.Some? ==> |lengths.value| < U64_LIMIT
  {
    match lengths
    case None => []
    case Some(l) => EncodeVar(l)
  }

  lemma ReceivesLengths(lengths: Option<seq<byte>>, rest: seq<byte>)
    requires lengths.Some? ==> |lengths.value| < U64_LIMIT
    ensures ReceiveLengths(LengthsBytes(lengths) + rest, if lengths.Some? then 1 else 0) == Got(lengths, rest)
  {
    match lengths
    case None => assert [] + rest == rest;
    case Some(l) => ReceivesVar(l, rest);
  }

  lemma ReceivesShader(shader: u32, count: u32, lengths: Option<seq<byte>>, strings: seq<seq<byte>>, rest: seq<byte>)
    requires Sendable(ShaderSource(shader, count, lengths, strings))
    ensures ReceiveShader(Body(ShaderSource(shader, count, lengths, strings)) + rest)
         == Got(ShaderSource(shader, count, lengths, strings), rest)
  {
    hide ReceiveLengths, ReceiveStrings, StringsBytes, LengthsBytes, Word;
    var flag: u32 := if lengths.Some? then 1 else 0;
    var b5 := StringsBytes(strings) + rest;
    ReadsWords(shader, count, flag, LengthsBytes(lengths) + b5);
    ReceivesLengths(lengths, b5);
    ReceivesStrings(strings, rest);
    Assoc(LengthsBytes(lengths), StringsBytes(strings), rest);
    AssocWords(EncodeU32(shader), EncodeU32(count), EncodeU32(flag), LengthsBytes(lengths) + StringsBytes(strings),
               rest);
  }

  lemma ReceivesDrawArrays(mode: u32, first: u32, count: u32, arrays: SentArrays, rest: seq<byte>)
    requires SendableArrays(arrays) && (rest != [] || EndsInData(arrays.attribs, arrays.bound))
    ensures ReceiveDrawArrays(Body(DrawArrays(mode, first, count, arrays)) + rest)
         == Got(DrawArrays(mode, first, count, arrays), rest)
  {
    hide ReceiveArrays, ArraysBytes, Word;
    ReadsWords(mode, first, count, ArraysBytes(arrays) + rest);
    ReceivesArrays(arrays, rest);
    AssocWords(EncodeU32(mode), EncodeU32(first), EncodeU32(count), ArraysBytes(arrays), rest);
  }

  lemma ReceivesDrawElements(mode: u32, count: u32, kind: u32, indices: seq<byte>, arrays: SentArrays, rest: seq<byte>)
    requires SendableArrays(arrays) && |indices| < U64_LIMIT
    requires rest != [] || EndsInData(arrays.attribs, arrays.bound)
    ensures ReceiveDrawElements(Body(DrawElements(mode, count, kind, indices, arrays)) + rest)
         == Got(DrawElements(mode, count, kind, indices, arrays), rest)
  {
    hide ReceiveArrays, VarSize, ArraysBytes, EncodeVar, ReceiveDrawElements;
    ReceivesVar(indices, ArraysBytes(arrays) + rest);
    ReceivesArrays(arrays, rest);
    ReceivesElements(mode, count, kind, EncodeVar(indices), indices, ArraysBytes(arrays), arrays, rest);
  }

  lemma ReceivesElements(mode: u32, count: u32, kind: u32, field: seq<byte>, indices: seq<byte>, bytes: seq<byte>,
                         arrays: SentArrays, rest: seq<byte>)
    requires VarSize(field + (bytes + rest)) == Got(indices, bytes + rest)
    requires ReceiveArrays(bytes + rest) == Got(arrays, rest)
    ensures ReceiveDrawElements((EncodeU32(mode) + (EncodeU32(count) + (EncodeU32(kind) + (field + bytes)))) + rest)
         == Got(DrawElements(mode, count, kind, indices, arrays), rest)
  {
    AssocWords(EncodeU32(mode), EncodeU32(count), EncodeU32(kind), field + bytes, rest);
    Assoc(field, bytes, rest);
    ReadsWords(mode, count, kind, field + (bytes + rest));
  }

  lemma ReceivesBufferData(target: u32, data: seq<byte>, usage: u32, rest: seq<byte>)
    requires |data| < U64_LIMIT
    ensures ReceiveBufferData(Body(BufferData(target, data, usage)) + rest)
         == Got(BufferData(target, data, usage), rest)
  {
    hide Word, VarSize, EncodeU32, EncodeVar;
    var b2 := EncodeU32(usage) + rest;
    var b1 := EncodeVar(data) + b2;
    ReadsWord(target, b1);
    ReceivesVar(data, b2);
    ReadsWord(usage, rest);
    assert Body(BufferData(target, data, usage)) + rest == EncodeU32(target) + b1;
  }

  /** The form a request is received in. */
  function FormOf(r: Request): Form {
    match r
    case Plain(_, args) => PlainForm(|args|)
    case WithData(_, args, _) => DataForm(|args|)
    case ShaderSource(_, _, _, _) => ShaderForm
    case DrawArrays(_, _, _, _) => ArraysForm
    case DrawElements(_, _, _, _, _) => ElementsForm
    case BufferData(_, _, _) => BufferForm
    case Unused(_) => EmptyForm
  }

  lemma HandledInForm(r: Request)
    requires Sendable(r)
    ensures HandlerForm(Command(r)) == FormOf(r)
  {
    hide AllFit, HandlerForm;
    FormsAgree(Command(r));
  }

  lemma ReceivesBody(r: Request, rest: seq<byte>)
    requires Sendable(r) && (rest != [] || Complete(r))
    ensures HandlerForm(Command(r)) != EmptyForm && ReceiveBody(Command(r), Body(r) + rest) == Got(r, rest)
  {
    hide ReceiveShader, ReceiveDrawArrays, ReceiveDrawElements, ReceiveBufferData, VarSize, EncodeVar, HandlerForm,
      StubForm;
    HandledInForm(r);
    match r
    case Plain(_, args) => TakesFront(args, rest);
    case WithData(_, args, data) =>
      Assoc(args, EncodeVar(data), rest);
      TakesFront(args, EncodeVar(data) + rest);
      ReceivesVar(data, rest);
    case ShaderSource(shader, count, lengths, strings) => ReceivesShader(shader, count, lengths, strings, rest);
    case DrawArrays(mode, first, count, arrays) => ReceivesDrawArrays(mode, first, count, arrays, rest);
    case DrawElements(mode, count, kind, indices, arrays) =>
      ReceivesDrawElements(mode, count, kind, indices, arrays, rest);
    case BufferData(target, data, usage) => ReceivesBufferData(target, data, usage, rest);
  }

  /** The handler of a request gets exactly what its stub sent, and the next read starts at the next
      command id, whatever the number of strings, attributes or vertices. */
  lemma ReceivesFrame(id: u32, r: Request, rest: seq<byte>)
    requires Sendable(r) && (rest != [] || Complete(r))
    ensures Receive(Frame(id, r) + rest) == Got(r, rest)
  {
    ReceivesBody(r, rest);
    ReceivesBehindIds(Command(r), id, Body(r), r, rest);
  }

  lemma ReceivesBehindIds(cmd: u32, id: u32, body: seq<byte>, r: Request, rest: seq<byte>)
    requires HandlerForm(cmd) != EmptyForm && ReceiveBody(cmd, body + rest) == Got(r, rest)
    ensures Receive((EncodeU32(cmd) + (EncodeU32(id) + body)) + rest) == Got(r, rest)
  {
    hide ReceiveBody, HandlerForm, Word, EncodeU32;
    assert (EncodeU32(cmd) + (EncodeU32(id) + body)) + rest == EncodeU32(cmd) + (EncodeU32(id) + (body + rest));
    ReadsWord(cmd, EncodeU32(id) + (body + rest));
    ReadsWord(id, body + rest);
  }

  lemma FitSplit(a: SentAttrib, others: seq<SentAttrib>, count: u32, bound: bool)
    ensures AllFit([a] + others, count, bound) <==> Fits(a, count, bound) && AllFit(others, count, bound)
  {
    var all := [a] + others;
    assert all[0] == a;
    assert forall i :: 0 <= i < |others| ==> all[i + 1] == others[i];
  }

  lemma ReceivedFits(b: seq<byte>, count: u32, bound: bool)
    requires ReceiveAttrib(b, count, bound).Got?
    ensures Fits(ReceiveAttrib(b, count, bound).value, count, bound)
  {
  }

  lemma {:induction false} ReceivedAllFit(b: seq<byte>, n: nat, count: u32, bound: bool)
    requires ReceiveAttribs(b, n, count, bound).Got?
    ensures AllFit(ReceiveAttribs(b, n, count, bound).value, count, bound)
    decreases n
  {
    hide Fits, ReceiveAttrib, ReceiveAttribs;
    if n == 0 {
      NoAttribs(b, count, bound);
    } else {
      var head, others := AttribsSplit(b, n, count, bound);
      ReceivedFits(b, count, bound);
      ReceivedAllFit(head.rest, n - 1, count, bound);
      FitSplit(head.value, others.value, count, bound);
    }
  }

  lemma {:induction false} ReceivedEndsInData(b: seq<byte>, n: nat, count: u32, bound: bool)
    requires ReceiveAttribs(b, n, count, bound).Got? && ReceiveAttribs(b, n, count, bound).rest == []
    ensures EndsInData(ReceiveAttribs(b, n, count, bound).value, bound)
    decreases n
  {
    hide ReceiveAttrib, ReceiveAttribs;
    if n == 0 {
      NoAttribs(b, count, bound);
    } else {
      var head, others := AttribsSplit(b, n, count, bound);
      ReceivedEndsInData(head.rest, n - 1, count, bound);
      if n == 1 {
        NoAttribs(head.rest, count, bound);
        if !bound { LastReadSomething(b, count); }
      } else {
        AsMany(head.rest, n - 1, count, bound);
      }
    }
  }

  lemma LastReadSomething(b: seq<byte>, count: u32)
    requires ReceiveAttrib(b, count, false).Got? && ReceiveAttrib(b, count, false).rest == []
    ensures ReceiveAttrib(b, count, false).value.data != []
  {
  }

  lemma {:induction false} AsMany(b: seq<byte>, n: nat, count: u32, bound: bool)
    requires ReceiveAttribs(b, n, count, bound).Got?
    ensures |ReceiveAttribs(b, n, count, bound).value| == n
    decreases n
  {
    hide ReceiveAttrib;
    if n > 0 {
      AsMany(ReceiveAttrib(b, count, bound).rest, n - 1, count, bound);
    }
  }

  lemma ReceivedArraysFit(b: seq<byte>)
    requires ReceiveArrays(b).Got?
    ensures var s := ReceiveArrays(b).value;
            && AllFit(s.attribs, s.count, s.bound)
            && (ReceiveArrays(b).rest == [] ==> EndsInData(s.attribs, s.bound))
  {
    hide AllFit, Word, EndsInData, ReceiveAttribs;
    var Got((numAttribs, count, bound), b3) := Words(b);
    ReceivedAllFit(b3, Times(numAttribs), count, bound != 0);
    if ReceiveArrays(b).rest == [] { ReceivedEndsInData(b3, Times(numAttribs), count, bound != 0); }
  }

  lemma ReceivedDrawFits(cmd: u32, b: seq<byte>)
    requires ReceiveBody(cmd, b).Got?
    ensures var r := ReceiveBody(cmd, b).value;
            r.DrawArrays? || r.DrawElements? ==>
              && AllFit(r.arrays.attribs, r.arrays.count, r.arrays.bound)
              && (ReceiveBody(cmd, b).rest == [] ==> EndsInData(r.arrays.attribs, r.arrays.bound))
  {
    hide AllFit, EndsInData, Words, VarSize, ReceiveArrays;
    match HandlerForm(cmd)
    case ArraysForm => ReceivedArraysFit(Words(b).rest);
    case ElementsForm => ReceivedArraysFit(VarSize(Words(b).rest).rest);
    case _ =>
  }

  /** The sizes of the blocks are defined. */
  predicate KnownKinds(s: SentArrays) {
    s.bound || forall i :: 0 <= i < |s.attribs| ==> KnownType(s.attribs[i].kind)
  }

  /** A draw of known types is received as it was sent, leaving exactly what follows, if and only if each
      attribute brings the data due for it and, with nothing following, the last one brings some. */
  lemma DrawReceivedExactly(id: u32, r: Request, rest: seq<byte>)
    requires Encodable(r) && (r.DrawArrays? || r.DrawElements?) && KnownKinds(r.arrays)
    ensures Receive(Frame(id, r) + rest) == Got(r, rest)
       <==> (AllFit(r.arrays.attribs, r.arrays.count, r.arrays.bound)
             && (rest != [] || EndsInData(r.arrays.attribs, r.arrays.bound)))
  {
    hide ReceiveBody, Frame, AllFit, EndsInData, Word, HandlerForm;
    var f := Frame(id, r) + rest;
    if AllFit(r.arrays.attribs, r.arrays.count, r.arrays.bound)
       && (rest != [] || EndsInData(r.arrays.attribs, r.arrays.bound)) {
      ReceivesFrame(id, r, rest);
    } else if Receive(f) == Got(r, rest) {
      ReceivedDrawFits(Word(f).value, Word(Word(f).rest).rest);
    }
  }

  function Frames(id: u32, rs: seq<Request>): seq<byte>
    requires forall i :: 0 <= i < |rs| ==> Sendable(rs[i])
  {
    if rs == [] then [] else assert Sendable(rs[0]); Frame(id, rs[0]) + Frames(id, rs[1..])
  }

  /** The dispatch loop, run `n` times on what has arrived. */
  function Dispatch(b: seq<byte>, n: nat): Got<seq<Request>>
    decreases n
  {
    if n == 0 then Got([], b)
    else
      match Receive(b)
      case More => More
      case Got(r, b1) =>
        match Dispatch(b1, n - 1)
        case More => More
        case Got(others, b2) => Got([r] + others, b2)
  }

  /** The dispatcher parses any sequence of stub calls into the same sequence of commands; if nothing
      follows, the last must not end in an empty read. */
  lemma {:induction false} DispatchesAll(id: u32, rs: seq<Request>, rest: seq<byte>)
    requires forall i :: 0 <= i < |rs| ==> Sendable(rs[i])
    requires rest != [] || rs == [] || Complete(rs[|rs| - 1])
    ensures Dispatch(Frames(id, rs) + rest, |rs|) == Got(rs, rest)
    decreases |rs|
  {
    hide Receive, Frame, Complete, AllFit, StubForm;
    if rs == [] {
      assert Frames(id, rs) + rest == rest;
    } else {
      var others := rs[1..];
      var tail := Frames(id, others) + rest;
      if others != [] { FramesNonempty(id, others); }
      ReceivesFrame(id, rs[0], tail);
      DispatchesAll(id, others, rest);
      Assoc(Frame(id, rs[0]), Frames(id, others), rest);
      DispatchStep(Frame(id, rs[0]) + tail, |rs|, rs[0], tail, others, rest);
      assert [rs[0]] + others == rs;
    }
  }

  lemma FramesNonempty(id: u32, rs: seq<Request>)
    requires rs != [] && forall i :: 0 <= i < |rs| ==> Sendable(rs[i])
    ensures Frames(id, rs) != []
  {
    hide Body, AllFit, StubForm;
    assert Sendable(rs[0]);
    assert |Frame(id, rs[0])| >= 4;
  }

  lemma DispatchStep(b: seq<byte>, n: nat, r: Request, b1: seq<byte>, others: seq<Request>, b2: seq<byte>)
    requires n > 0 && Receive(b) == Got(r, b1) && Dispatch(b1, n - 1) == Got(others, b2)
    ensures Dispatch(b, n) == Got([r] + others, b2)
  {
  }

  /** Nor does it get ahead: with any part of a frame still to come the handler waits. */
  lemma WaitsForWholeFrame(id: u32, r: Request, k: nat)
    requires Sendable(r) && k < |Frame(id, r)|
    ensures Receive(Frame(id, r)[..k]) == More
  {
    hide Receive, Frame;
    var f, next := Frame(id, r), [0 as byte];
    ReceivesFrame(id, r, next);
    assert f[..k] + (f[k..] + next) == f + next;
    if Receive(f[..k]).Got? {
      ReceiveMore(f[..k], f[k..] + next);
      assert false;
    }
  }
}
