/** Fixed-size and length-prefixed fields on the two streams of a connection. */
module Serializer {
  import opened Bytes

  datatype Option<+T> = None | Some(value: T)

  /** A field is fixed in size, both sides knowing it, or carries its size in front. */
  datatype Field = Fixed(bytes: seq<byte>) | Var(bytes: seq<byte>)
  datatype Shape = FixedShape(size: nat) | VarShape

  function ShapeOf(f: Field): Shape {
    match f
    case Fixed(b) => FixedShape(|b|)
    case Var(_) => VarShape
  }

  function EncodeVar(data: seq<byte>): seq<byte>
    requires |data| < U64_LIMIT
  {
    EncodeU64(|data|) + data
  }

  function Encode(f: Field): seq<byte>
    requires |f.bytes| < U64_LIMIT
  {
    match f
    case Fixed(b) => b
    case Var(b) => EncodeVar(b)
  }

  predicate FieldsFit(fields: seq<Field>) {
    forall i :: 0 <= i < |fields| ==> |fields[i].bytes| < U64_LIMIT
  }

  function EncodeAll(fields: seq<Field>): seq<byte>
    requires FieldsFit(fields)
  {
    if fields == [] then [] else Encode(fields[0]) + EncodeAll(fields[1..])
  }

  /** When a read of `n` bytes returns: once they are there, but not before anything is, even for none. */
  predicate Readable(stream: seq<byte>, n: nat) {
    n <= |stream| && stream != []
  }

  /** What a receive sequence of these shapes gets from a stream, with what it leaves; none if it
      would wait for more bytes than there are. */
  function DecodeAll(shapes: seq<Shape>, stream: seq<byte>): Option<(seq<Field>, seq<byte>)> {
    if shapes == [] then Some(([], stream))
    else match DecodeOne(shapes[0], stream)
      case None => None
      case Some((f, rest)) =>
        match DecodeAll(shapes[1..], rest)
        case None => None
        case Some((fs, last)) => Some(([f] + fs, last))
  }

  function DecodeOne(shape: Shape, stream: seq<byte>): Option<(Field, seq<byte>)> {
    match shape
    case FixedShape(n) => if Readable(stream, n) then Some((Fixed(stream[..n]), stream[n..])) else None
    case VarShape =>
      if |stream| < U64_SIZE then None
      else
        var n := DecodeU64(stream[..U64_SIZE]);
        if U64_SIZE + n <= |stream| then Some((Var(stream[U64_SIZE..U64_SIZE + n]), stream[U64_SIZE + n..]))
        else None
  }

  function Shapes(fields: seq<Field>): seq<Shape> {
    if fields == [] then [] else [ShapeOf(fields[0])] + Shapes(fields[1..])
  }

  lemma DecodesOne(f: Field, rest: seq<byte>)
    requires |f.bytes| < U64_LIMIT
    ensures DecodeOne(ShapeOf(f), Encode(f) + rest)
         == if f == Fixed([]) && rest == [] then None else Some((f, rest))
  {
    if f.Var? {
      var stream := Encode(f) + rest;
      U64RoundTrip(|f.bytes|);
      assert stream == EncodeU64(|f.bytes|) + (f.bytes + rest);
      assert stream[..U64_SIZE] == EncodeU64(|f.bytes|);
    }
  }

  /** The last field is not a fixed-size one of size zero. */
  predicate EndsInBytes(fields: seq<Field>) {
    fields == [] || fields[|fields| - 1] != Fixed([])
  }

  lemma DecodesStep(f: Field, shapes: seq<Shape>, bytes: seq<byte>, rest: seq<byte>)
    requires |f.bytes| < U64_LIMIT
    ensures DecodeAll([ShapeOf(f)] + shapes, (Encode(f) + bytes) + rest)
         == if f == Fixed([]) && bytes + rest == [] then None
            else match DecodeAll(shapes, bytes + rest)
                 case None => None
                 case Some((fields, last)) => Some(([f] + fields, last))
  {
    hide Encode, DecodeOne;
    DecodesOne(f, bytes + rest);
    Assoc(Encode(f), bytes, rest);
    assert ([ShapeOf(f)] + shapes)[1..] == shapes;
  }

  lemma EncodesSomething(fields: seq<Field>)
    requires FieldsFit(fields) && EndsInBytes(fields) && fields != []
    ensures EncodeAll(fields) != []
  {
    if |fields| > 1 {
      EncodesSomething(fields[1..]);
    }
  }

  /** The mirrored receive sequence gets back any sequence of fields, and leaves what follows, unless
      it ends in an empty read with nothing behind it, which waits. */
  lemma {:induction false} FieldsRoundTrip(fields: seq<Field>, rest: seq<byte>)
    requires FieldsFit(fields)
    ensures DecodeAll(Shapes(fields), EncodeAll(fields) + rest)
         == if EndsInBytes(fields) || rest != [] then Some((fields, rest)) else None
    decreases |fields|
  {
    hide Encode, DecodeOne;
    if fields == [] {
      assert EncodeAll(fields) + rest == rest;
    } else if |fields| == 1 {
      OneField(fields, rest);
    } else {
      var others := fields[1..];
      FieldsRoundTrip(others, rest);
      if EndsInBytes(others) { EncodesSomething(others); }
      DecodesStep(fields[0], Shapes(others), EncodeAll(others), rest);
      assert [fields[0]] + others == fields;
    }
  }

  lemma OneField(fields: seq<Field>, rest: seq<byte>)
    requires FieldsFit(fields) && |fields| == 1
    ensures DecodeAll(Shapes(fields), EncodeAll(fields) + rest)
         == if EndsInBytes(fields) || rest != [] then Some((fields, rest)) else None
  {
    hide Encode, DecodeOne;
    var f := fields[0];
    assert EncodeAll(fields) == Encode(f) + [] == Encode(f);
    assert Shapes(fields) == [ShapeOf(f)];
    DecodesOne(f, rest);
    assert [f] + [] == fields;
  }

  /** A field of fixed size is its bytes; one of variable size has its length in front, as eight bytes. */
  lemma FieldBytes(bytes: seq<byte>)
    requires |bytes| < U64_LIMIT
    ensures EncodeAll([Fixed(bytes)]) == bytes
    ensures EncodeAll([Var(bytes)]) == EncodeU64(|bytes|) + bytes
  {
    hide EncodeU64;
    assert [Fixed(bytes)][1..] == [] && [Var(bytes)][1..] == [];
  }

  lemma EncodeNext(fields: seq<Field>, i: nat)
    requires FieldsFit(fields) && i < |fields|
    ensures EncodeAll(fields[i..]) == Encode(fields[i]) + EncodeAll(fields[i + 1..])
  {
    assert fields[i..][1..] == fields[i + 1..];
  }

  /** One end of a connection: what it has sent and what there is for it to receive. */
  class Connection {
    var sent: seq<byte>
    var incoming: seq<byte>

    constructor ()
      ensures sent == [] && incoming == []
    {
      sent, incoming := [], [];
    }

    method SendData(data: seq<byte>)
      modifies this`sent
      ensures sent == old(sent) + data
    {
      sent := sent + data;
    }

    /** Receiving waits until there is enough, so the bytes are there when it returns. */
    method ReceiveData(length: nat) returns (data: seq<byte>)
      requires Readable(incoming, length)
      modifies this`incoming
      ensures data == old(incoming)[..length] && incoming == old(incoming)[length..]
    {
      data := incoming[..length];
      incoming := incoming[length..];
    }

    /** The length, then the payload unless it is empty. */
    method SendVarSizeData(data: seq<byte>)
      requires |data| < U64_LIMIT
      modifies this`sent
      ensures sent == old(sent) + EncodeVar(data) == old(sent) + EncodeU64(|data|) + data
    {
      SendData(EncodeU64(|data|));
      if |data| > 0 {
        SendData(data);
      }
      assert sent == old(sent) + EncodeVar(data);
    }

    /** No buffer is returned for an empty field. */
    method ReceiveVarSizeData() returns (buffer: Option<seq<byte>>)
      requires DecodeOne(VarShape, incoming).Some?
      modifies this`incoming
      ensures DecodeOne(VarShape, old(incoming))
           == Some((Var(match buffer case None => [] case Some(b) => b), incoming))
      ensures var n := DecodeU64(old(incoming)[..8]);
              && buffer == (if n == 0 then None else Some(old(incoming)[8..8 + n]))
              && incoming == old(incoming)[8 + n..]
    {
      var prefix := ReceiveData(U64_SIZE);
      var length := DecodeU64(prefix);
      buffer := None;
      if length > 0 {
        var data := ReceiveData(length);
        buffer := Some(data);
      }
      assert old(incoming)[U64_SIZE..][..length] == old(incoming)[U64_SIZE..U64_SIZE + length];
      assert old(incoming)[U64_SIZE..][length..] == old(incoming)[U64_SIZE + length..];
    }

    method SendField(f: Field)
      requires |f.bytes| < U64_LIMIT
      modifies this`sent
      ensures sent == old(sent) + Encode(f)
    {
      match f
      case Fixed(b) => SendData(b);
      case Var(b) => SendVarSizeData(b);
    }

    method SendFields(fields: seq<Field>)
      requires FieldsFit(fields)
      modifies this`sent
      ensures sent == old(sent) + EncodeAll(fields)
    {
      assert fields[0..] == fields;
      for i := 0 to |fields|
        invariant sent + EncodeAll(fields[i..]) == old(sent) + EncodeAll(fields)
      {
        EncodeNext(fields, i);
        Assoc(sent, Encode(fields[i]), EncodeAll(fields[i + 1..]));
        SendField(fields[i]);
      }
    }

    method ReceiveFields(shapes: seq<Shape>) returns (fields: seq<Field>)
      requires DecodeAll(shapes, incoming).Some?
      modifies this`incoming
      ensures DecodeAll(shapes, old(incoming)) == Some((fields, incoming))
    {
      fields := [];
      assert shapes[0..] == shapes;
      assert fields + DecodeAll(shapes, incoming).value.0 == DecodeAll(shapes, incoming).value.0;
      for i := 0 to |shapes|
        invariant DecodeAll(shapes[i..], incoming).Some?
        invariant var (fs, last) := DecodeAll(shapes[i..], incoming).value;
                  DecodeAll(shapes, old(incoming)) == Some((fields + fs, last))
      {
        assert shapes[i..][1..] == shapes[i + 1..];
        ghost var coming := DecodeAll(shapes[i..], incoming).value.0;
        var f := ReceiveField(shapes[i]);
        assert fields + coming == (fields + [f]) + coming[1..];
        fields := fields + [f];
      }
      assert shapes[|shapes|..] == [] && fields + [] == fields;
    }

    method ReceiveField(shape: Shape) returns (f: Field)
      requires DecodeOne(shape, incoming).Some?
      modifies this`incoming
      ensures DecodeOne(shape, old(incoming)) == Some((f, incoming))
    {
      match shape
      case FixedShape(n) =>
        var data := ReceiveData(n);
        f := Fixed(data);
      case VarShape =>
        var buffer := ReceiveVarSizeData();
        f := Var(match buffer case None => [] case Some(b) => b);
    }
  }
}
