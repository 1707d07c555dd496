/** Reading from the front of a byte stream: a read either needs more bytes than there are, or
    yields a value and leaves the rest. */
module Wire {
  import opened Bytes

  datatype Got<+T> = More | Got(value: T, rest: seq<byte>) {
    predicate IsFailure() { More? }

    function PropagateFailure<U>(): Got<U>
      requires More?
    {
      More
    }

    function Extract(): (T, seq<byte>)
      requires Got?
    {
      (value, rest)
    }

    /** The same result with more bytes behind it. */
    function Then(tail: seq<byte>): Got<T> {
      if More? then More else Got(value, rest + tail)
    }
  }

  function Take(b: seq<byte>, n: nat): (r: Got<seq<byte>>)
    ensures r.Got? ==> |r.value| == n && b == r.value + r.rest
    ensures r.More? <==> |b| < n
  {
    if n <= |b| then Got(b[..n], b[n..]) else More
  }

  /** A read whose length is only known at run time: even an empty one waits for a byte to be there. */
  function Read(b: seq<byte>, n: nat): Got<seq<byte>> {
    if b == [] then More else Take(b, n)
  }

  function Word(b: seq<byte>): Got<u32> {
    var (w, rest) :- Take(b, U32_SIZE);
    Got(DecodeU32(w), rest)
  }

  function Long(b: seq<byte>): Got<u64> {
    var (w, rest) :- Take(b, U64_SIZE);
    Got(DecodeU64(w), rest)
  }

  function VarSize(b: seq<byte>): Got<seq<byte>> {
    var (n, rest) :- Long(b);
    Take(rest, n)
  }

  /** Three words in a row. */
  function Words(b: seq<byte>): Got<(u32, u32, u32)> {
    var (x, b1) :- Word(b);
    var (y, b2) :- Word(b1);
    var (z, b3) :- Word(b2);
    Got((x, y, z), b3)
  }

  lemma TakeMore(b: seq<byte>, n: nat, tail: seq<byte>)
    requires Take(b, n).Got?
    ensures Take(b + tail, n) == Take(b, n).Then(tail)
  {
    assert (b + tail)[..n] == b[..n] && (b + tail)[n..] == b[n..] + tail;
  }

  lemma ReadMore(b: seq<byte>, n: nat, tail: seq<byte>)
    requires Read(b, n).Got?
    ensures Read(b + tail, n) == Read(b, n).Then(tail)
  {
    TakeMore(b, n, tail);
  }

  lemma WordMore(b: seq<byte>, tail: seq<byte>)
    requires Word(b).Got?
    ensures Word(b + tail) == Word(b).Then(tail)
  {
    TakeMore(b, U32_SIZE, tail);
  }

  lemma WordsMore(b: seq<byte>, tail: seq<byte>)
    requires Words(b).Got?
    ensures Words(b + tail) == Words(b).Then(tail)
  {
    WordMore(b, tail);
    var b1 := Word(b).rest;
    WordMore(b1, tail);
    WordMore(Word(b1).rest, tail);
  }

  lemma LongMore(b: seq<byte>, tail: seq<byte>)
    requires Long(b).Got?
    ensures Long(b + tail) == Long(b).Then(tail)
  {
    TakeMore(b, U64_SIZE, tail);
  }

  lemma VarSizeMore(b: seq<byte>, tail: seq<byte>)
    requires VarSize(b).Got?
    ensures VarSize(b + tail) == VarSize(b).Then(tail)
  {
    LongMore(b, tail);
    TakeMore(Long(b).rest, Long(b).value, tail);
  }

  lemma TakesFront(data: seq<byte>, rest: seq<byte>)
    ensures Take(data + rest, |data|) == Got(data, rest)
  {
  }

  lemma ReadsWord(n: u32, rest: seq<byte>)
    ensures Word(EncodeU32(n) + rest) == Got(n, rest)
  {
    TakesFront(EncodeU32(n), rest);
    U32RoundTrip(n);
  }

  lemma ReadsWords(x: u32, y: u32, z: u32, rest: seq<byte>)
    ensures Words(EncodeU32(x) + (EncodeU32(y) + (EncodeU32(z) + rest))) == Got((x, y, z), rest)
  {
    ReadsWord(x, EncodeU32(y) + (EncodeU32(z) + rest));
    ReadsWord(y, EncodeU32(z) + rest);
    ReadsWord(z, rest);
  }

  lemma ReadsLong(n: u64, rest: seq<byte>)
    ensures Long(EncodeU64(n) + rest) == Got(n, rest)
  {
    TakesFront(EncodeU64(n), rest);
    U64RoundTrip(n);
  }

  lemma ReadsVarSize(data: seq<byte>, rest: seq<byte>)
    requires |data| < U64_LIMIT
    ensures VarSize(EncodeU64(|data|) + (data + rest)) == Got(data, rest)
  {
    ReadsLong(|data|, data + rest);
    TakesFront(data, rest);
  }
}
