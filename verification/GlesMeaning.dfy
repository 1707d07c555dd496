/** What a call asks of GL when it is made directly, and when that is what its handler asks of the
    real GL: for one call, and for a sequence of calls, between which the real GL keeps its arrays. */
module GlesMeaning {
  import opened Bytes
  import opened Serializer
  import opened VertexArrays
  import opened GlesWire
  import opened GlesCalls
  import opened GlesServer

  // ---------------------------------------------------------------- attributes

  function FetchAll(mem: Memory, a: Attrib, elements: seq<int>): (r: seq<seq<byte>>)
    requires a.size >= 0
    ensures |r| == |elements|
  {
    seq(|elements|, i requires 0 <= i < |elements| => Fetch(mem, a, elements[i]))
  }

  predicate EnabledSized(attribs: seq<Attrib>) {
    forall i :: 0 <= i < |attribs| && attribs[i].enabled ==> attribs[i].size >= 0
  }

  /** An attribute array, drawn directly. */
  function SeenLocally(mem: Memory, a: Attrib, elements: seq<int>): Seen
    requires a.size >= 0
  {
    Seen(Format(Unsigned(a.size), a.kind, a.normalized), Fetched(FetchAll(mem, a, elements)))
  }

  /** Every enabled array, by its number. */
  function AllSeenLocally(mem: Memory, attribs: seq<Attrib>, elements: seq<int>): map<u32, Seen>
    requires |attribs| <= U32_LIMIT && EnabledSized(attribs)
  {
    map k: u32 | k < |attribs| && attribs[k].enabled :: SeenLocally(mem, attribs[k], elements)
  }

  /** The same with a buffer bound: pointers are offsets into it. */
  function AllInBuffer(attribs: seq<Attrib>): map<u32, Seen>
    requires |attribs| <= U32_LIMIT
  {
    map k: u32 | k < |attribs| && attribs[k].enabled ::
      var a := attribs[k]; Seen(Format(Unsigned(a.size), a.kind, a.normalized), InBuffer(a.stride, a.ptr))
  }

  function EnabledSlots(attribs: seq<Attrib>): set<u32>
    requires |attribs| <= U32_LIMIT
  {
    set k: u32 | k < |attribs| && attribs[k].enabled
  }

  /** The elements drawn, as the client numbers them and as the server does: `base` apart, and among
      the `n` vertices that were shipped. */
  predicate Renumbered(theirs: seq<int>, ours: seq<int>, base: int, n: nat) {
    |theirs| == |ours| && forall i :: 0 <= i < |ours| ==> 0 <= theirs[i] < n && ours[i] == base + theirs[i]
  }

  /** An enabled array a draw can be made from. */
  predicate Drawable(a: Attrib, k: nat) {
    a.enabled && a.index == k && a.size > 0 && KnownType(a.kind) && a.stride >= 0
  }

  /** The first `m` arrays are enabled, the others not. */
  predicate EnabledPrefix(attribs: seq<Attrib>, m: nat) {
    && m <= |attribs| <= U32_LIMIT
    && (forall i :: 0 <= i < m ==> Drawable(attribs[i], i))
    && forall i :: m <= i < |attribs| ==> !attribs[i].enabled
  }

  lemma PrefixSized(attribs: seq<Attrib>, m: nat)
    requires EnabledPrefix(attribs, m)
    ensures EnabledSized(attribs) && Sized(attribs[..m])
  {
  }

  lemma ElementSame(mem: Memory, a: Attrib, base: int, n: nat, e: nat)
    requires a.size >= 0 && a.stride >= 0 && e < n
    ensures ReceivedElement(SentAttribOf(mem, a, base, n, false), e) == Fetch(mem, a, base + e)
  {
    PackedAt(mem, a, base, n, e);
    ElementRange(e, VertexSize(a));
  }

  /** Element for element, what is fetched from the received array is what the client's holds. */
  lemma SeenSame(mem: Memory, a: Attrib, base: int, n: nat, theirs: seq<int>, ours: seq<int>)
    requires a.size >= 0 && a.stride >= 0 && Renumbered(theirs, ours, base, n)
    ensures SeenIn(SentAttribOf(mem, a, base, n, false), theirs) == SeenLocally(mem, a, ours)
  {
    hide ReceivedElement, Fetch, Gathered;
    forall i | 0 <= i < |ours|
      ensures ReceivedElement(SentAttribOf(mem, a, base, n, false), theirs[i]) == Fetch(mem, a, ours[i])
    {
      ElementSame(mem, a, base, n, theirs[i]);
    }
    assert SeenIn(SentAttribOf(mem, a, base, n, false), theirs).source.elements == FetchAll(mem, a, ours);
  }

  /** Of attributes that are numbered in order, every one counts. */
  lemma {:induction false} LastSentAt(sent: seq<SentAttrib>)
    requires |sent| <= U32_LIMIT && forall i :: 0 <= i < |sent| ==> sent[i].index == i
    ensures forall i: u32 :: i in LastSent(sent) <==> i < |sent|
    ensures forall i: u32 :: i < |sent| ==> LastSent(sent)[i] == sent[i]
    decreases |sent|
  {
    if sent != [] {
      LastSentAt(sent[..|sent| - 1]);
    }
  }

  lemma SentIndices(mem: Memory, attribs: seq<Attrib>, m: nat, base: int, n: int, bound: bool)
    requires EnabledPrefix(attribs, m) && Sized(attribs[..m])
    ensures var sent := SentAttribs(mem, attribs[..m], base, n, bound);
            forall i :: 0 <= i < m ==> sent[i] == SentAttribOf(mem, attribs[i], base, n, bound) && sent[i].index == i
  {
    hide Gathered, SentAttribs;
    forall i | 0 <= i < m
      ensures SentAttribs(mem, attribs[..m], base, n, bound)[i] == SentAttribOf(mem, attribs[i], base, n, bound)
      ensures attribs[i].index == i
    {
      SentAt(mem, attribs[..m], base, n, bound, i);
      assert Drawable(attribs[i], i);
    }
  }

  /** For every array sent and every element drawn, the server's draw sees what a local one sees. */
  lemma SeenNowSame(mem: Memory, attribs: seq<Attrib>, m: nat, base: int, n: nat, theirs: seq<int>, ours: seq<int>)
    requires EnabledPrefix(attribs, m) && EnabledSized(attribs) && Sized(attribs[..m])
    requires Renumbered(theirs, ours, base, n)
    ensures SeenNow(SentAttribs(mem, attribs[..m], base, n, false), theirs) == AllSeenLocally(mem, attribs, ours)
  {
    hide SeenIn, SeenLocally, SentAttribs, SentAttribOf, LastSent;
    var sent := SentAttribs(mem, attribs[..m], base, n, false);
    SentIndices(mem, attribs, m, base, n, false);
    LastSentAt(sent);
    forall k: u32 | k < m ensures attribs[k].enabled && SeenIn(sent[k], theirs) == SeenLocally(mem, attribs[k], ours) {
      assert Drawable(attribs[k], k);
      SeenSame(mem, attribs[k], base, n, theirs, ours);
    }
  }

  /** A draw in the server sees what the direct draw sees if and only if every array enabled there by an
      earlier draw is enabled for this one. */
  lemma AllSeenExactly(mem: Memory, attribs: seq<Attrib>, m: nat, base: int, n: nat, theirs: seq<int>, ours: seq<int>,
                       formats: map<u32, Format>)
    requires EnabledPrefix(attribs, m) && EnabledSized(attribs) && Sized(attribs[..m])
    requires Renumbered(theirs, ours, base, n)
    ensures AllSeen(formats, SentAttribs(mem, attribs[..m], base, n, false), theirs)
         == AllSeenLocally(mem, attribs, ours)
       <==> formats.Keys <= EnabledSlots(attribs)
  {
    hide SeenLocally, SentAttribs, SeenNow, Drawable;
    var now := SeenNow(SentAttribs(mem, attribs[..m], base, n, false), theirs);
    SeenNowSame(mem, attribs, m, base, n, theirs, ours);
    assert now.Keys == EnabledSlots(attribs);
    assert (StaleIn(formats) + now).Keys == formats.Keys + now.Keys;
    if formats.Keys <= now.Keys {
      assert StaleIn(formats) + now == now;
    } else {
      var i :| i in formats.Keys && i !in now.Keys;
      assert i in StaleIn(formats) + now;
    }
  }

  /** With a buffer bound the server draws from the same places in it as the direct draw if and only if
      every array enabled there by an earlier draw is enabled for this one. */
  lemma AllInBufferExactly(mem: Memory, attribs: seq<Attrib>, m: nat, base: int, n: int, formats: map<u32, Format>)
    requires EnabledPrefix(attribs, m) && Sized(attribs[..m])
    ensures StaleIn(formats) + InBufferNow(SentAttribs(mem, attribs[..m], base, n, true)) == AllInBuffer(attribs)
       <==> formats.Keys <= EnabledSlots(attribs)
  {
    hide SentAttribs, LastSent;
    var now := InBufferNow(SentAttribs(mem, attribs[..m], base, n, true));
    InBufferSame(mem, attribs, m, base, n);
    assert now.Keys == EnabledSlots(attribs);
    assert (StaleIn(formats) + now).Keys == formats.Keys + now.Keys;
    if formats.Keys <= now.Keys {
      assert StaleIn(formats) + now == now;
    } else {
      var i :| i in formats.Keys && i !in now.Keys;
      assert i in StaleIn(formats) + now;
    }
  }

  lemma InBufferSame(mem: Memory, attribs: seq<Attrib>, m: nat, base: int, n: int)
    requires EnabledPrefix(attribs, m) && Sized(attribs[..m])
    ensures InBufferNow(SentAttribs(mem, attribs[..m], base, n, true)) == AllInBuffer(attribs)
  {
    hide SentAttribs, LastSent;
    var sent := SentAttribs(mem, attribs[..m], base, n, true);
    SentIndices(mem, attribs, m, base, n, true);
    LastSentAt(sent);
    forall k: u32 | k < m
      ensures attribs[k].enabled
      ensures Signed(sent[k].stride) == attribs[k].stride && sent[k].ptr == attribs[k].ptr
      ensures FormatOf(sent[k]) == Format(Unsigned(attribs[k].size), attribs[k].kind, attribs[k].normalized)
    {
      assert Drawable(attribs[k], k);
    }
  }

  /** A draw leaves its arrays enabled, as it specified them, beside those that were. */
  lemma LeavesEnabled(mem: Memory, attribs: seq<Attrib>, m: nat, base: int, n: int, bound: bool,
                      formats: map<u32, Format>)
    requires EnabledPrefix(attribs, m) && Sized(attribs[..m])
    ensures var after := Specify(formats, SentAttribs(mem, attribs[..m], base, n, bound));
            && after.Keys == formats.Keys + EnabledSlots(attribs)
            && forall k :: k in after ==>
                 after[k] == if k in EnabledSlots(attribs)
                             then Format(Unsigned(attribs[k].size), attribs[k].kind, attribs[k].normalized)
                             else formats[k]
  {
    hide SentAttribs, LastSent;
    SentIndices(mem, attribs, m, base, n, bound);
    LastSentAt(SentAttribs(mem, attribs[..m], base, n, bound));
    forall k: u32 | k < m ensures attribs[k].enabled {
      assert Drawable(attribs[k], k);
    }
  }

  // ---------------------------------------------------------------- shader sources

  function LocalTexts(mem: Memory, strings: seq<u64>, lengths: Option<seq<i32>>, lens: seq<nat>): (r: seq<seq<byte>>)
    requires StringsOk(mem, strings, lengths, lens)
    ensures |r| == |strings|
  {
    seq(|strings|, i requires 0 <= i < |strings| => Slice(mem, strings[i], TextLength(LengthOf(lengths, i), lens[i])))
  }

  lemma {:induction false} IntsAt(ints: seq<i32>, i: nat)
    requires i < |ints|
    ensures EncodeInts(ints)[4 * i..4 * i + 4] == EncodeU32(Unsigned(ints[i]))
  {
    var b, rest := EncodeInts(ints), EncodeInts(ints[1..]);
    if i == 0 {
      assert b[0..4] == EncodeU32(Unsigned(ints[0]));
    } else {
      IntsAt(ints[1..], i - 1);
      assert b[4 * i..4 * i + 4] == rest[4 * (i - 1)..4 * (i - 1) + 4];
    }
  }

  lemma LengthArrives(lengths: Option<seq<i32>>, i: nat)
    requires lengths.Some? ==> i < |lengths.value|
    ensures LengthReceived(EncodeLengths(lengths), i) == LengthOf(lengths, i)
  {
    if lengths.Some? {
      IntsAt(lengths.value, i);
      U32RoundTrip(Unsigned(lengths.value[i]));
    }
  }

  lemma {:induction false} SentStringAt(mem: Memory, strings: seq<u64>, lengths: Option<seq<i32>>, lens: seq<nat>,
                                        i: nat, k: nat)
    requires StringsOk(mem, strings, lengths, lens) && i <= k < |strings|
    ensures SentStrings(mem, strings, lengths, lens, i)[k - i]
         == Slice(mem, strings[0], TextLength(LengthOf(lengths, k), lens[k]) + 1)
    decreases k - i
  {
    hide StringsOk, Slice;
    if i < k {
      SentStringAt(mem, strings, lengths, lens, i + 1, k);
    }
  }

  lemma {:induction false} UpToNulIs(b: seq<byte>, n: nat)
    requires Ends(b, n)
    ensures UpToNul(b) == b[..n]
  {
    if n > 0 {
      assert b[0] != 0 && b[1..][n - 1] == b[n];
      UpToNulIs(b[1..], n - 1);
      assert b[..n] == [b[0]] + b[1..][..n - 1];
    }
  }

  lemma {:induction false} UpToNulEnds(b: seq<byte>)
    ensures UpToNul(b) == b || Ends(b, |UpToNul(b)|)
    ensures UpToNul(b) <= b
  {
    if b != [] && b[0] != 0 {
      UpToNulEnds(b[1..]);
      assert b == [b[0]] + b[1..];
    }
  }

  /** How much of string `i` matters: with its NUL if it has no length of its own. */
  function Compared(length: i32, len: nat): nat {
    if length < 0 then len + 1 else length
  }

  /** The bytes sent for a string are read as its text exactly when the first string starts as it does. */
  lemma TextExactly(mem: Memory, p: int, q: int, length: i32, len: nat)
    requires length < 0 ==> IsString(mem, q, len)
    ensures TextRead(Slice(mem, p, TextLength(length, len) + 1), length) == Slice(mem, q, TextLength(length, len))
       <==> Slice(mem, p, Compared(length, len)) == Slice(mem, q, Compared(length, len))
  {
    if length < 0 {
      var sent, own := Slice(mem, p, len + 1), Slice(mem, q, len + 1);
      assert own[..len] == Slice(mem, q, len);
      UpToNulEnds(sent);
      UpToNulIs(own, len);
      assert Ends(sent, len) && sent[..len] == own[..len] ==> sent == own;
    } else {
      assert Slice(mem, p, length + 1)[..length] == Slice(mem, p, length);
    }
  }

  /** The first string starts as every other does. */
  predicate AllStartAlike(mem: Memory, strings: seq<u64>, lengths: Option<seq<i32>>, lens: seq<nat>)
    requires StringsOk(mem, strings, lengths, lens)
  {
    forall i :: 0 <= i < |strings| ==>
      var n := Compared(LengthOf(lengths, i), lens[i]);
      Slice(mem, strings[0], n) == Slice(mem, strings[i], n)
  }

  lemma TextAt(mem: Memory, strings: seq<u64>, lengths: Option<seq<i32>>, lens: seq<nat>, i: nat)
    requires StringsOk(mem, strings, lengths, lens) && i < |strings|
    ensures ReceivedTexts(EncodeLengths(lengths), SentStrings(mem, strings, lengths, lens, 0))[i]
         == LocalTexts(mem, strings, lengths, lens)[i]
       <==> var n := Compared(LengthOf(lengths, i), lens[i]); Slice(mem, strings[0], n) == Slice(mem, strings[i], n)
  {
    hide Slice, TextRead, LengthReceived, EncodeLengths;
    LengthArrives(lengths, i);
    SentStringAt(mem, strings, lengths, lens, 0, i);
    TextExactly(mem, strings[0], strings[i], LengthOf(lengths, i), lens[i]);
  }

  /** A shader gets the texts it was given exactly when all of them start as the first: always for one
      string or none. */
  lemma TextsExactly(mem: Memory, strings: seq<u64>, lengths: Option<seq<i32>>, lens: seq<nat>)
    requires StringsOk(mem, strings, lengths, lens)
    ensures ReceivedTexts(EncodeLengths(lengths), SentStrings(mem, strings, lengths, lens, 0))
         == LocalTexts(mem, strings, lengths, lens)
       <==> AllStartAlike(mem, strings, lengths, lens)
    ensures |strings| <= 1 ==> AllStartAlike(mem, strings, lengths, lens)
  {
    hide Slice, LengthReceived, EncodeLengths, LocalTexts, ReceivedTexts;
    forall i | 0 <= i < |strings|
      ensures ReceivedTexts(EncodeLengths(lengths), SentStrings(mem, strings, lengths, lens, 0))[i]
           == LocalTexts(mem, strings, lengths, lens)[i]
         <==> var n := Compared(LengthOf(lengths, i), lens[i]); Slice(mem, strings[0], n) == Slice(mem, strings[i], n)
    {
      TextAt(mem, strings, lengths, lens, i);
    }
  }

  lemma AThenB(mem: Memory)
    requires mem == Loaded([65, 0, 66, 0])
    ensures StringsOk(mem, [0, 2], None, [1, 1])
    ensures LocalTexts(mem, [0, 2], None, [1, 1]) == [[65], [66]]
    ensures Slice(mem, 0, 2) == [65, 0]
  {
    assert Slice(mem, 0, 2) == [65, 0] && Slice(mem, 2, 2) == [66, 0];
    assert Slice(mem, 0, 1) == [65] && Slice(mem, 2, 1) == [66];
  }

  /** Two strings, "A" and "B": the shader is compiled from "A" twice. */
  lemma SecondStringLost(mem: Memory)
    requires mem == Loaded([65, 0, 66, 0])
    ensures StringsOk(mem, [0, 2], None, [1, 1])
    ensures LocalTexts(mem, [0, 2], None, [1, 1]) == [[65], [66]]
    ensures ReceivedTexts(None, SentStrings(mem, [0, 2], None, [1, 1], 0)) == [[65], [65]]
  {
    hide Slice, SentStrings, LocalTexts, Loaded, UpToNul;
    AThenB(mem);
    SentStringAt(mem, [0, 2], None, [1, 1], 0, 0);
    SentStringAt(mem, [0, 2], None, [1, 1], 0, 1);
    UpToNulIs([65, 0], 1);
    assert [65 as byte, 0][..1] == [65];
  }
}
