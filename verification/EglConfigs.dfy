/** The reply to eglGetConfigs and eglChooseConfig, whose length stub and handler decide apart. */
module EglConfigs {
  import opened Bytes
  import opened Wire

  const CONFIG_SIZE: nat := 8

  /** What the real EGL reports; as many configs as it says. */
  datatype Report = Report(status: u32, configs: seq<seq<byte>>)

  predicate Reported(r: Report) {
    |r.configs| < 0x8000_0000 && forall i :: 0 <= i < |r.configs| ==> |r.configs[i]| == CONFIG_SIZE
  }

  /** With no place for the configs the stub sends a size of zero. */
  function SizeSent(wanted: bool, configSize: i32): i32 {
    if wanted then configSize else 0
  }

  /** The handler sends the configs if the size it received is positive. */
  function Reply(configSize: i32, r: Report): seq<byte>
    requires Reported(r)
  {
    EncodeU32(r.status) + (EncodeU32(|r.configs|) + if configSize > 0 then Flat(r.configs) else [])
  }

  /** The stub receives them if it has a place for them and there are any. */
  function StubReceives(wanted: bool, b: seq<byte>): Got<(u32, u32, seq<byte>)> {
    var (status, b1) :- Word(b);
    var (numConfig, b2) :- Word(b1);
    var (configs, b3) :- Take(b2, Due(wanted, numConfig));
    Got((status, numConfig, configs), b3)
  }

  lemma {:induction false} FlatLength(parts: seq<seq<byte>>)
    requires forall i :: 0 <= i < |parts| ==> |parts[i]| == CONFIG_SIZE
    ensures |Flat(parts)| == |parts| * CONFIG_SIZE
  {
    if parts != [] {
      FlatLength(parts[1..]);
    }
  }

  /** How much the stub receives behind the two words. */
  function Due(wanted: bool, numConfig: u32): nat {
    if wanted && Signed(numConfig) > 0 then numConfig * CONFIG_SIZE else 0
  }

  lemma StubReads(wanted: bool, status: u32, n: u32, rest: seq<byte>)
    ensures var got := Take(rest, Due(wanted, n));
            StubReceives(wanted, EncodeU32(status) + (EncodeU32(n) + rest))
              == if got.More? then More else Got((status, n, got.value), got.rest)
  {
    hide EncodeU32, Word;
    ReadsWord(status, EncodeU32(n) + rest);
    ReadsWord(n, rest);
  }

  /** The stub receives the whole reply and no more exactly when it wants no configs, offers room for
      some, or there are none; else it waits for configs that were never sent. */
  lemma RepliesAgreeExactly(wanted: bool, configSize: i32, r: Report)
    requires Reported(r) && forall i :: 0 <= i < |r.configs| ==> |r.configs[i]| == 8
    ensures var got := StubReceives(wanted, Reply(SizeSent(wanted, configSize), r));
            && (got.Got? && got.rest == [] <==> !wanted || configSize > 0 || r.configs == [])
            && (got.Got? ==> got.value == (r.status, |r.configs|, if wanted then Flat(r.configs) else []))
    ensures Reply(SizeSent(wanted, configSize), r) == EncodeU32(r.status) + EncodeU32(|r.configs|)
              + (if wanted && configSize > 0 then Flat(r.configs) else [])
    ensures |Flat(r.configs)| == 8 * |r.configs|
  {
    hide EncodeU32, StubReceives, Flat;
    var size := SizeSent(wanted, configSize);
    StubReads(wanted, r.status, |r.configs|, if size > 0 then Flat(r.configs) else []);
    FlatLength(r.configs);
    EmptyFlat();
    var flat := Flat(r.configs);
    assert flat[..|flat|] == flat;
    if r.configs == [] { assert flat == []; }
  }

  lemma EmptyFlat()
    ensures Flat([]) == []
  {
  }
}
