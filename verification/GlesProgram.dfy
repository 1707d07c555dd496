/** Sequences of calls: what they mean made directly, and exactly when the real GL is asked for that. */
module GlesProgram {
  import opened Bytes
  import opened Serializer
  import opened VertexArrays
  import opened StateTracker
  import opened GlesWire
  import opened GlesFrames
  import opened GlesCalls
  import opened GlesServer
  import opened GlesMeaning

  predicate Draws(c: Call) {
    c.Arrays? || c.Elements?
  }

  /** The arrays enabled when a draw is called. */
  function EnabledFor(c: Call): set<u32>
    requires Callable(c) && Draws(c)
  {
    EnabledSlots(c.tracked.attribs)
  }

  /** The meaning of a call made directly. */
  function Meaning(c: Call): GlCommand
    requires Callable(c) && (Draws(c) ==> EnabledSized(c.tracked.attribs))
  {
    match c
    case Values(cmd, args) => Invoke(cmd, args, [])
    case Carries(cmd, args, data) => Invoke(cmd, args, data)
    case Uploads(target, data, usage) => Upload(target, data, usage)
    case Sources(mem, shader, count, strings, lengths, lens) =>
      SetSource(shader, Unsigned(count), LocalTexts(mem, strings, lengths, lens))
    case Arrays(mem, t, bound, mode, first, count) =>
      if bound then
        DrawBound(DRAWARRAYS, mode, Unsigned(count), Numbers(first, Times(Unsigned(count))), AllInBuffer(t.attribs))
      else Draw(DRAWARRAYS, mode, Unsigned(count),
                AllSeenLocally(mem, t.attribs, Numbers(first, Times(Unsigned(count)))))
    case Elements(mem, t, bound, mode, count, kind, indices) =>
      var elements := ElementList(kind, IndexBytes(mem, indices, count, kind), count);
      if bound then DrawBound(DRAWELEMENTS, mode, Unsigned(count), elements, AllInBuffer(t.attribs))
      else Draw(DRAWELEMENTS, mode, Unsigned(count), AllSeenLocally(mem, t.attribs, elements))
  }

  /** The enabled arrays are the first ones, their number is the count, and a draw can be made. */
  predicate ReadyToDraw(t: Tracked) {
    && |t.attribs| == MAX_NUM_VERTEX_ATTRIBS
    && t.num == CountEnabled(t.attribs)
    && DownwardClosed(t.attribs)
    && forall k :: 0 <= k < |t.attribs| && t.attribs[k].enabled ==> Drawable(t.attribs[k], k)
  }

  lemma ReadyIsPrefix(t: Tracked)
    requires ReadyToDraw(t)
    ensures EnabledPrefix(t.attribs, t.num) && EnabledSized(t.attribs) && Sized(t.attribs[..t.num])
  {
    hide CountEnabled, DownwardClosed;
    CountBounds(t.attribs);
    SentSlotsExactly(t.attribs);
  }

  /** A call of a modelled command whose request is all received, and which asks for some names if it
      asks for names. An indexed draw has no buffer bound. */
  predicate Faithful(c: Call)
    requires Callable(c)
  {
    match c
    case Values(cmd, args) =>
      StubForm(cmd) == PlainForm(|args|) && (Generates(cmd) && |args| == 4 ==> Times(DecodeU32(args)) > 0)
    case Carries(cmd, args, _) => StubForm(cmd) == DataForm(|args|)
    case Uploads(_, _, _) => true
    case Sources(mem, _, _, strings, lengths, lens) => AllStartAlike(mem, strings, lengths, lens)
    case Arrays(_, t, _, _, _, _) => ReadyToDraw(t) && GathersWhatIsDue(c)
    case Elements(_, t, bound, _, _, _, _) => !bound && ReadyToDraw(t) && GathersWhatIsDue(c)
  }

  // ---------------------------------------------------------------- one call

  lemma {:induction false} NoneSent(mem: Memory, slots: seq<Attrib>, base: int, n: int)
    requires Sized(slots) && n <= 0
    ensures SentAttribs(mem, slots, base, n, false) == SentAttribs(mem, slots, base, 0, false)
  {
    if slots != [] {
      NoneSent(mem, slots[1..], base, n);
    }
  }

  lemma ArraysExactly(formats: map<u32, Format>, c: Call)
    requires Callable(c) && Faithful(c) && c.Arrays?
    ensures EnabledSized(c.tracked.attribs)
    ensures Observed(formats, RequestOf(c)) == Meaning(c) <==> formats.Keys <= EnabledFor(c)
  {
    hide AllSeenLocally, AllSeen, ReadyToDraw, EnabledPrefix, EnabledSized, EnabledSlots, SentAttribs, GathersWhatIsDue;
    hide Renumbered, WalksDefined, AllInBuffer, InBufferNow, StaleIn, Numbers;
    var n := Times(Unsigned(c.count));
    ReadyIsPrefix(c.tracked);
    if c.bound {
      AllInBufferExactly(c.mem, c.tracked.attribs, c.tracked.num, c.first, c.count, formats);
    } else {
      if c.count < 0 { NoneSent(c.mem, c.tracked.attribs[..c.tracked.num], c.first, c.count); }
      InOrder(c.first, n);
      AllSeenExactly(c.mem, c.tracked.attribs, c.tracked.num, c.first, n, Numbers(0, n), Numbers(c.first, n), formats);
    }
  }

  lemma InOrder(base: int, n: nat)
    ensures Renumbered(Numbers(0, n), Numbers(base, n), base, n)
  {
  }

  lemma ElementBound(kind: u32, count: nat, i: nat)
    requires i < count
    ensures (i + 1) * SizeByType(kind) <= count * SizeByType(kind)
  {
  }

  lemma ElementsShipped(mem: Memory, indices: u64, count: nat, kind: u32)
    requires IndexType(kind)
    ensures var elements := ElementList(kind, IndexBytes(mem, indices, count, kind), count);
            Renumbered(elements, elements, 0, Shipped(mem, indices, count, kind))
  {
    var bytes := IndexBytes(mem, indices, count, kind);
    var max := MaxIndex(kind, bytes, count);
    hide MaxIndex, IndexAt, Slice;
    MaxIndexIsMax(kind, bytes, count);
    forall i | 0 <= i < count ensures 0 <= ElementAt(kind, bytes, i) <= max {
      ElementBound(kind, count, i);
      assert IndexAt(kind, bytes, i) <= max;
    }
  }

  lemma ElementsExactly(formats: map<u32, Format>, c: Call)
    requires Callable(c) && Faithful(c) && c.Elements?
    ensures EnabledSized(c.tracked.attribs)
    ensures Observed(formats, RequestOf(c)) == Meaning(c) <==> formats.Keys <= EnabledFor(c)
  {
    hide AllSeenLocally, AllSeen, ReadyToDraw, EnabledPrefix, EnabledSized, EnabledSlots, SentAttribs;
    hide Renumbered, ElementList, Shipped, IndexBytes;
    var n := Shipped(c.mem, c.indices, c.count, c.kind);
    var elements := ElementList(c.kind, IndexBytes(c.mem, c.indices, c.count, c.kind), c.count);
    ReadyIsPrefix(c.tracked);
    ElementsShipped(c.mem, c.indices, c.count, c.kind);
    AllSeenExactly(c.mem, c.tracked.attribs, c.tracked.num, 0, n, elements, elements, formats);
  }

  /** The real GL is asked for what a call means if and only if it is no draw, or every array enabled by
      an earlier draw is enabled for this one. */
  lemma MeaningExactly(formats: map<u32, Format>, c: Call)
    requires Callable(c) && Faithful(c)
    ensures Draws(c) ==> EnabledSized(c.tracked.attribs)
    ensures Observed(formats, RequestOf(c)) == Meaning(c)
       <==> (Draws(c) ==> formats.Keys <= EnabledFor(c))
  {
    hide AllSeenLocally, AllSeen, ReadyToDraw, EnabledSized, EnabledSlots, LocalTexts, ReceivedTexts, AllStartAlike;
    match c
    case Sources(mem, _, _, strings, lengths, lens) => TextsExactly(mem, strings, lengths, lens);
    case Arrays(_, _, _, _, _, _) => ArraysExactly(formats, c);
    case Elements(_, _, _, _, _, _, _) => ElementsExactly(formats, c);
    case _ =>
  }

  /** What a call leaves enabled in the real GL, and in which format. */
  lemma EnabledAfter(formats: map<u32, Format>, c: Call)
    requires Callable(c) && Faithful(c)
    ensures FormatsAfter(formats, RequestOf(c)).Keys
         == if Draws(c) then formats.Keys + EnabledFor(c) else formats.Keys
    ensures var after := FormatsAfter(formats, RequestOf(c));
            forall k :: k in after ==>
              if Draws(c) && k in EnabledFor(c) then
                var a := c.tracked.attribs[k]; after[k] == Format(Unsigned(a.size), a.kind, a.normalized)
              else after[k] == formats[k]
  {
    hide ReadyToDraw, EnabledPrefix, EnabledSlots, Specify, SentAttribs, IndexBytes, Shipped, Sized;
    if Draws(c) {
      var base := if c.Arrays? then c.first else 0;
      var n := if c.Arrays? then c.count else Shipped(c.mem, c.indices, c.count, c.kind);
      ReadyIsPrefix(c.tracked);
      LeavesEnabled(c.mem, c.tracked.attribs, c.tracked.num, base, n, c.bound, formats);
    }
  }

  lemma LastGathers(attribs: seq<Attrib>, m: nat, n: int)
    requires EnabledPrefix(attribs, m) && Sized(attribs[..m]) && m > 0
    ensures GathersSome(attribs[..m][m - 1], n) <==> n > 0
  {
    assert Drawable(attribs[m - 1], m - 1);
    assert attribs[m - 1].size * SizeByType(attribs[m - 1].kind) > 0;
  }

  /** A draw of no vertices ends in an empty read, if it sends any array. */
  predicate EndsEmpty(c: Call) {
    c.Arrays? && !c.bound && c.tracked.num > 0 && c.count <= 0
  }

  /** Every faithful call is received as it is sent, and on its own bytes alone exactly when it does not
      end in an empty read. */
  lemma FaithfulIsSendable(c: Call)
    requires Callable(c) && Faithful(c)
    ensures Sendable(RequestOf(c)) && (Complete(RequestOf(c)) <==> !EndsEmpty(c))
  {
    hide ReadyToDraw, EnabledPrefix, Walkable, GathersSome, AllFit, EndsInData, SentAttribs, Slice, WalkDefined;
    if Draws(c) {
      var slots := c.tracked.attribs[..c.tracked.num];
      var base := if c.Arrays? then c.first else 0;
      var n := if c.Arrays? then c.count else Shipped(c.mem, c.indices, c.count, c.kind);
      ReadyIsPrefix(c.tracked);
      DefinedKinds(c.mem, slots, base, n, c.bound);
      if slots != [] { LastGathers(c.tracked.attribs, c.tracked.num, n); }
      DrawFitsExactly(c.mem, slots, base, n, c.bound);
      EndsExactly(c.mem, slots, base, n, c.bound);
    }
  }

  // ---------------------------------------------------------------- sequences of calls

  ghost predicate AllFaithful(calls: seq<Call>) {
    forall i :: 0 <= i < |calls| ==> Callable(calls[i]) && Faithful(calls[i])
  }

  function Requests(calls: seq<Call>): (r: seq<Request>)
    requires AllFaithful(calls)
    ensures |r| == |calls| && forall i :: 0 <= i < |r| ==> r[i] == RequestOf(calls[i])
  {
    if |calls| == 0 then [] else [RequestOf(calls[0])] + Requests(calls[1..])
  }

  function MeaningAll(calls: seq<Call>): (r: seq<GlCommand>)
    requires AllFaithful(calls)
    ensures |r| == |calls|
  {
    if |calls| == 0 then []
    else
      MeaningExactly(map[], calls[0]);
      [Meaning(calls[0])] + MeaningAll(calls[1..])
  }

  /** What the handlers of a sequence of requests ask of the real GL. */
  function ObservedAll(formats: map<u32, Format>, rs: seq<Request>): (r: seq<GlCommand>)
    ensures |r| == |rs|
    decreases |rs|
  {
    if rs == [] then [] else [Observed(formats, rs[0])] + ObservedAll(FormatsAfter(formats, rs[0]), rs[1..])
  }

  /** Every array that was enabled before or by an earlier draw is enabled for each draw. */
  predicate KeptEnabled(before: set<u32>, calls: seq<Call>)
    requires AllFaithful(calls)
    decreases |calls|
  {
    |calls| == 0 ||
    (if Draws(calls[0]) then
       var now := EnabledFor(calls[0]);
       before <= now && KeptEnabled(now, calls[1..])
     else KeptEnabled(before, calls[1..]))
  }

  lemma CommandsStep(formats: map<u32, Format>, calls: seq<Call>)
    requires AllFaithful(calls) && |calls| > 0
    ensures ObservedAll(formats, Requests(calls)) == MeaningAll(calls)
       <==> ((Draws(calls[0]) ==> formats.Keys <= EnabledFor(calls[0]))
             && ObservedAll(FormatsAfter(formats, RequestOf(calls[0])), Requests(calls[1..])) == MeaningAll(calls[1..]))
  {
    hide Observed, Meaning, FormatsAfter, Faithful, Callable, EnabledFor, EnabledSized;
    MeaningExactly(formats, calls[0]);
    var observed, others := ObservedAll(formats, Requests(calls)), Requests(calls)[1..];
    assert others == Requests(calls[1..]);
    assert observed[0] == Observed(formats, RequestOf(calls[0])) && MeaningAll(calls)[0] == Meaning(calls[0]);
    assert observed[1..] == ObservedAll(FormatsAfter(formats, RequestOf(calls[0])), others);
    assert MeaningAll(calls)[1..] == MeaningAll(calls[1..]);
    assert observed == [observed[0]] + observed[1..];
    assert MeaningAll(calls) == [MeaningAll(calls)[0]] + MeaningAll(calls)[1..];
  }

  /** The real GL is asked, in order, for exactly what the calls mean if and only if no draw comes while
      an array of an earlier draw is no longer enabled in the client. */
  lemma {:induction false} SameCommandsExactly(formats: map<u32, Format>, calls: seq<Call>)
    requires AllFaithful(calls)
    ensures ObservedAll(formats, Requests(calls)) == MeaningAll(calls) <==> KeptEnabled(formats.Keys, calls)
    decreases |calls|
  {
    hide Observed, Meaning, FormatsAfter, Faithful, Callable, EnabledFor, EnabledSized, ObservedAll, MeaningAll;
    NoCalls(formats);
    if |calls| > 0 {
      CommandsStep(formats, calls);
      EnabledAfter(formats, calls[0]);
      SameCommandsExactly(FormatsAfter(formats, RequestOf(calls[0])), calls[1..]);
      if Draws(calls[0]) && formats.Keys <= EnabledFor(calls[0]) {
        assert formats.Keys + EnabledFor(calls[0]) == EnabledFor(calls[0]);
      }
    }
  }

  lemma NoCalls(formats: map<u32, Format>)
    ensures ObservedAll(formats, Requests([])) == MeaningAll([])
  {
  }

  // ---------------------------------------------------------------- arrays disabled between draws

  lemma DisableLast(t: Tracked)
    requires ReadyToDraw(t) && t.num > 0
    ensures var u := Apply(t, Disable(t.num - 1));
            ReadyToDraw(u) && u.num == t.num - 1
    ensures t.num <= |t.attribs| && t.attribs[t.num - 1].enabled
  {
    hide CountEnabled, Drawable;
    var i := t.num - 1;
    CountBounds(t.attribs);
    SentSlotsExactly(t.attribs);
    CountUpdate(t.attribs, i, t.attribs[i].(enabled := false));
    var u := Apply(t, Disable(i));
    forall k | 0 <= k < |u.attribs| && u.attribs[k].enabled ensures Drawable(u.attribs[k], k) {
      assert u.attribs[k] == t.attribs[k];
    }
  }

  /** Draw, disable the last array, draw again: both calls are faithful, the first draw is as meant, and
      in the second the real GL still draws from the array that was disabled, over memory of the first. */
  lemma DisabledStaysEnabled(first: Call, second: Call)
    requires Callable(first) && Faithful(first) && first.Arrays? && first.tracked.num > 0
    requires Callable(second) && Faithful(second) && second.Arrays?
    requires second.tracked == Apply(first.tracked, Disable(first.tracked.num - 1))
    ensures var formats := FormatsAfter(map[], RequestOf(first));
            && Observed(map[], RequestOf(first)) == Meaning(first)
            && Observed(formats, RequestOf(second)) != Meaning(second)
            && first.tracked.num - 1 in Observed(formats, RequestOf(second)).seen
            && Observed(formats, RequestOf(second)).seen[first.tracked.num - 1].source == Stale
  {
    hide Meaning, Observed, FormatsAfter, RequestOf, Faithful, Callable, EnabledFor, Apply;
    var formats := FormatsAfter(map[], RequestOf(first));
    MeaningExactly(map[], first);
    EnabledAfter(map[], first);
    MeaningExactly(formats, second);
    OneSlotLess(first, second);
    SeenStale(formats, second, first.tracked.num - 1);
  }

  lemma OneSlotLess(first: Call, second: Call)
    requires Callable(first) && Faithful(first) && first.Arrays? && first.tracked.num > 0
    requires Callable(second) && Faithful(second) && second.Arrays?
    requires second.tracked == Apply(first.tracked, Disable(first.tracked.num - 1))
    ensures first.tracked.num - 1 in EnabledFor(first) && first.tracked.num - 1 !in EnabledFor(second)
    ensures second.tracked.num == first.tracked.num - 1
  {
    hide Drawable, CountEnabled, DownwardClosed;
    DisableLast(first.tracked);
  }

  lemma SeenStale(formats: map<u32, Format>, c: Call, slot: u32)
    requires Callable(c) && Faithful(c) && c.Arrays? && slot in formats && slot >= c.tracked.num
    ensures slot in Observed(formats, RequestOf(c)).seen && Observed(formats, RequestOf(c)).seen[slot].source == Stale
  {
    hide LastSent, ReadyToDraw, SentAttribs;
    NotSentNow(c, slot);
  }

  lemma NotSentNow(c: Call, slot: u32)
    requires Callable(c) && Faithful(c) && c.Arrays? && slot >= c.tracked.num
    ensures slot !in LastSent(RequestOf(c).arrays.attribs)
  {
    hide SentAttribs, LastSent, ReadyToDraw;
    ReadyIsPrefix(c.tracked);
    SentIndices(c.mem, c.tracked.attribs, c.tracked.num, c.first, c.count, c.bound);
    LastSentAt(RequestOf(c).arrays.attribs);
  }

  /** There are such calls: with two arrays of one byte each, then one. */
  lemma SuchCallsExist(mem: Memory) returns (first: Call, second: Call)
    ensures Callable(first) && Faithful(first) && first.Arrays? && first.tracked.num > 0
    ensures Callable(second) && Faithful(second) && second.Arrays?
    ensures second.tracked == Apply(first.tracked, Disable(first.tracked.num - 1))
    ensures !first.bound && first.count == 3 && first.tracked.num == 2
    ensures forall i :: 0 <= i < 2 ==> first.tracked.attribs[..2][i] == Attrib(true, i, 1, GL_BYTE, 0, 0, 0)
  {
    var attribs := seq(32, k requires 0 <= k < 32 => Attrib(k < 2, k, 1, GL_BYTE, 0, 0, 0));
    var others := attribs[2..];
    CountBounds(others);
    assert CountEnabled(others) == 0;
    assert attribs[1..][1..] == others;
    assert CountEnabled(attribs[1..]) == 1 && CountEnabled(attribs) == 2;
    var t := Tracked(attribs, 2);
    assert ReadyToDraw(t);
    DisableLast(t);
    ReadyIsPrefix(t);
    ReadyIsPrefix(Apply(t, Disable(1)));
    first := Arrays(mem, t, false, 4, 0, 3);
    second := Arrays(mem, Apply(t, Disable(1)), false, 4, 0, 3);
  }

  lemma BytesCanIndex(c: Call)
    requires c.Elements? && !c.bound && c.count >= 0 && IndexType(c.kind)
    requires ReadyToDraw(c.tracked) && TrackedOk(c.tracked) && c.tracked.num == 2
    requires forall i :: 0 <= i < 2 ==> c.tracked.attribs[..2][i] == Attrib(true, i, 1, GL_BYTE, 0, 0, 0)
    ensures Callable(c) && Faithful(c)
  {
    hide ReadyToDraw, MaxIndex, CountEnabled, Slice;
    var n := Shipped(c.mem, c.indices, c.count, c.kind);
    forall i | 0 <= i < 2
      ensures WalkDefined(c.tracked.attribs[..2][i], 0, n) && Walkable(c.tracked.attribs[..2][i], n)
    {
      assert c.tracked.attribs[..2][i] == Attrib(true, i, 1, GL_BYTE, 0, 0, 0);
      assert n <= 0x1_0000;
    }
  }

  /** And there is a faithful call of every kind. */
  lemma EveryKindExists(mem: Memory) returns (calls: seq<Call>)
    ensures |calls| == 6 && AllFaithful(calls)
    ensures calls[0].Values? && calls[1].Carries? && calls[2].Uploads? && calls[3].Sources?
    ensures calls[4].Arrays? && calls[4].tracked.num > 0 && calls[4].count > 0
    ensures calls[5].Elements? && calls[5].tracked.num > 0 && calls[5].count > 0
  {
    hide ReadyToDraw, GathersWhatIsDue, WalksDefined, MaxIndex;
    var draw, _ := SuchCallsExist(mem);
    var indexed := Elements(mem, draw.tracked, false, 4, 1, GL_UNSIGNED_BYTE, 0);
    BytesCanIndex(indexed);
    calls := [Values(0x3a, [0, 0, 0, 0]), Carries(0x4b, [0, 0, 0, 0], []), Uploads(0, [], 0),
              Sources(mem, 1, 0, [], None, []), draw, indexed];
  }

  predicate NeverDisables(us: seq<Update>) {
    forall i :: 0 <= i < |us| ==> !us[i].Disable?
  }

  lemma {:induction false} EnabledStay(t: Tracked, us: seq<Update>)
    requires NeverDisables(us) && |t.attribs| <= U32_LIMIT
    ensures |ApplyAll(t, us).attribs| == |t.attribs|
    ensures EnabledSlots(t.attribs) <= EnabledSlots(ApplyAll(t, us).attribs)
    decreases |us|
  {
    if us != [] {
      EnabledStay(Apply(t, us[0]), us[1..]);
    }
  }

  /** The draws of a sequence find the client's arrays as the updates made between the calls leave them. */
  predicate Evolves(t: Tracked, calls: seq<Call>, updates: seq<seq<Update>>)
    requires AllFaithful(calls) && |updates| == |calls|
    decreases |calls|
  {
    |calls| == 0 ||
    (var u := ApplyAll(t, updates[0]);
     NeverDisables(updates[0]) && (Draws(calls[0]) ==> calls[0].tracked == u) && Evolves(u, calls[1..], updates[1..]))
  }

  /** There is no stub for disabling an array, and without that no sequence of calls goes wrong. */
  lemma {:induction false} NoDisableNoStale(before: set<u32>, t: Tracked, calls: seq<Call>, updates: seq<seq<Update>>)
    requires AllFaithful(calls) && |updates| == |calls| && Evolves(t, calls, updates)
    requires |t.attribs| <= U32_LIMIT && before <= EnabledSlots(t.attribs)
    ensures KeptEnabled(before, calls)
    decreases |calls|
  {
    hide Faithful, Callable, EnabledSlots;
    if |calls| > 0 {
      EnabledStay(t, updates[0]);
      var u := ApplyAll(t, updates[0]);
      NoDisableNoStale(if Draws(calls[0]) then EnabledFor(calls[0]) else before, u, calls[1..], updates[1..]);
    }
  }
}
