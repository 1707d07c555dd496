/** What calls made directly mean, in terms of the client's memory. */
module GlesDirect {
  import opened Bytes
  import opened Serializer
  import opened VertexArrays
  import opened StateTracker
  import opened GlesWire
  import opened GlesFrames
  import opened GlesCalls
  import opened GlesServer
  import opened GlesMeaning
  import opened GlesProgram

  /** Calls without client memory pass their arguments on. */
  lemma PassedOn(c: Call)
    requires Callable(c)
    ensures c.Values? ==> Meaning(c) == Invoke(c.cmd, c.args, [])
    ensures c.Carries? ==> Meaning(c) == Invoke(c.cmd, c.args, c.data)
    ensures c.Uploads? ==> Meaning(c) == Upload(c.target, c.data, c.usage)
  {
  }

  /** A shader gets each string from where it starts, as long as it is said to be, or up to its NUL. */
  lemma TextsOf(c: Call, i: nat, b: nat)
    requires Callable(c) && c.Sources? && i < |c.strings|
    ensures var m := Meaning(c);
            m.SetSource? && m.shader == c.shader && m.count == Unsigned(c.count) && |m.texts| == |c.strings|
    ensures var text := Meaning(c).texts[i];
            && |text| == (if c.lengths.None? || c.lengths.value[i] < 0 then c.lens[i] else c.lengths.value[i])
            && (b < |text| ==> text[b] == c.mem(c.strings[i] + b))
  {
    hide IsString;
  }

  /** A draw sees the arrays enabled in the client, and no others, each in the format of its last pointer
      update. */
  lemma ArraysSeen(c: Call, k: u32)
    requires Callable(c) && Faithful(c) && Draws(c)
    ensures EnabledSized(c.tracked.attribs)
    ensures (Meaning(c).Draw? || Meaning(c).DrawBound?) && Meaning(c).mode == c.mode
    ensures Meaning(c).cmd == if c.Arrays? then 0x3e else 0x48
    ensures Meaning(c).count == Unsigned(c.count)
    ensures k in Meaning(c).seen <==> k < 32 && c.tracked.attribs[k].enabled
    ensures k in Meaning(c).seen ==>
              var a := c.tracked.attribs[k]; Meaning(c).seen[k].format == Format(Unsigned(a.size), a.kind, a.normalized)
  {
    hide CountEnabled, GathersWhatIsDue, WalksDefined, DownwardClosed, ElementList, Numbers, Fetch;
    ReadyIsPrefix(c.tracked);
  }

  /** Element `i` of a draw is vertex `first + i`: byte `b` of component `d` is the one in the client's memory. */
  lemma VertexDrawn(c: Call, k: u32, i: nat, d: nat, b: nat, bytes: nat)
    requires Callable(c) && Faithful(c) && c.Arrays? && !c.bound
    requires k < 32 && c.tracked.attribs[k].enabled && i < c.count && d < c.tracked.attribs[k].size && b < bytes
    requires (c.tracked.attribs[k].kind, bytes)
          in {(0x1400, 1), (0x1401, 1), (0x1402, 2), (0x1403, 2), (0x140C, 4), (0x1406, 4)}
    ensures EnabledSized(c.tracked.attribs)
    ensures Meaning(c).Draw? && k in Meaning(c).seen && Meaning(c).seen[k].source.Fetched?
    ensures var elements := Meaning(c).seen[k].source.elements;
            var a := c.tracked.attribs[k];
            && |elements| == c.count && 0 <= d * bytes + b < |elements[i]| == a.size * bytes
            && elements[i][d * bytes + b]
               == c.mem(a.ptr + (c.first + i) * (if a.stride == 0 then a.size * bytes else a.stride) + d * bytes + b)
  {
    hide CountEnabled, GathersWhatIsDue, WalksDefined, DownwardClosed, Fetch;
    ReadyIsPrefix(c.tracked);
    FetchIs(c.mem, c.tracked.attribs[k], c.first + i, d, b, bytes);
  }

  /** Element `i` of an indexed draw is the vertex its index says, a byte or a short with its low byte first. */
  lemma IndexDrawn(c: Call, k: u32, i: nat, d: nat, b: nat, bytes: nat)
    requires Callable(c) && Faithful(c) && c.Elements?
    requires k < 32 && c.tracked.attribs[k].enabled && i < c.count && d < c.tracked.attribs[k].size && b < bytes
    requires (c.tracked.attribs[k].kind, bytes)
          in {(0x1400, 1), (0x1401, 1), (0x1402, 2), (0x1403, 2), (0x140C, 4), (0x1406, 4)}
    ensures EnabledSized(c.tracked.attribs)
    ensures Meaning(c).Draw? && k in Meaning(c).seen && Meaning(c).seen[k].source.Fetched?
    ensures var elements := Meaning(c).seen[k].source.elements;
            var a, at := c.tracked.attribs[k], c.indices;
            var v := if c.kind == 0x1401 then c.mem(at + i) as nat
                     else c.mem(at + 2 * i) as nat + 0x100 * (c.mem(at + 2 * i + 1) as nat);
            && |elements| == c.count && 0 <= d * bytes + b < |elements[i]| == a.size * bytes
            && elements[i][d * bytes + b]
               == c.mem(a.ptr + v * (if a.stride == 0 then a.size * bytes else a.stride) + d * bytes + b)
  {
    hide CountEnabled, GathersWhatIsDue, WalksDefined, DownwardClosed, Fetch, MaxIndex;
    ReadyIsPrefix(c.tracked);
    ElementBound(c.kind, c.count, i);
    var v := ElementAt(c.kind, IndexBytes(c.mem, c.indices, c.count, c.kind), i);
    FetchIs(c.mem, c.tracked.attribs[k], v, d, b, bytes);
  }

  /** With a buffer bound a draw goes over the elements from `first` on, from the places in the buffer that
      the pointer updates gave. */
  lemma BufferDrawn(c: Call, k: u32, i: nat)
    requires Callable(c) && Faithful(c) && c.Arrays? && c.bound
    requires k < 32 && c.tracked.attribs[k].enabled && i < c.count
    ensures EnabledSized(c.tracked.attribs)
    ensures Meaning(c).DrawBound? && |Meaning(c).elements| == c.count && Meaning(c).elements[i] == c.first + i
    ensures k in Meaning(c).seen
    ensures Meaning(c).seen[k].source == InBuffer(c.tracked.attribs[k].stride, c.tracked.attribs[k].ptr)
  {
    hide CountEnabled, GathersWhatIsDue, WalksDefined, DownwardClosed;
    ReadyIsPrefix(c.tracked);
  }

  /** A draw after any run of updates uses what the last pointer update of each slot said. */
  lemma DrawsLastPointer(us: seq<Update>, j: nat, c: Call, k: u32)
    requires Callable(c) && Faithful(c) && Draws(c) && c.tracked == ApplyAll(Start(), us)
    requires k < 32 && LastPointer(us, j, k)
    ensures var a, u := c.tracked.attribs[k], us[j];
            && a.index == k && a.size == u.size && a.kind == u.kind && a.normalized == u.normalized
            && a.stride == u.stride && a.ptr == u.ptr
  {
    hide Callable, Faithful, ApplyAll;
    PointerRemembered(Start(), us, j, k);
  }

  /** What reading an index array gives is the list that was laid out. */
  lemma ElementsOfBytes(xs: seq<nat>)
    requires forall i :: 0 <= i < |xs| ==> xs[i] < 0x100
    ensures ElementList(0x1401, ByteIndices(xs), |xs|) == xs
  {
    hide IndexAt, ByteIndices, ShortIndices;
    forall i: nat | i < |xs| ensures ElementAt(0x1401, ByteIndices(xs), i) == xs[i] {
      IndexOfList(xs, i);
    }
  }

  lemma ElementsOfShorts(xs: seq<nat>)
    requires forall i :: 0 <= i < |xs| ==> xs[i] < 0x1_0000
    ensures ElementList(0x1403, ShortIndices(xs), |xs|) == xs
  {
    hide IndexAt, ByteIndices, ShortIndices;
    forall i: nat | i < |xs| ensures ElementAt(0x1403, ShortIndices(xs), i) == xs[i] {
      IndexOfList(xs, i);
    }
  }
}
