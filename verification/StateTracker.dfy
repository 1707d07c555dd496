/** The client's record of its vertex attribute arrays. */
module StateTracker {
  import opened Bytes
  import opened VertexArrays

  const MAX_NUM_VERTEX_ATTRIBS: nat := 32

  function CountEnabled(attribs: seq<Attrib>): nat {
    if attribs == [] then 0 else (if attribs[0].enabled then 1 else 0) + CountEnabled(attribs[1..])
  }

  lemma {:induction false} CountUpdate(attribs: seq<Attrib>, i: nat, a: Attrib)
    requires i < |attribs|
    ensures CountEnabled(attribs[i := a]) + (if attribs[i].enabled then 1 else 0)
         == CountEnabled(attribs) + if a.enabled then 1 else 0
  {
    if i == 0 {
      assert attribs[i := a][1..] == attribs[1..];
    } else {
      CountUpdate(attribs[1..], i - 1, a);
      assert attribs[i := a][1..] == attribs[1..][i - 1 := a];
    }
  }

  predicate DownwardClosed(attribs: seq<Attrib>) {
    forall i, j :: 0 <= i < j < |attribs| && attribs[j].enabled ==> attribs[i].enabled
  }

  lemma {:induction false} CountBounds(attribs: seq<Attrib>)
    ensures CountEnabled(attribs) <= |attribs|
    ensures CountEnabled(attribs) == 0 <==> forall k :: 0 <= k < |attribs| ==> !attribs[k].enabled
  {
    if attribs != [] {
      CountBounds(attribs[1..]);
      if CountEnabled(attribs) == 0 {
        forall k | 0 <= k < |attribs| ensures !attribs[k].enabled {
          if k > 0 { assert attribs[k] == attribs[1..][k - 1]; }
        }
      }
    }
  }

  /** A draw sends the slots below the count. They are the enabled slots exactly when no enabled slot
      has a disabled one below it. */
  lemma {:induction false} SentSlotsExactly(attribs: seq<Attrib>)
    ensures (forall k :: 0 <= k < |attribs| ==> (k < CountEnabled(attribs) <==> attribs[k].enabled))
       <==> DownwardClosed(attribs)
  {
    CountBounds(attribs);
    if DownwardClosed(attribs) {
      if attribs != [] {
        var rest := attribs[1..];
        SentSlotsExactly(rest);
        CountBounds(rest);
        forall k | 0 <= k < |attribs| ensures k < CountEnabled(attribs) <==> attribs[k].enabled {
          if k > 0 { assert attribs[k] == rest[k - 1]; }
        }
      }
    }
  }

  // ---------------------------------------------------------------- runs of the API

  datatype Update =
    | Enable(slot: nat)
    | Disable(slot: nat)
    | SetPointer(slot: nat, size: i32, kind: u32, normalized: byte, stride: i32, ptr: u64)

  /** The array and the counter beside it. */
  datatype Tracked = Tracked(attribs: seq<Attrib>, num: nat)

  function Apply(t: Tracked, u: Update): Tracked {
    if u.slot >= |t.attribs| then t
    else
      var a := t.attribs[u.slot];
      match u
      case Enable(i) =>
        if a.enabled then t else Tracked(t.attribs[i := a.(enabled := true)], t.num + 1)
      case Disable(i) =>
        if !a.enabled then t
        else Tracked(t.attribs[i := a.(enabled := false)], if t.num > 0 then t.num - 1 else t.num)
      case SetPointer(i, size, kind, normalized, stride, ptr) =>
        if i >= U32_LIMIT then t
        else t.(attribs := t.attribs[i := Attrib(a.enabled, i, size, kind, normalized, stride, ptr)])
  }

  function ApplyAll(t: Tracked, us: seq<Update>): Tracked
    decreases |us|
  {
    if us == [] then t else ApplyAll(Apply(t, us[0]), us[1..])
  }

  function Cleared(): Attrib {
    Attrib(false, 0, 0, 0, 0, 0, 0)
  }

  /** The state a thread starts with. */
  function Start(): Tracked {
    Tracked(seq(MAX_NUM_VERTEX_ATTRIBS, _ => Cleared()), 0)
  }

  lemma StartsCleared(k: nat)
    requires k < 32
    ensures Start().num == 0 && |Start().attribs| == 32
    ensures Start().attribs[k] == Attrib(false, 0, 0, 0, 0, 0, 0)
  {
  }

  /** The pointer update that counts for a slot is the last one made to it. */
  predicate LastPointer(us: seq<Update>, j: nat, slot: nat) {
    && j < |us| && us[j].SetPointer? && us[j].slot == slot
    && forall i :: j < i < |us| && us[i].slot == slot ==> !us[i].SetPointer?
  }

  /** The update that turned a slot on or off is the last one that did either. */
  predicate LastSwitch(us: seq<Update>, j: nat, slot: nat) {
    && j < |us| && !us[j].SetPointer? && us[j].slot == slot
    && forall i :: j < i < |us| && us[i].slot == slot ==> us[i].SetPointer?
  }

  lemma {:induction false} ApplyAllSplit(t: Tracked, us: seq<Update>)
    requires us != []
    ensures ApplyAll(t, us) == Apply(ApplyAll(t, us[..|us| - 1]), us[|us| - 1])
    decreases |us|
  {
    if |us| == 1 {
      assert us[..0] == [] && us[1..] == [];
    } else {
      ApplyAllSplit(Apply(t, us[0]), us[1..]);
      assert us[1..][..|us| - 2] == us[..|us| - 1][1..];
    }
  }

  lemma {:induction false} SlotsStay(t: Tracked, us: seq<Update>)
    ensures |ApplyAll(t, us).attribs| == |t.attribs|
    decreases |us|
  {
    if us != [] {
      SlotsStay(Apply(t, us[0]), us[1..]);
    }
  }

  /** After any run of updates a slot has the arguments of the last pointer update made to it. */
  lemma {:induction false} PointerRemembered(t: Tracked, us: seq<Update>, j: nat, slot: nat)
    requires slot < |t.attribs| <= U32_LIMIT && LastPointer(us, j, slot)
    ensures |ApplyAll(t, us).attribs| == |t.attribs|
    ensures var a, u := ApplyAll(t, us).attribs[slot], us[j];
            && a.index == slot && a.size == u.size && a.kind == u.kind && a.normalized == u.normalized
            && a.stride == u.stride && a.ptr == u.ptr
    decreases |us|
  {
    var n := |us| - 1;
    SlotsStay(t, us);
    SlotsStay(t, us[..n]);
    ApplyAllSplit(t, us);
    if j < n {
      PointerRemembered(t, us[..n], j, slot);
    }
  }

  /** And it is enabled if and only if the last update that switched it was an enable. */
  lemma {:induction false} SwitchRemembered(t: Tracked, us: seq<Update>, j: nat, slot: nat)
    requires slot < |t.attribs| <= U32_LIMIT && LastSwitch(us, j, slot)
    ensures |ApplyAll(t, us).attribs| == |t.attribs|
    ensures ApplyAll(t, us).attribs[slot].enabled <==> us[j].Enable?
    decreases |us|
  {
    var n := |us| - 1;
    SlotsStay(t, us);
    SlotsStay(t, us[..n]);
    ApplyAllSplit(t, us);
    if j < n {
      SwitchRemembered(t, us[..n], j, slot);
    }
  }

  /** A slot whose pointer was never set still has its zeros. */
  predicate Configured(a: Attrib) {
    a.size != 0
  }

  ghost predicate Consistent(t: Tracked) {
    && |t.attribs| == MAX_NUM_VERTEX_ATTRIBS
    && t.num == CountEnabled(t.attribs)
    && forall k :: 0 <= k < |t.attribs| && Configured(t.attribs[k]) ==> t.attribs[k].index == k
  }

  lemma ApplyKeeps(t: Tracked, u: Update)
    requires Consistent(t)
    ensures Consistent(Apply(t, u))
  {
    if u.slot < |t.attribs| {
      CountUpdate(t.attribs, u.slot, Apply(t, u).attribs[u.slot]);
    }
  }

  lemma {:induction false} ApplyAllKeeps(t: Tracked, us: seq<Update>)
    requires Consistent(t)
    ensures Consistent(ApplyAll(t, us))
    decreases |us|
  {
    if us != [] {
      ApplyKeeps(t, us[0]);
      ApplyAllKeeps(Apply(t, us[0]), us[1..]);
    }
  }

  lemma {:induction false} NoneEnabled(n: nat)
    ensures CountEnabled(seq(n, _ => Cleared())) == 0
  {
    if n > 0 {
      NoneEnabled(n - 1);
      assert seq(n, _ => Cleared())[1..] == seq(n - 1, _ => Cleared());
    }
  }

  /** After any run of enables, disables and pointer updates the counter is the number of enabled
      slots, so a draw sends exactly the enabled slots if and only if they are a prefix; and every
      slot that was given a pointer names itself. */
  lemma AnyRun(us: seq<Update>)
    ensures var t := ApplyAll(Start(), us);
            && t.num == CountEnabled(t.attribs) <= |t.attribs| == MAX_NUM_VERTEX_ATTRIBS
            && ((forall k :: 0 <= k < |t.attribs| ==> (k < t.num <==> t.attribs[k].enabled))
                <==> DownwardClosed(t.attribs))
            && (forall k :: 0 <= k < |t.attribs| && Configured(t.attribs[k]) ==> t.attribs[k].index == k)
  {
    NoneEnabled(MAX_NUM_VERTEX_ATTRIBS);
    ApplyAllKeeps(Start(), us);
    var t := ApplyAll(Start(), us);
    CountBounds(t.attribs);
    SentSlotsExactly(t.attribs);
  }

  // ---------------------------------------------------------------- the tracker itself

  class VertexAttribs {
    const attribs: array<Attrib>
    var numEnabled: nat

    ghost predicate Valid()
      reads this, attribs
    {
      Consistent(Now())
    }

    ghost function Now(): Tracked
      reads this, attribs
    {
      Tracked(attribs[..], numEnabled)
    }

    constructor ()
      ensures Valid() && Now() == Start() && fresh(attribs)
    {
      attribs := new Attrib[MAX_NUM_VERTEX_ATTRIBS](_ => Cleared());
      numEnabled := 0;
      new;
      assert attribs[..] == seq(MAX_NUM_VERTEX_ATTRIBS, _ => Cleared());
      NoneEnabled(MAX_NUM_VERTEX_ATTRIBS);
    }

    method IncNumEnabled()
      modifies this`numEnabled
      ensures numEnabled == old(numEnabled) + 1
    {
      numEnabled := numEnabled + 1;
    }

    method DecNumEnabled()
      modifies this`numEnabled
      ensures numEnabled == if old(numEnabled) > 0 then old(numEnabled) - 1 else 0
    {
      if numEnabled > 0 {
        numEnabled := numEnabled - 1;
      }
    }

    method EnableVertexAttrib(index: nat)
      requires Valid() && index < MAX_NUM_VERTEX_ATTRIBS
      modifies this`numEnabled, attribs
      ensures Valid() && Now() == Apply(old(Now()), Enable(index))
      ensures attribs[..] == old(attribs[..])[index := old(attribs[index]).(enabled := true)]
      ensures numEnabled == old(numEnabled) + if old(attribs[index].enabled) then 0 else 1
    {
      ApplyKeeps(Now(), Enable(index));
      if !attribs[index].enabled {
        attribs[index] := attribs[index].(enabled := true);
        IncNumEnabled();
      }
    }

    method DisableVertexAttrib(index: nat)
      requires Valid() && index < MAX_NUM_VERTEX_ATTRIBS
      modifies this`numEnabled, attribs
      ensures Valid() && Now() == Apply(old(Now()), Disable(index))
      ensures attribs[..] == old(attribs[..])[index := old(attribs[index]).(enabled := false)]
      ensures numEnabled == old(numEnabled) - if old(attribs[index].enabled) then 1 else 0
    {
      ApplyKeeps(Now(), Disable(index));
      CountBounds(attribs[..]);
      if attribs[index].enabled {
        attribs[index] := attribs[index].(enabled := false);
        DecNumEnabled();
      }
    }

    method VertexAttribPointer(index: nat, size: i32, kind: u32, normalized: byte, stride: i32, ptr: u64)
      requires Valid() && index < MAX_NUM_VERTEX_ATTRIBS
      modifies attribs
      ensures Valid() && Now() == Apply(old(Now()), SetPointer(index, size, kind, normalized, stride, ptr))
      ensures attribs[index].enabled == old(attribs[index].enabled) && attribs[index].index == index
      ensures attribs[index].size == size && attribs[index].kind == kind && attribs[index].normalized == normalized
      ensures attribs[index].stride == stride && attribs[index].ptr == ptr
      ensures forall k :: 0 <= k < attribs.Length && k != index ==> attribs[k] == old(attribs[k])
    {
      ApplyKeeps(Now(), SetPointer(index, size, kind, normalized, stride, ptr));
      attribs[index] := Attrib(attribs[index].enabled, index, size, kind, normalized, stride, ptr);
    }

    /** What a draw is to send: the slots below the counter. */
    method GetEnabledVertexAttribs() returns (slots: seq<Attrib>)
      requires Valid()
      ensures slots <= Now().attribs && |slots| == CountEnabled(Now().attribs)
      ensures DownwardClosed(Now().attribs) ==>
                forall k :: 0 <= k < |Now().attribs| ==> (k < |slots| <==> Now().attribs[k].enabled)
    {
      CountBounds(attribs[..]);
      SentSlotsExactly(attribs[..]);
      slots := attribs[..numEnabled];
    }
  }
}
