/** What the server sends back, against what the client stubs receive. */
module GlesReplies {
  import opened Bytes
  import opened Serializer
  import opened Wire
  import opened GlesWire
  import opened GlesFrames
  import opened GlesServer
  import opened GlesRemote
  import opened GlesHandlers
  import opened GlesStubs

  /** The commands whose stubs receive a reply, and how much behind the call id. */
  lemma StubsThatReceive(r: Request)
    requires Sendable(r)
    ensures StubReceives(r).Some? <==> Command(r) in {0x2b, 0x2e, 0x31, 0x35, 0x3f, 0x40, 0x42, 0x49, 0x4a, 0x4c}
    ensures Command(r) in {0x2b, 0x2e, 0x31, 0x35, 0x3f, 0x49, 0x4a} ==> StubReceives(r) == Some(4)
    ensures Command(r) == 0x40 ==> StubReceives(r) == Some(0)
    ensures Command(r) == 0x42 || Command(r) == 0x4c ==>
              r.Plain? && |r.args| == 4 &&
              (Signed(DecodeU32(r.args)) >= 0 ==> StubReceives(r) == Some(4 * DecodeU32(r.args)))
  {
    hide AllFit, DecodeU32;
  }

  /** For the request of any stub, whatever follows it, a turn of the dispatch loop sends the call id and what
      GL returns if the stub receives something, and else nothing. */
  lemma ReplyToFrame<G>(gl: Gl<G>, s: State<G>, id: u32, r: Request, rest: seq<byte>)
    requires Sendable(r) && (rest != [] || Complete(r))
    ensures Receive(Frame(id, r) + rest) == Got(r, rest)
    ensures ReplyTo(gl, s, Frame(id, r) + rest, r)
         == if StubReceives(r).Some? then EncodeU32(id) + gl(s.g, Observed(s.formats, r)).1 else []
    ensures Execute(gl, s, r).0.g == gl(s.g, Observed(s.formats, r)).0
  {
    hide Receive, Answers, StubReceives, ReplyLength, HandlerForm, Body, Complete, Encodable, AllFit, StubForm;
    ReceivesFrame(id, r, rest);
    HandledInForm(r);
    RepliesAsAwaited(r);
    CallIdInFrame(id, r, rest);
    GlIsAsked(s.formats, r);
  }

  lemma CallIdInFrame(id: u32, r: Request, rest: seq<byte>)
    requires Encodable(r)
    ensures |Frame(id, r) + rest| >= 8 && (Frame(id, r) + rest)[4..8] == EncodeU32(id)
  {
    hide EncodeU32, Body;
  }

  lemma GlIsAsked(formats: map<u32, Format>, r: Request)
    requires Sendable(r)
    ensures Observed(formats, r) != Nothing
  {
    hide AllFit, StubForm;
  }

  /** As much as the stub receives. */
  lemma ReplyHasLength<G(!new)>(gl: Gl<G>, s: State<G>, id: u32, r: Request, rest: seq<byte>)
    requires GoodGl(gl) && Sendable(r) && (rest != [] || Complete(r)) && StubReceives(r).Some?
    ensures |ReplyTo(gl, s, Frame(id, r) + rest, r)| == 4 + StubReceives(r).value
    ensures ReplyTo(gl, s, Frame(id, r) + rest, r)[..4] == EncodeU32(id)
  {
    hide Receive, Answers, StubReceives, ReplyLength, HandlerForm, Frame, Complete, Encodable, AllFit, StubForm,
      ReplyTo, GoodGl, Observed, EncodeU32;
    ReplyToFrame(gl, s, id, r, rest);
    HandledInForm(r);
    RepliesAsAwaited(r);
    AnsweredInFull(gl, s, r);
    GlIsAsked(s.formats, r);
  }

  /** The reply to glGetShaderiv is what its stub waits for. */
  lemma ShaderivIsAnswered<G(!new)>(gl: Gl<G>, s: State<G>, id: u32, shader: u32, pname: u32, rest: seq<byte>)
    requires GoodGl(gl)
    ensures var r := Plain(0x2e, EncodeU32(shader) + EncodeU32(pname));
            var reply := ReplyTo(gl, s, Frame(id, r) + rest, r);
            |reply| == U32_SIZE + 4 && reply[..U32_SIZE] == EncodeU32(id)
  {
    hide ReplyTo, Frame, EncodeU32, GoodGl;
    ReplyHasLength(gl, s, id, Plain(0x2e, EncodeU32(shader) + EncodeU32(pname)), rest);
  }

  /** So is that to glGenTextures, if it is for some names. */
  lemma NamesAreAnswered<G(!new)>(gl: Gl<G>, s: State<G>, id: u32, n: i32, rest: seq<byte>)
    requires GoodGl(gl) && n > 0
    ensures var r := Plain(0x42, EncodeU32(Unsigned(n)));
            var reply := ReplyTo(gl, s, Frame(id, r) + rest, r);
            |reply| == U32_SIZE + 4 * n && reply[..U32_SIZE] == EncodeU32(id) && ReceiveNames(reply, n).Got?
  {
    hide ReplyTo, Frame, EncodeU32, DecodeU32, GoodGl;
    U32RoundTrip(Unsigned(n));
    ReplyHasLength(gl, s, id, Plain(0x42, EncodeU32(Unsigned(n))), rest);
  }

  /** The loop serves the requests of a thread one after the other: the first with its reply, and then the
      others in the state that leaves. */
  lemma ServesInOrder<G>(gl: Gl<G>, s: State<G>, id: u32, rs: seq<Request>, rest: seq<byte>)
    requires forall i :: 0 <= i < |rs| ==> Sendable(rs[i])
    requires rest != [] || rs == [] || Complete(rs[|rs| - 1])
    ensures rs == [] ==> Served(gl, s, Frames(id, rs) + rest, |rs|) == (s, [])
    ensures rs != [] ==>
              var (t, replies) := Served(gl, Execute(gl, s, rs[0]).0, Frames(id, rs[1..]) + rest, |rs| - 1);
              var value := gl(s.g, Observed(s.formats, rs[0])).1;
              Served(gl, s, Frames(id, rs) + rest, |rs|)
                == (t, (if StubReceives(rs[0]).Some? then EncodeU32(id) + value else []) + replies)
  {
    hide Receive, StubReceives, Frame, Complete, AllFit, StubForm, ReplyTo, Execute, Observed, Encodable;
    if rs != [] {
      var tail := Frames(id, rs[1..]) + rest;
      if |rs| > 1 { FramesNonempty(id, rs[1..]); }
      ReplyToFrame(gl, s, id, rs[0], tail);
      Assoc(Frame(id, rs[0]), Frames(id, rs[1..]), rest);
    }
  }
}
