/** Calls over one shared transport: any number of client threads, one sequential server, a bounded
    byte queue each way and a lock for each. Every acquisition, release, peek, comparison and take
    is a step, and every byte written or read, so all chunkings are covered. What the handlers and
    the stubs read is a parameter: how far a request reaches is known only by reading it. */
module RpcMachine {
  import opened Bytes

  /** `more(b)`: a handler that has received `b`, command id included, receives another byte.
      `lingers(b)`: one that has received all of `b` ends with an empty read, which waits for a byte to
      be there and leaves it. `exec` runs a received request and yields the payload of its reply;
      `answers` tells requests to which the handler replies from the others; `awaits` tells those for
      whose reply the stub waits; `wants(f, p)`: the stub that sent `f` receives another byte after `p`. */
  datatype Service<!H> = Service(
    more: seq<byte> -> bool,
    lingers: seq<byte> -> bool,
    exec: (H, seq<byte>) -> (H, seq<byte>),
    answers: seq<byte> -> bool,
    awaits: seq<byte> -> bool,
    wants: (seq<byte>, seq<byte>) -> bool)

  /** `locked` is false for a transport its client uses without locks. */
  datatype Config<!H> = Config(
    service: Service<H>, ids: seq<u32>, callCap: nat, retCap: nat, locked: bool)

  datatype Holder = Free | By(client: nat)

  datatype ClientPc =
    | CIdle | CWantCall | CSend(sent: nat) | CUnlockCall
    | CWantRet | CPeek | CMatched | CMissed | CRead | CUnlockRet

  /** A thread with the request it is at, those to come, the payload received so far for the
      current one, and the payloads its finished calls returned. */
  datatype Client = Client(
    pc: ClientPc, job: seq<byte>, jobs: seq<seq<byte>>, got: seq<byte>, results: seq<seq<byte>>)

  datatype Server = Receiving(buf: seq<byte>) | Replying(rest: seq<byte>)

  datatype Pending = Pending(client: nat, frame: seq<byte>)
  datatype Executed = Executed(client: nat, frame: seq<byte>, payload: seq<byte>)

  /** The last three fields are history: requests begun and not executed, replies not consumed to
      the end, and everything executed, each in order. No step depends on them. */
  datatype System<H> = System(
    call: seq<byte>, ret: seq<byte>, callLock: Holder, retLock: Holder,
    clients: seq<Client>, server: Server, heap: H,
    pending: seq<Pending>, due: seq<Executed>, log: seq<Executed>)

  // ---------------------------------------------------------------- clients

  predicate ClientCan<H>(cfg: Config<H>, s: System<H>, c: nat)
    requires c < |s.clients|
  {
    var k := s.clients[c];
    match k.pc
    case CIdle => k.jobs != []
    case CWantCall => s.callLock == Free || !cfg.locked
    case CSend(sent) => sent < |k.job| ==> |s.call| < cfg.callCap
    case CWantRet => s.retLock == Free || !cfg.locked
    case CPeek => |s.ret| >= U32_SIZE
    case CMatched => |s.ret| >= U32_SIZE
    case CRead => cfg.service.wants(k.job, k.got) ==> s.ret != []
    case _ => true
  }

  function ClientStep<H>(cfg: Config<H>, s: System<H>, c: nat): System<H>
    requires c < |s.clients| == |cfg.ids| && ClientCan(cfg, s, c)
  {
    var k := s.clients[c];
    match k.pc
    case CIdle =>
      s.(clients := s.clients[c := k.(pc := CWantCall, job := k.jobs[0], jobs := k.jobs[1..])])
    case CWantCall =>
      s.(clients := s.clients[c := k.(pc := CSend(0))], callLock := By(c),
         pending := s.pending + [Pending(c, k.job)])
    case CSend(sent) =>
      if sent < |k.job| then
        s.(clients := s.clients[c := k.(pc := CSend(sent + 1))], call := s.call + [k.job[sent]])
      else
        s.(clients := s.clients[c := k.(pc := CUnlockCall)])
    case CUnlockCall =>
      s.(clients := s.clients[c := k.(pc := if cfg.service.awaits(k.job) then CWantRet else CIdle)],
         callLock := Free)
    case CWantRet =>
      s.(clients := s.clients[c := k.(pc := CPeek)], retLock := By(c))
    case CPeek =>
      s.(clients := s.clients[c := k.(pc := if s.ret[..U32_SIZE] == EncodeU32(cfg.ids[c]) then CMatched else CMissed)])
    case CMissed =>
      s.(clients := s.clients[c := k.(pc := CWantRet)], retLock := Free)
    case CMatched =>
      s.(clients := s.clients[c := k.(pc := CRead, got := [])], ret := s.ret[U32_SIZE..])
    case CRead =>
      if cfg.service.wants(k.job, k.got) then
        s.(clients := s.clients[c := k.(got := k.got + [s.ret[0]])], ret := s.ret[1..])
      else
        s.(clients := s.clients[c := k.(pc := CUnlockRet, results := k.results + [k.got])],
           due := if s.due == [] then [] else s.due[1..])
    case CUnlockRet =>
      s.(clients := s.clients[c := k.(pc := CIdle)], retLock := Free)
  }

  // ---------------------------------------------------------------- the server

  predicate ServerCan<H>(cfg: Config<H>, s: System<H>) {
    match s.server
    case Receiving(buf) => cfg.service.more(buf) || cfg.service.lingers(buf) ==> s.call != []
    case Replying(rest) => rest == [] || |s.ret| < cfg.retCap
  }

  function ServerStep<H>(cfg: Config<H>, s: System<H>): System<H>
    requires ServerCan(cfg, s)
  {
    match s.server
    case Receiving(buf) =>
      if cfg.service.more(buf) then s.(server := Receiving(buf + [s.call[0]]), call := s.call[1..])
      else Execute(cfg, s, buf)
    case Replying(rest) =>
      if rest == [] then s.(server := Receiving([]))
      else s.(server := Replying(rest[1..]), ret := s.ret + [rest[0]])
  }

  /** Run a received request; a reply starts with the call id that came with the request. */
  function Execute<H>(cfg: Config<H>, s: System<H>, frame: seq<byte>): System<H> {
    var (heap, payload) := cfg.service.exec(s.heap, frame);
    var who := if s.pending == [] then 0 else s.pending[0].client;
    var done := Executed(who, frame, payload);
    var t := s.(heap := heap, log := s.log + [done], pending := if s.pending == [] then [] else s.pending[1..]);
    if cfg.service.answers(frame) then
      t.(server := Replying((if |frame| < 8 then [] else frame[4..8]) + payload), due := s.due + [done])
    else t.(server := Receiving([]))
  }

  // ---------------------------------------------------------------- runs

  datatype Move = ClientMoves(client: nat) | ServerMoves

  ghost predicate Next<H>(cfg: Config<H>, s: System<H>, m: Move, t: System<H>) {
    match m
    case ClientMoves(c) => c < |s.clients| == |cfg.ids| && ClientCan(cfg, s, c) && t == ClientStep(cfg, s, c)
    case ServerMoves => ServerCan(cfg, s) && t == ServerStep(cfg, s)
  }

  ghost predicate Run<H>(cfg: Config<H>, states: seq<System<H>>, moves: seq<Move>) {
    && |states| == |moves| + 1
    && forall i :: 0 <= i < |moves| ==> Next(cfg, states[i], moves[i], states[i + 1])
  }

  predicate Init<H>(s: System<H>) {
    && s.call == [] && s.ret == [] && s.callLock == Free && s.retLock == Free
    && s.server == Receiving([]) && s.pending == [] && s.due == [] && s.log == []
    && forall c :: 0 <= c < |s.clients| ==> s.clients[c].pc == CIdle && s.clients[c].results == []
  }

  // ---------------------------------------------------------------- what is asked of a service

  /** A handler reads exactly this request: it needs every byte of it and none beyond. */
  ghost predicate ExactRequest<H>(svc: Service<H>, f: seq<byte>) {
    && !svc.more(f)
    && forall k :: 0 <= k < |f| ==> svc.more(f[..k])
  }

  /** A stub reads exactly this payload. */
  ghost predicate ExactReply<H>(svc: Service<H>, f: seq<byte>, p: seq<byte>) {
    && !svc.wants(f, p)
    && forall k :: 0 <= k < |p| ==> svc.wants(f, p[..k])
  }

  /** A request as the stubs build it: command id, call id, arguments. The handler replies if the stub
      waits for it, and then it does not end with an empty read. */
  ghost predicate GoodRequest<H>(svc: Service<H>, id: u32, f: seq<byte>) {
    && |f| >= 8 && f[4..8] == EncodeU32(id) && ExactRequest(svc, f)
    && (svc.awaits(f) <==> svc.answers(f)) && (svc.lingers(f) ==> !svc.answers(f))
  }

  /** Handlers start by reading, and answer what the stub that sent the request reads. */
  ghost predicate GoodService<H(!new)>(svc: Service<H>) {
    && svc.more([])
    && forall h: H, f: seq<byte> :: ExactRequest(svc, f) && svc.answers(f) ==> ExactReply(svc, f, svc.exec(h, f).1)
  }

  ghost predicate GoodConfig<H(!new)>(cfg: Config<H>) {
    && GoodService(cfg.service)
    && (forall i, j :: 0 <= i < j < |cfg.ids| ==> cfg.ids[i] != cfg.ids[j])
    && cfg.callCap >= 1 && cfg.retCap >= U32_SIZE
    && (cfg.locked || |cfg.ids| == 1)
  }

  ghost predicate GoodJobs<H>(cfg: Config<H>, clients: seq<Client>) {
    && |clients| == |cfg.ids|
    && forall c, i :: 0 <= c < |clients| && 0 <= i < |clients[c].jobs| ==>
         GoodRequest(cfg.service, cfg.ids[c], clients[c].jobs[i])
  }
}
