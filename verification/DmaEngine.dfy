/** The SPI bridge's DMA engine, the sender that drains its requests, and a device that answers each. */
module DmaEngine {
  import opened Options
  import opened PowersOfTwo
  import opened Shifts
  import opened FrameParser

  const ADDR_SPACE := 0x1_0000_0000
  const BEAT_SPACE := 0x1_0000

  /** A request's fields that are not the same in all of them. */
  datatype TlA = TlA(put: bool, address: nat, data: nat)

  // ---------------------------------------------------------------------------
  // The engine
  // ---------------------------------------------------------------------------

  /** The cells. Phases: 0 idle, 1 read send, 2 read wait, 3 write accumulate, 4 write send, 5 write wait. */
  datatype Engine = Engine(phase: nat, addr: nat, len: nat, beat: nat, word: nat, ptr: nat)

  datatype EngineDoes = EngineDoes(engine: Engine, takesDesc: bool, takesByte: bool, takesD: bool,
                                   req: Option<TlA>, rdData: Option<nat>)

  /** `wa | (byte << shift)`: the emitter makes the shift 32 bits wide, and the or 128. */
  function Accumulate(word: nat, byte: Byte, ptr: nat): nat {
    Or(word, Left(byte, 8 * ptr) % ADDR_SPACE)
  }

  function Address(e: Engine): nat {
    (e.addr + 16 * e.beat) % ADDR_SPACE
  }

  function EngineTick(e: Engine, desc: Option<Desc>, byte: Option<Byte>, d: Option<nat>): EngineDoes {
    if e.phase == 0 then
      match desc
      case Some(x) =>
        EngineDoes(Engine(if x.op == OP_READ then 1 else if x.op == OP_WRITE then 3 else 0, x.addr, x.len, 0, 0, 0),
                   true, false, false, None, None)
      case None => EngineDoes(e, false, false, false, None, None)
    else if e.phase == 1 then
      EngineDoes(e.(phase := 2), false, false, false, Some(TlA(false, Address(e), 0)), None)
    else if e.phase == 2 then
      if d.Some? then
        EngineDoes(e.(phase := if e.beat == e.len then 0 else 1, beat := (e.beat + 1) % BEAT_SPACE),
                   false, false, true, None, d)
      else EngineDoes(e, false, false, false, None, None)
    else if e.phase == 3 then
      match byte
      case Some(b) =>
        EngineDoes(e.(phase := if e.ptr == 15 then 4 else 3, word := Accumulate(e.word, b, e.ptr),
                      ptr := if e.ptr == 15 then 0 else e.ptr + 1),
                   false, true, false, None, None)
      case None => EngineDoes(e, false, false, false, None, None)
    else if e.phase == 4 then
      EngineDoes(e.(phase := 5, word := 0, ptr := 0), false, false, false, Some(TlA(true, Address(e), e.word)), None)
    else if d.Some? then
      EngineDoes(e.(phase := if e.beat == e.len then 0 else 3, beat := (e.beat + 1) % BEAT_SPACE, word := 0, ptr := 0),
                 false, false, true, None, None)
    else EngineDoes(e, false, false, false, None, None)
  }

  class DmaEngineProcess {
    var phase: nat
    var dmaAddr: nat
    var dmaLen: nat
    var beatCnt: nat
    var wordAcc: nat
    var bytePtr: nat

    function State(): Engine
      reads this
    {
      Engine(phase, dmaAddr, dmaLen, beatCnt, wordAcc, bytePtr)
    }

    constructor ()
      ensures State() == Engine(0, 0, 0, 0, 0, 0)
    {
      phase, dmaAddr, dmaLen, beatCnt, wordAcc, bytePtr := 0, 0, 0, 0, 0, 0;
    }

    method Tick(desc: Option<Desc>, byte: Option<Byte>, d: Option<nat>)
      returns (takesDesc: bool, takesByte: bool, takesD: bool, req: Option<TlA>, rdData: Option<nat>)
      modifies this
      ensures EngineDoes(State(), takesDesc, takesByte, takesD, req, rdData) == EngineTick(old(State()), desc, byte, d)
    {
      hide Accumulate;
      takesDesc, takesByte, takesD, req, rdData := false, false, false, None, None;
      if phase == 0 {
        match desc
        case Some(x) =>
          takesDesc := true;
          if x.op == OP_READ {
            phase := 1;
          } else if x.op == OP_WRITE {
            phase := 3;
          }
          dmaAddr, dmaLen, beatCnt, wordAcc, bytePtr := x.addr, x.len, 0, 0, 0;
        case None =>
      } else if phase == 1 {
        req := Some(TlA(false, (dmaAddr + 16 * beatCnt) % ADDR_SPACE, 0));
        phase := 2;
      } else if phase == 2 {
        match d
        case Some(data) =>
          takesD, rdData := true, Some(data);
          phase := if beatCnt == dmaLen then 0 else 1;
          beatCnt := (beatCnt + 1) % BEAT_SPACE;
        case None =>
      } else if phase == 3 {
        match byte
        case Some(b) =>
          takesByte, wordAcc := true, Accumulate(wordAcc, b, bytePtr);
          if bytePtr == 15 {
            phase, bytePtr := 4, 0;
          } else {
            bytePtr := bytePtr + 1;
          }
        case None =>
      } else if phase == 4 {
        req := Some(TlA(true, (dmaAddr + 16 * beatCnt) % ADDR_SPACE, wordAcc));
        phase, wordAcc, bytePtr := 5, 0, 0;
      } else {
        match d
        case Some(_) =>
          takesD := true;
          phase := if beatCnt == dmaLen then 0 else 3;
          beatCnt, wordAcc, bytePtr := (beatCnt + 1) % BEAT_SPACE, 0, 0;
        case None =>
      }
    }
  }

  // ---------------------------------------------------------------------------
  // What a descriptor asks for
  // ---------------------------------------------------------------------------

  /** The word accumulated from a beat's bytes. */
  function Word(bytes: seq<Byte>): nat {
    if bytes == [] then 0 else Accumulate(Word(bytes[..|bytes| - 1]), bytes[|bytes| - 1], |bytes| - 1)
  }

  function BeatBytes(bytes: seq<Byte>, i: nat): seq<Byte> {
    if 16 * i + 16 <= |bytes| then bytes[16 * i..16 * i + 16] else []
  }

  /** Beat `i` of a descriptor, whose payload is `bytes`. */
  function Beat(d: Desc, bytes: seq<Byte>, i: nat): TlA {
    TlA(d.op == OP_WRITE, (d.addr + 16 * i) % ADDR_SPACE, if d.op == OP_WRITE then Word(BeatBytes(bytes, i)) else 0)
  }

  function Beats(d: Desc, bytes: seq<Byte>, n: nat): seq<TlA> {
    seq(n, i requires 0 <= i < n => Beat(d, bytes, i))
  }

  function BeatCount(d: Desc): nat {
    if d.op == OP_READ || d.op == OP_WRITE then d.len + 1 else 0
  }

  /** A descriptor the engine took, the payload it consumed for it, the requests it issued, the answers
      it got and the words it passed on. */
  datatype Job = Job(desc: Desc, payload: seq<Byte>, requests: seq<TlA>, answers: seq<nat>, passed: seq<nat>)

  /** A job with nothing left to do. */
  predicate Done(j: Job) {
    && j.requests == Beats(j.desc, j.payload, BeatCount(j.desc))
    && |j.payload| == PayloadSize(j.desc)
    && |j.answers| == BeatCount(j.desc)
    && j.passed == if j.desc.op == OP_READ then j.answers else []
  }

  function AllRequests(jobs: seq<Job>): seq<TlA> {
    if jobs == [] then [] else AllRequests(jobs[..|jobs| - 1]) + jobs[|jobs| - 1].requests
  }

  function AllAnswers(jobs: seq<Job>): seq<nat> {
    if jobs == [] then [] else AllAnswers(jobs[..|jobs| - 1]) + jobs[|jobs| - 1].answers
  }

  function AllPayload(jobs: seq<Job>): seq<Byte> {
    if jobs == [] then [] else AllPayload(jobs[..|jobs| - 1]) + jobs[|jobs| - 1].payload
  }

  function AllDescs(jobs: seq<Job>): seq<Desc> {
    if jobs == [] then [] else AllDescs(jobs[..|jobs| - 1]) + [jobs[|jobs| - 1].desc]
  }

  // ---------------------------------------------------------------------------
  // The system
  // ---------------------------------------------------------------------------

  /** `pending` and `tlA` are the queues of depth 1 to and from the sender; the device has taken the
      requests `served` and given the data `given`, of which `tlD` waits. `lost` counts puts into a full
      pending queue; `came` and `bytes` are all the descriptors and the payload that have arrived. */
  datatype State = State(
    engine: Engine, descs: seq<Desc>, payload: seq<Byte>, pending: seq<TlA>, tlA: seq<TlA>, tlD: seq<nat>,
    lost: nat, served: seq<TlA>, given: seq<nat>, jobs: seq<Job>,
    came: seq<Desc>, bytes: seq<Byte>)

  const RESET_STATE: State := State(Engine(0, 0, 0, 0, 0, 0), [], [], [], [], [], 0, [], [], [], [], [])

  /** A descriptor or a byte of payload arrives; the system clock ticks, with the engine seeing the front
      of each queue or not yet; the device takes a request, or answers one it has not answered. */
  datatype Event =
    | DescArrives(desc: Desc)
    | ByteArrives(byte: Byte)
    | SysTick(seesDesc: bool, seesByte: bool, seesD: bool)
    | DeviceTakes
    | DeviceAnswers(data: nat)

  predicate Legal(s: State, e: Event) {
    match e
    case DescArrives(d) => d.addr < ADDR_SPACE && d.len < BEAT_SPACE
    case DeviceTakes => s.tlA != []
    case DeviceAnswers(_) => |s.given| < |s.served|
    case _ => true
  }

  function Front<T>(q: seq<T>, seen: bool): Option<T> {
    if seen && q != [] then Some(q[0]) else None
  }

  function TakeIf<T>(q: seq<T>, b: bool): seq<T> {
    if b && q != [] then q[1..] else q
  }

  /** The log of a tick. */
  function Record(jobs: seq<Job>, does: EngineDoes, desc: Option<Desc>, byte: Option<Byte>, d: Option<nat>): seq<Job> {
    if does.takesDesc && desc.Some? then jobs + [Job(desc.value, [], [], [], [])]
    else if jobs == [] then jobs
    else
      var j := jobs[|jobs| - 1];
      jobs[|jobs| - 1 := Job(j.desc,
                             if does.takesByte then j.payload + ToSeq(byte) else j.payload,
                             j.requests + ToSeq(does.req),
                             if does.takesD then j.answers + ToSeq(d) else j.answers,
                             j.passed + ToSeq(does.rdData))]
  }

  /** The engine and the sender in one cycle, each on what the queues held before it. The sender fires
      when a request is pending and there is room behind it. */
  function Clock(s: State, seesDesc: bool, seesByte: bool, seesD: bool): State {
    var desc, byte, d := Front(s.descs, seesDesc), Front(s.payload, seesByte), Front(s.tlD, seesD);
    var does := EngineTick(s.engine, desc, byte, d);
    var sends := s.pending != [] && s.tlA == [];
    var left := if sends then s.pending[1..] else s.pending;
    var full := s.pending != [];
    s.(engine := does.engine,
       descs := TakeIf(s.descs, does.takesDesc),
       payload := TakeIf(s.payload, does.takesByte),
       tlD := TakeIf(s.tlD, does.takesD),
       pending := if full then left else left + ToSeq(does.req),
       lost := if full && does.req.Some? then s.lost + 1 else s.lost,
       tlA := if sends then [s.pending[0]] else s.tlA,
       jobs := Record(s.jobs, does, desc, byte, d))
  }

  function Next(s: State, e: Event): State
    requires Legal(s, e)
  {
    match e
    case DescArrives(d) => s.(descs := s.descs + [d], came := s.came + [d])
    case ByteArrives(b) => s.(payload := s.payload + [b], bytes := s.bytes + [b])
    case SysTick(seesDesc, seesByte, seesD) => Clock(s, seesDesc, seesByte, seesD)
    case DeviceTakes => s.(tlA := s.tlA[1..], served := s.served + [s.tlA[0]])
    case DeviceAnswers(x) => s.(tlD := s.tlD + [x], given := s.given + [x])
  }

  // ---------------------------------------------------------------------------
  // What every step keeps
  // ---------------------------------------------------------------------------

  /** Requests on their way, in service, or answered and not yet seen. */
  function InFlight(s: State): int {
    |s.pending| + |s.tlA| + (|s.served| - |s.given|) + |s.tlD|
  }

  predicate Waits(e: Engine) {
    e.phase == 2 || e.phase == 5
  }

  /** How far the engine is with its last job. */
  predicate Under(e: Engine, j: Job) {
    && 1 <= e.phase <= 5
    && j.desc.op == (if e.phase <= 2 then OP_READ else OP_WRITE)
    && e.addr == j.desc.addr && e.len == j.desc.len && e.beat <= e.len < BEAT_SPACE
    && j.requests == Beats(j.desc, j.payload, if Waits(e) then e.beat + 1 else e.beat)
    && |j.answers| == e.beat
    && j.passed == (if e.phase <= 2 then j.answers else [])
    && |j.payload| == (if e.phase <= 2 then 0 else if e.phase == 3 then 16 * e.beat + e.ptr else 16 * e.beat + 16)
    && (e.phase == 3 ==> e.ptr < 16 && e.word == Word(j.payload[16 * e.beat..]))
    && (e.phase == 4 ==> e.word == Word(j.payload[16 * e.beat..]))
  }

  predicate JobsInv(e: Engine, jobs: seq<Job>) {
    && (forall i | 0 <= i < |jobs| :: i < |jobs| - 1 || e.phase == 0 ==> Done(jobs[i]))
    && (e.phase != 0 ==> jobs != [] && Under(e, jobs[|jobs| - 1]))
  }

  predicate Tokens(s: State) {
    && s.lost == 0 && |s.served| >= |s.given|
    && InFlight(s) == (if Waits(s.engine) then 1 else 0)
  }

  /** Nothing is lost, repeated or reordered on the way. */
  predicate Logs(s: State) {
    && AllRequests(s.jobs) == s.served + s.tlA + s.pending
    && AllAnswers(s.jobs) + s.tlD == s.given
    && AllDescs(s.jobs) + s.descs == s.came
    && AllPayload(s.jobs) + s.payload == s.bytes
    && (forall i | 0 <= i < |s.descs| :: s.descs[i].addr < ADDR_SPACE && s.descs[i].len < BEAT_SPACE)
  }

  predicate Inv(s: State) {
    JobsInv(s.engine, s.jobs) && Tokens(s) && Logs(s)
  }

  lemma BeatsUnmoved(d: Desc, payload: seq<Byte>, byte: Byte, n: nat)
    requires 16 * n <= |payload| || d.op != OP_WRITE
    ensures Beats(d, payload + [byte], n) == Beats(d, payload, n)
  {
    hide Word;
    forall i | 0 <= i < n ensures Beat(d, payload + [byte], i) == Beat(d, payload, i) {
      if d.op == OP_WRITE {
        assert BeatBytes(payload + [byte], i) == BeatBytes(payload, i);
      }
    }
  }

  lemma OneMoreBeat(d: Desc, payload: seq<Byte>, n: nat)
    ensures Beats(d, payload, n + 1) == Beats(d, payload, n) + [Beat(d, payload, n)]
    ensures Beats(d, payload, 0) == []
  {
  }

  lemma OneMoreByte(payload: seq<Byte>, byte: Byte, from: nat)
    requires from <= |payload|
    ensures Word((payload + [byte])[from..]) == Accumulate(Word(payload[from..]), byte, |payload| - from)
  {
    assert (payload + [byte])[from..] == payload[from..] + [byte];
    assert (payload[from..] + [byte])[..|payload| - from] == payload[from..];
  }

  /** What the engine's tick does to its job. */
  lemma TickKeepsJob(e: Engine, j: Job, byte: Option<Byte>, d: Option<nat>)
    requires Under(e, j)
    ensures var does := EngineTick(e, None, byte, d);
            var j' := Record([j], does, None, byte, d)[0];
            (if does.engine.phase == 0 then Done(j') else Under(does.engine, j'))
            && !does.takesDesc
  {
    hide Word, Accumulate, Beat, Beats, BeatBytes;
    if e.phase == 1 || e.phase == 4 {
      OneMoreBeat(j.desc, j.payload, e.beat);
      if e.phase == 4 {
        LastBeat(j.payload, e.beat);
      }
      BeatIs(e, j);
    } else if e.phase == 3 && byte.Some? {
      BeatsUnmoved(j.desc, j.payload, byte.value, e.beat);
      OneMoreByte(j.payload, byte.value, 16 * e.beat);
    } else if e.phase == 5 && d.Some? && e.beat < e.len {
      assert j.payload[16 * (e.beat + 1)..] == [];
      NoWord();
    }
  }

  lemma NoWord()
    ensures Word([]) == 0
  {
  }

  lemma LastBeat(payload: seq<Byte>, i: nat)
    requires |payload| == 16 * i + 16
    ensures BeatBytes(payload, i) == payload[16 * i..]
  {
  }

  lemma BeatIs(e: Engine, j: Job)
    requires Under(e, j) && (e.phase == 4 ==> BeatBytes(j.payload, e.beat) == j.payload[16 * e.beat..])
    ensures e.phase == 1 ==> TlA(false, Address(e), 0) == Beat(j.desc, j.payload, e.beat)
    ensures e.phase == 4 ==> TlA(true, Address(e), e.word) == Beat(j.desc, j.payload, e.beat)
  {
  }

  /** The last job's part of each log. */
  lemma LastJob(jobs: seq<Job>, j: Job)
    requires jobs != []
    ensures var jobs', front := jobs[|jobs| - 1 := j], jobs[..|jobs| - 1];
            && AllRequests(jobs') == AllRequests(front) + j.requests
            && AllAnswers(jobs') == AllAnswers(front) + j.answers
            && AllPayload(jobs') == AllPayload(front) + j.payload
            && AllDescs(jobs') == AllDescs(front) + [j.desc]
  {
  }

  lemma NewJob(jobs: seq<Job>, d: Desc)
    ensures var jobs' := jobs + [Job(d, [], [], [], [])];
            && AllRequests(jobs') == AllRequests(jobs) && AllAnswers(jobs') == AllAnswers(jobs)
            && AllPayload(jobs') == AllPayload(jobs) && AllDescs(jobs') == AllDescs(jobs) + [d]
  {
  }

  lemma StartsJob(d: Desc)
    requires d.addr < ADDR_SPACE && d.len < BEAT_SPACE
    ensures var e, j := EngineTick(Engine(0, 0, 0, 0, 0, 0), Some(d), None, None).engine, Job(d, [], [], [], []);
            if e.phase == 0 then Done(j) else Under(e, j)
  {
  }

  lemma RecordLast(jobs: seq<Job>, does: EngineDoes, desc: Option<Desc>, byte: Option<Byte>, d: Option<nat>)
    requires jobs != [] && !(does.takesDesc && desc.Some?)
    ensures |Record([jobs[|jobs| - 1]], does, None, byte, d)| == 1
    ensures Record(jobs, does, desc, byte, d) == jobs[|jobs| - 1 := Record([jobs[|jobs| - 1]], does, None, byte, d)[0]]
    ensures var j, j' := jobs[|jobs| - 1], Record([jobs[|jobs| - 1]], does, None, byte, d)[0];
            j' == Job(j.desc, if does.takesByte then j.payload + ToSeq(byte) else j.payload, j.requests + ToSeq(does.req),
                      if does.takesD then j.answers + ToSeq(d) else j.answers, j.passed + ToSeq(does.rdData))
  {
  }

  lemma RecordNothing(jobs: seq<Job>, does: EngineDoes, byte: Option<Byte>, d: Option<nat>)
    requires !does.takesDesc && !does.takesByte && !does.takesD && does.req.None? && does.rdData.None?
    ensures Record(jobs, does, None, byte, d) == jobs
  {
    if jobs != [] {
      var j := jobs[|jobs| - 1];
      assert j.requests + [] == j.requests && j.passed + [] == j.passed;
    }
  }

  lemma IdleTick(s: State, seesDesc: bool, seesByte: bool, seesD: bool)
    requires Inv(s) && s.engine.phase == 0
    ensures Inv(Clock(s, seesDesc, seesByte, seesD))
  {
    hide Done, Under, AllRequests, AllAnswers, AllPayload, AllDescs;
    var s' := Clock(s, seesDesc, seesByte, seesD);
    if seesDesc && s.descs != [] {
      var d := s.descs[0];
      NewJob(s.jobs, d);
      StartsJob(d);
      assert s'.jobs == s.jobs + [Job(d, [], [], [], [])];
      assert s.descs == [d] + s'.descs;
    } else {
      RecordNothing(s.jobs, EngineTick(s.engine, None, None, None), Front(s.payload, seesByte), Front(s.tlD, seesD));
      assert s'.jobs == s.jobs;
    }
  }

  lemma BusyTick(s: State, seesDesc: bool, seesByte: bool, seesD: bool)
    requires Inv(s) && s.engine.phase != 0
    ensures Inv(Clock(s, seesDesc, seesByte, seesD))
  {
    hide Done, Under, Tokens, Logs, AllRequests, AllAnswers, AllPayload, AllDescs;
    var s', n := Clock(s, seesDesc, seesByte, seesD), |s.jobs|;
    var j := s.jobs[n - 1];
    var does := EngineTick(s.engine, Front(s.descs, seesDesc), Front(s.payload, seesByte), Front(s.tlD, seesD));
    TickKeepsJob(s.engine, j, Front(s.payload, seesByte), Front(s.tlD, seesD));
    RecordLast(s.jobs, does, Front(s.descs, seesDesc), Front(s.payload, seesByte), Front(s.tlD, seesD));
    BusyQueues(s, seesDesc, seesByte, seesD);
  }

  lemma BusyQueues(s: State, seesDesc: bool, seesByte: bool, seesD: bool)
    requires Inv(s) && s.engine.phase != 0
    ensures Tokens(Clock(s, seesDesc, seesByte, seesD)) && Logs(Clock(s, seesDesc, seesByte, seesD))
  {
    assert 1 <= s.engine.phase <= 5 by { hide Done, Logs, Tokens, Beats; }
    hide Under, Done;
    BusyTokens(s, seesDesc, seesByte, seesD);
    BusyLogs(s, seesDesc, seesByte, seesD);
  }

  lemma BusyTokens(s: State, seesDesc: bool, seesByte: bool, seesD: bool)
    requires Tokens(s) && 1 <= s.engine.phase <= 5
    ensures Tokens(Clock(s, seesDesc, seesByte, seesD))
  {
    hide Accumulate, Record;
  }

  lemma BusyLogs(s: State, seesDesc: bool, seesByte: bool, seesD: bool)
    requires Logs(s) && Tokens(s) && 1 <= s.engine.phase <= 5 && s.jobs != []
    ensures Logs(Clock(s, seesDesc, seesByte, seesD))
  {
    hide AllRequests, AllAnswers, AllPayload, AllDescs, Record, EngineTick;
    var n := |s.jobs|;
    var desc, byte, d := Front(s.descs, seesDesc), Front(s.payload, seesByte), Front(s.tlD, seesD);
    var does, j := EngineTick(s.engine, desc, byte, d), s.jobs[n - 1];
    TickTakes(s.engine, desc, byte, d);
    RecordLast(s.jobs, does, desc, byte, d);
    var j' := Record([j], does, None, byte, d)[0];
    assert s.jobs[n - 1 := j] == s.jobs;
    LastJob(s.jobs, j);
    LastJob(s.jobs, j');
    RequestsMove(s, does.req, AllRequests(s.jobs[..n - 1]), j.requests);
    FrontMoves(s.tlD, seesD, does.takesD, AllAnswers(s.jobs[..n - 1]), j.answers);
    FrontMoves(s.payload, seesByte, does.takesByte, AllPayload(s.jobs[..n - 1]), j.payload);
  }

  lemma TickTakes(e: Engine, desc: Option<Desc>, byte: Option<Byte>, d: Option<nat>)
    requires 1 <= e.phase <= 5
    ensures var does := EngineTick(e, desc, byte, d);
            && !does.takesDesc && (does.takesByte ==> byte.Some?) && (does.takesD ==> d.Some?)
            && (does.req.Some? ==> !Waits(e))
  {
  }

  /** A word moves from a queue's front to the end of a log. */
  lemma FrontMoves<T>(q: seq<T>, seen: bool, takes: bool, front: seq<T>, log: seq<T>)
    requires takes ==> Front(q, seen).Some?
    ensures front + (if takes then log + ToSeq(Front(q, seen)) else log) + TakeIf(q, takes) == (front + log) + q
  {
  }

  /** A request moves through the pending queue and the sender. */
  lemma RequestsMove(s: State, req: Option<TlA>, front: seq<TlA>, log: seq<TlA>)
    requires front + log == s.served + s.tlA + s.pending && (s.pending == [] || req.None?) && |s.pending| <= 1
    ensures var sends := s.pending != [] && s.tlA == [];
            var pending := if s.pending != [] then (if sends then s.pending[1..] else s.pending) else ToSeq(req);
            front + (log + ToSeq(req)) == s.served + (if sends then [s.pending[0]] else s.tlA) + pending
  {
    assert front + (log + ToSeq(req)) == (front + log) + ToSeq(req);
  }

  lemma StepKeeps(s: State, e: Event)
    requires Inv(s) && Legal(s, e)
    ensures Inv(Next(s, e))
  {
    hide JobsInv, AllRequests, AllAnswers, AllPayload, AllDescs;
    match e
    case SysTick(seesDesc, seesByte, seesD) =>
      if s.engine.phase == 0 {
        IdleTick(s, seesDesc, seesByte, seesD);
      } else {
        BusyTick(s, seesDesc, seesByte, seesD);
      }
    case _ =>
  }

  // ---------------------------------------------------------------------------
  // Whole runs
  // ---------------------------------------------------------------------------

  predicate LegalRun(s: State, events: seq<Event>)
    decreases events
  {
    events == [] || (Legal(s, events[0]) && LegalRun(Next(s, events[0]), events[1..]))
  }

  function Run(s: State, events: seq<Event>): State
    requires LegalRun(s, events)
    decreases events
  {
    if events == [] then s else Run(Next(s, events[0]), events[1..])
  }

  lemma {:induction false} RunKeeps(s: State, events: seq<Event>)
    requires Inv(s) && LegalRun(s, events)
    ensures Inv(Run(s, events))
    decreases events
  {
    hide Inv, Next, Legal;
    if events != [] {
      StepKeeps(s, events[0]);
      RunKeeps(Next(s, events[0]), events[1..]);
    }
  }

  /** Main result. In every run, whatever the descriptors and the delays: no request meets a full queue;
      the device sees the requests of the descriptors in order, all but at most the one on its way; every
      job but the one under way has issued a request per beat, consumed exactly its payload and, for a read, passed on each answer;
      and no descriptor or byte is skipped. */
  lemma JobsAreCarriedOut(events: seq<Event>)
    requires LegalRun(RESET_STATE, events)
    ensures var s := Run(RESET_STATE, events);
            && s.lost == 0
            && s.served <= AllRequests(s.jobs) && |AllRequests(s.jobs)| <= |s.served| + 1
            && (forall i | 0 <= i < |s.jobs| :: i < |s.jobs| - 1 || s.engine.phase == 0 ==> Done(s.jobs[i]))
            && AllDescs(s.jobs) + s.descs == s.came && AllPayload(s.jobs) + s.payload == s.bytes
            && (s.engine.phase == 0 ==> s.served == AllRequests(s.jobs) && s.given == AllAnswers(s.jobs))
  {
    hide Done, Under, AllRequests, AllAnswers, AllDescs, AllPayload;
    StartsDone();
    RunKeeps(RESET_STATE, events);
  }

  lemma StartsDone()
    ensures Inv(RESET_STATE)
  {
  }

  /** A beat's request: the address goes up by 16 for each beat before it. */
  lemma RequestOfBeat(j: Job, i: nat)
    requires Done(j) && i < BeatCount(j.desc)
    ensures |j.requests| == j.desc.len + 1 && j.requests[i].address == (j.desc.addr + 16 * i) % ADDR_SPACE
    ensures j.requests[i].put <==> j.desc.op == OP_WRITE
  {
  }

  /** From the pins of the frame parser to the device: a frame whose descriptor and payload have all
      crossed becomes, once parser and engine rest, exactly its requests, and no byte is left over. */
  lemma FrameIsCarriedOut(frame: seq<Option<Byte>>, events: seq<Event>)
    requires LegalRun(RESET_STATE, events)
    requires var h, s := FrameParser.Run(START, frame), Run(RESET_STATE, events);
             && h.cells.phase == 9 && h.descs != [] && s.engine.phase == 0 && s.descs == []
             && s.came == h.descs && s.bytes == h.sent
    ensures var h, s := FrameParser.Run(START, frame), Run(RESET_STATE, events);
            && |h.taken| >= 7
            && var d := DescOf(h.taken[..7]);
            && s.served == Beats(d, h.taken[7..], BeatCount(d)) && |s.given| == BeatCount(d)
            && |h.taken| - 7 == PayloadSize(d) && s.payload == []
  {
    hide Beats, AllRequests, AllAnswers, AllPayload, AllDescs, DescOf, PayloadSize;
    var h, s := FrameParser.Run(START, frame), Run(RESET_STATE, events);
    FrameIsParsed(frame);
    JobsAreCarriedOut(events);
    JobCount(s.jobs);
    assert |s.jobs| == 1;
    OneJob(s.jobs);
    assert AllDescs(s.jobs) == h.descs;
    assert s.jobs[0].desc == h.descs[0];
    assert s.jobs[0].payload + s.payload == h.sent;
    assert s.payload == [] && s.jobs[0].payload == h.sent;
  }

  lemma {:induction false} JobCount(jobs: seq<Job>)
    ensures |AllDescs(jobs)| == |jobs|
  {
    if jobs != [] {
      JobCount(jobs[..|jobs| - 1]);
    }
  }

  lemma OneJob(jobs: seq<Job>)
    requires |jobs| == 1
    ensures AllDescs(jobs) == [jobs[0].desc] && AllRequests(jobs) == jobs[0].requests
    ensures AllAnswers(jobs) == jobs[0].answers && AllPayload(jobs) == jobs[0].payload
  {
  }

  // ---------------------------------------------------------------------------
  // Return to idle
  // ---------------------------------------------------------------------------

  /** What is left of a request's way to the device and back. */
  function WayLeft(s: State): nat {
    if s.pending != [] then 4 else if s.tlA != [] then 3 else if |s.served| > |s.given| then 2 else 1
  }

  function StepsLeft(s: State): int {
    var e := s.engine;
    if e.phase == 0 then 0
    else (e.len - e.beat) * 32 + if Waits(e) then WayLeft(s) else if e.phase == 3 then 21 - e.ptr else 5
  }

  /** The event the engine waits for: when it is idle, a tick that sees the next descriptor, or any event when there is
      none. */
  predicate Serves(s: State, e: Event) {
    if s.engine.phase == 0 then s.descs == [] || (e.SysTick? && e.seesDesc)
    else if Waits(s.engine) then
      (match WayLeft(s)
       case 4 => e.SysTick?
       case 3 => e.DeviceTakes?
       case 2 => e.DeviceAnswers?
       case _ => e.SysTick? && e.seesD)
    else if s.engine.phase == 3 then e.SysTick? && e.seesByte && s.payload != []
    else e.SysTick?
  }

  lemma InvMeasures(s: State)
    requires Inv(s)
    ensures s.engine.phase == 0 || (1 <= s.engine.phase <= 5 && s.engine.beat <= s.engine.len < BEAT_SPACE)
    ensures s.engine.phase == 3 ==> s.engine.ptr < 16
    ensures s.engine.phase != 0 ==> StepsLeft(s) > 0
    ensures Tokens(s)
  {
  }

  lemma ServiceAdvances(s: State, e: Event)
    requires Inv(s) && Legal(s, e) && s.engine.phase != 0
    ensures StepsLeft(Next(s, e)) + (if Serves(s, e) then 1 else 0) <= StepsLeft(s)
  {
    InvMeasures(s);
    hide Inv, Logs, Accumulate, Record;
    match e
    case SysTick(seesDesc, seesByte, seesD) => TickAdvances(s, seesDesc, seesByte, seesD);
    case _ =>
  }

  lemma TickAdvances(s: State, seesDesc: bool, seesByte: bool, seesD: bool)
    requires Tokens(s) && 1 <= s.engine.phase <= 5 && s.engine.beat <= s.engine.len < BEAT_SPACE
    requires s.engine.phase == 3 ==> s.engine.ptr < 16
    ensures StepsLeft(Clock(s, seesDesc, seesByte, seesD)) + (if Serves(s, SysTick(seesDesc, seesByte, seesD)) then 1 else 0)
            <= StepsLeft(s)
  {
    hide Accumulate, Record;
  }

  function Services(s: State, events: seq<Event>): nat
    requires LegalRun(s, events)
    decreases events
  {
    if events == [] then 0 else (if Serves(s, events[0]) then 1 else 0) + Services(Next(s, events[0]), events[1..])
  }

  /** Once the events it waits for have come, at most 32 for each beat and whatever happens in between,
      the engine is idle. */
  lemma {:induction false} ServedEngineRests(s: State, events: seq<Event>) returns (n: nat)
    requires Inv(s) && LegalRun(s, events) && Services(s, events) >= StepsLeft(s)
    ensures n <= |events| && LegalRun(s, events[..n]) && Run(s, events[..n]).engine.phase == 0
    ensures StepsLeft(s) <= 32 * BEAT_SPACE
    decreases events
  {
    InvMeasures(s);
    assert StepsLeft(s) <= 32 * BEAT_SPACE;
    hide Inv, Next, Legal, Serves, StepsLeft, Tokens;
    if s.engine.phase == 0 {
      n := 0;
    } else {
      ServiceAdvances(s, events[0]);
      StepKeeps(s, events[0]);
      var m := ServedEngineRests(Next(s, events[0]), events[1..]);
      n := m + 1;
      assert events[..n][1..] == events[1..][..m];
    }
  }

  /** The steps a waiting descriptor will take, at most 32 for each beat it announces. */
  function Work(descs: seq<Desc>): nat {
    if descs == [] then 0 else 32 * (descs[0].len + 1) + Work(descs[1..])
  }

  function Backlog(s: State): int {
    StepsLeft(s) + Work(s.descs)
  }

  /** An idle engine that sees a descriptor takes it. */
  lemma IdleTakes(s: State, seesDesc: bool, seesByte: bool, seesD: bool)
    requires Inv(s) && s.engine.phase == 0
    ensures var s' := Clock(s, seesDesc, seesByte, seesD);
            if seesDesc && s.descs != [] then
              && s'.descs == s.descs[1..] && StepsLeft(s') < 32 * (s.descs[0].len + 1)
            else s'.descs == s.descs && s'.engine.phase == 0
  {
    hide Accumulate, Record;
  }

  lemma BusyLeavesDescs(s: State, e: Event)
    requires Inv(s) && Legal(s, e) && s.engine.phase != 0 && !e.DescArrives?
    ensures Next(s, e).descs == s.descs
  {
    InvMeasures(s);
    hide Inv, Tokens, Logs, Accumulate, Record;
  }

  lemma ServiceWorksOff(s: State, e: Event)
    requires Inv(s) && Legal(s, e) && !e.DescArrives?
    ensures Backlog(Next(s, e)) <= if Serves(s, e) && Backlog(s) > 0 then Backlog(s) - 1 else Backlog(s)
  {
    if s.engine.phase != 0 {
      ServiceAdvances(s, e);
      BusyLeavesDescs(s, e);
      hide Inv, Next, StepsLeft, Serves;
    } else {
      if e.SysTick? {
        IdleTakes(s, e.seesDesc, e.seesByte, e.seesD);
        hide Inv, Clock;
      }
    }
  }

  lemma NothingLeft(s: State)
    requires Inv(s) && Backlog(s) <= 0
    ensures s.engine.phase == 0 && s.descs == []
  {
    InvMeasures(s);
    WorkIsPositive(s.descs);
    hide Inv, StepsLeft, Work;
  }

  lemma WorkIsPositive(descs: seq<Desc>)
    ensures Work(descs) == 0 <==> descs == []
  {
  }

  lemma {:induction false} ServedDescsAreDone(s: State, events: seq<Event>)
    requires Inv(s) && LegalRun(s, events) && (forall e | e in events :: !e.DescArrives?)
    requires Services(s, events) >= Backlog(s)
    ensures Run(s, events).engine.phase == 0 && Run(s, events).descs == []
    decreases events
  {
    hide Inv, Next, Legal, Serves, Backlog;
    if events == [] {
      NothingLeft(s);
    } else {
      ServiceWorksOff(s, events[0]);
      StepKeeps(s, events[0]);
      ServedDescsAreDone(Next(s, events[0]), events[1..]);
    }
  }

  lemma {:induction false} RunThen(s: State, before: seq<Event>, after: seq<Event>)
    requires LegalRun(s, before) && LegalRun(Run(s, before), after)
    ensures LegalRun(s, before + after) && Run(s, before + after) == Run(Run(s, before), after)
    decreases before
  {
    if before == [] {
      assert before + after == after;
    } else {
      hide Next, Legal;
      assert (before + after)[0] == before[0] && (before + after)[1..] == before[1..] + after;
      RunThen(Next(s, before[0]), before[1..], after);
    }
  }

  /** Main result, progress. Whatever happened before, when no more descriptors come and the engine gets the events it
      waits for, at most 32 for each beat announced, every descriptor that came has been taken and carried out, in
      order and in full. */
  lemma EveryDescIsCarriedOut(before: seq<Event>, after: seq<Event>)
    requires LegalRun(RESET_STATE, before) && LegalRun(Run(RESET_STATE, before), after)
    requires forall e | e in after :: !e.DescArrives?
    requires Services(Run(RESET_STATE, before), after) >= Backlog(Run(RESET_STATE, before))
    ensures var s := Run(Run(RESET_STATE, before), after);
            && AllDescs(s.jobs) == s.came && (forall i | 0 <= i < |s.jobs| :: Done(s.jobs[i]))
            && s.served == AllRequests(s.jobs) && s.given == AllAnswers(s.jobs)
  {
    StartsDone();
    hide Inv, Next, Legal, Serves, Backlog, AllDescs, AllRequests, AllAnswers, Done;
    RunKeeps(RESET_STATE, before);
    ServedDescsAreDone(Run(RESET_STATE, before), after);
    RunThen(RESET_STATE, before, after);
    JobsAreCarriedOut(before + after);
  }

  /** The events an engine waits for may always come: at most one byte first, where a payload is awaited. */
  lemma SomeEventServes(s: State) returns (es: seq<Event>)
    requires Inv(s)
    ensures LegalRun(s, es) && (forall e | e in es :: !e.DescArrives?) && Services(s, es) >= 1
  {
    InvMeasures(s);
    var tick := SysTick(true, true, true);
    var e := if Waits(s.engine) && WayLeft(s) == 3 then DeviceTakes
             else if Waits(s.engine) && WayLeft(s) == 2 then DeviceAnswers(0)
             else tick;
    if s.engine.phase == 3 {
      var byte := ByteArrives(0);
      assert Serves(Next(s, byte), tick) && LegalRun(Next(Next(s, byte), tick), []);
      hide Inv, Clock;
      EventThen(Next(s, byte), tick, []);
      EventThen(s, byte, [tick]);
      es := [byte] + [tick];
    } else {
      hide Inv, Clock;
      EventThen(s, e, []);
      es := [e];
    }
  }

  lemma EventThen(s: State, e: Event, es: seq<Event>)
    requires Legal(s, e) && LegalRun(Next(s, e), es)
    ensures LegalRun(s, [e] + es)
    ensures Services(s, [e] + es) == (if Serves(s, e) then 1 else 0) + Services(Next(s, e), es)
  {
    hide Next, Legal, Serves;
    assert ([e] + es)[1..] == es;
  }

  // ---------------------------------------------------------------------------
  // The data of a write
  // ---------------------------------------------------------------------------

  function LittleEndian(bytes: seq<Byte>): nat {
    if bytes == [] then 0
    else LittleEndian(bytes[..|bytes| - 1]) + Left(bytes[|bytes| - 1], 8 * (|bytes| - 1))
  }

  /** A byte shifted within 32 bits, and one shifted out of them. */
  lemma ShiftedByte(byte: Byte, ptr: nat)
    ensures ptr < 4 ==> Left(byte, 8 * ptr) + Pow2(8 * ptr) <= Pow2(8 * ptr + 8) <= ADDR_SPACE
    ensures ptr >= 4 ==> Left(byte, 8 * ptr) % ADDR_SPACE == 0
  {
    hide Left, Pow2;
    if ptr < 4 {
      LeftOf8(1);
      LeftLeft(1, 8, 8 * ptr);
      LeftOrder(byte, 256, 8 * ptr);
      LeftOrder(1, 0, 8 * ptr + 8);
      LeftOrder(1, 0, 8 * ptr);
      FirstPowers();
    } else {
      LeftLeft(byte, 8 * ptr - 32, 32);
      LeftOf32(Left(byte, 8 * ptr - 32));
    }
  }

  lemma FirstPowers()
    ensures Pow2(8) == 0x100 && Pow2(16) == 0x1_0000 && Pow2(24) == 0x100_0000 && Pow2(32) == ADDR_SPACE
  {
  }

  function FirstFour(bytes: seq<Byte>): seq<Byte> {
    if |bytes| <= 4 then bytes else bytes[..4]
  }

  /** The word a write sends holds its first four bytes only. */
  lemma {:induction false} WordIsFirstFour(bytes: seq<Byte>)
    ensures Word(bytes) == LittleEndian(FirstFour(bytes))
    ensures |bytes| <= 4 ==> Word(bytes) < Pow2(8 * |bytes|)
  {
    hide Left, Pow2, Accumulate;
    if bytes == [] {
      NoPower();
    } else {
      var n := |bytes| - 1;
      var front, byte := bytes[..n], bytes[n];
      WordIsFirstFour(front);
      AccumulateByte(Word(front), byte, n);
      if n >= 4 {
        assert front[..4] == bytes[..4];
      }
    }
  }

  lemma AccumulateByte(word: nat, byte: Byte, ptr: nat)
    requires ptr < 4 ==> word < Pow2(8 * ptr)
    ensures ptr < 4 ==> Accumulate(word, byte, ptr) == word + Left(byte, 8 * ptr) < Pow2(8 * (ptr + 1))
    ensures ptr >= 4 ==> Accumulate(word, byte, ptr) == word
  {
    hide Left, Pow2;
    ShiftedByte(byte, ptr);
    if ptr < 4 {
      OrCommutes(word, Left(byte, 8 * ptr));
      OrIsSum(byte, word, 8 * ptr);
    } else {
      OrZero(word);
    }
  }

  lemma NoPower()
    ensures Pow2(0) == 1
  {
  }

  lemma {:induction false} LittleEndianGrows(bytes: seq<Byte>)
    requires |bytes| >= 4
    ensures LittleEndian(bytes) >= LittleEndian(bytes[..4])
    ensures LittleEndian(bytes) == LittleEndian(bytes[..4]) <==> forall i | 4 <= i < |bytes| :: bytes[i] == 0
  {
    hide Left, Pow2;
    if |bytes| > 4 {
      var n := |bytes| - 1;
      LittleEndianGrows(bytes[..n]);
      assert bytes[..n][..4] == bytes[..4];
      LeftOrder(bytes[n], 0, 8 * n);
      LeftOrder(0, bytes[n], 8 * n);
      assert forall i | 4 <= i < n :: bytes[..n][i] == bytes[i];
    } else {
      assert bytes[..4] == bytes;
    }
  }

  /** A beat's data is the little-endian word of its sixteen bytes exactly when all but the first four are zero. */
  lemma WordIsLittleEndianIff(bytes: seq<Byte>)
    requires |bytes| == 16
    ensures Word(bytes) == LittleEndian(bytes) <==> forall i | 4 <= i < 16 :: bytes[i] == 0
  {
    hide Left, Pow2, Word, LittleEndian;
    WordIsFirstFour(bytes);
    LittleEndianGrows(bytes);
  }
}
