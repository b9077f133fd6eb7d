/** The bus of the Marie SoC: the CPU's data port, the crossbar and its five devices, across three clocks. */
module BusFabric {
  import opened Options

  datatype Req = Req(we: bool, addr: nat, data: nat)

  const MEM_REGION := 0x8
  const UART_REGION := 0x1
  const MANIFEST_REGION := 0x0
  const CLOCKS_REGION := 0x2
  const SWATCH_REGION := 0x3
  const DEVICES := 5
  const QUEUE_DEPTH := 4
  const MEM_WORDS := 16384

  /** `addr[31:28]` */
  function Region(addr: nat): nat {
    addr / 0x1000_0000 % 16
  }

  /** The device an address selects, if any. */
  function Target(addr: nat): (k: Option<nat>)
    ensures k.Some? ==> k.value < DEVICES
  {
    if Region(addr) == MEM_REGION then Some(0)
    else if Region(addr) == UART_REGION then Some(1)
    else if Region(addr) == MANIFEST_REGION then Some(2)
    else if Region(addr) == CLOCKS_REGION then Some(3)
    else if Region(addr) == SWATCH_REGION then Some(4)
    else None
  }

  /** The word of the memory an address selects. */
  function WordOf(addr: nat): (i: nat)
    ensures i < MEM_WORDS
  {
    addr / 4 % MEM_WORDS
  }

  /** The address map: each device has the addresses with its own top digit. */
  lemma RegionsAre(addr: nat)
    requires addr < 0x1_0000_0000
    ensures Target(addr) == Some(0) <==> 0x8000_0000 <= addr < 0x9000_0000
    ensures Target(addr) == Some(1) <==> 0x1000_0000 <= addr < 0x2000_0000
    ensures Target(addr) == Some(2) <==> addr < 0x1000_0000
    ensures Target(addr) == Some(3) <==> 0x2000_0000 <= addr < 0x3000_0000
    ensures Target(addr) == Some(4) <==> 0x3000_0000 <= addr < 0x4000_0000
  {
  }

  /** From the bottom of the memory's region every four bytes have a word of their own, up to its size; from there on
      the words repeat. */
  lemma WordsDoNotAlias(i: nat, byte: nat)
    requires byte < 4
    ensures WordOf(0x8000_0000 + 4 * i + byte) == i % MEM_WORDS
  {
  }

  // ---------------------------------------------------------------------------
  // The processes, tick by tick
  // ---------------------------------------------------------------------------

  /** What a tick of the adapter does. A queue is seen as its front word, or None. */
  datatype AdapterDoes = AdapterDoes(phase: nat, takesRd: bool, takesWr: bool, takesResp: bool,
                                     busReq: Option<Req>, rdResp: Option<nat>)

  function AdapterTick(phase: nat, rd: Option<nat>, wr: Option<Req>, resp: Option<nat>): AdapterDoes {
    if phase == 0 then
      if rd.Some? then AdapterDoes(1, true, false, false, Some(Req(false, rd.value, 0)), None)
      else if wr.Some? then AdapterDoes(2, false, true, false, Some(Req(true, wr.value.addr, wr.value.data)), None)
      else AdapterDoes(0, false, false, false, None, None)
    else if resp.Some? then
      AdapterDoes(0, false, false, true, None, if phase == 1 then resp else None)
    else
      AdapterDoes(phase, false, false, false, None, None)
  }

  class CpuDmemAdapter {
    var phase: nat

    constructor ()
      ensures phase == 0
    {
      phase := 0;
    }

    method Tick(rd: Option<nat>, wr: Option<Req>, resp: Option<nat>) returns (does: AdapterDoes)
      modifies this
      ensures does == AdapterTick(old(phase), rd, wr, resp) && phase == does.phase
    {
      does := AdapterDoes(phase, false, false, false, None, None);
      if phase == 0 {
        match rd
        case Some(addr) =>
          does := does.(takesRd := true, busReq := Some(Req(false, addr, 0)));
          phase := 1;
        case None =>
          match wr
          case Some(w) =>
            does := does.(takesWr := true, busReq := Some(Req(true, w.addr, w.data)));
            phase := 2;
          case None =>
      } else if phase == 1 {
        match resp
        case Some(word) =>
          does := does.(takesResp := true, rdResp := Some(word));
          phase := 0;
        case None =>
      } else {
        match resp
        case Some(_) =>
          does := does.(takesResp := true);
          phase := 0;
        case None =>
      }
      does := does.(phase := phase);
    }
  }

  /** What a tick of the crossbar does; a device is named by its number. */
  datatype XbarDoes = XbarDoes(xphase: nat, takesReq: bool, takesDev: Option<nat>,
                               devReq: Option<(nat, Req)>, hostResp: Option<nat>)

  /** In phase `k + 1` the crossbar waits for device `k`, the last one in any later phase. */
  function Awaited(xphase: nat): (k: nat)
    ensures k < DEVICES
  {
    if 1 <= xphase <= 4 then xphase - 1 else 4
  }

  function XbarTick(xphase: nat, req: Option<Req>, resp: Option<nat>): XbarDoes {
    if xphase == 0 then
      match req
      case Some(r) =>
        (match Target(r.addr)
         case Some(k) => XbarDoes(k + 1, true, None, Some((k, r)), None)
         case None => XbarDoes(0, true, None, None, Some(0)))
      case None => XbarDoes(0, false, None, None, None)
    else if resp.Some? then
      XbarDoes(0, false, Some(Awaited(xphase)), None, resp)
    else
      XbarDoes(xphase, false, None, None, None)
  }

  class Xbar {
    var xphase: nat

    constructor ()
      ensures xphase == 0
    {
      xphase := 0;
    }

    method Tick(req: Option<Req>, resps: seq<Option<nat>>) returns (does: XbarDoes)
      requires |resps| == DEVICES
      modifies this
      ensures does == XbarTick(old(xphase), req, resps[Awaited(old(xphase))]) && xphase == does.xphase
    {
      does := XbarDoes(xphase, false, None, None, None);
      if xphase == 0 {
        match req
        case Some(r) =>
          var region := Region(r.addr);
          does := does.(takesReq := true);
          if region == MEM_REGION {
            does := does.(devReq := Some((0, r)));
            xphase := 1;
          } else if region == UART_REGION {
            does := does.(devReq := Some((1, r)));
            xphase := 2;
          } else if region == MANIFEST_REGION {
            does := does.(devReq := Some((2, r)));
            xphase := 3;
          } else if region == CLOCKS_REGION {
            does := does.(devReq := Some((3, r)));
            xphase := 4;
          } else if region == SWATCH_REGION {
            does := does.(devReq := Some((4, r)));
            xphase := 5;
          } else {
            does := does.(hostResp := Some(0));
          }
        case None =>
      } else {
        var k := if xphase == 1 then 0 else if xphase == 2 then 1 else if xphase == 3 then 2 else if xphase == 4 then 3 else 4;
        match resps[k]
        case Some(word) =>
          does := does.(takesDev := Some(k), hostResp := Some(word));
          xphase := 0;
        case None =>
      }
      does := does.(xphase := xphase);
    }
  }

  datatype MemDoes = MemDoes(mphase: nat, takesReq: bool, takesRd: bool,
                             memRd: Option<nat>, memWr: Option<Req>, resp: Option<nat>)

  function MemTick(mphase: nat, req: Option<Req>, rdResp: Option<nat>): MemDoes {
    if mphase == 0 then
      match req
      case Some(r) =>
        if r.we then MemDoes(0, true, false, None, Some(r), Some(0))
        else MemDoes(1, true, false, Some(r.addr), None, None)
      case None => MemDoes(0, false, false, None, None, None)
    else if rdResp.Some? then
      MemDoes(0, false, true, None, None, rdResp)
    else
      MemDoes(mphase, false, false, None, None, None)
  }

  class MemDevice {
    var mphase: nat

    constructor ()
      ensures mphase == 0
    {
      mphase := 0;
    }

    method Tick(req: Option<Req>, rdResp: Option<nat>) returns (does: MemDoes)
      modifies this
      ensures does == MemTick(old(mphase), req, rdResp) && mphase == does.mphase
    {
      does := MemDoes(mphase, false, false, None, None, None);
      if mphase == 0 {
        match req
        case Some(r) =>
          does := does.(takesReq := true);
          if r.we {
            does := does.(memWr := Some(r), resp := Some(0));
          } else {
            does := does.(memRd := Some(r.addr));
            mphase := 1;
          }
        case None =>
      } else {
        match rdResp
        case Some(data) =>
          does := does.(takesRd := true, resp := Some(data));
          mphase := 0;
        case None =>
      }
      does := does.(mphase := mphase);
    }
  }

  /** The memory and its one-word response latch. */
  datatype Mem = Mem(storage: seq<nat>, latch: Option<nat>) {
    predicate Typed() {
      |storage| == MEM_WORDS
    }
  }

  /** One edge of the memory: a read is latched, a write is stored. */
  function MemClock(mem: Mem, rd: Option<nat>, wr: Option<Req>, consumed: bool): (mem': Mem)
    requires mem.Typed()
    ensures mem'.Typed()
  {
    Mem(if wr.Some? then mem.storage[WordOf(wr.value.addr) := wr.value.data] else mem.storage,
        if rd.Some? then Some(mem.storage[WordOf(rd.value)]) else if consumed then None else mem.latch)
  }

  class DataMemory {
    const storage: array<nat>
    var respValid: bool
    var respData: nat

    function State(): Mem
      reads this, storage
    {
      Mem(storage[..], if respValid then Some(respData) else None)
    }

    constructor (contents: seq<nat>)
      requires |contents| == MEM_WORDS
      ensures fresh(storage) && State() == Mem(contents, None) && State().Typed()
    {
      storage := new nat[MEM_WORDS](i requires 0 <= i < MEM_WORDS => contents[i]);
      respValid, respData := false, 0;
      new;
      assert storage[..] == contents;
    }

    method Tick(rd: Option<nat>, wr: Option<Req>, consumed: bool)
      requires State().Typed()
      modifies this, storage
      ensures State() == MemClock(old(State()), rd, wr, consumed)
    {
      match rd {
        case Some(addr) => respValid, respData := true, storage[WordOf(addr)];
        case None => if consumed { respValid := false; }
      }
      match wr {
        case Some(w) => storage[WordOf(w.addr)] := w.data;
        case None =>
      }
    }
  }

  // ---------------------------------------------------------------------------
  // The fabric
  // ---------------------------------------------------------------------------

  /** A queue between two clocks, one of a pair in opposite directions. `marks` tells of each word how many had
      been taken from the other queue when it was put, and `taken` how many were taken from this one; `unseen`
      counts those of them whose room the writer does not see yet; `lost` counts the words put while the
      writer saw no room. */
  datatype Queue<T> = Queue(words: seq<T>, marks: seq<nat>, taken: nat, unseen: nat, lost: nat) {
    function Put(x: T, mark: nat): Queue<T> {
      if |words| + unseen < QUEUE_DEPTH then Queue(words + [x], marks + [mark], taken, unseen, lost) else this.(lost := lost + 1)
    }

    function Take(): Queue<T> {
      if words == [] then this else Queue(words[1..], if marks == [] then [] else marks[1..], taken + 1, unseen + 1, lost)
    }

    /** The reader of this queue, who writes the other one, sees the front word only when it has seen the room of
        all but the last of the words taken from the other queue before. */
    predicate Shows<U>(other: Queue<U>) {
      marks != [] ==> marks[0] + other.unseen <= other.taken + 1
    }

    /** The front word, when the reader sees it already. */
    function Front(seen: bool): Option<T> {
      if seen && words != [] then Some(words[0]) else None
    }
  }

  function PutOption<T>(q: Queue<T>, x: Option<T>, mark: nat): Queue<T> {
    if x.Some? then q.Put(x.value, mark) else q
  }

  function TakeIf<T>(q: Queue<T>, b: bool): Queue<T> {
    if b then q.Take() else q
  }

  /** A requester and a responder on two clocks. */
  datatype Link = Link(req: Queue<Req>, resp: Queue<nat>)

  /** An accepted bus transaction and, for a device other than the memory, that device's answer. */
  datatype Entry = Entry(op: Req, answer: nat)

  datatype State = State(
    rdReq: seq<nat>, wrReq: seq<Req>, rdResp: seq<nat>, rdLost: nat, outstanding: nat,
    phase: nat, host: Link, xphase: nat, dev: seq<Link>,
    mphase: nat, mem: Mem, busy: seq<bool>,
    log: seq<Entry>, delivered: seq<nat>, asked: seq<nat>, told: seq<Req>)
  {
    predicate Typed() {
      |dev| == DEVICES && |busy| == DEVICES && mem.Typed()
    }
  }

  const NO_WORDS: Queue<nat> := Queue([], [], 0, 0, 0)
  const NO_REQS: Queue<Req> := Queue([], [], 0, 0, 0)

  function Init(contents: seq<nat>): State {
    State([], [], [], 0, 0, 0, Link(NO_REQS, NO_WORDS), 0, seq(DEVICES, _ => Link(NO_REQS, NO_WORDS)),
          0, Mem(contents, None), seq(DEVICES, _ => false), [], [], [], [])
  }

  /** What happens next. The client asks to read or to write, or takes a word that was read; a clock
      ticks, and its processes see the front of a queue or not yet; device `k`, between 1 and 4, takes
      a request or answers the one it took, or does both at once; a writer sees more room. */
  datatype Event =
    | ClientReads(addr: nat)
    | ClientWrites(addr: nat, data: nat)
    | ClientTakes
    | CpuTick(seesRd: bool, seesWr: bool, seesResp: bool)
    | XbarClock(seesReq: bool, seesDev: bool)
    | MemDevTick(sees: bool)
    | DeviceTick(k: nat, sees: bool, answer: Option<nat>)
    | RoomSeen(hostSide: bool, k: nat, reqRoom: nat, respRoom: nat)

  /** The client has at most one read outstanding. What a front word shows of the room in the opposite queue is
      what `Crossing.AnswerShowsRoom` proves of every two FIFOs on the same two clocks. */
  predicate Legal(s: State, e: Event)
    requires s.Typed()
  {
    match e
    case ClientReads(_) => s.outstanding == 0
    case CpuTick(_, _, seesResp) => seesResp ==> s.host.resp.Shows(s.host.req)
    case XbarClock(seesReq, seesDev) =>
      && (seesReq ==> s.host.req.Shows(s.host.resp))
      && (seesDev ==> s.dev[Awaited(s.xphase)].resp.Shows(s.dev[Awaited(s.xphase)].req))
    case MemDevTick(sees) => sees ==> s.dev[0].req.Shows(s.dev[0].resp)
    case DeviceTick(k, sees, _) => 1 <= k < DEVICES && (sees ==> s.dev[k].req.Shows(s.dev[k].resp))
    case RoomSeen(_, k, _, _) => k < DEVICES
    case _ => true
  }

  function CpuStep(s: State, rd: bool, wr: bool, resp: bool): State {
    var does := AdapterTick(s.phase,
                            if rd && s.rdReq != [] then Some(s.rdReq[0]) else None,
                            if wr && s.wrReq != [] then Some(s.wrReq[0]) else None,
                            s.host.resp.Front(resp));
    var hostResp := TakeIf(s.host.resp, does.takesResp);
    s.(phase := does.phase,
       rdReq := if does.takesRd && s.rdReq != [] then s.rdReq[1..] else s.rdReq,
       wrReq := if does.takesWr && s.wrReq != [] then s.wrReq[1..] else s.wrReq,
       host := Link(PutOption(s.host.req, does.busReq, hostResp.taken), hostResp),
       rdResp := if does.rdResp.Some? && s.rdResp == [] then [does.rdResp.value] else s.rdResp,
       rdLost := if does.rdResp.Some? && s.rdResp != [] then s.rdLost + 1 else s.rdLost,
       log := if does.busReq.Some? then s.log + [Entry(does.busReq.value, 0)] else s.log,
       delivered := if does.rdResp.Some? then s.delivered + [does.rdResp.value] else s.delivered)
  }

  function XbarStep(s: State, req: bool, resp: bool): State
    requires s.Typed()
  {
    var does := XbarTick(s.xphase, s.host.req.Front(req), s.dev[Awaited(s.xphase)].resp.Front(resp));
    var hostReq := TakeIf(s.host.req, does.takesReq);
    var host := Link(hostReq, PutOption(s.host.resp, does.hostResp, hostReq.taken));
    var dev := if does.takesDev.Some? && does.takesDev.value < DEVICES then
                 var k := does.takesDev.value;
                 s.dev[k := s.dev[k].(resp := s.dev[k].resp.Take())]
               else s.dev;
    var dev' := if does.devReq.Some? && does.devReq.value.0 < DEVICES then
                  var k := does.devReq.value.0;
                  dev[k := dev[k].(req := dev[k].req.Put(does.devReq.value.1, dev[k].resp.taken))]
                else dev;
    s.(xphase := does.xphase, host := host, dev := dev')
  }

  function MemStep(s: State, sees: bool): State
    requires s.Typed()
  {
    var link := s.dev[0];
    var does := MemTick(s.mphase, link.req.Front(sees), s.mem.latch);
    var req := TakeIf(link.req, does.takesReq);
    s.(mphase := does.mphase,
       dev := s.dev[0 := Link(req, PutOption(link.resp, does.resp, req.taken))],
       mem := MemClock(s.mem, does.memRd, does.memWr, does.takesRd))
  }

  /** A device holds one request at a time and answers it once. */
  function DeviceStep(s: State, k: nat, sees: bool, answer: Option<nat>): State
    requires s.Typed() && 1 <= k < DEVICES
  {
    var link := s.dev[k];
    var takes := !s.busy[k] && link.req.Front(sees).Some?;
    var holds := s.busy[k] || takes;
    var answers := holds && answer.Some?;
    var req := TakeIf(link.req, takes);
    s.(dev := s.dev[k := Link(req, PutOption(link.resp, if answers then answer else None, req.taken))],
       busy := s.busy[k := holds && !answers],
       log := if answers && s.log != [] then s.log[|s.log| - 1 := s.log[|s.log| - 1].(answer := answer.value)] else s.log)
  }

  function Less(x: nat, y: nat): nat {
    if y <= x then x - y else 0
  }

  function Catch(l: Link, reqRoom: nat, respRoom: nat): Link {
    Link(l.req.(unseen := Less(l.req.unseen, reqRoom)), l.resp.(unseen := Less(l.resp.unseen, respRoom)))
  }

  function Next(s: State, e: Event): (s': State)
    requires s.Typed() && Legal(s, e)
    ensures s'.Typed()
  {
    match e
    case ClientReads(addr) =>
      s.(rdReq := if s.rdReq == [] then [addr] else s.rdReq, outstanding := s.outstanding + 1,
         asked := if s.rdReq == [] then s.asked + [addr] else s.asked)
    case ClientWrites(addr, data) =>
      s.(wrReq := if s.wrReq == [] then [Req(true, addr, data)] else s.wrReq,
         told := if s.wrReq == [] then s.told + [Req(true, addr, data)] else s.told)
    case ClientTakes =>
      if s.rdResp == [] then s else s.(rdResp := s.rdResp[1..], outstanding := Less(s.outstanding, 1))
    case CpuTick(rd, wr, resp) => CpuStep(s, rd, wr, resp)
    case XbarClock(req, resp) => XbarStep(s, req, resp)
    case MemDevTick(sees) => MemStep(s, sees)
    case DeviceTick(k, sees, answer) => DeviceStep(s, k, sees, answer)
    case RoomSeen(hostSide, k, reqRoom, respRoom) =>
      if hostSide then s.(host := Catch(s.host, reqRoom, respRoom))
      else s.(dev := s.dev[k := Catch(s.dev[k], reqRoom, respRoom)])
  }

  // ---------------------------------------------------------------------------
  // The specification: one plain memory
  // ---------------------------------------------------------------------------

  /** A memory and the words read so far. */
  datatype Plain = Plain(storage: seq<nat>, replies: seq<nat>)

  /** One transaction, done at once. */
  function Apply(p: Plain, e: Entry): (p': Plain)
    requires |p.storage| == MEM_WORDS
    ensures |p'.storage| == MEM_WORDS
  {
    if e.op.we then
      if Target(e.op.addr) == Some(0) then p.(storage := p.storage[WordOf(e.op.addr) := e.op.data]) else p
    else
      p.(replies := p.replies + [match Target(e.op.addr)
                                 case None => 0
                                 case Some(k) => if k == 0 then p.storage[WordOf(e.op.addr)] else e.answer])
  }

  function Replay(contents: seq<nat>, log: seq<Entry>): (p: Plain)
    requires |contents| == MEM_WORDS
    ensures |p.storage| == MEM_WORDS
  {
    if log == [] then Plain(contents, [])
    else Apply(Replay(contents, log[..|log| - 1]), log[|log| - 1])
  }

  lemma ReplayOneMore(contents: seq<nat>, log: seq<Entry>, e: Entry)
    requires |contents| == MEM_WORDS
    ensures Replay(contents, log + [e]) == Apply(Replay(contents, log), e)
  {
  }

  // ---------------------------------------------------------------------------
  // Where the transaction is
  // ---------------------------------------------------------------------------

  datatype Where =
    | Idle
    | InHostReq
    | InDevReq(k: nat)
    | InDevice(k: nat)
    | InDevResp(k: nat, word: nat)
    | InHostResp(word: nat)

  function At<T>(here: bool, x: T): seq<T> {
    if here then [x] else []
  }

  /** A queue holds these words, put when so many had been taken from the other, and nothing it was given is
      lost. */
  predicate Holds<T(==)>(q: Queue<T>, words: seq<T>, mark: nat, unseen: nat) {
    q.words == words && q.marks == At(words != [], mark) && q.lost == 0 && q.unseen <= unseen
  }

  predicate IsWord(w: Where) {
    w.InDevResp? || w.InHostResp?
  }

  function WordIn(w: Where): nat {
    match w
    case InDevResp(_, word) => word
    case InHostResp(word) => word
    case _ => 0
  }

  predicate WithDevice(w: Where) {
    w.InDevReq? || w.InDevice? || w.InDevResp?
  }

  function DeviceOf(w: Where): nat {
    match w
    case InDevReq(k) => k
    case InDevice(k) => k
    case InDevResp(k, _) => k
    case _ => 0
  }

  /** The writer's debt: room it has not seen. It is two takes at most, one while a word is in the
      opposite queue is the most a process that answers can have. */
  predicate HostLink(l: Link, w: Where, op: Req) {
    && Holds(l.req, At(w == InHostReq, op), l.resp.taken, if w == Idle || w == InHostReq then 1 else 2)
    && Holds(l.resp, At(w.InHostResp?, WordIn(w)), l.req.taken, if w == Idle || w == InHostReq then 2 else 1)
  }

  predicate DevLink(l: Link, w: Where, k: nat, op: Req) {
    var before := !(w == InDevice(k) || (w.InDevResp? && w.k == k));
    && Holds(l.req, At(w == InDevReq(k), op), l.resp.taken, if before then 1 else 2)
    && Holds(l.resp, At(w.InDevResp? && w.k == k, WordIn(w)), l.req.taken, if before then 2 else 1)
  }

  predicate DevLinks(dev: seq<Link>, w: Where, op: Req) {
    |dev| == DEVICES && (forall k | 0 <= k < DEVICES :: DevLink(dev[k], w, k, op))
  }

  predicate Controls(s: State, w: Where, op: Req)
    requires s.Typed()
  {
    && s.phase == (if w == Idle then 0 else if op.we then 2 else 1)
    && s.xphase == (if WithDevice(w) then DeviceOf(w) + 1 else 0)
    && s.mphase == (if w == InDevice(0) then 1 else 0)
    && (s.mem.latch.Some? <==> w == InDevice(0))
    && (w == InDevice(0) ==> !op.we)
    && (forall k | 1 <= k < DEVICES :: s.busy[k] <==> w == InDevice(k))
  }

  /** The control state and every queue follow from where the transaction is. */
  predicate Located(s: State, w: Where, op: Req)
    requires s.Typed()
  {
    && (WithDevice(w) ==> Target(op.addr) == Some(DeviceOf(w)))
    && Controls(s, w, op) && HostLink(s.host, w, op) && DevLinks(s.dev, w, op)
  }

  predicate Client(s: State) {
    && s.rdLost == 0 && s.outstanding <= 1
    && s.outstanding == |s.rdReq| + (if s.phase == 1 then 1 else 0) + |s.rdResp|
    && (forall w | w in s.wrReq :: w.we)
  }

  /** The memory has done every transaction but perhaps the last, and every reply is right. */
  predicate Faithful(contents: seq<nat>, s: State, w: Where)
    requires |contents| == MEM_WORDS && (w == Idle || s.log != []) && s.Typed()
  {
    if w == Idle then
      Replay(contents, s.log) == Plain(s.mem.storage, s.delivered)
    else
      var last := s.log[|s.log| - 1];
      var before := Replay(contents, s.log[..|s.log| - 1]);
      var after := Apply(before, last);
      && s.delivered == before.replies
      && s.mem.storage == (if IsWord(w) then after.storage else before.storage)
      && (IsWord(w) && !last.op.we ==> after.replies == before.replies + [WordIn(w)])
      && (s.mem.latch.Some? ==> s.mem.latch.value == before.storage[WordOf(last.op.addr)])
  }

  function LastOp(s: State): Req {
    if s.log == [] then Req(false, 0, 0) else s.log[|s.log| - 1].op
  }

  predicate Inv(contents: seq<nat>, s: State, w: Where) {
    && |contents| == MEM_WORDS && s.Typed() && (w == Idle || s.log != [])
    && Located(s, w, LastOp(s)) && Client(s) && Faithful(contents, s, w)
  }

  // ---------------------------------------------------------------------------
  // What every step keeps
  // ---------------------------------------------------------------------------

  function CpuMoves(s: State, w: Where, rd: bool, wr: bool, resp: bool): Where {
    if w == Idle then (if (rd && s.rdReq != []) || (wr && s.wrReq != []) then InHostReq else Idle)
    else if w.InHostResp? && resp then Idle
    else w
  }

  function XbarMoves(w: Where, op: Req, req: bool, resp: bool): Where {
    if w == InHostReq && req then
      match Target(op.addr)
      case Some(k) => InDevReq(k)
      case None => InHostResp(0)
    else if w.InDevResp? && resp then InHostResp(w.word)
    else w
  }

  function MemMoves(s: State, w: Where, op: Req, sees: bool): Where {
    if w == InDevReq(0) && sees then (if op.we then InDevResp(0, 0) else InDevice(0))
    else if w == InDevice(0) then InDevResp(0, if s.mem.latch.Some? then s.mem.latch.value else 0)
    else w
  }

  function DeviceMoves(w: Where, k: nat, sees: bool, answer: Option<nat>): Where {
    if (w == InDevReq(k) && sees) || w == InDevice(k) then
      match answer
      case Some(word) => InDevResp(k, word)
      case None => InDevice(k)
    else w
  }

  /** The transaction's place after an event. */
  function Moves(s: State, w: Where, e: Event): Where {
    match e
    case CpuTick(rd, wr, resp) => CpuMoves(s, w, rd, wr, resp)
    case XbarClock(req, resp) => XbarMoves(w, LastOp(s), req, resp)
    case MemDevTick(sees) => MemMoves(s, w, LastOp(s), sees)
    case DeviceTick(k, sees, answer) => DeviceMoves(w, k, sees, answer)
    case _ => w
  }

  lemma CpuKeepsPlace(s: State, w: Where, rd: bool, wr: bool, resp: bool)
    requires s.Typed() && Legal(s, CpuTick(rd, wr, resp)) && Located(s, w, LastOp(s)) && Client(s)
    ensures var s' := CpuStep(s, rd, wr, resp);
            Located(s', CpuMoves(s, w, rd, wr, resp), LastOp(s')) && Client(s')
  {
    hide Target, DevLinks, HostLink, AdapterTick;
    var s', w' := CpuStep(s, rd, wr, resp), CpuMoves(s, w, rd, wr, resp);
    CpuKeepsHost(s, w, rd, wr, resp);
    CpuKeepsControls(s, w, rd, wr, resp);
    DevicesApart(s.dev, w, LastOp(s), w', LastOp(s'));
  }

  lemma CpuKeepsHost(s: State, w: Where, rd: bool, wr: bool, resp: bool)
    requires s.Typed() && Legal(s, CpuTick(rd, wr, resp)) && Located(s, w, LastOp(s))
    ensures var s' := CpuStep(s, rd, wr, resp);
            HostLink(s'.host, CpuMoves(s, w, rd, wr, resp), LastOp(s'))
  {
    hide Target, DevLinks;
    var s' := CpuStep(s, rd, wr, resp);
    HostSame(s.host, w, LastOp(s), LastOp(s'));
    if w == Idle {
      HostPuts(s.host, LastOp(s), LastOp(s'));
    } else if w.InHostResp? && resp {
      HostEnds(s.host, w, LastOp(s), LastOp(s'));
    }
    hide HostLink, Queue.Put, Queue.Take;
  }

  lemma HostSame(l: Link, w: Where, op: Req, op': Req)
    requires HostLink(l, w, op)
    ensures w != InHostReq || op == op' ==> HostLink(l, w, op')
    ensures !w.InHostResp? ==> l.resp.words == []
    ensures w.InHostResp? ==> l.resp.words != []
  {
  }

  lemma HostPuts(l: Link, op: Req, op': Req)
    requires HostLink(l, Idle, op)
    ensures HostLink(Link(l.req.Put(op', l.resp.taken), l.resp), InHostReq, op')
  {
  }

  lemma HostEnds(l: Link, w: Where, op: Req, op': Req)
    requires HostLink(l, w, op) && w.InHostResp? && l.resp.Shows(l.req)
    ensures HostLink(Link(l.req, l.resp.Take()), Idle, op')
  {
  }

  lemma CpuKeepsControls(s: State, w: Where, rd: bool, wr: bool, resp: bool)
    requires s.Typed() && Located(s, w, LastOp(s)) && Client(s)
    ensures var s' := CpuStep(s, rd, wr, resp);
            Controls(s', CpuMoves(s, w, rd, wr, resp), LastOp(s')) && Client(s') && (w != Idle ==> LastOp(s') == LastOp(s))
  {
  }

  /** The device links do not depend on a transaction that is not with a device. */
  lemma DevicesApart(dev: seq<Link>, w: Where, op: Req, w': Where, op': Req)
    requires DevLinks(dev, w, op) && ((w == w' && op == op') || (!WithDevice(w) && !WithDevice(w')))
    ensures DevLinks(dev, w', op')
  {
  }

  /** A transaction is accepted: so far the memory has done all the earlier ones. */
  lemma AcceptKeeps(contents: seq<nat>, s: State, rd: bool, wr: bool, resp: bool)
    requires Inv(contents, s, Idle) && Legal(s, CpuTick(rd, wr, resp))
    ensures Inv(contents, CpuStep(s, rd, wr, resp), CpuMoves(s, Idle, rd, wr, resp))
  {
    hide Apply, Replay, Target, WordOf, Located, Client;
    var s' := CpuStep(s, rd, wr, resp);
    CpuKeepsPlace(s, Idle, rd, wr, resp);
    assert s.phase == 0 by { PhaseOf(s, Idle); }
    if CpuMoves(s, Idle, rd, wr, resp) == InHostReq {
      assert s'.log[..|s.log|] == s.log;
      assert !s'.mem.latch.Some? by { PhaseOf(s, Idle); }
    }
  }

  lemma PhaseOf(s: State, w: Where)
    requires s.Typed() && Located(s, w, LastOp(s))
    ensures s.phase == if w == Idle then 0 else if LastOp(s).we then 2 else 1
    ensures s.host.resp.words == if w.InHostResp? then [w.word] else []
    ensures s.mem.latch.Some? <==> w == InDevice(0)
  {
  }

  /** A transaction ends: its reply, if it was a read, is the plain memory's. */
  lemma FinishKeeps(contents: seq<nat>, s: State, w: Where, rd: bool, wr: bool)
    requires w.InHostResp? && Inv(contents, s, w) && Legal(s, CpuTick(rd, wr, true))
    ensures Inv(contents, CpuStep(s, rd, wr, true), Idle)
  {
    hide Apply, Replay, Target, WordOf, Located, Client;
    var last, before := s.log[|s.log| - 1], s.log[..|s.log| - 1];
    CpuKeepsPlace(s, w, rd, wr, true);
    PhaseOf(s, w);
    assert s.log == before + [last];
    ReplayOneMore(contents, before, last);
    RepliesOf(Replay(contents, before), last);
  }

  lemma RepliesOf(p: Plain, e: Entry)
    requires |p.storage| == MEM_WORDS
    ensures e.op.we ==> Apply(p, e).replies == p.replies
  {
  }

  lemma CpuKeeps(contents: seq<nat>, s: State, w: Where, rd: bool, wr: bool, resp: bool)
    requires Inv(contents, s, w) && Legal(s, CpuTick(rd, wr, resp))
    ensures Inv(contents, CpuStep(s, rd, wr, resp), CpuMoves(s, w, rd, wr, resp))
  {
    if w == Idle {
      AcceptKeeps(contents, s, rd, wr, resp);
    } else if w.InHostResp? && resp {
      FinishKeeps(contents, s, w, rd, wr);
    } else {
      hide Apply, Replay, Target, WordOf, Located, Client;
      CpuKeepsPlace(s, w, rd, wr, resp);
      PhaseOf(s, w);
    }
  }

  lemma XbarKeepsPlace(s: State, w: Where, req: bool, resp: bool)
    requires s.Typed() && Legal(s, XbarClock(req, resp)) && Located(s, w, LastOp(s))
    ensures Located(XbarStep(s, req, resp), XbarMoves(w, LastOp(s), req, resp), LastOp(s))
  {
    if w == InHostReq && req {
      XbarSends(s, resp);
    } else if w.InDevResp? && resp {
      XbarReturns(s, w, req);
    } else {
      XbarWaits(s, w, req, resp);
    }
  }

  lemma XbarSends(s: State, resp: bool)
    requires s.Typed() && Legal(s, XbarClock(true, resp)) && Located(s, InHostReq, LastOp(s))
    ensures Located(XbarStep(s, true, resp), XbarMoves(InHostReq, LastOp(s), true, resp), LastOp(s))
  {
    hide Target, DevLink;
    HostSends(s.host, LastOp(s));
    forall k | 0 <= k < DEVICES
      ensures forall j :: j != k ==> DevLink(s.dev[k], InDevReq(j), k, LastOp(s))
      ensures DevLink(s.dev[k], InHostResp(0), k, LastOp(s))
    {
      StaysApart(s.dev[k], k, LastOp(s));
    }
    var s' := XbarStep(s, true, resp);
    hide HostLink, Queue.Put, Queue.Take;
    match Target(LastOp(s).addr) {
      case Some(k) =>
        DeviceGets(s.dev[k], k, LastOp(s));
        assert s'.dev == s.dev[k := s.dev[k].(req := s.dev[k].req.Put(LastOp(s), s.dev[k].resp.taken))];
        assert DevLinks(s'.dev, InDevReq(k), LastOp(s));
      case None =>
        assert DevLinks(s'.dev, InHostResp(0), LastOp(s));
    }
  }

  lemma HostSends(l: Link, op: Req)
    requires HostLink(l, InHostReq, op) && l.req.Shows(l.resp)
    ensures l.req.words == [op]
    ensures forall k :: HostLink(Link(l.req.Take(), l.resp), InDevReq(k), op)
    ensures HostLink(Link(l.req.Take(), l.resp.Put(0, l.req.Take().taken)), InHostResp(0), op)
  {
  }

  lemma DeviceGets(l: Link, k: nat, op: Req)
    requires DevLink(l, InHostReq, k, op)
    ensures DevLink(l.(req := l.req.Put(op, l.resp.taken)), InDevReq(k), k, op)
  {
  }

  lemma StaysApart(l: Link, k: nat, op: Req)
    requires DevLink(l, InHostReq, k, op)
    ensures forall j :: j != k ==> DevLink(l, InDevReq(j), k, op)
    ensures DevLink(l, InHostResp(0), k, op)
  {
  }

  lemma XbarReturns(s: State, w: Where, req: bool)
    requires s.Typed() && Legal(s, XbarClock(req, true)) && Located(s, w, LastOp(s)) && w.InDevResp?
    ensures Located(XbarStep(s, req, true), InHostResp(w.word), LastOp(s))
  {
    hide Target;
  }

  lemma XbarWaits(s: State, w: Where, req: bool, resp: bool)
    requires s.Typed() && Legal(s, XbarClock(req, resp)) && Located(s, w, LastOp(s))
    requires !(w == InHostReq && req) && !(w.InDevResp? && resp)
    ensures XbarStep(s, req, resp) == s
  {
  }

  /** The crossbar changes only the place; an address that selects no device reads as zero. */
  lemma XbarKeeps(contents: seq<nat>, s: State, w: Where, req: bool, resp: bool)
    requires Inv(contents, s, w) && Legal(s, XbarClock(req, resp))
    ensures Inv(contents, XbarStep(s, req, resp), XbarMoves(w, LastOp(s), req, resp))
  {
    hide Replay, WordOf, Located, XbarTick, Target;
    XbarKeepsPlace(s, w, req, resp);
    PhaseOf(s, w);
  }

  lemma MemKeeps(contents: seq<nat>, s: State, w: Where, sees: bool)
    requires Inv(contents, s, w) && Legal(s, MemDevTick(sees))
    ensures Inv(contents, MemStep(s, sees), MemMoves(s, w, LastOp(s), sees))
  {
    MemKeepsPlace(s, w, sees);
    MemKeepsData(contents, s, w, sees);
    hide Located, Faithful;
  }

  /** A device's own link, as it takes the request, or answers it, or both at once. */
  lemma DeviceServes(l: Link, k: nat, op: Req, word: nat)
    ensures DevLink(l, InDevReq(k), k, op) ==> l.req.words == [op] && l.resp.words == []
    ensures DevLink(l, InDevReq(k), k, op) && l.req.Shows(l.resp) ==>
              && DevLink(Link(l.req.Take(), l.resp), InDevice(k), k, op)
              && DevLink(Link(l.req.Take(), l.resp.Put(word, l.req.Take().taken)), InDevResp(k, word), k, op)
    ensures DevLink(l, InDevice(k), k, op) ==>
              DevLink(Link(l.req, l.resp.Put(word, l.req.taken)), InDevResp(k, word), k, op)
  {
  }

  lemma NotServed(l: Link, w: Where, k: nat, op: Req)
    requires DevLink(l, w, k, op)
    ensures w != InDevReq(k) ==> l.req.words == []
  {
  }

  lemma OtherLinks(dev: seq<Link>, w: Where, w': Where, k: nat, op: Req)
    requires DevLinks(dev, w, op) && k < DEVICES
    requires w == w' || (WithDevice(w) && WithDevice(w') && DeviceOf(w) == k == DeviceOf(w'))
    ensures forall j | 0 <= j < DEVICES && j != k :: DevLink(dev[j], w', j, op)
  {
  }

  lemma MemKeepsPlace(s: State, w: Where, sees: bool)
    requires s.Typed() && Legal(s, MemDevTick(sees)) && Located(s, w, LastOp(s))
    ensures Located(MemStep(s, sees), MemMoves(s, w, LastOp(s), sees), LastOp(s))
  {
    var w' := MemMoves(s, w, LastOp(s), sees);
    DeviceServes(s.dev[0], 0, LastOp(s), if w'.InDevResp? then w'.word else 0);
    NotServed(s.dev[0], w, 0, LastOp(s));
    OtherLinks(s.dev, w, w', 0, LastOp(s));
    HostUnmoved(s.host, w, w', LastOp(s));
    hide Target, WordOf, DevLink, HostLink, Queue.Take, Queue.Put;
  }

  lemma HostUnmoved(l: Link, w: Where, w': Where, op: Req)
    requires HostLink(l, w, op) && (w == w' || (WithDevice(w) && WithDevice(w')))
    ensures HostLink(l, w', op)
  {
  }

  lemma MemKeepsData(contents: seq<nat>, s: State, w: Where, sees: bool)
    requires Inv(contents, s, w) && Legal(s, MemDevTick(sees))
    ensures Faithful(contents, MemStep(s, sees), MemMoves(s, w, LastOp(s), sees))
  {
    hide Replay, WordOf, Target;
  }

  lemma DeviceLinkKeeps(s: State, w: Where, k: nat, sees: bool, answer: Option<nat>)
    requires s.Typed() && 1 <= k < DEVICES && DevLink(s.dev[k], w, k, LastOp(s)) && (sees ==> s.dev[k].req.Shows(s.dev[k].resp))
    requires s.busy[k] <==> w == InDevice(k)
    ensures var s' := DeviceStep(s, k, sees, answer);
            && DevLink(s'.dev[k], DeviceMoves(w, k, sees, answer), k, LastOp(s))
            && s'.dev == s.dev[k := s'.dev[k]] && s'.host == s.host
  {
    DeviceServes(s.dev[k], k, LastOp(s), if answer.Some? then answer.value else 0);
    NotServed(s.dev[k], w, k, LastOp(s));
    hide Target, DevLink, Queue.Take, Queue.Put, Queue.Shows;
  }

  lemma DeviceControls(s: State, w: Where, k: nat, sees: bool, answer: Option<nat>)
    requires s.Typed() && 1 <= k < DEVICES && Controls(s, w, LastOp(s))
    requires s.dev[k].req.words != [] <==> w == InDevReq(k)
    ensures Controls(DeviceStep(s, k, sees, answer), DeviceMoves(w, k, sees, answer), LastOp(s))
  {
    hide Queue.Take, Queue.Put, TakeIf, PutOption;
  }

  lemma DeviceKeepsPlace(s: State, w: Where, k: nat, sees: bool, answer: Option<nat>)
    requires s.Typed() && Legal(s, DeviceTick(k, sees, answer)) && Located(s, w, LastOp(s))
    ensures Located(DeviceStep(s, k, sees, answer), DeviceMoves(w, k, sees, answer), LastOp(s))
  {
    var w' := DeviceMoves(w, k, sees, answer);
    OtherLinks(s.dev, w, w', k, LastOp(s));
    HostUnmoved(s.host, w, w', LastOp(s));
    NotServed(s.dev[k], w, k, LastOp(s));
    DeviceServes(s.dev[k], k, LastOp(s), 0);
    DeviceLinkKeeps(s, w, k, sees, answer);
    DeviceControls(s, w, k, sees, answer);
    hide Target, DevLink, HostLink, Controls, DeviceStep;
  }

  lemma AnswersOf(s: State, w: Where, k: nat, sees: bool)
    requires s.Typed() && 1 <= k < DEVICES && Located(s, w, LastOp(s))
    ensures s.busy[k] || (!s.busy[k] && s.dev[k].req.Front(sees).Some?)
            <==> (w == InDevReq(k) && sees) || w == InDevice(k)
    ensures w == InDevReq(k) || w == InDevice(k) ==> Target(LastOp(s).addr) == Some(k)
    ensures s.mem.latch.Some? <==> w == InDevice(0)
  {
  }

  /** A device's answer is what the log says it answered. */
  lemma DeviceKeeps(contents: seq<nat>, s: State, w: Where, k: nat, sees: bool, answer: Option<nat>)
    requires Inv(contents, s, w) && Legal(s, DeviceTick(k, sees, answer))
    ensures Inv(contents, DeviceStep(s, k, sees, answer), DeviceMoves(w, k, sees, answer))
  {
    hide Replay, WordOf, Target, Located;
    var s' := DeviceStep(s, k, sees, answer);
    DeviceKeepsPlace(s, w, k, sees, answer);
    AnswersOf(s, w, k, sees);
    assert LastOp(s') == LastOp(s);
    if s.log != [] {
      assert s'.log[..|s.log| - 1] == s.log[..|s.log| - 1];
    }
  }

  lemma ClientKeeps(contents: seq<nat>, s: State, w: Where, e: Event)
    requires Inv(contents, s, w) && Legal(s, e) && (e.ClientReads? || e.ClientWrites? || e.ClientTakes?)
    ensures Inv(contents, Next(s, e), w)
  {
    hide Replay, Apply, WordOf, Target, DevLinks, HostLink;
  }

  lemma RoomKeeps(contents: seq<nat>, s: State, w: Where, e: Event)
    requires Inv(contents, s, w) && Legal(s, e) && e.RoomSeen?
    ensures Inv(contents, Next(s, e), w)
  {
    hide Replay, Apply, WordOf, Target, DevLink, HostLink, Catch;
    forall l | DevLink(l, w, e.k, LastOp(s)) ensures DevLink(Catch(l, e.reqRoom, e.respRoom), w, e.k, LastOp(s)) {
      MoreRoom(l, w, e.k, LastOp(s), e.reqRoom, e.respRoom);
    }
    MoreRoom(s.host, w, e.k, LastOp(s), e.reqRoom, e.respRoom);
  }

  lemma MoreRoom(l: Link, w: Where, k: nat, op: Req, reqRoom: nat, respRoom: nat)
    ensures DevLink(l, w, k, op) ==> DevLink(Catch(l, reqRoom, respRoom), w, k, op)
    ensures HostLink(l, w, op) ==> HostLink(Catch(l, reqRoom, respRoom), w, op)
  {
  }

  lemma StepKeeps(contents: seq<nat>, s: State, w: Where, e: Event)
    requires Inv(contents, s, w) && Legal(s, e)
    ensures Inv(contents, Next(s, e), Moves(s, w, e))
  {
    hide Inv;
    match e
    case CpuTick(rd, wr, resp) => CpuKeeps(contents, s, w, rd, wr, resp);
    case XbarClock(req, resp) => XbarKeeps(contents, s, w, req, resp);
    case MemDevTick(sees) => MemKeeps(contents, s, w, sees);
    case DeviceTick(k, sees, answer) => DeviceKeeps(contents, s, w, k, sees, answer);
    case RoomSeen(_, _, _, _) => RoomKeeps(contents, s, w, e);
    case _ => ClientKeeps(contents, s, w, e);
  }

  // ---------------------------------------------------------------------------
  // What the client asked
  // ---------------------------------------------------------------------------

  /** The writes of a log, and the addresses of its reads. */
  function Writes(log: seq<Entry>): seq<Req> {
    if log == [] then []
    else Writes(log[..|log| - 1]) + (if log[|log| - 1].op.we then [log[|log| - 1].op] else [])
  }

  function Reads(log: seq<Entry>): seq<nat> {
    if log == [] then []
    else Reads(log[..|log| - 1]) + (if log[|log| - 1].op.we then [] else [log[|log| - 1].op.addr])
  }

  /** The transactions accepted are what the client asked, in order: all its reads and all its writes, but for
      those still waiting. */
  predicate AsAsked(s: State) {
    && Writes(s.log) + s.wrReq == s.told && Reads(s.log) + s.rdReq == s.asked
    && forall w | w in s.wrReq :: w.we
  }

  lemma OneMoreAsked(log: seq<Entry>, e: Entry)
    ensures Writes(log + [e]) == Writes(log) + (if e.op.we then [e.op] else [])
    ensures Reads(log + [e]) == Reads(log) + (if e.op.we then [] else [e.op.addr])
  {
    assert (log + [e])[..|log|] == log;
  }

  lemma AnswerAsked(log: seq<Entry>, answer: nat)
    requires log != []
    ensures var log' := log[|log| - 1 := log[|log| - 1].(answer := answer)];
            Writes(log') == Writes(log) && Reads(log') == Reads(log)
  {
    var log' := log[|log| - 1 := log[|log| - 1].(answer := answer)];
    assert log'[..|log| - 1] == log[..|log| - 1];
  }

  /** An idle adapter that sees a read accepts it, and otherwise a write that it sees; a waiting one accepts
      nothing. */
  lemma AdapterAccepts(s: State, rd: bool, wr: bool, resp: bool)
    ensures var s' := CpuStep(s, rd, wr, resp);
            if s.phase == 0 && rd && s.rdReq != [] then
              s'.log == s.log + [Entry(Req(false, s.rdReq[0], 0), 0)] && s'.rdReq == s.rdReq[1..] && s'.wrReq == s.wrReq
            else if s.phase == 0 && wr && s.wrReq != [] then
              s'.log == s.log + [Entry(Req(true, s.wrReq[0].addr, s.wrReq[0].data), 0)] && s'.wrReq == s.wrReq[1..] && s'.rdReq == s.rdReq
            else s'.log == s.log && s'.rdReq == s.rdReq && s'.wrReq == s.wrReq
    ensures CpuStep(s, rd, wr, resp).asked == s.asked && CpuStep(s, rd, wr, resp).told == s.told
  {
  }

  lemma CpuIsAsked(s: State, rd: bool, wr: bool, resp: bool)
    requires AsAsked(s)
    ensures AsAsked(CpuStep(s, rd, wr, resp))
  {
    AdapterAccepts(s, rd, wr, resp);
    hide CpuStep, Writes, Reads;
    if s.phase == 0 && rd && s.rdReq != [] {
      OneMoreAsked(s.log, Entry(Req(false, s.rdReq[0], 0), 0));
      FrontMoves(Reads(s.log), s.rdReq);
    } else if s.phase == 0 && wr && s.wrReq != [] {
      assert s.wrReq[0] in s.wrReq;
      OneMoreAsked(s.log, Entry(s.wrReq[0], 0));
      FrontMoves(Writes(s.log), s.wrReq);
    }
  }

  lemma FrontMoves<T>(log: seq<T>, q: seq<T>)
    requires q != []
    ensures log + [q[0]] + q[1..] == log + q
  {
    assert q == [q[0]] + q[1..];
  }

  lemma DeviceIsAsked(s: State, k: nat, sees: bool, answer: Option<nat>)
    requires s.Typed() && AsAsked(s) && 1 <= k < DEVICES
    ensures AsAsked(DeviceStep(s, k, sees, answer))
  {
    hide Writes, Reads, TakeIf, PutOption, Queue.Front;
    if s.log != [] && answer.Some? {
      AnswerAsked(s.log, answer.value);
    }
  }

  lemma OthersAreAsked(s: State, e: Event)
    requires s.Typed() && Legal(s, e) && AsAsked(s) && !e.CpuTick? && !e.DeviceTick?
    ensures AsAsked(Next(s, e))
  {
    hide Writes, Reads, XbarTick, MemTick, TakeIf, PutOption, Queue.Front, MemClock, Catch, Queue.Put, Queue.Take;
  }

  lemma StepIsAsked(s: State, e: Event)
    requires s.Typed() && Legal(s, e) && AsAsked(s)
    ensures AsAsked(Next(s, e))
  {
    hide AsAsked, CpuStep, XbarStep, MemStep, DeviceStep;
    match e
    case CpuTick(rd, wr, resp) => CpuIsAsked(s, rd, wr, resp);
    case DeviceTick(k, sees, answer) => DeviceIsAsked(s, k, sees, answer);
    case _ => OthersAreAsked(s, e);
  }

  // ---------------------------------------------------------------------------
  // Whole runs
  // ---------------------------------------------------------------------------

  predicate LegalRun(s: State, events: seq<Event>)
    requires s.Typed()
    decreases events
  {
    events == [] || (Legal(s, events[0]) && LegalRun(Next(s, events[0]), events[1..]))
  }

  function Run(s: State, events: seq<Event>): (s': State)
    requires s.Typed() && LegalRun(s, events)
    ensures s'.Typed()
    decreases events
  {
    if events == [] then s else Run(Next(s, events[0]), events[1..])
  }

  lemma {:induction false} RunKeeps(contents: seq<nat>, s: State, w: Where, events: seq<Event>) returns (w': Where)
    requires Inv(contents, s, w) && LegalRun(s, events)
    ensures Inv(contents, Run(s, events), w')
    decreases events
  {
    assert s.Typed();
    hide Inv, Next, Legal, Moves;
    if events == [] {
      w' := w;
    } else {
      StepKeeps(contents, s, w, events[0]);
      w' := RunKeeps(contents, Next(s, events[0]), Moves(s, w, events[0]), events[1..]);
    }
  }

  lemma {:induction false} RunIsAsked(s: State, events: seq<Event>)
    requires s.Typed() && LegalRun(s, events) && AsAsked(s)
    ensures AsAsked(Run(s, events))
    decreases events
  {
    hide AsAsked, Next, Legal;
    if events != [] {
      StepIsAsked(s, events[0]);
      RunIsAsked(Next(s, events[0]), events[1..]);
    }
  }

  /** Words on their way in the bus, and requests inside a device. */
  function Tokens(s: State): nat
    requires s.Typed()
  {
    |s.host.req.words| + |s.host.resp.words| + DevTokens(s, DEVICES)
  }

  function DevTokens(s: State, n: nat): nat
    requires s.Typed() && n <= DEVICES
  {
    if n == 0 then 0 else DevTokens(s, n - 1) + TokensOf(s, n - 1)
  }

  function TokensOf(s: State, k: nat): nat
    requires s.Typed() && k < DEVICES
  {
    var inside := if k == 0 then s.mphase != 0 else s.busy[k];
    |s.dev[k].req.words| + |s.dev[k].resp.words| + if inside then 1 else 0
  }

  predicate NothingLost(s: State)
    requires s.Typed()
  {
    && s.host.req.lost == 0 && s.host.resp.lost == 0 && s.rdLost == 0
    && (forall k | 0 <= k < DEVICES :: s.dev[k].req.lost == 0 && s.dev[k].resp.lost == 0)
  }

  lemma {:induction false} CountDevTokens(s: State, w: Where, op: Req, n: nat)
    requires s.Typed() && n <= DEVICES && Located(s, w, op)
    ensures DevTokens(s, n) == if WithDevice(w) && DeviceOf(w) < n then 1 else 0
  {
    hide Target;
    if n > 0 {
      CountDevTokens(s, w, op, n - 1);
    }
  }

  /** Main result, control. In every run there is one transaction on the bus exactly when the adapter
      waits, and one at the devices exactly when the crossbar does, and the memory holds a response exactly when its
      device waits for one; so no queue holds two words and no
      put, though none is guarded by the room in its queue, loses its word. */
  lemma OneTransaction(contents: seq<nat>, events: seq<Event>)
    requires |contents| == MEM_WORDS && LegalRun(Init(contents), events)
    ensures var s := Run(Init(contents), events);
            && Tokens(s) == (if s.phase == 0 then 0 else 1)
            && DevTokens(s, DEVICES) == (if s.xphase == 0 then 0 else 1)
            && (s.mem.latch.Some? <==> s.mphase != 0)
            && NothingLost(s)
  {
    hide Target, Replay, Next, DevTokens, DevLinks, DevLink, Located, Faithful;
    StartsIdle(contents);
    var w := RunKeeps(contents, Init(contents), Idle, events);
    var s := Run(Init(contents), events);
    CountDevTokens(s, w, LastOp(s), DEVICES);
    LinksHold(s, w);
  }

  lemma LinksHold(s: State, w: Where)
    requires s.Typed() && Located(s, w, LastOp(s)) && s.rdLost == 0
    ensures NothingLost(s) && (WithDevice(w) ==> DeviceOf(w) < DEVICES)
    ensures |s.host.req.words| + |s.host.resp.words| == if w == Idle || WithDevice(w) then 0 else 1
    ensures (s.phase == 0 <==> w == Idle) && (s.xphase == 0 <==> !WithDevice(w))
    ensures s.mem.latch.Some? <==> s.mphase != 0
  {
  }

  lemma StartsIdle(contents: seq<nat>)
    requires |contents| == MEM_WORDS
    ensures Inv(contents, Init(contents), Idle)
  {
  }

  /** Main result, data. There is one order of the client's reads and writes, each kind as the client asked them
      and all but those still waiting, in which a plain memory gives the words delivered to the client; all of them
      unless a read is under way, and the two memories are the same when the adapter is idle. */
  lemma ReadsArePlainReads(contents: seq<nat>, events: seq<Event>)
    requires |contents| == MEM_WORDS && LegalRun(Init(contents), events)
    ensures var s := Run(Init(contents), events);
            var plain := Replay(contents, s.log);
            && Writes(s.log) + s.wrReq == s.told && Reads(s.log) + s.rdReq == s.asked
            && s.delivered <= plain.replies && |plain.replies| <= |s.delivered| + 1
            && (s.phase != 1 ==> s.delivered == plain.replies)
            && (s.phase == 0 ==> s.mem.storage == plain.storage)
  {
    hide Replay, Next, Located, Client, Faithful;
    StartsIdle(contents);
    RunIsAsked(Init(contents), events);
    var w := RunKeeps(contents, Init(contents), Idle, events);
    var s := Run(Init(contents), events);
    PhaseOf(s, w);
    RepliesSoFar(contents, s, w);
  }

  lemma RepliesSoFar(contents: seq<nat>, s: State, w: Where)
    requires Inv(contents, s, w)
    ensures var plain := Replay(contents, s.log);
            && s.delivered <= plain.replies && |plain.replies| <= |s.delivered| + 1
            && (w == Idle || LastOp(s).we ==> s.delivered == plain.replies)
            && (w == Idle ==> s.mem.storage == plain.storage)
  {
    hide Replay, Located, Client;
    if w != Idle {
      var last, before := s.log[|s.log| - 1], s.log[..|s.log| - 1];
      assert s.log == before + [last];
      ReplayOneMore(contents, before, last);
    }
  }

  // ---------------------------------------------------------------------------
  // Progress
  // ---------------------------------------------------------------------------

  /** The steps a transaction still has to take. */
  function StepsLeft(w: Where): nat {
    match w
    case InHostReq => 5
    case InDevReq(_) => 4
    case InDevice(_) => 3
    case InDevResp(_, _) => 2
    case InHostResp(_) => 1
    case Idle => 0
  }

  /** The tick that moves the transaction on, given that it sees the word that waits for it; or, when there is none,
      a tick of the adapter that sees a request of the client. With nothing to do, any event will do. */
  predicate Serves(s: State, w: Where, e: Event) {
    match w
    case InHostReq => e.XbarClock? && e.seesReq
    case InDevReq(k) => if k == 0 then e.MemDevTick? && e.sees else e.DeviceTick? && e.k == k && e.sees
    case InDevice(k) => if k == 0 then e.MemDevTick? else e.DeviceTick? && e.k == k && e.answer.Some?
    case InDevResp(_, _) => e.XbarClock? && e.seesDev
    case InHostResp(_) => e.CpuTick? && e.seesResp
    case Idle => (s.rdReq == [] && s.wrReq == []) || (e.CpuTick? && ((e.seesRd && s.rdReq != []) || (e.seesWr && s.wrReq != [])))
  }

  lemma ServiceAdvances(s: State, w: Where, e: Event)
    requires s.Typed() && Legal(s, e) && w != Idle
    ensures StepsLeft(Moves(s, w, e)) + (if Serves(s, w, e) then 1 else 0) <= StepsLeft(w)
  {
  }

  /** The events of a run that serve the transaction. */
  function Services(s: State, w: Where, events: seq<Event>): nat
    requires s.Typed() && LegalRun(s, events)
    decreases events
  {
    if events == [] then 0
    else (if Serves(s, w, events[0]) then 1 else 0) + Services(Next(s, events[0]), Moves(s, w, events[0]), events[1..])
  }

  /** Once its steps have been served, five at most and whatever happens in between, the transaction has
      ended and the adapter is ready for the next. */
  lemma {:induction false} ServedTransactionEnds(contents: seq<nat>, s: State, w: Where, events: seq<Event>) returns (n: nat)
    requires Inv(contents, s, w) && LegalRun(s, events) && Services(s, w, events) >= StepsLeft(w)
    ensures n <= |events| && LegalRun(s, events[..n]) && Run(s, events[..n]).phase == 0
    decreases events
  {
    assert s.Typed() && (s.phase == 0 <==> w == Idle) by { hide DevLinks, Target; }
    hide Inv, Next, Legal, Moves, Serves, StepsLeft;
    if s.phase == 0 {
      n := 0;
    } else {
      assert StepsLeft(w) > 0 by { NotIdle(w); }
      assert events != [];
      var e := events[0];
      ServiceAdvances(s, w, e);
      StepKeeps(contents, s, w, e);
      var m := ServedTransactionEnds(contents, Next(s, e), Moves(s, w, e), events[1..]);
      n := m + 1;
      assert events[..n][1..] == events[1..][..m];
    }
  }

  lemma NotIdle(w: Where)
    ensures w == Idle <==> StepsLeft(w) == 0
  {
  }

  /** The steps of everything the client has asked and not got. */
  function Backlog(s: State, w: Where): nat {
    StepsLeft(w) + 6 * (|s.rdReq| + |s.wrReq|)
  }

  predicate Asks(e: Event) {
    e.ClientReads? || e.ClientWrites?
  }

  lemma ServiceWorksOff(s: State, w: Where, e: Event)
    requires s.Typed() && Legal(s, e) && (s.phase == 0 <==> w == Idle) && !Asks(e)
    ensures Backlog(Next(s, e), Moves(s, w, e)) <= if Serves(s, w, e) then Less(Backlog(s, w), 1) else Backlog(s, w)
  {
    hide XbarTick, MemTick, TakeIf, PutOption, Queue.Front, MemClock, Catch, Queue.Put, Queue.Take, Legal;
    if e.CpuTick? {
      AdapterAccepts(s, e.seesRd, e.seesWr, e.seesResp);
    }
  }

  lemma {:induction false} ServedBusRests(contents: seq<nat>, s: State, w: Where, events: seq<Event>)
    requires Inv(contents, s, w) && LegalRun(s, events) && (forall e | e in events :: !Asks(e))
    requires Services(s, w, events) >= Backlog(s, w)
    ensures var end := Run(s, events); end.phase == 0 && end.rdReq == [] && end.wrReq == []
    decreases events
  {
    assert s.Typed() && (s.phase == 0 <==> w == Idle) by { hide DevLinks, Target; }
    NotIdle(w);
    hide Inv, Next, Legal, Moves, Serves, StepsLeft;
    if events != [] {
      var e := events[0];
      ServiceWorksOff(s, w, e);
      StepKeeps(contents, s, w, e);
      ServedBusRests(contents, Next(s, e), Moves(s, w, e), events[1..]);
    }
  }

  /** Requests wait in queues of one place, so the backlog is never long. */
  predicate Short(s: State) {
    |s.rdReq| <= 1 && |s.wrReq| <= 1
  }

  lemma {:induction false} StaysShort(s: State, events: seq<Event>)
    requires s.Typed() && LegalRun(s, events) && Short(s)
    ensures Short(Run(s, events))
    decreases events
  {
    if events != [] {
      ShortStep(s, events[0]);
      hide Short, Next, Legal;
      StaysShort(Next(s, events[0]), events[1..]);
    }
  }

  lemma ShortStep(s: State, e: Event)
    requires s.Typed() && Legal(s, e) && Short(s)
    ensures Short(Next(s, e))
  {
    hide XbarTick, MemTick, TakeIf, PutOption, Queue.Front, MemClock, Catch, Queue.Put, Queue.Take, Legal;
    if e.CpuTick? {
      AdapterAccepts(s, e.seesRd, e.seesWr, e.seesResp);
    }
  }

  lemma {:induction false} RunThen(s: State, before: seq<Event>, after: seq<Event>)
    requires s.Typed() && LegalRun(s, before) && LegalRun(Run(s, before), after)
    ensures LegalRun(s, before + after) && Run(s, before + after) == Run(Run(s, before), after)
    decreases before
  {
    if before == [] {
      assert before + after == after;
    } else {
      hide Next, Legal;
      assert (before + after)[0] == before[0] && (before + after)[1..] == before[1..] + after;
      RunThen(Next(s, before[0]), before[1..], after);
    }
  }

  /** Main result, progress. Whatever happened before, when the client stops asking and the bus gets the ticks it
      waits for, at most seventeen, everything the client asked has been done: every read and every write, in the client's
      order of each, with every reply the plain memory's. */
  lemma EverythingAskedIsDone(contents: seq<nat>, before: seq<Event>, after: seq<Event>) returns (w: Where)
    requires |contents| == MEM_WORDS && LegalRun(Init(contents), before) && LegalRun(Run(Init(contents), before), after)
    requires forall e | e in after :: !Asks(e)
    ensures var s, end := Run(Init(contents), before), Run(Run(Init(contents), before), after);
            && Inv(contents, s, w) && Backlog(s, w) <= 17
            && (Services(s, w, after) >= Backlog(s, w) ==>
                  && Writes(end.log) == end.told == s.told && Reads(end.log) == end.asked == s.asked
                  && Plain(end.mem.storage, end.delivered) == Replay(contents, end.log))
  {
    var s := Run(Init(contents), before);
    StartsIdle(contents);
    StaysShort(Init(contents), before);
    hide Replay, Next, Inv;
    w := RunKeeps(contents, Init(contents), Idle, before);
    RunThen(Init(contents), before, after);
    AsksNothing(s, after);
    if Services(s, w, after) >= Backlog(s, w) {
      ServedBusRests(contents, s, w, after);
      ReadsArePlainReads(contents, before + after);
    }
  }

  lemma {:induction false} AsksNothing(s: State, events: seq<Event>)
    requires s.Typed() && LegalRun(s, events) && forall e | e in events :: !Asks(e)
    ensures Run(s, events).told == s.told && Run(s, events).asked == s.asked
    decreases events
  {
    if events != [] {
      NothingAsked(s, events[0]);
      hide Next, Legal;
      AsksNothing(Next(s, events[0]), events[1..]);
    }
  }

  lemma NothingAsked(s: State, e: Event)
    requires s.Typed() && Legal(s, e) && !Asks(e)
    ensures Next(s, e).told == s.told && Next(s, e).asked == s.asked
  {
    hide XbarTick, MemTick, TakeIf, PutOption, Queue.Front, MemClock, Catch, Queue.Put, Queue.Take, Legal;
  }

  /** The tick the bus waits for. */
  function ServingTick(w: Where): Event {
    match w
    case Idle => CpuTick(true, true, false)
    case InHostReq => XbarClock(true, false)
    case InDevReq(k) => if k == 0 then MemDevTick(true) else DeviceTick(k, true, None)
    case InDevice(k) => if k == 0 then MemDevTick(false) else DeviceTick(k, false, Some(0))
    case InDevResp(_, _) => XbarClock(false, true)
    case InHostResp(_) => CpuTick(false, false, true)
  }

  lemma ServingTickIsLegal(s: State, w: Where)
    requires s.Typed() && Located(s, w, LastOp(s)) && DeviceOf(w) < DEVICES
    requires s.host.req.unseen == 0 && s.host.resp.unseen == 0
    requires s.dev[DeviceOf(w)].req.unseen == 0 && s.dev[DeviceOf(w)].resp.unseen == 0
    ensures Legal(s, ServingTick(w)) && Serves(s, w, ServingTick(w)) && !Asks(ServingTick(w))
  {
    hide Target;
  }

  lemma RoomIsSeen(s: State, w: Where)
    requires s.Typed() && Located(s, w, LastOp(s)) && DeviceOf(w) < DEVICES
    ensures var s2 := Next(Next(s, RoomSeen(true, 0, 2, 2)), RoomSeen(false, DeviceOf(w), 2, 2));
            && s2.host.req.unseen == 0 && s2.host.resp.unseen == 0
            && s2.dev[DeviceOf(w)].req.unseen == 0 && s2.dev[DeviceOf(w)].resp.unseen == 0
  {
    hide Target;
  }

  lemma AfterRoom(contents: seq<nat>, s: State, w: Where, host: Event, dev: Event)
    requires Inv(contents, s, w) && host == RoomSeen(true, 0, 2, 2) && dev == RoomSeen(false, DeviceOf(w), 2, 2)
    ensures s.Typed() && Legal(s, host) && Legal(Next(s, host), dev)
    ensures var s2 := Next(Next(s, host), dev);
            Legal(s2, ServingTick(w)) && Serves(s2, w, ServingTick(w)) && !Asks(ServingTick(w))
  {
    LinksHold(s, w);
    RoomIsSeen(s, w);
    RoomKeeps(contents, s, w, host);
    RoomKeeps(contents, Next(s, host), w, dev);
    hide Next, Legal, Located, Serves, Faithful, Client;
    ServingTickIsLegal(Next(Next(s, host), dev), w);
  }

  /** And it is never out of reach: when both sides have seen the room, the tick the bus waits for may come. */
  lemma SomeEventServes(contents: seq<nat>, s: State, w: Where) returns (es: seq<Event>)
    requires Inv(contents, s, w)
    ensures LegalRun(s, es) && (forall e | e in es :: !Asks(e)) && Services(s, w, es) >= 1
  {
    hide Inv, Next, Legal, Moves, Serves, Asks;
    var host, dev := RoomSeen(true, 0, 2, 2), RoomSeen(false, DeviceOf(w), 2, 2);
    var tick := ServingTick(w);
    AfterRoom(contents, s, w, host, dev);
    RoomMovesNothing(s, w, host);
    RoomMovesNothing(Next(s, host), w, dev);
    EventThen(Next(Next(s, host), dev), w, tick, []);
    EventThen(Next(s, host), w, dev, [tick]);
    EventThen(s, w, host, [dev, tick]);
    es := [host, dev, tick];
    assert [host] + [dev, tick] == es && [dev] + [tick] == [dev, tick] && [tick] + [] == [tick];
  }

  lemma RoomMovesNothing(s: State, w: Where, e: Event)
    requires e.RoomSeen?
    ensures Moves(s, w, e) == w && !Asks(e)
  {
  }

  lemma EventThen(s: State, w: Where, e: Event, es: seq<Event>)
    requires s.Typed() && Legal(s, e) && LegalRun(Next(s, e), es)
    ensures LegalRun(s, [e] + es)
    ensures Services(s, w, [e] + es) == (if Serves(s, w, e) then 1 else 0) + Services(Next(s, e), Moves(s, w, e), es)
  {
    hide Next, Legal, Moves, Serves;
    assert ([e] + es)[1..] == es;
  }
}
