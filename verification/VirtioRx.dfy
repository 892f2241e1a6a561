/**
 The receive queue of the virtio-net driver. Every chain owns a fixed slice of one shared
 buffer; the driver republishes a chain as soon as it has read the packet in it.
 */
module VirtioRx {
  import opened Bytes
  import opened Wrap
  import R = SplitRing
  import T = VirtioTx
  import N = VirtioNet

  /** The queue's fixed part: RxAlwaysPending chains of `req` header and `data` packet bytes. */
  datatype Config = Config(n: nat, base: nat, req: nat, data: nat, desc: seq<T.Desc>) {
    function Width(): nat { req + data }
  }

  /** The slice of chain `i` starts here, relative to the buffer. */
  function Start(c: Config, i: nat): nat { i * c.Width() }

  /** The two descriptors of chain `i`, as VirtioNetInitRx lays them out. */
  predicate ChainAt(c: Config, desc: seq<T.Desc>, i: nat) {
    && 2 * i + 1 < |desc|
    && desc[2 * i] == T.Desc(c.base + Start(c, i), c.req, Some(2 * i + 1), true)
    && desc[2 * i + 1] == T.Desc(c.base + Start(c, i) + c.req, c.data, None, true)
  }

  ghost predicate LaidOut(c: Config) {
    forall i: nat :: i < c.n ==> ChainAt(c, c.desc, i)
  }

  lemma StartStep(c: Config, i: nat)
    ensures Start(c, i + 1) == Start(c, i) + c.Width()
  {}

  lemma StartMonotone(c: Config, i: nat, j: nat)
    requires i <= j
    ensures Start(c, i) <= Start(c, j)
  {
    MulMonotone(c.Width(), i, j);
  }

  /** Slices of different chains do not overlap, and all lie in the buffer. */
  lemma SlicesApart(c: Config, i: nat, j: nat)
    requires i < j
    ensures Start(c, i) + c.Width() <= Start(c, j)
  {
    StartStep(c, i);
    StartMonotone(c, i + 1, j);
  }

  /**
   The descriptors tile the shared buffer: the first starts at its base, each starts where the
   one before it ends, and the last ends where the buffer does.
   */
  lemma DescriptorsTile(c: Config, j: nat)
    requires LaidOut(c) && j < 2 * c.n
    ensures j < |c.desc|
    ensures j == 0 ==> c.desc[j].addr == c.base
    ensures j + 1 < 2 * c.n ==> j + 1 < |c.desc| && c.desc[j].addr + c.desc[j].len == c.desc[j + 1].addr
    ensures j + 1 == 2 * c.n ==> c.desc[j].addr + c.desc[j].len == c.base + Start(c, c.n)
  {
    var i := j / 2;
    assert ChainAt(c, c.desc, i) && (j == 2 * i || j == 2 * i + 1);
    StartStep(c, i);
    if j == 2 * i + 1 && i + 1 < c.n {
      assert ChainAt(c, c.desc, i + 1);
    }
  }

  // ----- the queue -----

  datatype Rx = Rx(ring: R.Ring, mem: Mem)

  datatype Hist = Hist(
    log: R.Log,
    packets: seq<Mem>,       // what the device wrote for each completion, header included
    consumed: seq<Mem>)      // the packet data the driver read, in order

  /** The first `size` bytes of the slice that belongs to a head. */
  function Chunk(c: Config, m: Mem, head: nat, size: nat): Mem
    requires Start(c, head / 2) + size <= |m|
  {
    m[Start(c, head / 2)..Start(c, head / 2) + size]
  }

  /** The packet's bytes are where its chain points, with a complete header and no overrun. */
  ghost predicate Stored(c: Config, m: Mem, head: nat, p: Mem) {
    && c.req <= |p| <= c.Width() && R.IsHead(c.n, head)
    && Start(c, head / 2) + c.Width() <= |m| && Chunk(c, m, head, |p|) == p
  }

  ghost predicate PacketInv(c: Config, m: Mem, h: Hist) {
    && |h.packets| == |h.log.done| == |h.log.lens| && h.log.reaped <= |h.log.done|
    && (forall k :: 0 <= k < |h.log.done| ==> h.log.done[k] < |h.log.pub| && h.log.lens[k] == |h.packets[k]|)
    && (forall k :: h.log.reaped <= k < |h.log.done| ==> Stored(c, m, h.log.pub[h.log.done[k]], h.packets[k]))
  }

  /** Packets are read once each, in the order in which the device delivered them. */
  ghost predicate OrderInv(c: Config, h: Hist) {
    && |h.consumed| == h.log.reaped <= |h.packets|
    && forall i :: 0 <= i < h.log.reaped ==> c.req <= |h.packets[i]| && h.consumed[i] == h.packets[i][c.req..]
  }

  ghost predicate AllFlying(c: Config, g: R.Log) {
    forall x :: R.IsHead(c.n, x) ==> x in g.flight
  }

  predicate Shaped(c: Config, s: Rx) {
    R.Shaped(s.ring) && c.n <= s.ring.size / 2 && |c.desc| == s.ring.size && |s.mem| == Start(c, c.n)
  }

  ghost predicate Inv(c: Config, s: Rx, h: Hist) {
    && Shaped(c, s) && LaidOut(c) && R.Inv(s.ring, h.log, c.n) && h.log.reaped + c.n == |h.log.pub|
    && AllFlying(c, h.log) && PacketInv(c, s.mem, h) && OrderInv(c, h)
  }

  // ----- the driver -----

  datatype Status = Success | NotReady | BufferTooSmall | DeviceError

  datatype Result = Result(status: Status, size: Option<nat>, data: Mem)

  /** The front used entry names a chain whose header is complete and whose data fits. */
  predicate Readable(c: Config, s: Rx)
    requires Shaped(c, s)
  {
    var e := R.NextUsed(s.ring);
    && e.id + 1 < |c.desc| && c.desc[e.id].len <= e.len <= c.desc[e.id].len + c.desc[e.id + 1].len
    && c.base <= c.desc[e.id + 1].addr && c.desc[e.id + 1].addr - c.base + (e.len - c.desc[e.id].len) <= |s.mem|
  }

  /** The packet data that the front used entry stands for. */
  function FrontData(c: Config, s: Rx): Mem
    requires Shaped(c, s) && Readable(c, s)
  {
    var e := R.NextUsed(s.ring);
    var off := c.desc[e.id + 1].addr - c.base;
    s.mem[off..off + (e.len - c.desc[e.id].len)]
  }

  /** Reads past the front entry and publishes its chain again. */
  function Recycle(c: Config, s: Rx): Rx
    requires Shaped(c, s)
  {
    s.(ring := R.Publish(R.Consume(s.ring), R.NextUsed(s.ring).id))
  }

  /** VirtioNetReceive; `notify` is the answer of SetQueueNotify. */
  function Receive(c: Config, s: Rx, room: nat, notify: Status): (Rx, Result)
    requires Shaped(c, s) && (s.ring.lastUsed != s.ring.usedIdx ==> Readable(c, s))
  {
    if s.ring.lastUsed == s.ring.usedIdx then (s, Result(NotReady, None, []))
    else
      var data := FrontData(c, s);
      if room < |data| then (s, Result(BufferTooSmall, Some(|data|), []))
      else if |data| < N.MEDIA_HEADER then (Recycle(c, s), Result(DeviceError, Some(|data|), []))
      else (Recycle(c, s), Result(notify, Some(|data|), data))
  }

  /** The packets that Receive hands out: those with a whole media header. */
  function Usable(packets: seq<Mem>): seq<Mem> {
    if packets == [] then []
    else
      var p := packets[|packets| - 1];
      Usable(packets[..|packets| - 1]) + if N.MEDIA_HEADER <= |p| then [p] else []
  }

  /** Receive moves past the front packet: it fits the caller's buffer. */
  predicate Moves(c: Config, s: Rx, room: nat)
    requires Shaped(c, s) && (s.ring.lastUsed != s.ring.usedIdx ==> Readable(c, s))
  {
    s.ring.lastUsed != s.ring.usedIdx && |FrontData(c, s)| <= room
  }

  // ----- the device -----

  predicate Deliverable(c: Config, s: Rx, head: nat, p: Mem) {
    head in s.ring.held && c.req <= |p| <= c.Width() && Start(c, head / 2) + |p| <= |s.mem|
  }

  /** The device fills the chain it holds and completes it. */
  function Deliver(c: Config, s: Rx, head: nat, p: Mem): Rx
    requires Shaped(c, s)
  {
    if !Deliverable(c, s, head, p) then s
    else Rx(R.Complete(s.ring, head, |p|), Write(s.mem, Start(c, head / 2), p))
  }

  // ----- the driver's step -----

  lemma InvFacts(c: Config, s: Rx, h: Hist)
    requires Inv(c, s, h)
    ensures Shaped(c, s) && R.Inv(s.ring, h.log, c.n) && h.log.reaped + c.n == |h.log.pub|
    ensures PacketInv(c, s.mem, h) && OrderInv(c, h) && AllFlying(c, h.log)
    ensures s.ring.lastUsed != s.ring.usedIdx <==> h.log.reaped < |h.log.done|
  {
    hide R.Inv, LaidOut;
    R.InvFacts(s.ring, h.log, c.n);
  }

  /** The front entry, when there is one, is the oldest packet that has not been read. */
  lemma FrontIs(c: Config, s: Rx, h: Hist)
    requires Inv(c, s, h) && h.log.reaped < |h.log.done|
    ensures Shaped(c, s) && Readable(c, s) && PacketInv(c, s.mem, h)
    ensures var p := h.packets[h.log.reaped]; c.req <= |p| && FrontData(c, s) == p[c.req..]
    ensures R.NextUsed(s.ring).id in h.log.flight && R.IsHead(c.n, R.NextUsed(s.ring).id)
    ensures R.NextUsed(s.ring).id == h.log.pub[h.log.done[h.log.reaped]]
  {
    hide R.Inv, R.NextUsed, OrderInv, AllFlying, R.Shaped;
    R.NextUsedIs(s.ring, h.log, c.n);
    var e := R.NextUsed(s.ring);
    var p := h.packets[h.log.reaped];
    assert Stored(c, s.mem, e.id, p);
    var i := e.id / 2;
    assert e.id == 2 * i && ChainAt(c, c.desc, i);
    var a := Start(c, i);
    assert s.mem[a..a + |p|][c.req..] == s.mem[a + c.req..a + |p|];
  }

  ghost function RecycleHist(c: Config, h: Hist, head: nat, data: Mem): Hist
    requires h.log.reaped < |h.log.done| && h.log.done[h.log.reaped] < |h.log.pub|
  {
    Hist(R.PublishLog(R.ConsumeLog(h.log), head), h.packets, h.consumed + [data])
  }

  /** Chains keep flying: the one that was read is published again at once. */
  lemma RecycleFlies(c: Config, g: R.Log, head: nat)
    requires AllFlying(c, g) && g.reaped < |g.done| && g.done[g.reaped] < |g.pub| && head == g.pub[g.done[g.reaped]]
    ensures AllFlying(c, R.PublishLog(R.ConsumeLog(g), head))
  {}

  lemma RecyclePackets(c: Config, m: Mem, h: Hist, head: nat, data: Mem)
    requires PacketInv(c, m, h) && h.log.reaped < |h.log.done|
    ensures PacketInv(c, m, RecycleHist(c, h, head, data))
  {
    var h' := RecycleHist(c, h, head, data);
    forall k | h'.log.reaped <= k < |h'.log.done| ensures Stored(c, m, h'.log.pub[h'.log.done[k]], h'.packets[k]) {
      assert Stored(c, m, h.log.pub[h.log.done[k]], h.packets[k]);
    }
  }

  lemma RecycleInv(c: Config, s: Rx, h: Hist)
    requires Inv(c, s, h) && h.log.reaped < |h.log.done|
    ensures Shaped(c, s) && Readable(c, s) && h.log.done[h.log.reaped] < |h.log.pub|
    ensures Inv(c, Recycle(c, s), RecycleHist(c, h, R.NextUsed(s.ring).id, FrontData(c, s)))
  {
    hide R.Inv, R.NextUsed, PacketInv, AllFlying, LaidOut, FrontData, Readable;
    FrontIs(c, s, h);
    InvFacts(c, s, h);
    var head := R.NextUsed(s.ring).id;
    R.ConsumeInv(s.ring, h.log, c.n);
    R.PublishInv(R.Consume(s.ring), R.ConsumeLog(h.log), c.n, head);
    RecycleFlies(c, h.log, head);
    RecyclePackets(c, s.mem, h, head, FrontData(c, s));
  }

  // ----- the device's steps -----

  lemma TakeInv(c: Config, s: Rx, h: Hist)
    requires Inv(c, s, h)
    ensures Shaped(c, s) && Inv(c, s.(ring := R.Take(s.ring)), h.(log := R.TakeLog(h.log)))
  {
    hide R.Inv, LaidOut, Stored;
    R.TakeInv(s.ring, h.log, c.n);
  }

  lemma DeliverOther(c: Config, m: Mem, head: nat, p: Mem, other: nat, q: Mem)
    requires Stored(c, m, other, q) && R.IsHead(c.n, head) && other != head
    requires |p| <= c.Width() && Start(c, head / 2) + |p| <= |m|
    ensures Stored(c, Write(m, Start(c, head / 2), p), other, q)
  {
    var i, j := head / 2, other / 2;
    assert i != j;
    if i < j {
      SlicesApart(c, i, j);
    } else {
      SlicesApart(c, j, i);
    }
    var m' := Write(m, Start(c, i), p);
    assert m'[Start(c, j)..Start(c, j) + |q|] == m[Start(c, j)..Start(c, j) + |q|];
  }

  lemma DeliverHere(c: Config, m: Mem, head: nat, p: Mem)
    requires R.IsHead(c.n, head) && c.req <= |p| <= c.Width() && |m| == Start(c, c.n)
    ensures Start(c, head / 2) + c.Width() <= |m| && Stored(c, Write(m, Start(c, head / 2), p), head, p)
  {
    SlicesApart(c, head / 2, c.n);
    var a := Start(c, head / 2);
    assert Write(m, a, p)[a..a + |p|] == p;
  }

  lemma DeliverPackets(c: Config, s: Rx, h: Hist, head: nat, p: Mem)
    requires PacketInv(c, s.mem, h) && R.Inv(s.ring, h.log, c.n) && |s.mem| == Start(c, c.n)
    requires Deliverable(c, s, head, p)
    ensures PacketInv(c, Write(s.mem, Start(c, head / 2), p),
                      Hist(R.CompleteLog(h.log, s.ring.held, head, |p|), h.packets + [p], h.consumed))
  {
    hide R.Inv, Stored;
    R.HeldFlies(s.ring, h.log, c.n, head);
    R.InvFacts(s.ring, h.log, c.n);
    var m', g' := Write(s.mem, Start(c, head / 2), p), R.CompleteLog(h.log, s.ring.held, head, |p|);
    var packets' := h.packets + [p];
    DeliverHere(c, s.mem, head, p);
    forall k | g'.reaped <= k < |g'.done| ensures Stored(c, m', g'.pub[g'.done[k]], packets'[k]) {
      if k < |h.log.done| {
        R.UnreadNotHeld(s.ring, h.log, c.n, head, k);
        DeliverOther(c, s.mem, head, p, h.log.pub[h.log.done[k]], h.packets[k]);
      }
    }
  }

  ghost function DeliverHist(c: Config, s: Rx, h: Hist, head: nat, p: Mem): Hist {
    if !Deliverable(c, s, head, p) then h
    else Hist(R.CompleteLog(h.log, s.ring.held, head, |p|), h.packets + [p], h.consumed)
  }

  lemma DeliverInv(c: Config, s: Rx, h: Hist, head: nat, p: Mem)
    requires Inv(c, s, h)
    ensures Shaped(c, s) && Inv(c, Deliver(c, s, head, p), DeliverHist(c, s, h, head, p))
  {
    hide R.Inv, LaidOut, PacketInv;
    InvFacts(c, s, h);
    if Deliverable(c, s, head, p) {
      R.HeldFlies(s.ring, h.log, c.n, head);
      R.CompleteInv(s.ring, h.log, c.n, head, |p|);
      DeliverPackets(c, s, h, head, p);
    }
  }

  // ----- the initial state -----

  /** The queue after VirtioNetInitRx: every chain is laid out and published. */
  ghost predicate Initial(c: Config, s: Rx) {
    Shaped(c, s) && LaidOut(c) && AllPublished(s.ring, c.n)
  }

  function Evens(n: nat): (r: seq<nat>)
    ensures |r| == n && forall i :: 0 <= i < n ==> r[i] == 2 * i
  {
    if n == 0 then [] else Evens(n - 1) + [2 * (n - 1)]
  }

  ghost function InitLog(n: nat): R.Log {
    R.Log(Evens(n), 0, [], [], 0, map x: nat | x < 2 * n && R.IsHead(n, x) :: x / 2)
  }

  ghost function InitHist(c: Config): Hist { Hist(InitLog(c.n), [], []) }

  lemma InitialFlight(n: nat)
    ensures R.FlightInv(n, {}, InitLog(n))
  {
    var g := InitLog(n);
    forall k | g.taken <= k < |g.pub| ensures R.Flying(g, k) {
      assert R.IsHead(n, 2 * k) && 2 * k / 2 == k;
    }
    forall x | x in g.flight ensures R.InFlight(n, {}, g, x) {
      assert g.pub[x / 2] == x;
    }
  }

  /** A ring on which exactly the first `n` even heads are published. */
  ghost predicate AllPublished(r: R.Ring, n: nat) {
    && R.Shaped(r) && n <= r.size / 2
    && r.availIdx == n && r.usedIdx == r.lastUsed == r.devAvail == 0 && r.held == {}
    && forall i :: 0 <= i < n ==> r.avail[i] == 2 * i
  }

  lemma InitialRing(r: R.Ring, n: nat)
    requires AllPublished(r, n)
    ensures R.Inv(r, InitLog(n), n)
  {
    hide R.FlightInv;
    InitialFlight(n);
    var g := InitLog(n);
    assert n < WRAP && Idx(n) == n && Idx(0) == 0;
    forall k | g.taken <= k < |g.pub| ensures r.avail[Slot(k, r.size)] == g.pub[k] {
      ModUnique(k, r.size, 0, k);
    }
    assert R.Counts(g, n);
    assert R.RingInv(r, g, n);
  }

  lemma InitialInv(c: Config, s: Rx)
    requires Initial(c, s)
    ensures Inv(c, s, InitHist(c))
  {
    hide R.Inv, LaidOut, Start;
    InitialRing(s.ring, c.n);
  }

  // ----- runs -----

  datatype Event = EvReceive(room: nat, notify: Status) | EvTake | EvDeliver(head: nat, packet: Mem)

  ghost function Step(c: Config, s: Rx, h: Hist, e: Event): (Rx, Hist)
    requires Inv(c, s, h)
  {
    InvFacts(c, s, h);
    match e
    case EvReceive(room, notify) =>
      if h.log.reaped < |h.log.done| then
        RecycleInv(c, s, h);
        if |FrontData(c, s)| <= room
        then (Recycle(c, s), RecycleHist(c, h, R.NextUsed(s.ring).id, FrontData(c, s))) else (s, h)
      else (s, h)
    case EvTake => (s.(ring := R.Take(s.ring)), h.(log := R.TakeLog(h.log)))
    case EvDeliver(head, p) => (Deliver(c, s, head, p), DeliverHist(c, s, h, head, p))
  }

  /** Every driver call and every device step keeps the invariant. */
  lemma StepInv(c: Config, s: Rx, h: Hist, e: Event)
    requires Inv(c, s, h)
    ensures Inv(c, Step(c, s, h, e).0, Step(c, s, h, e).1)
  {
    hide Inv, R.Inv, PacketInv, OrderInv, AllFlying, FrontData, Readable;
    InvFacts(c, s, h);
    match e
    case EvReceive(_, _) =>
      if h.log.reaped < |h.log.done| {
        RecycleInv(c, s, h);
      }
    case EvTake => TakeInv(c, s, h);
    case EvDeliver(head, p) => DeliverInv(c, s, h, head, p);
  }

  ghost function Run(c: Config, s: Rx, h: Hist, es: seq<Event>): (Rx, Hist)
    requires Inv(c, s, h)
    decreases |es|
  {
    hide Inv;
    if es == [] then (s, h)
    else
      var n := Step(c, s, h, es[0]);
      StepInv(c, s, h, es[0]);
      Run(c, n.0, n.1, es[1..])
  }

  lemma {:induction false} RunInv(c: Config, s: Rx, h: Hist, es: seq<Event>)
    requires Inv(c, s, h)
    ensures Inv(c, Run(c, s, h, es).0, Run(c, s, h, es).1)
    decreases |es|
  {
    hide Inv, Step;
    if es != [] {
      var n := Step(c, s, h, es[0]);
      StepInv(c, s, h, es[0]);
      RunInv(c, n.0, n.1, es[1..]);
    }
  }

  /** The state and history after a run from the initial state. */
  ghost function Reached(c: Config, s0: Rx, es: seq<Event>): (Rx, Hist)
    requires Initial(c, s0)
  {
    InitialInv(c, s0);
    Run(c, s0, InitHist(c), es)
  }

  lemma ReachedInv(c: Config, s0: Rx, es: seq<Event>)
    requires Initial(c, s0)
    ensures Inv(c, Reached(c, s0, es).0, Reached(c, s0, es).1)
  {
    hide Inv, Run;
    InitialInv(c, s0);
    RunInv(c, s0, InitHist(c), es);
  }

  /** Receive is the step of its event, and returns the oldest unread packet. */
  lemma ReceiveIs(c: Config, s: Rx, h: Hist, room: nat, notify: Status)
    requires Inv(c, s, h)
    ensures Shaped(c, s) && (s.ring.lastUsed != s.ring.usedIdx ==> Readable(c, s)) && PacketInv(c, s.mem, h)
    ensures var (s', r) := Receive(c, s, room, notify);
            && s' == Step(c, s, h, EvReceive(room, notify)).0
            && if h.log.reaped >= |h.log.done| then r == Result(NotReady, None, [])
               else
                 var p := h.packets[h.log.reaped];
                 c.req <= |p| && r.size == Some(|p| - c.req) &&
                 if room < |p| - c.req then r.status == BufferTooSmall && s' == s
                 else if |p| - c.req < N.MEDIA_HEADER then r.status == DeviceError && r.data == []
                 else r.status == notify && r.data == p[c.req..]
  {
    hide Inv, R.Inv, PacketInv, OrderInv, AllFlying, FrontData, Readable, R.NextUsed, Recycle;
    InvFacts(c, s, h);
    if h.log.reaped < |h.log.done| {
      FrontIs(c, s, h);
    }
  }

  /** The places a chain can be in. */
  ghost predicate Waiting(g: R.Log, x: nat) { x in g.flight && g.taken <= g.flight[x] }

  ghost predicate Unread(g: R.Log, x: nat) { g.reaped <= |g.done| && x in g.flight && g.flight[x] in g.done[g.reaped..] }

  /**
   Conservation: in every interleaving each chain is in exactly one place, waiting for the
   device, held by it, or used and unread, and together they are always all the chains.
   */
  lemma Conservation(c: Config, s0: Rx, es: seq<Event>, x: nat)
    requires Initial(c, s0)
    ensures var (s, h) := Reached(c, s0, es);
            var g := h.log;
            && g.reaped <= |g.done| <= g.taken <= |g.pub|
            && (|g.pub| - g.taken) + |s.ring.held| + (|g.done| - g.reaped) == c.n
            && (R.IsHead(c.n, x) ==>
                  && (Waiting(g, x) || x in s.ring.held || Unread(g, x))
                  && !(Waiting(g, x) && x in s.ring.held) && !(Waiting(g, x) && Unread(g, x))
                  && !(x in s.ring.held && Unread(g, x)))
  {
    hide PacketInv, OrderInv, LaidOut, Reached;
    ReachedInv(c, s0, es);
    var (s, h) := Reached(c, s0, es);
    if R.IsHead(c.n, x) {
      R.OnePlace(s.ring, h.log, c.n, x);
    }
  }

  /** Over any run, what was read is exactly what was delivered, in order, without the headers. */
  lemma ReadInOrder(c: Config, s0: Rx, es: seq<Event>)
    requires Initial(c, s0)
    ensures var (s, h) := Reached(c, s0, es);
            && |h.consumed| == h.log.reaped <= |h.packets| == |h.log.done|
            && forall i :: 0 <= i < |h.consumed| ==> c.req <= |h.packets[i]| && h.consumed[i] == h.packets[i][c.req..]
  {
    hide LaidOut, Reached, R.Inv;
    ReachedInv(c, s0, es);
  }
}
