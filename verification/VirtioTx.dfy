/**
 The transmit queue of the virtio-net driver. Driver calls and device steps are functions of a
 snapshot of the ring and of the driver's bookkeeping; a history of loans says which caller
 buffer each published chain carries.
 */
module VirtioTx {
  import opened Bytes
  import opened Wrap
  import R = SplitRing
  import N = VirtioNet

  datatype Desc = Desc(addr: nat, len: nat, next: Option<nat>, write: bool)

  datatype Tx = Tx(
    ring: R.Ring,            // TxRing and TxLastUsed
    max: nat,                // TxMaxPending
    cur: nat,                // TxCurPending
    stack: seq<nat>,         // TxFreeStack
    desc: seq<Desc>,         // TxRing.Desc
    bufs: map<nat, nat>)     // TxBufCollection: device address to caller buffer

  datatype Status = Success | NotReady | BufferTooSmall | InvalidParameter | DeviceError

  /** What the caller wants in the media header; without a source the device's own address is used. */
  datatype Header = Header(dest: N.Mac, src: Option<N.Mac>, protocol: N.Protocol)

  /** A Transmit call with the answers of the services it calls. */
  datatype Request = Request(
    buf: nat, len: nat, headerSize: nat,
    header: Option<Header>,  // None when the destination or the protocol is missing
    mapping: Option<nat>,    // the device address, or None when mapping the buffer fails
    insertOk: bool,          // room for the collection entry
    notify: Status)          // the answer of SetQueueNotify

  datatype Limits = Limits(maxPacket: nat)

  // ----- the driver -----

  /** The checks that Transmit makes before it touches the queue. */
  function Precheck(s: Tx, l: Limits, r: Request): Status {
    if r.len == 0 then InvalidParameter
    else if r.len < N.MEDIA_HEADER then BufferTooSmall
    else if r.len > N.MEDIA_HEADER + l.maxPacket then InvalidParameter
    else if s.cur == s.max then NotReady
    else if r.headerSize != 0 && (r.headerSize != N.MEDIA_HEADER || r.header.None?) then InvalidParameter
    else Success
  }

  function MediaFor(h: Header, current: N.Mac): N.Media {
    N.Media(h.dest, if h.src.Some? then h.src.value else current, h.protocol)
  }

  /** The caller's packet once the checks are through: with the media header, if it was asked for. */
  function Framed(s: Tx, l: Limits, r: Request, current: N.Mac, data: Mem): Mem
    requires |data| == r.len
  {
    if Precheck(s, l, r) == Success && r.headerSize != 0
    then N.MediaBytes(MediaFor(r.header.value, current)) + data[N.MEDIA_HEADER..] else data
  }

  /** A receiver reads exactly the addresses and the protocol that the caller asked for. */
  lemma FramedIsRead(s: Tx, l: Limits, r: Request, current: N.Mac, data: Mem)
    requires |data| == r.len && Precheck(s, l, r) == Success && r.headerSize != 0
    ensures |Framed(s, l, r, current, data)| == r.len
    ensures N.MediaOf(Framed(s, l, r, current, data)) == MediaFor(r.header.value, current)
    ensures Framed(s, l, r, current, data)[N.MEDIA_HEADER..] == data[N.MEDIA_HEADER..]
  {
    N.MediaRoundTrip(MediaFor(r.header.value, current), data[N.MEDIA_HEADER..]);
  }

  /** The buffer can be mapped and entered in the collection. */
  predicate Mappable(s: Tx, r: Request) {
    r.mapping.Some? && r.insertOk && r.mapping.value !in s.bufs
  }

  predicate Queues(s: Tx, l: Limits, r: Request) {
    Precheck(s, l, r) == Success && Mappable(s, r)
  }

  predicate Shaped(s: Tx) {
    && R.Shaped(s.ring) && s.max <= s.ring.size / 2 && s.max <= N.MAX_PENDING && s.cur <= s.max
    && |s.stack| == s.max && |s.desc| == s.ring.size
    && (forall i :: 0 <= i < s.max ==> s.stack[i] + 1 < |s.desc|)
  }

  /** Which packets are queued, and what the other checks answer. */
  lemma QueuesIff(s: Tx, l: Limits, r: Request)
    requires s.cur <= s.max
    ensures Queues(s, l, r) <==>
              && 14 <= r.len <= 14 + l.maxPacket && s.cur < s.max
              && (r.headerSize == 0 || (r.headerSize == 14 && r.header.Some?))
              && r.mapping.Some? && r.insertOk && r.mapping.value !in s.bufs
    ensures Precheck(s, l, r) == BufferTooSmall <==> 1 <= r.len < 14
    ensures Precheck(s, l, r) == NotReady <==> 14 <= r.len <= 14 + l.maxPacket && s.cur == s.max
    ensures Precheck(s, l, r) in {Success, NotReady, BufferTooSmall, InvalidParameter}
  {
  }

  /** Pops a free head, fills its second descriptor and publishes it. */
  function Publish(s: Tx, r: Request): Tx
    requires Shaped(s) && s.cur < s.max && r.mapping.Some?
  {
    var head := s.stack[s.cur];
    Tx(R.Publish(s.ring, head), s.max, s.cur + 1, s.stack,
       s.desc[head + 1 := s.desc[head + 1].(addr := r.mapping.value, len := r.len)],
       s.bufs[r.mapping.value := r.buf])
  }

  function Transmit(s: Tx, l: Limits, r: Request): (Tx, Status)
    requires Shaped(s)
  {
    if Precheck(s, l, r) != Success then (s, Precheck(s, l, r))
    else if !Mappable(s, r) then (s, DeviceError)
    else (Publish(s, r), r.notify)
  }

  /** The entry at the front of the used ring is a chain that can be reclaimed. */
  predicate Reapable(s: Tx)
    requires Shaped(s)
  {
    var head := R.NextUsed(s.ring).id;
    0 < s.cur && head + 1 < |s.desc| && s.desc[head + 1].addr in s.bufs
  }

  /** Hands a completed buffer back: its head becomes free and its entry is deleted. */
  function Reap(s: Tx): (Tx, Option<nat>)
    requires Shaped(s) && (s.ring.lastUsed != s.ring.usedIdx ==> Reapable(s))
  {
    if s.ring.lastUsed == s.ring.usedIdx then (s, None)
    else
      var head := R.NextUsed(s.ring).id;
      var addr := s.desc[head + 1].addr;
      (Tx(R.Consume(s.ring), s.max, s.cur - 1, s.stack[s.cur - 1 := head], s.desc, s.bufs - {addr}),
       Some(s.bufs[addr]))
  }

  // ----- histories -----

  /** What one publication lends to the device. */
  datatype Loan = Loan(addr: nat, buf: nat, len: nat)

  datatype Hist = Hist(
    log: R.Log,
    loans: seq<Loan>,        // the loan of each publication
    owner: map<nat, nat>,    // the head in flight that each mapped device address belongs to
    returned: seq<nat>)      // the buffers that Reap returned, in order

  /** Every head is either free, once, or in flight. */
  ghost predicate FreeInv(max: nat, cur: nat, stack: seq<nat>, flight: map<nat, nat>) {
    && cur <= max == |stack|
    && (forall i :: cur <= i < max ==> R.IsHead(max, stack[i]) && stack[i] !in flight)
    && R.NoRepeat(stack[cur..])
    && (forall x :: R.IsHead(max, x) ==> x in flight || x in stack[cur..])
  }

  ghost predicate Lent(desc: seq<Desc>, bufs: map<nat, nat>, h: Hist, x: nat) {
    && x in h.log.flight && h.log.flight[x] < |h.loans| && x + 1 < |desc|
    && var p := h.loans[h.log.flight[x]];
       desc[x + 1].addr == p.addr && desc[x + 1].len == p.len && p.addr in bufs && bufs[p.addr] == p.buf && p.addr in h.owner && h.owner[p.addr] == x
  }

  ghost predicate Owned(desc: seq<Desc>, h: Hist, a: nat) {
    a in h.owner && h.owner[a] in h.log.flight && h.owner[a] + 1 < |desc| && desc[h.owner[a] + 1].addr == a
  }

  /** The collection holds exactly the device addresses in flight, with the callers' buffers. */
  ghost predicate BufInv(desc: seq<Desc>, bufs: map<nat, nat>, h: Hist) {
    && (forall x :: x in h.log.flight ==> Lent(desc, bufs, h, x))
    && (forall a :: a in bufs ==> Owned(desc, h, a))
  }

  /** The i-th buffer handed back is the buffer of the i-th completed publication. */
  ghost predicate ReturnInv(h: Hist) {
    && |h.loans| == |h.log.pub|
    && |h.returned| == h.log.reaped <= |h.log.done|
    && (forall k :: 0 <= k < |h.log.done| ==> h.log.done[k] < |h.loans|)
    && forall i :: 0 <= i < h.log.reaped ==> h.returned[i] == h.loans[h.log.done[i]].buf
  }

  ghost predicate Inv(s: Tx, h: Hist) {
    && Shaped(s) && R.Inv(s.ring, h.log, s.max) && h.log.reaped + s.cur == |h.log.pub|
    && FreeInv(s.max, s.cur, s.stack, h.log.flight)
    && BufInv(s.desc, s.bufs, h) && ReturnInv(h)
  }

  /** What the calls need to know of the invariant before they touch the queue. */
  lemma InvFacts(s: Tx, h: Hist)
    requires Inv(s, h)
    ensures Shaped(s) && ReturnInv(h) && R.Inv(s.ring, h.log, s.max) && h.log.reaped + s.cur == |h.log.pub|
    ensures s.ring.lastUsed != s.ring.usedIdx <==> h.log.reaped < |h.log.done|
    ensures s.ring.lastUsed != s.ring.usedIdx ==> 0 < s.cur
  {
    hide R.Inv;
    R.InvFacts(s.ring, h.log, s.max);
  }

  // ----- publishing -----

  /** What a queued request lends: its packet, at its device address. */
  function LoanOf(r: Request): Loan
    requires r.mapping.Some?
  {
    Loan(r.mapping.value, r.buf, r.len)
  }

  ghost function PublishHist(h: Hist, head: nat, p: Loan): Hist {
    Hist(R.PublishLog(h.log, head), h.loans + [p], h.owner[p.addr := head], h.returned)
  }

  lemma PublishFree(max: nat, cur: nat, stack: seq<nat>, flight: map<nat, nat>, id: nat)
    requires FreeInv(max, cur, stack, flight) && cur < max
    ensures FreeInv(max, cur + 1, stack, flight[stack[cur] := id])
  {
    var rest := stack[cur + 1..];
    assert stack[cur..] == [stack[cur]] + rest;
    forall i | cur + 1 <= i < max ensures R.IsHead(max, stack[i]) && stack[i] !in flight[stack[cur] := id] {
      assert stack[i] == stack[cur..][i - cur] && stack[cur] == stack[cur..][0];
    }
    forall i, j | 0 <= i < j < |rest| ensures rest[i] != rest[j] {
      assert rest[i] == stack[cur..][i + 1] && rest[j] == stack[cur..][j + 1];
    }
  }

  lemma PublishBufs(desc: seq<Desc>, bufs: map<nat, nat>, h: Hist, head: nat, r: Request)
    requires BufInv(desc, bufs, h) && head !in h.log.flight && head + 1 < |desc| && |h.loans| == |h.log.pub|
    requires r.mapping.Some? && r.mapping.value !in bufs
    ensures BufInv(desc[head + 1 := desc[head + 1].(addr := r.mapping.value, len := r.len)],
                   bufs[r.mapping.value := r.buf], PublishHist(h, head, LoanOf(r)))
  {
    var addr := r.mapping.value;
    var desc' := desc[head + 1 := desc[head + 1].(addr := addr, len := r.len)];
    var bufs', h' := bufs[addr := r.buf], PublishHist(h, head, LoanOf(r));
    forall x | x in h'.log.flight ensures Lent(desc', bufs', h', x) {
      assert x != head ==> Lent(desc, bufs, h, x);
    }
    forall a | a in bufs' ensures Owned(desc', h', a) {
      assert a != addr ==> Owned(desc, h, a);
    }
  }

  lemma PublishReturn(h: Hist, head: nat, p: Loan)
    requires ReturnInv(h)
    ensures ReturnInv(PublishHist(h, head, p))
  {}

  lemma FreeTop(s: Tx, h: Hist)
    requires Inv(s, h) && s.cur < s.max
    ensures Shaped(s) && R.IsHead(s.max, s.stack[s.cur]) && s.stack[s.cur] !in h.log.flight
  {
    hide R.Inv, BufInv, ReturnInv;
  }

  lemma PublishInv(s: Tx, h: Hist, r: Request)
    requires Inv(s, h) && s.cur < s.max && r.mapping.Some? && r.mapping.value !in s.bufs
    ensures Shaped(s) && Inv(Publish(s, r), PublishHist(h, s.stack[s.cur], LoanOf(r)))
  {
    hide R.Inv, BufInv, FreeInv, R.Publish;
    FreeTop(s, h);
    InvFacts(s, h);
    var head := s.stack[s.cur];
    R.PublishInv(s.ring, h.log, s.max, head);
    PublishFree(s.max, s.cur, s.stack, h.log.flight, |h.log.pub|);
    PublishBufs(s.desc, s.bufs, h, head, r);
    PublishReturn(h, head, LoanOf(r));
    PublishShaped(s, r);
  }

  lemma PublishShaped(s: Tx, r: Request)
    requires Shaped(s) && s.cur < s.max && r.mapping.Some?
    ensures Shaped(Publish(s, r))
  {}

  // ----- reaping -----

  /** Records what a reading of the used ring handed back. */
  ghost function ReapHist(h: Hist, buf: Option<nat>): Hist
    requires ReturnInv(h)
  {
    var returned := h.returned + if buf.Some? then [buf.value] else [];
    if h.log.reaped == |h.log.done| then h.(returned := returned)
    else
      var p := h.loans[h.log.done[h.log.reaped]];
      Hist(R.ConsumeLog(h.log), h.loans, h.owner - {p.addr}, returned)
  }

  lemma ReapFree(max: nat, cur: nat, stack: seq<nat>, flight: map<nat, nat>, head: nat)
    requires FreeInv(max, cur, stack, flight) && 0 < cur && head in flight && R.IsHead(max, head)
    ensures FreeInv(max, cur - 1, stack[cur - 1 := head], flight - {head})
  {
    var stack' := stack[cur - 1 := head];
    var free := stack'[cur - 1..];
    assert free == [head] + stack[cur..];
    forall i | cur - 1 <= i < max ensures R.IsHead(max, stack'[i]) && stack'[i] !in flight - {head} {
      assert i != cur - 1 ==> stack'[i] == stack[i];
    }
    forall i, j | 0 <= i < j < |free| ensures free[i] != free[j] {
      assert free[j] == stack[cur..][j - 1] == stack[cur + j - 1];
      assert 0 < i ==> free[i] == stack[cur..][i - 1];
    }
  }

  lemma ReapBufs(desc: seq<Desc>, bufs: map<nat, nat>, h: Hist, head: nat, buf: Option<nat>)
    requires BufInv(desc, bufs, h) && ReturnInv(h) && h.log.reaped < |h.log.done|
    requires head == h.log.pub[h.log.done[h.log.reaped]]
    requires head in h.log.flight && h.log.flight[head] == h.log.done[h.log.reaped]
    ensures head + 1 < |desc| && desc[head + 1].addr in bufs
    ensures bufs[desc[head + 1].addr] == h.loans[h.log.done[h.log.reaped]].buf
    ensures BufInv(desc, bufs - {desc[head + 1].addr}, ReapHist(h, buf))
  {
    assert Lent(desc, bufs, h, head);
    var addr := desc[head + 1].addr;
    var bufs', h' := bufs - {addr}, ReapHist(h, buf);
    forall x | x in h'.log.flight ensures Lent(desc, bufs', h', x) {
      assert Lent(desc, bufs, h, x);
    }
    forall a | a in bufs' ensures Owned(desc, h', a) {
      assert Owned(desc, h, a);
    }
  }

  lemma ReapReturn(h: Hist, buf: Option<nat>)
    requires ReturnInv(h) && h.log.reaped < |h.log.done|
    requires buf == Some(h.loans[h.log.done[h.log.reaped]].buf)
    ensures ReturnInv(ReapHist(h, buf))
  {}

  /** The entry at the front of the used ring is the oldest unread completion, and its address is mapped. */
  ghost predicate ReadsOldest(s: Tx, h: Hist) {
    && Shaped(s) && Reapable(s) && ReturnInv(h) && h.log.reaped < |h.log.done|
    && var head, id := R.NextUsed(s.ring).id, h.log.done[h.log.reaped];
    && R.IsHead(s.max, head) && head < 2 * s.max - 1 && head == h.log.pub[id]
    && head in h.log.flight && h.log.flight[head] == id
    && s.bufs[s.desc[head + 1].addr] == h.loans[id].buf
  }

  /** The assertions of GetStatus hold whenever it reads a used entry. */
  lemma NextUsedIs(s: Tx, h: Hist)
    requires Inv(s, h) && s.ring.lastUsed != s.ring.usedIdx
    ensures ReadsOldest(s, h)
  {
    hide R.Inv, FreeInv, BufInv, R.NextUsed, R.Shaped, R.IsHead;
    InvFacts(s, h);
    R.NextUsedIs(s.ring, h.log, s.max);
    R.HeadBelow(s.max, R.NextUsed(s.ring).id);
    ReapBufs(s.desc, s.bufs, h, R.NextUsed(s.ring).id, None);
  }

  lemma ReapShaped(s: Tx)
    requires Shaped(s) && s.ring.lastUsed != s.ring.usedIdx && Reapable(s)
    ensures Shaped(Reap(s).0)
  {}

  /** Reaping succeeds in every reachable state and hands back the right buffer. */
  lemma ReapInv(s: Tx, h: Hist)
    requires Inv(s, h)
    ensures Shaped(s) && (s.ring.lastUsed != s.ring.usedIdx ==> Reapable(s)) && ReturnInv(h)
    ensures Inv(Reap(s).0, ReapHist(h, Reap(s).1))
    ensures Reap(s).1 == if h.log.reaped < |h.log.done| then Some(h.loans[h.log.done[h.log.reaped]].buf) else None
  {
    hide R.Inv, FreeInv, BufInv, R.NextUsed, R.Consume;
    InvFacts(s, h);
    if s.ring.lastUsed != s.ring.usedIdx {
      NextUsedIs(s, h);
      var head := R.NextUsed(s.ring).id;
      R.ConsumeInv(s.ring, h.log, s.max);
      ReapReturn(h, Reap(s).1);
      ReapShaped(s);
      ReapFree(s.max, s.cur, s.stack, h.log.flight, head);
      ReapBufs(s.desc, s.bufs, h, head, Reap(s).1);
    } else {
      ReapNothing(s, h);
    }
  }

  lemma ReapNothing(s: Tx, h: Hist)
    requires Shaped(s) && ReturnInv(h) && s.ring.lastUsed == s.ring.usedIdx && h.log.reaped == |h.log.done|
    ensures Reap(s) == (s, None) && ReapHist(h, None) == h
  {
    assert h.returned + [] == h.returned;
  }

  // ----- device steps -----

  function Take(s: Tx): Tx
    requires Shaped(s)
  {
    s.(ring := R.Take(s.ring))
  }

  function Complete(s: Tx, head: nat, len: nat): Tx
    requires Shaped(s)
  {
    s.(ring := R.Complete(s.ring, head, len))
  }

  /** A device step changes neither who holds which head nor what was lent. */
  lemma DeviceStep(s: Tx, h: Hist, ring: R.Ring, log: R.Log)
    requires Inv(s, h) && R.Inv(ring, log, s.max) && R.Shaped(ring) && ring.size == s.ring.size
    requires log.pub == h.log.pub && log.flight == h.log.flight && log.reaped == h.log.reaped
    requires h.log.done <= log.done && (forall k :: 0 <= k < |log.done| ==> log.done[k] < |log.pub|)
    ensures Inv(s.(ring := ring), h.(log := log))
  {
    hide R.Inv, R.Shaped;
    var h' := h.(log := log);
    forall x | x in log.flight ensures Lent(s.desc, s.bufs, h', x) {
      assert Lent(s.desc, s.bufs, h, x);
    }
    forall a | a in s.bufs ensures Owned(s.desc, h', a) {
      assert Owned(s.desc, h, a);
    }
  }

  lemma TakeInv(s: Tx, h: Hist)
    requires Inv(s, h)
    ensures Shaped(s) && Inv(Take(s), h.(log := R.TakeLog(h.log)))
  {
    hide R.Inv, Inv;
    InvFacts(s, h);
    R.InvFacts(s.ring, h.log, s.max);
    R.TakeInv(s.ring, h.log, s.max);
    R.InvFacts(R.Take(s.ring), R.TakeLog(h.log), s.max);
    DeviceStep(s, h, R.Take(s.ring), R.TakeLog(h.log));
  }

  lemma CompleteInv(s: Tx, h: Hist, head: nat, len: nat)
    requires Inv(s, h)
    ensures Shaped(s) && Inv(Complete(s, head, len), h.(log := R.CompleteLog(h.log, s.ring.held, head, len)))
  {
    hide R.Inv, Inv;
    InvFacts(s, h);
    R.InvFacts(s.ring, h.log, s.max);
    R.CompleteInv(s.ring, h.log, s.max, head, len);
    var ring, log := R.Complete(s.ring, head, len), R.CompleteLog(h.log, s.ring.held, head, len);
    R.InvFacts(ring, log, s.max);
    DeviceStep(s, h, ring, log);
  }

  // ----- runs -----

  datatype Event = EvTransmit(r: Request) | EvReap | EvTake | EvComplete(head: nat, len: nat)

  ghost function Step(s: Tx, h: Hist, l: Limits, e: Event): (r: (Tx, Hist))
    requires Inv(s, h)
  {
    InvFacts(s, h);
    match e
    case EvTransmit(r) =>
      if Queues(s, l, r) then
        (Publish(s, r), PublishHist(h, s.stack[s.cur], LoanOf(r)))
      else (s, h)
    case EvReap =>
      ReapInv(s, h);
      (Reap(s).0, ReapHist(h, Reap(s).1))
    case EvTake => (Take(s), h.(log := R.TakeLog(h.log)))
    case EvComplete(head, len) =>
      (Complete(s, head, len), h.(log := R.CompleteLog(h.log, s.ring.held, head, len)))
  }

  /** Every driver call and every device step keeps the invariant. */
  lemma StepInv(s: Tx, h: Hist, l: Limits, e: Event)
    requires Inv(s, h)
    ensures Inv(Step(s, h, l, e).0, Step(s, h, l, e).1)
    ensures Step(s, h, l, e).0.ring.size == s.ring.size && Step(s, h, l, e).0.max == s.max
  {
    hide Inv;
    InvFacts(s, h);
    match e
    case EvTransmit(r) =>
      if Queues(s, l, r) {
        PublishInv(s, h, r);
      }
    case EvReap => ReapInv(s, h);
    case EvTake => TakeInv(s, h);
    case EvComplete(head, len) => CompleteInv(s, h, head, len);
  }

  /** The state and history after any interleaving of driver calls and device steps. */
  ghost function Run(s: Tx, h: Hist, l: Limits, es: seq<Event>): (Tx, Hist)
    requires Inv(s, h)
    decreases |es|
  {
    hide Inv;
    if es == [] then (s, h)
    else
      var n := Step(s, h, l, es[0]);
      StepInv(s, h, l, es[0]);
      Run(n.0, n.1, l, es[1..])
  }

  lemma {:induction false} RunInv(s: Tx, h: Hist, l: Limits, es: seq<Event>)
    requires Inv(s, h)
    ensures Inv(Run(s, h, l, es).0, Run(s, h, l, es).1)
    ensures Run(s, h, l, es).0.ring.size == s.ring.size && Run(s, h, l, es).0.max == s.max
    decreases |es|
  {
    hide Inv, Step;
    if es != [] {
      var n := Step(s, h, l, es[0]);
      StepInv(s, h, l, es[0]);
      RunInv(n.0, n.1, l, es[1..]);
    }
  }

  /** Nothing but the address and length of a chain's second descriptor ever changes. */
  ghost predicate SameLayout(a: seq<Desc>, b: seq<Desc>) {
    && |a| == |b|
    && forall i :: 0 <= i < |a| ==> b[i].next == a[i].next && b[i].write == a[i].write && (i % 2 == 0 ==> b[i] == a[i])
  }

  lemma PublishLayout(s: Tx, r: Request)
    requires Shaped(s) && s.cur < s.max && r.mapping.Some? && R.IsHead(s.max, s.stack[s.cur])
    ensures SameLayout(s.desc, Publish(s, r).desc)
  {
    var head, desc := s.stack[s.cur], s.desc;
    var desc' := desc[head + 1 := desc[head + 1].(addr := r.mapping.value, len := r.len)];
    assert (head + 1) % 2 == 1;
    assert SameLayout(desc, desc');
  }

  lemma StepLayout(s: Tx, h: Hist, l: Limits, e: Event)
    requires Inv(s, h)
    ensures SameLayout(s.desc, Step(s, h, l, e).0.desc)
  {
    hide Inv;
    InvFacts(s, h);
    match e
    case EvTransmit(r) =>
      if Queues(s, l, r) {
        FreeTop(s, h);
        PublishLayout(s, r);
      }
    case EvReap => ReapInv(s, h);
    case EvTake =>
    case EvComplete(_, _) =>
  }

  /** Over any run the chains keep their shape: the request header, then one data descriptor. */
  lemma {:induction false} RunLayout(s: Tx, h: Hist, l: Limits, es: seq<Event>)
    requires Inv(s, h)
    ensures SameLayout(s.desc, Run(s, h, l, es).0.desc)
    decreases |es|
  {
    hide Inv;
    if es != [] {
      var n := Step(s, h, l, es[0]);
      StepInv(s, h, l, es[0]);
      StepLayout(s, h, l, es[0]);
      RunLayout(n.0, n.1, l, es[1..]);
    }
  }

  // ----- the initial state -----

  /** The chain of packet `i` in the table that VirtioNetInitTx lays out. */
  ghost predicate ChainAt(desc: seq<Desc>, i: nat, reqAddr: nat, reqLen: nat) {
    2 * i + 1 < |desc| && desc[2 * i] == Desc(reqAddr, reqLen, Some(2 * i + 1), false)
    && desc[2 * i + 1].next == None && !desc[2 * i + 1].write
  }

  ghost predicate Initial(s: Tx) {
    && R.Zeroed(s.ring) && s.max == (if s.ring.size / 2 < N.MAX_PENDING then s.ring.size / 2 else N.MAX_PENDING)
    && s.cur == 0 && |s.stack| == s.max && |s.desc| == s.ring.size
    && (forall i :: 0 <= i < s.max ==> s.stack[i] == 2 * i)
    && s.bufs == map[]
  }

  const EMPTY: Hist := Hist(R.EMPTY, [], map[], [])

  lemma InitialInv(s: Tx)
    requires Initial(s)
    ensures Inv(s, EMPTY)
  {
    hide R.Inv;
    R.ZeroedInv(s.ring, s.max);
    forall x | R.IsHead(s.max, x) ensures x in s.stack[s.cur..] {
      assert s.stack[x / 2] == x && s.stack[s.cur..] == s.stack;
    }
  }

  /** The state and history after a run from the initial state. */
  ghost function Reached(s0: Tx, l: Limits, es: seq<Event>): (Tx, Hist)
    requires Initial(s0)
  {
    InitialInv(s0);
    Run(s0, EMPTY, l, es)
  }

  lemma ReachedInv(s0: Tx, l: Limits, es: seq<Event>)
    requires Initial(s0)
    ensures Inv(Reached(s0, l, es).0, Reached(s0, l, es).1)
  {
    hide Inv, Run;
    InitialInv(s0);
    RunInv(s0, EMPTY, l, es);
  }

  // ----- what holds in every reachable state -----

  /** The heads that are not free. */
  ghost function Busy(h: Hist): set<nat> { h.log.flight.Keys }

  ghost function FreeHeads(s: Tx): set<nat>
    requires s.cur <= |s.stack|
  {
    set i | s.cur <= i < |s.stack| :: s.stack[i]
  }

  lemma FreeHeadsExact(s: Tx, flight: map<nat, nat>)
    requires FreeInv(s.max, s.cur, s.stack, flight) && (forall x :: x in flight ==> R.IsHead(s.max, x))
    ensures forall i, j :: s.cur <= i < j < s.max ==> s.stack[i] != s.stack[j]
    ensures FreeHeads(s) !! flight.Keys
    ensures forall x :: x in FreeHeads(s) + flight.Keys <==> R.IsHead(s.max, x)
  {
    forall i, j | s.cur <= i < j < s.max ensures s.stack[i] != s.stack[j] {
      assert s.stack[i] == s.stack[s.cur..][i - s.cur] && s.stack[j] == s.stack[s.cur..][j - s.cur];
    }
    forall x ensures x in FreeHeads(s) + flight.Keys <==> R.IsHead(s.max, x) {
      if R.IsHead(s.max, x) && x !in flight {
        var i :| 0 <= i < |s.stack[s.cur..]| && s.stack[s.cur..][i] == x;
        assert s.stack[s.cur + i] == x;
      }
    }
  }

  /** The addresses in the second descriptors of some heads. */
  ghost function AddrsOf(desc: seq<Desc>, heads: set<nat>): set<nat> {
    set x | x in heads && x + 1 < |desc| :: desc[x + 1].addr
  }

  lemma LentAddr(desc: seq<Desc>, bufs: map<nat, nat>, h: Hist, x: nat)
    requires BufInv(desc, bufs, h) && x in Busy(h)
    ensures x + 1 < |desc| && desc[x + 1].addr in bufs
  {
    assert Lent(desc, bufs, h, x);
  }

  lemma OwnedAddr(desc: seq<Desc>, bufs: map<nat, nat>, h: Hist, a: nat)
    requires BufInv(desc, bufs, h) && a in bufs
    ensures a in AddrsOf(desc, Busy(h))
  {
    assert Owned(desc, h, a);
    assert h.owner[a] in Busy(h);
  }

  lemma CollectionKeys(desc: seq<Desc>, bufs: map<nat, nat>, h: Hist)
    requires BufInv(desc, bufs, h)
    ensures forall x :: x in Busy(h) ==> x + 1 < |desc|
    ensures bufs.Keys == AddrsOf(desc, Busy(h))
  {
    hide BufInv;
    forall x | x in Busy(h) ensures x + 1 < |desc| && desc[x + 1].addr in bufs {
      LentAddr(desc, bufs, h, x);
    }
    forall a | a in bufs ensures a in AddrsOf(desc, Busy(h)) {
      OwnedAddr(desc, bufs, h, a);
    }
  }

  /**
   Ownership: in every interleaving the free heads, which do not repeat, and the heads in
   flight together are exactly the heads, and the collection's keys are exactly the device
   addresses in the second descriptors of the heads in flight.
   */
  lemma Ownership(s0: Tx, l: Limits, es: seq<Event>)
    requires Initial(s0)
    ensures var (s, h) := Reached(s0, l, es);
            && s.cur <= s.max == |s.stack|
            && (forall i, j :: s.cur <= i < j < s.max ==> s.stack[i] != s.stack[j])
            && FreeHeads(s) !! Busy(h)
            && (forall x :: x in FreeHeads(s) + Busy(h) <==> R.IsHead(s.max, x))
            && (forall x :: x in Busy(h) ==> x + 1 < |s.desc|)
            && s.bufs.Keys == AddrsOf(s.desc, Busy(h))
  {
    hide R.RingInv, BufInv, ReturnInv;
    ReachedInv(s0, l, es);
    var (s, h) := Reached(s0, l, es);
    forall x | x in h.log.flight ensures R.IsHead(s.max, x) {
      assert R.InFlight(s.max, s.ring.held, h.log, x);
    }
    FreeHeadsExact(s, h.log.flight);
    CollectionKeys(s.desc, s.bufs, h);
  }

  /**
   Buffers come back at most once: the i-th buffer that a reading of the used ring returned is
   that of publication `done[i]`, and no publication completes twice; one that is completed and
   read came back.
   */
  lemma HandedBackOnce(s0: Tx, l: Limits, es: seq<Event>)
    requires Initial(s0)
    ensures var h := Reached(s0, l, es).1;
            && |h.returned| == h.log.reaped <= |h.log.done|
            && (forall i :: 0 <= i < |h.log.done| ==> h.log.done[i] < |h.loans|)
            && (forall i :: 0 <= i < h.log.reaped ==> h.returned[i] == h.loans[h.log.done[i]].buf)
            && (forall i, j :: 0 <= i < j < |h.log.done| ==> h.log.done[i] != h.log.done[j])
  {
    hide FreeInv, BufInv, R.RingInv;
    ReachedInv(s0, l, es);
  }

  /** The requests among the events that the run queued, in order. */
  ghost function Queued(s: Tx, h: Hist, l: Limits, es: seq<Event>): seq<Request>
    requires Inv(s, h)
    decreases |es|
  {
    hide Inv;
    if es == [] then []
    else
      var n := Step(s, h, l, es[0]);
      StepInv(s, h, l, es[0]);
      (if es[0].EvTransmit? && Queues(s, l, es[0].r) then [es[0].r] else []) + Queued(n.0, n.1, l, es[1..])
  }

  /** The loans record the device address, the buffer and the length of each queued packet. */
  ghost predicate Records(loans: seq<Loan>, rs: seq<Request>) {
    |loans| == |rs| && forall k :: 0 <= k < |rs| ==>
      rs[k].mapping.Some? && loans[k].addr == rs[k].mapping.value && loans[k].buf == rs[k].buf && loans[k].len == rs[k].len
  }

  lemma {:induction false} RunRecords(s: Tx, h: Hist, l: Limits, es: seq<Event>, rs: seq<Request>)
    requires Inv(s, h) && Records(h.loans, rs)
    ensures Records(Run(s, h, l, es).1.loans, rs + Queued(s, h, l, es))
    decreases |es|
  {
    hide Inv, Step;
    if es == [] {
      assert rs + [] == rs;
    } else {
      var n := Step(s, h, l, es[0]);
      var now := if es[0].EvTransmit? && Queues(s, l, es[0].r) then [es[0].r] else [];
      StepInv(s, h, l, es[0]);
      StepRecords(s, h, l, es[0], rs);
      RunRecords(n.0, n.1, l, es[1..], rs + now);
      assert rs + now + Queued(n.0, n.1, l, es[1..]) == rs + Queued(s, h, l, es);
    }
  }

  lemma StepRecords(s: Tx, h: Hist, l: Limits, e: Event, rs: seq<Request>)
    requires Inv(s, h) && Records(h.loans, rs)
    ensures Records(Step(s, h, l, e).1.loans, rs + if e.EvTransmit? && Queues(s, l, e.r) then [e.r] else [])
  {
    hide Inv;
    InvFacts(s, h);
    assert rs + [] == rs;
  }

  /** What the device reads when it follows a chain: address and length of each part. */
  function Followed(desc: seq<Desc>, head: nat, steps: nat): seq<(nat, nat)>
    decreases steps
  {
    if steps == 0 || head >= |desc| || desc[head].write then []
    else [(desc[head].addr, desc[head].len)]
         + if desc[head].next.Some? then Followed(desc, desc[head].next.value, steps - 1) else []
  }

  /** Following the chain from `x` yields the request header and then the packet of `r`, and ends. */
  ghost predicate Carries(desc: seq<Desc>, x: nat, reqAddr: nat, reqLen: nat, r: Request) {
    r.mapping.Some? && forall n: nat :: 2 <= n ==> Followed(desc, x, n) == [(reqAddr, reqLen), (r.mapping.value, r.len)]
  }

  lemma ChainCarries(a: seq<Desc>, b: seq<Desc>, i: nat, reqAddr: nat, reqLen: nat, r: Request)
    requires ChainAt(a, i, reqAddr, reqLen) && SameLayout(a, b)
    requires r.mapping.Some? && b[2 * i + 1].addr == r.mapping.value && b[2 * i + 1].len == r.len
    ensures Carries(b, 2 * i, reqAddr, reqLen, r)
  {
    var x := 2 * i;
    assert b[x] == a[x];
    forall n: nat | 2 <= n
      ensures Followed(b, x, n) == [(reqAddr, reqLen), (r.mapping.value, r.len)]
    {
      assert Followed(b, x + 1, n - 1) == [(r.mapping.value, r.len)] + [];
    }
  }

  lemma LentIs(s: Tx, h: Hist, rs: seq<Request>, x: nat)
    requires Inv(s, h) && Records(h.loans, rs) && x in h.log.flight
    ensures R.IsHead(s.max, x) && h.log.flight[x] < |rs| && x + 1 < |s.desc|
    ensures var r := rs[h.log.flight[x]];
            r.mapping.Some? && s.desc[x + 1].addr == r.mapping.value && s.desc[x + 1].len == r.len
  {
    hide R.Inv, FreeInv, R.IsHead;
    FlightIsHead(s, h, x);
    assert Lent(s.desc, s.bufs, h, x);
  }

  /**
   In every interleaving the device that follows a head in flight reads the shared request header
   and then exactly the packet of one queued request: the one whose publication is in flight there.
   */
  lemma DeviceReadsPacket(s0: Tx, l: Limits, es: seq<Event>, reqAddr: nat, reqLen: nat, x: nat)
    requires Initial(s0) && forall i: nat :: i < s0.max ==> ChainAt(s0.desc, i, reqAddr, reqLen)
    ensures Inv(s0, EMPTY)
    ensures var (s, h) := Reached(s0, l, es);
            var rs := Queued(s0, EMPTY, l, es);
            |rs| == |h.log.pub| &&
            (x in h.log.flight ==> h.log.flight[x] < |rs| && Carries(s.desc, x, reqAddr, reqLen, rs[h.log.flight[x]]))
  {
    hide Inv, Run, Queued, ChainAt, SameLayout, Carries;
    InitialInv(s0);
    ReachedInv(s0, l, es);
    var (s, h) := Reached(s0, l, es);
    var rs := Queued(s0, EMPTY, l, es);
    RunRecords(s0, EMPTY, l, es, []);
    assert [] + rs == rs;
    InvFacts(s, h);
    if x in h.log.flight {
      LentIs(s, h, rs, x);
      RunInv(s0, EMPTY, l, es);
      RunLayout(s0, EMPTY, l, es);
      ChainCarries(s0.desc, s.desc, x / 2, reqAddr, reqLen, rs[h.log.flight[x]]);
    }
  }

  lemma FlightIsHead(s: Tx, h: Hist, x: nat)
    requires Inv(s, h) && x in h.log.flight
    ensures R.IsHead(s.max, x)
  {
    hide R.RingInv, FreeInv, BufInv, ReturnInv;
    assert R.InFlight(s.max, s.ring.held, h.log, x);
  }

  /**
   Wrapping indices refine unbounded counters over runs of any length: the comparisons made by
   driver and device are exact, and each side reads what the other one wrote.
   */
  lemma WrapRefines(s0: Tx, l: Limits, es: seq<Event>)
    requires Initial(s0)
    ensures var (s, h) := Reached(s0, l, es);
            && (s.ring.lastUsed != s.ring.usedIdx <==> h.log.reaped < |h.log.done|)
            && (s.ring.devAvail != s.ring.availIdx <==> h.log.taken < |h.log.pub|)
            && R.RingInv(s.ring, h.log, s.max)
  {
    hide FreeInv, BufInv, R.FlightInv;
    ReachedInv(s0, l, es);
    var (s, h) := Reached(s0, l, es);
    R.IndicesExact(s.ring, h.log, s.max);
  }

  /** The device has taken the chain, holds it no longer, and no other chain in flight lends its address. */
  ghost predicate DoneWith(s: Tx, h: Hist, x: nat) {
    && x in h.log.flight && h.log.flight[x] < h.log.taken && x !in s.ring.held && x + 1 < |s.desc|
    && forall y :: y in h.log.flight && y != x ==> y + 1 < |s.desc| && s.desc[y + 1].addr != s.desc[x + 1].addr
  }

  lemma FrontIsDone(s: Tx, h: Hist)
    requires Inv(s, h) && s.ring.lastUsed != s.ring.usedIdx
    ensures Shaped(s) && DoneWith(s, h, R.NextUsed(s.ring).id)
  {
    hide R.Inv, FreeInv, ReturnInv, R.NextUsed, R.Shaped;
    NextUsedIs(s, h);
    InvFacts(s, h);
    R.InvFacts(s.ring, h.log, s.max);
    var x := R.NextUsed(s.ring).id;
    if x in s.ring.held {
      R.UnreadNotHeld(s.ring, h.log, s.max, x, h.log.reaped);
    }
    assert Lent(s.desc, s.bufs, h, x);
    forall y | y in h.log.flight && y != x
      ensures y + 1 < |s.desc| && s.desc[y + 1].addr != s.desc[x + 1].addr
    {
      assert Lent(s.desc, s.bufs, h, y);
    }
  }

  /**
   What GetStatus unmaps is never still in the hands of the device: in every interleaving the chain
   at the front of the used ring is done with, and its address is lent for no other chain.
   */
  lemma UnmapsOnlyDone(s0: Tx, l: Limits, es: seq<Event>)
    requires Initial(s0)
    ensures var (s, h) := Reached(s0, l, es);
            Shaped(s) && (s.ring.lastUsed != s.ring.usedIdx ==> DoneWith(s, h, R.NextUsed(s.ring).id))
  {
    hide Inv, Reached, DoneWith;
    ReachedInv(s0, l, es);
    var (s, h) := Reached(s0, l, es);
    InvFacts(s, h);
    if s.ring.lastUsed != s.ring.usedIdx {
      FrontIsDone(s, h);
    }
  }

  /**
   A failed notification is reported as an error although the packet has been queued: exactly
   then does Transmit fail and yet take the buffer.
   */
  lemma TransmitErrorQueues(s: Tx, l: Limits, r: Request)
    requires Shaped(s)
    ensures var (s', st) := Transmit(s, l, r);
            (st != Success && s' != s) <==> Queues(s, l, r) && r.notify != Success
  {}
}
