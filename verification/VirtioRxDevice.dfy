/** The receive queue in memory: laid out once, then updated in place by driver and device. */
module VirtioRxDevice {
  import opened Bytes
  import opened Wrap
  import R = SplitRing
  import T = VirtioTx
  import X = VirtioRx
  import N = VirtioNet

  /** The loop that lays out one two-part chain per packet and links it from the available ring. */
  method LayOut(ghost c: X.Config, size: nat, n: nat, base: nat, req: nat, data: nat)
    returns (ds: array<T.Desc>, av: array<nat>)
    requires 2 * n <= size && c.n == n && c.base == base && c.req == req && c.data == data
    ensures fresh(ds) && fresh(av) && ds.Length == av.Length == size
    ensures forall i: nat :: i < n ==> X.ChainAt(c, ds[..], i)
    ensures forall i :: 0 <= i < n ==> av[i] == 2 * i
  {
    ds := new T.Desc[size](_ => T.Desc(0, 0, None, false));
    av := new nat[size](_ => 0);
    var d, addr := 0, base;
    for pkt := 0 to n
      invariant d == 2 * pkt && addr == base + X.Start(c, pkt)
      invariant fresh(ds) && fresh(av)
      invariant forall i: nat :: i < pkt ==> X.ChainAt(c, ds[..], i)
      invariant forall i :: 0 <= i < pkt ==> av[i] == 2 * i
    {
      ghost var before := ds[..];
      X.StartStep(c, pkt);
      av[pkt] := d;
      ds[d] := T.Desc(addr, req, Some(d + 1), true);
      addr := addr + ds[d].len;
      d := d + 1;
      ds[d] := T.Desc(addr, (req + data) - req, None, true);
      addr := addr + ds[d].len;
      d := d + 1;
      forall i: nat | i < pkt ensures X.ChainAt(c, ds[..], i) {
        assert X.ChainAt(c, before, i);
      }
    }
  }

  class Queue {
    const size: nat
    const n: nat
    const base: nat
    const req: nat
    const data: nat
    const desc: array<T.Desc>
    const avail: array<nat>
    const used: array<R.Elem>
    const mem: array<byte>
    var availIdx: nat
    var usedIdx: nat
    var lastUsed: nat
    var devAvail: nat
    var held: set<nat>
    ghost var hist: X.Hist

    ghost function Conf(): X.Config
      reads desc
    {
      X.Config(n, base, req, data, desc[..])
    }

    ghost function View(): X.Rx
      reads this, avail, used, mem
    {
      X.Rx(R.Ring(size, avail[..], availIdx, used[..], usedIdx, lastUsed, devAvail, held), mem[..])
    }

    ghost predicate Valid()
      reads this, desc, avail, used, mem
    {
      X.Inv(Conf(), View(), hist)
    }

    /** VirtioNetInitRx over a zeroed ring and a zeroed buffer. */
    constructor (size: nat, base: nat, req: nat, data: nat)
      requires IsQueueSize(size)
      ensures Valid() && X.Initial(Conf(), View()) && hist == X.InitHist(Conf())
      ensures n == if size / 2 < 64 then size / 2 else 64
    {
      hide X.Inv;
      var k := if size / 2 < N.MAX_PENDING then size / 2 else N.MAX_PENDING;
      ghost var c := X.Config(k, base, req, data, []);
      var ds, av := LayOut(c, size, k, base, req, data);
      this.size, n, this.base, this.req, this.data := size, k, base, req, data;
      desc, avail := ds, av;
      used := new R.Elem[size](_ => R.Elem(0, 0));
      mem := new byte[k * (req + data)](_ => 0);
      usedIdx, lastUsed, devAvail, held := 0, 0, 0, {};
      availIdx := k;
      hist := X.Hist(X.InitLog(k), [], []);
      new;
      forall i: nat | i < n ensures X.ChainAt(Conf(), desc[..], i) {
        assert X.ChainAt(c, ds[..], i);
      }
      assert X.LaidOut(Conf());
      assert X.Initial(Conf(), View());
      X.InitialInv(Conf(), View());
    }

    /** Moves past the front used entry and publishes its chain again. */
    method Recycle(id: nat)
      requires X.Shaped(Conf(), View()) && id == R.NextUsed(View().ring).id
      modifies this`lastUsed, this`availIdx, avail
      ensures View() == X.Recycle(Conf(), old(View()))
    {
      lastUsed := (lastUsed + 1) % WRAP;
      var idx := availIdx;
      avail[idx % size] := id;
      availIdx := (idx + 1) % WRAP;
    }

    /** The front used entry and the packet data it stands for; both length assertions hold. */
    method Front() returns (id: nat, packet: Mem)
      requires X.Shaped(Conf(), View()) && X.Readable(Conf(), View())
      ensures id == R.NextUsed(View().ring).id && packet == X.FrontData(Conf(), View())
    {
      var e := used[lastUsed % size];
      assert e.len >= desc[e.id].len;
      var len := e.len - desc[e.id].len;
      assert len <= desc[e.id + 1].len;
      var off := desc[e.id + 1].addr - base;
      return e.id, mem[off..off + len];
    }

    /** VirtioNetReceive in the initialized state; `room` is the size of the caller's buffer. */
    method Receive(room: nat, notify: X.Status) returns (r: X.Result, media: Option<N.Media>)
      requires Valid()
      modifies this, avail
      ensures Valid()
      ensures X.Shaped(Conf(), old(View()))
      ensures old(View()).ring.lastUsed != old(View()).ring.usedIdx ==> X.Readable(Conf(), old(View()))
      ensures (View(), r) == X.Receive(Conf(), old(View()), room, notify)
      ensures (View(), hist) == X.Step(Conf(), old(View()), old(hist), X.EvReceive(room, notify))
      ensures media == if N.MEDIA_HEADER <= |r.data| then Some(N.MediaOf(r.data)) else None
      ensures hist.consumed ==
              old(hist).consumed + if X.Moves(Conf(), old(View()), room) then [X.FrontData(Conf(), old(View()))] else []
      ensures X.Usable(hist.consumed) == X.Usable(old(hist).consumed) + if media.Some? then [r.data] else []
    {
      hide X.Inv, R.Inv, X.PacketInv, X.OrderInv, X.AllFlying, X.LaidOut, X.Recycle, X.RecycleHist;
      hide X.FrontData, X.Readable, R.NextUsed, N.MediaOf;
      ghost var before := View();
      X.InvFacts(Conf(), before, hist);
      X.ReceiveIs(Conf(), before, hist, room, notify);
      media := None;
      if lastUsed == usedIdx {
        return X.Result(X.NotReady, None, []), media;
      }
      X.RecycleInv(Conf(), before, hist);
      var id, packet := Front();
      if room < |packet| {
        return X.Result(X.BufferTooSmall, Some(|packet|), []), media;
      }
      if |packet| < N.MEDIA_HEADER {
        r := X.Result(X.DeviceError, Some(|packet|), []);
      } else {
        var header := N.ReadMedia(packet);
        media := Some(header);
        r := X.Result(notify, Some(|packet|), packet);
      }
      Consumes(hist, id, packet);
      hist := X.RecycleHist(Conf(), hist, id, packet);
      Recycle(id);
    }

    lemma Consumes(h: X.Hist, id: nat, packet: Mem)
      requires h.log.reaped < |h.log.done| && h.log.done[h.log.reaped] < |h.log.pub|
      ensures X.RecycleHist(Conf(), h, id, packet).consumed == h.consumed + [packet]
      ensures X.Usable(h.consumed + [packet])
           == X.Usable(h.consumed) + if N.MEDIA_HEADER <= |packet| then [packet] else []
    {
      assert (h.consumed + [packet])[..|h.consumed|] == h.consumed;
    }

    // ----- the device -----

    method Take()
      requires Valid()
      modifies this
      ensures Valid()
      ensures (View(), hist) == X.Step(Conf(), old(View()), old(hist), X.EvTake)
    {
      hide X.Inv, R.Inv, X.PacketInv, X.OrderInv, X.AllFlying;
      ghost var before := View();
      X.InvFacts(Conf(), before, hist);
      R.InvFacts(before.ring, hist.log, n);
      X.TakeInv(Conf(), before, hist);
      if devAvail != availIdx {
        held := held + {avail[devAvail % size]};
        devAvail := (devAvail + 1) % WRAP;
      }
      hist := hist.(log := R.TakeLog(hist.log));
      assert View() == before.(ring := R.Take(before.ring));
    }

    /** Copies a packet into the slice of a chain. */
    method Fill(at: nat, p: Mem)
      requires at + |p| <= mem.Length
      modifies mem
      ensures mem[..] == Write(old(mem[..]), at, p)
    {
      for i := 0 to |p|
        invariant forall k :: 0 <= k < mem.Length ==> mem[k] == if at <= k < at + i then p[k - at] else old(mem[k])
      {
        mem[at + i] := p[i];
      }
    }

    method Deliver(head: nat, p: Mem)
      requires Valid()
      modifies this, used, mem
      ensures Valid()
      ensures (View(), hist) == X.Step(Conf(), old(View()), old(hist), X.EvDeliver(head, p))
    {
      hide X.Inv, R.Inv, X.PacketInv, X.OrderInv, X.AllFlying;
      ghost var before := View();
      X.InvFacts(Conf(), before, hist);
      X.DeliverInv(Conf(), before, hist, head, p);
      hist := X.DeliverHist(Conf(), before, hist, head, p);
      var at := (head / 2) * (req + data);
      if head in held && req <= |p| <= req + data && at + |p| <= mem.Length {
        Fill(at, p);
        used[usedIdx % size] := R.Elem(head, |p|);
        usedIdx := (usedIdx + 1) % WRAP;
        held := held - {head};
        assert View() == X.Deliver(Conf(), before, head, p);
      }
    }

    /**
     Any interleaving of calls and device steps, run in place, is the run of the snapshots;
     `received` are the packets that the calls handed out.
     */
    method Run(es: seq<X.Event>) returns (received: seq<Mem>)
      requires Valid()
      modifies this, avail, used, mem
      ensures Valid()
      ensures (View(), hist) == X.Run(Conf(), old(View()), old(hist), es)
      ensures X.Usable(hist.consumed) == X.Usable(old(hist).consumed) + received
    {
      hide X.Inv, X.Usable, X.Recycle, X.Deliver, R.Take, X.RecycleHist, X.FrontData, X.Deliverable;
      received := [];
      for k := 0 to |es|
        invariant Valid()
        invariant X.Run(Conf(), old(View()), old(hist), es) == X.Run(Conf(), View(), hist, es[k..])
        invariant X.Usable(hist.consumed) == X.Usable(old(hist).consumed) + received
      {
        assert es[k..][1..] == es[k + 1..];
        match es[k] {
          case EvReceive(room, notify) =>
            var r, media := Receive(room, notify);
            received := received + if media.Some? then [r.data] else [];
          case EvTake => Take();
          case EvDeliver(head, p) => Deliver(head, p);
        }
      }
    }
  }
}
