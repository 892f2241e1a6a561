/** The transmit queue in memory: the driver's calls and the device's steps update it in place. */
module VirtioTxDevice {
  import opened Bytes
  import opened Wrap
  import R = SplitRing
  import T = VirtioTx
  import N = VirtioNet

  /** What GetStatus reports besides its status. */
  datatype Report = Report(rx: bool, tx: bool, buf: Option<nat>)

  /** The loop that fills the stack of free heads and the descriptor table. */
  method LayOut(size: nat, n: nat, reqAddr: nat, reqLen: nat) returns (st: array<nat>, ds: array<T.Desc>)
    requires 2 * n <= size
    ensures fresh(st) && fresh(ds) && st.Length == n && ds.Length == size
    ensures forall k :: 0 <= k < n ==> st[k] == 2 * k
    ensures forall k: nat :: k < n ==> T.ChainAt(ds[..], k, reqAddr, reqLen)
  {
    st := new nat[n];
    ds := new T.Desc[size](_ => T.Desc(0, 0, None, false));
    for i := 0 to n
      invariant forall k :: 0 <= k < i ==> st[k] == 2 * k
      invariant forall k: nat :: k < i ==> T.ChainAt(ds[..], k, reqAddr, reqLen)
      invariant fresh(st) && fresh(ds)
    {
      ghost var before := ds[..];
      st[i] := 2 * i;
      ds[2 * i] := T.Desc(reqAddr, reqLen, Some(2 * i + 1), false);
      ds[2 * i + 1] := ds[2 * i + 1].(next := None, write := false);
      forall k: nat | k < i ensures T.ChainAt(ds[..], k, reqAddr, reqLen) {
        assert T.ChainAt(before, k, reqAddr, reqLen);
      }
    }
  }

  /** The buffer of the oldest completion that has not been read. */
  ghost function Oldest(h: T.Hist): Option<nat>
    requires T.ReturnInv(h)
  {
    if h.log.reaped < |h.log.done| then Some(h.loans[h.log.done[h.log.reaped]].buf) else None
  }

  class Queue {
    const size: nat
    const limits: T.Limits
    const current: N.Mac           // the device's own address
    var max: nat
    var cur: nat
    var stack: array<nat>
    var desc: array<T.Desc>
    var avail: array<nat>
    var availIdx: nat
    var used: array<R.Elem>
    var usedIdx: nat
    var lastUsed: nat
    var devAvail: nat
    var held: set<nat>
    var bufs: map<nat, nat>
    var mediaPresent: bool
    ghost var hist: T.Hist

    /** A snapshot of the queue. */
    ghost function View(): T.Tx
      reads this, stack, desc, avail, used
    {
      T.Tx(R.Ring(size, avail[..], availIdx, used[..], usedIdx, lastUsed, devAvail, held),
           max, cur, stack[..], desc[..], bufs)
    }

    ghost predicate Valid()
      reads this, stack, desc, avail, used
    {
      stack != avail && T.Inv(View(), hist)
    }

    /** VirtioNetInitTx over zeroed rings. */
    constructor (size: nat, limits: T.Limits, current: N.Mac, reqAddr: nat, reqLen: nat)
      requires IsQueueSize(size)
      ensures Valid() && fresh(stack) && fresh(desc) && fresh(avail) && fresh(used)
      ensures T.Initial(View()) && hist == T.EMPTY && this.limits == limits && this.current == current && this.size == size
      ensures max == if size / 2 < 64 then size / 2 else 64
      ensures forall i: nat :: i < max ==> T.ChainAt(View().desc, i, reqAddr, reqLen)
    {
      hide T.Inv, R.Inv;
      this.size, this.limits, this.current := size, limits, current;
      var n := if size / 2 < N.MAX_PENDING then size / 2 else N.MAX_PENDING;
      max, cur := n, 0;
      var st, ds := LayOut(size, n, reqAddr, reqLen);
      stack, desc := st, ds;
      avail, used := new nat[size](_ => 0), new R.Elem[size](_ => R.Elem(0, 0));
      availIdx, usedIdx, lastUsed, devAvail := 0, 0, 0, 0;
      bufs, held, mediaPresent, hist := map[], {}, true, T.EMPTY;
      new;
      assert T.Initial(View());
      T.InitialInv(View());
    }

    method CheckRequest(r: T.Request) returns (st: T.Status)
      ensures st == T.Precheck(View(), limits, r)
    {
      if r.len == 0 { return T.InvalidParameter; }
      if r.len < N.MEDIA_HEADER { return T.BufferTooSmall; }
      if r.len > N.MEDIA_HEADER + limits.maxPacket { return T.InvalidParameter; }
      if cur == max { return T.NotReady; }
      if r.headerSize != 0 {
        if r.headerSize != N.MEDIA_HEADER || r.header.None? { return T.InvalidParameter; }
      }
      return T.Success;
    }

    /** Pops a free head, fills its second descriptor and publishes it. */
    method Publish(r: T.Request)
      requires T.Shaped(View()) && cur < max && r.mapping.Some? && stack != avail
      modifies this`cur, this`bufs, this`availIdx, desc, avail
      ensures View() == T.Publish(old(View()), r)
    {
      bufs := bufs[r.mapping.value := r.buf];
      var head := stack[cur];
      cur := cur + 1;
      desc[head + 1] := desc[head + 1].(addr := r.mapping.value, len := r.len);
      var idx := availIdx;
      avail[idx % size] := head;
      availIdx := (idx + 1) % WRAP;
    }

    /** VirtioNetTransmit in the initialized state; `packet` is the caller's buffer. */
    method Transmit(r: T.Request, packet: array<byte>) returns (st: T.Status)
      requires Valid() && packet.Length == r.len
      modifies this, desc, avail, packet
      ensures packet[..] == T.Framed(old(View()), limits, r, current, old(packet[..]))
      ensures Valid() && stack == old(stack) && desc == old(desc) && avail == old(avail) && used == old(used)
      ensures (View(), st) == T.Transmit(old(View()), limits, r)
      ensures (View(), hist) == T.Step(old(View()), old(hist), limits, T.EvTransmit(r))
    {
      hide T.Inv, R.Inv, T.Publish, T.PublishHist, N.MediaBytes;
      T.InvFacts(View(), hist);
      st := CheckRequest(r);
      if st != T.Success {
        return;
      }
      assert cur <= max;
      ghost var before := View();
      if r.headerSize != 0 {
        N.FillMedia(packet, T.MediaFor(r.header.value, current));
      }
      assert View() == before;
      if r.mapping.None? || !r.insertOk || r.mapping.value in bufs {
        return T.DeviceError;
      }
      T.PublishInv(View(), hist, r);
      hist := T.PublishHist(hist, stack[cur], T.LoanOf(r));
      Publish(r);
      st := r.notify;
    }

    /** Reads the used entry at the front and reclaims its chain. */
    method Reclaim() returns (buf: nat)
      requires T.Shaped(View()) && lastUsed != usedIdx && T.Reapable(View()) && stack != avail
      modifies this`cur, this`bufs, this`lastUsed, stack
      ensures (View(), Some(buf)) == T.Reap(old(View()))
    {
      var slot := lastUsed % size;
      lastUsed := (lastUsed + 1) % WRAP;
      var head := used[slot].id;
      var addr := desc[head + 1].addr;
      cur := cur - 1;
      stack[cur] := head;
      buf := bufs[addr];
      bufs := bufs - {addr};
    }

    /** The reading of one used entry. */
    method ReapOne() returns (buf: Option<nat>)
      requires Valid()
      modifies this, stack
      ensures Valid() && stack == old(stack) && desc == old(desc) && avail == old(avail) && used == old(used)
      ensures mediaPresent == old(mediaPresent)
      ensures (View(), hist) == T.Step(old(View()), old(hist), limits, T.EvReap)
      ensures T.ReturnInv(old(hist)) && buf == Oldest(old(hist))
      ensures hist.returned == old(hist).returned + if buf.Some? then [buf.value] else []
    {
      hide T.Inv, R.Inv, T.Reap;
      T.InvFacts(View(), hist);
      T.ReapInv(View(), hist);
      if lastUsed == usedIdx {
        T.ReapNothing(View(), hist);
        return None;
      }
      T.NextUsedIs(View(), hist);
      assert 0 < cur <= max;
      ghost var h := hist;
      var b := Reclaim();
      hist := T.ReapHist(h, Some(b));
      return Some(b);
    }

    /**
     VirtioNetGetStatus in the initialized state. `link` is the answer to reading the link
     status, None when it fails; `rxPending` says whether the receive queue has unread entries.
     */
    method GetStatus(mediaSupported: bool, link: Option<bool>, rxPending: bool, wantBuf: bool)
      returns (st: T.Status, report: Report)
      requires Valid()
      modifies this, stack
      ensures Valid() && stack == old(stack) && desc == old(desc) && avail == old(avail) && used == old(used)
      ensures st == if mediaSupported && link.None? then T.DeviceError else T.Success
      ensures (View(), hist) == if st == T.Success && wantBuf then T.Step(old(View()), old(hist), limits, T.EvReap)
                                else (old(View()), old(hist))
      ensures mediaPresent == if mediaSupported && link.Some? then link.value else old(mediaPresent)
      ensures st == T.Success ==>
                && T.ReturnInv(old(hist)) && report.rx == rxPending && report.tx == Oldest(old(hist)).Some?
                && report.buf == if wantBuf then Oldest(old(hist)) else None
    {
      report := Report(rxPending, false, None);
      if mediaSupported {
        if link.None? {
          return T.DeviceError, report;
        }
        mediaPresent := link.value;
      }
      assert View() == old(View());
      T.InvFacts(View(), hist);
      if lastUsed != usedIdx {
        assert cur > 0;
        report := report.(tx := true);
      }
      if wantBuf {
        var buf := ReapOne();
        report := report.(buf := buf);
      }
      st := T.Success;
    }

    // ----- the device -----

    method Take()
      requires Valid()
      modifies this
      ensures Valid() && stack == old(stack) && desc == old(desc) && avail == old(avail) && used == old(used)
      ensures (View(), hist) == T.Step(old(View()), old(hist), limits, T.EvTake)
    {
      hide T.Inv, R.Inv;
      ghost var before := View();
      T.InvFacts(before, hist);
      T.TakeInv(before, hist);
      R.InvFacts(before.ring, hist.log, max);
      if devAvail != availIdx {
        held := held + {avail[devAvail % size]};
        devAvail := (devAvail + 1) % WRAP;
        hist := hist.(log := R.TakeLog(hist.log));
        assert View() == T.Take(before);
      }
    }

    method Complete(head: nat, len: nat)
      requires Valid()
      modifies this, used
      ensures Valid() && stack == old(stack) && desc == old(desc) && avail == old(avail) && used == old(used)
      ensures (View(), hist) == T.Step(old(View()), old(hist), limits, T.EvComplete(head, len))
    {
      hide T.Inv, R.Inv;
      ghost var before := View();
      T.InvFacts(before, hist);
      T.CompleteInv(before, hist, head, len);
      if head in held {
        used[usedIdx % size] := R.Elem(head, len);
        usedIdx := (usedIdx + 1) % WRAP;
        held := held - {head};
        assert View() == T.Complete(before, head, len);
      }
      hist := hist.(log := R.CompleteLog(hist.log, before.ring.held, head, len));
    }

    /**
     Any interleaving of calls and device steps, run in place, is the run of the snapshots;
     `handed` are the buffers that the calls returned.
     */
    method Run(es: seq<T.Event>) returns (handed: seq<nat>)
      requires Valid()
      modifies this, stack, desc, avail, used
      ensures Valid()
      ensures (View(), hist) == T.Run(old(View()), old(hist), limits, es)
      ensures hist.returned == old(hist).returned + handed
    {
      hide T.Inv, T.Reap, T.Publish, R.Take, R.Complete;
      handed := [];
      for k := 0 to |es|
        invariant Valid() && stack == old(stack) && desc == old(desc) && avail == old(avail) && used == old(used)
        invariant T.Run(old(View()), old(hist), limits, es) == T.Run(View(), hist, limits, es[k..])
        invariant hist.returned == old(hist).returned + handed
      {
        assert es[k..][1..] == es[k + 1..];
        match es[k] {
          case EvTransmit(r) =>
            var packet := new byte[r.len](_ => 0);
            var _ := Transmit(r, packet);
          case EvReap =>
            var buf := ReapOne();
            handed := handed + if buf.Some? then [buf.value] else [];
          case EvTake => Take();
          case EvComplete(head, len) => Complete(head, len);
        }
      }
    }
  }
}
