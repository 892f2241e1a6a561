/**
 The lifecycle of the virtio-net driver: Start, Stop, Initialize with its rollback ladder,
 Shutdown, and the traffic in between, under arbitrary failures of the services it calls.
 */
module VirtioLifecycle {
  import opened Bytes

  datatype State = Stopped | Started | Initialized

  datatype Bit = Ack | Driver | FeaturesOk | DriverOk

  datatype Direction = RxDir | TxDir

  /** Everything the driver can hold. A mapping is what lets the device reach memory. */
  datatype Res =
    | RingPages(dir: Direction) | RingMap(dir: Direction)
    | FreeStack | Collection | ReqPages | ReqMap
    | RxPages | RxMap
    | BufMap(addr: nat)

  datatype Status = Success | NotStarted | AlreadyStarted | DeviceError

  /** Which rung of the ladder a failure enters at; every rung falls through to the next. */
  datatype Rung = InitFailed | DeviceFailed | ReleaseRxRing | ReleaseTxRing | AbortDevice | ReleaseTxAux {
    function Height(): nat {
      match this
      case InitFailed => 0
      case DeviceFailed => 1
      case ReleaseRxRing => 2
      case ReleaseTxRing => 3
      case AbortDevice => 4
      case ReleaseTxAux => 5
    }
  }

  const RX_RING: set<Res> := {RingPages(RxDir), RingMap(RxDir)}
  const TX_RING: set<Res> := {RingPages(TxDir), RingMap(TxDir)}
  const TX_AUX: set<Res> := {FreeStack, Collection, ReqPages, ReqMap}
  const RX_AUX: set<Res> := {RxPages, RxMap}

  ghost function BufMaps(tx: map<nat, bool>): set<Res> {
    set a | a in tx :: BufMap(a)
  }

  /** What is held once a rung's failures can only undo what came before it. */
  ghost function HeldAt(r: Rung): set<Res> {
    match r
    case InitFailed => {}
    case DeviceFailed => {}
    case ReleaseRxRing => RX_RING
    case ReleaseTxRing => RX_RING + TX_RING
    case AbortDevice => RX_RING + TX_RING
    case ReleaseTxAux => RX_RING + TX_RING + TX_AUX
  }

  /** The status of a device in use; a device before virtio 1.0 knows no FEATURES_OK. */
  function Running(modern: bool): set<Bit> {
    {Ack, Driver, DriverOk} + if modern then {FeaturesOk} else {}
  }

  lemma BufMapsAdd(tx: map<nat, bool>, a: nat, used: bool)
    ensures BufMaps(tx[a := used]) == BufMaps(tx) + {BufMap(a)}
    ensures a in tx ==> BufMap(a) in BufMaps(tx)
  {
    assert a in tx[a := used];
    forall r | r in BufMaps(tx)
      ensures r in BufMaps(tx[a := used])
    {
      assert r.addr in tx[a := used];
    }
  }

  lemma RunningIsDriven(modern: bool)
    ensures Running(modern) != {} && DriverOk in Running(modern)
  {
  }

  lemma BufMapIsNoRing(a: nat)
    ensures BufMap(a) !in RX_RING + TX_RING + TX_AUX + RX_AUX
  {
  }

  lemma NoBufMaps()
    ensures BufMaps(map[]) == {}
  {
  }

  lemma OnlyBufMaps(tx: map<nat, bool>)
    ensures forall r :: r in BufMaps(tx) ==> r.BufMap?
  {
  }

  lemma BufMapsRemove(tx: map<nat, bool>, a: nat)
    requires a in tx
    ensures BufMap(a) in BufMaps(tx)
    ensures BufMaps(tx - {a}) == BufMaps(tx) - {BufMap(a)}
    ensures (tx - {a}).Keys == tx.Keys - {a}
  {
  }

  class Device {
    const oracle: nat -> bool      // the answer of each fallible service call
    const modern: bool             // virtio 1.0 or later
    var clock: nat
    var state: State
    var status: set<Bit>           // the device status register; {} is the reset device
    var held: set<Res>
    var tx: map<nat, bool>         // TxBufCollection; true once the device has used the buffer
    ghost var reach: set<Res>      // mappings the device can still follow from a published, unused entry

    /** A reset device follows nothing; rings are followed while the driver is running. */
    ghost predicate DeviceOk()
      reads this
    {
      && (status == {} ==> reach == {})
      && (forall a :: BufMap(a) in reach ==> a in tx && !tx[a])
    }

    ghost predicate Valid()
      reads this
    {
      && DeviceOk()
      && (state != Initialized ==> status == {} && held == {} && tx == map[])
      && (state == Initialized ==>
            && status == Running(modern) && held == RX_RING + TX_RING + TX_AUX + RX_AUX + BufMaps(tx)
            && (forall r :: r in reach ==> r == RxMap || r == ReqMap || r.BufMap?))
    }

    constructor (oracle: nat -> bool, modern: bool)
      ensures Valid() && state == Stopped && this.oracle == oracle && this.modern == modern
    {
      this.oracle, this.modern := oracle, modern;
      clock, state, status, held, tx, reach := 0, Stopped, {}, {}, map[], {};
    }

    /** No service fails. */
    ghost predicate AllSucceed() {
      forall k: nat :: oracle(k)
    }

    // ----- services -----

    /** Any service call may fail, and then has no effect. */
    method Try() returns (ok: bool)
      modifies this`clock
      ensures clock == old(clock) + 1 && ok == oracle(old(clock))
    {
      ok := oracle(clock);
      clock := clock + 1;
    }

    method SetStatus(s: set<Bit>) returns (ok: bool)
      requires DriverOk in s ==> reach == {}
      requires s != {}
      modifies this`clock, this`status
      ensures status == if ok then s else old(status)
      ensures AllSucceed() ==> ok
    {
      ok := Try();
      if ok {
        status := s;
      }
    }

    /** Writing 0 to the status register resets the device, which forgets all published entries. */
    method Reset()
      modifies this`status, this`reach
      ensures status == {} && reach == {}
    {
      status, reach := {}, {};
    }

    method Acquire(r: Res) returns (ok: bool)
      modifies this`clock, this`held
      ensures held == if ok then old(held) + {r} else old(held)
      ensures AllSucceed() ==> ok
    {
      ok := Try();
      if ok {
        held := held + {r};
      }
    }

    /**
     Releases what is held. A mapping may be removed only if the device cannot follow it: it is
     not reachable from an unused entry, and a ring is not removed under a running driver.
     */
    method Release(r: Res)
      requires r in held && r !in reach
      requires r.RingMap? ==> DriverOk !in status
      modifies this`held
      ensures held == old(held) - {r}
    {
      held := held - {r};
    }

    // ----- rings and buffers -----

    /** VirtioNetInitRing: on failure it leaves nothing behind. */
    method InitRing(d: Direction) returns (ok: bool)
      requires RingPages(d) !in held && RingMap(d) !in held && reach == {} && DriverOk !in status
      modifies this`clock, this`held
      ensures held == if ok then old(held) + {RingPages(d), RingMap(d)} else old(held)
      ensures AllSucceed() ==> ok
    {
      ok := Try();                       // select the queue
      if !ok { return; }
      ok := Try();                       // its size, at least 2
      if !ok { return; }
      ok := Acquire(RingPages(d));
      if !ok { return; }
      ok := Acquire(RingMap(d));
      if ok {
        ok := Try();                     // queue number
        if ok {
          ok := Try();                   // alignment
        }
        if ok {
          ok := Try();                   // address
        }
        if ok { return; }
        Release(RingMap(d));
      }
      Release(RingPages(d));
    }

    method UninitRing(d: Direction)
      requires RingPages(d) in held && RingMap(d) in held && reach == {} && DriverOk !in status
      modifies this`held
      ensures held == old(held) - {RingPages(d), RingMap(d)}
    {
      Release(RingMap(d));
      Release(RingPages(d));
    }

    /** VirtioNetInitTx: nothing is published yet. */
    method InitTx() returns (ok: bool)
      requires TX_AUX !! held && reach == {}
      modifies this`clock, this`held
      ensures held == if ok then old(held) + TX_AUX else old(held)
      ensures AllSucceed() ==> ok
    {
      ok := Acquire(FreeStack);
      if !ok { return; }
      ok := Acquire(Collection);
      if ok {
        ok := Acquire(ReqPages);
        if ok {
          ok := Acquire(ReqMap);
          if ok { return; }
          Release(ReqPages);
        }
        Release(Collection);
      }
      Release(FreeStack);
    }

    /**
     VirtioNetInitRx: once the entries are published, a failed notification must reset the
     device before the buffer is unmapped.
     */
    method InitRx() returns (ok: bool)
      requires RX_AUX !! held && reach == {} && status != {}
      modifies this`clock, this`held, this`status, this`reach
      ensures held == if ok then old(held) + RX_AUX else old(held)
      ensures ok ==> status == old(status) && reach == {RxMap}
      ensures !ok ==> reach == {} && status <= old(status)
      ensures AllSucceed() ==> ok
    {
      ok := Acquire(RxPages);
      if !ok { return; }
      ok := Acquire(RxMap);
      if ok {
        reach := {RxMap};                // the available index is written
        ok := Try();                     // notify
        if ok { return; }
        Reset();
        Release(RxMap);
      }
      Release(RxPages);
    }

    /** VirtioNetShutdownTx with the loop over the collection. */
    method ShutdownTx()
      requires TX_AUX + BufMaps(tx) <= held && reach == {}
      modifies this`held, this`tx
      ensures held == old(held) - TX_AUX - BufMaps(old(tx)) && tx == map[]
    {
      hide BufMaps;
      OnlyBufMaps(tx);
      Release(ReqMap);
      Release(ReqPages);
      UnmapAll();
      Release(Collection);
      Release(FreeStack);
    }

    /** Unmaps what is left in the collection, one entry at a time. */
    method UnmapAll()
      requires BufMaps(tx) <= held && reach == {}
      modifies this`held, this`tx
      ensures held == old(held) - BufMaps(old(tx)) && tx == map[]
    {
      hide BufMaps;
      ghost var done: set<Res> := {};
      while tx != map[]
        invariant held == old(held) - done && BufMaps(tx) <= held
        invariant done + BufMaps(tx) == BufMaps(old(tx))
        decreases |tx.Keys|
      {
        assert tx.Keys != {};
        var a :| a in tx.Keys;
        BufMapsRemove(tx, a);
        Release(BufMap(a));
        done := done + {BufMap(a)};
        tx := tx - {a};
      }
      NoBufMaps();
    }

    method ShutdownRx()
      requires RX_AUX <= held && reach == {}
      modifies this`held
      ensures held == old(held) - RX_AUX
    {
      Release(RxMap);
      Release(RxPages);
    }

    // ----- the calls -----

    method Start() returns (st: Status)
      requires Valid()
      modifies this`state
      ensures Valid()
      ensures st == (if old(state) == Stopped then Success else AlreadyStarted)
      ensures state == if st == Success then Started else old(state)
    {
      if state != Stopped { return AlreadyStarted; }
      state := Started;
      return Success;
    }

    method Stop() returns (st: Status)
      requires Valid()
      modifies this`state
      ensures Valid()
      ensures st == (if old(state) == Started then Success else NotStarted)
      ensures state == if st == Success then Stopped else old(state)
    {
      if state != Started { return NotStarted; }
      state := Stopped;
      return Success;
    }

    /** The rollback ladder, entered at a rung. */
    method Unwind(r: Rung)
      requires held == HeldAt(r) && tx == map[] && reach == {}
      requires r.InitFailed? ==> status == {}
      requires r.Height() <= 3 ==> DriverOk !in status
      modifies this`held, this`tx, this`status, this`reach
      ensures held == {} && tx == map[] && reach == {} && status == {}
    {
      if r.Height() >= 5 { ShutdownTx(); }
      if r.Height() >= 4 { Reset(); }
      if r.Height() >= 3 { UninitRing(TxDir); }
      if r.Height() >= 2 { UninitRing(RxDir); }
      if r.Height() >= 1 { Reset(); }
    }

    /** VirtioNetInitialize: it either succeeds completely or leaves nothing behind. */
    method Initialize() returns (st: Status)
      requires Valid()
      modifies this
      ensures Valid()
      ensures old(state) != Started ==> st == NotStarted && state == old(state) && held == old(held) && tx == old(tx)
                                        && status == old(status) && reach == old(reach)
      ensures old(state) == Started ==> (st == Success <==> state == Initialized) && (st != Success ==> state == Started)
      ensures old(state) == Started && AllSucceed() ==> st == Success
    {
      if state != Started { return NotStarted; }
      var rung := Bring();
      if rung.Some? {
        Unwind(rung.value);
        return DeviceError;
      }
      assert BufMaps(tx) == {};
      state := Initialized;
      return Success;
    }

    /** Acknowledges the device and negotiates features; `next` is the status written so far. */
    method Negotiate() returns (fail: Option<Rung>, next: set<Bit>)
      requires status == {} && reach == {}
      modifies this`clock, this`status
      ensures fail.None? ==> next == Running(modern) - {DriverOk}
      ensures fail.Some? ==> fail.value.InitFailed? || fail.value.DeviceFailed?
      ensures fail == Some(InitFailed) ==> status == {}
      ensures DriverOk !in status
      ensures AllSucceed() ==> fail.None?
    {
      next := {Ack};
      var ok := SetStatus(next);
      if !ok { return Some(InitFailed), next; }
      next := next + {Driver};
      ok := SetStatus(next);
      if !ok { return Some(DeviceFailed), next; }
      ok := Try();                       // page size
      if !ok { return Some(DeviceFailed), next; }
      ok := Try();                       // device features
      if !ok { return Some(DeviceFailed), next; }
      if modern {
        ok := Try();                     // guest features
        if !ok { return Some(DeviceFailed), next; }
        next := next + {FeaturesOk};
        ok := SetStatus(next);
        if !ok { return Some(DeviceFailed), next; }
        ok := Try();                     // the device keeps FEATURES_OK
        if !ok { return Some(DeviceFailed), next; }
      }
      fail := None;
    }

    /** Sets up both rings. */
    method BringRings() returns (fail: Option<Rung>)
      requires held == {} && reach == {} && DriverOk !in status
      modifies this`clock, this`held
      ensures fail.None? ==> held == RX_RING + TX_RING
      ensures fail.Some? ==> held == HeldAt(fail.value) && (fail.value.DeviceFailed? || fail.value.ReleaseRxRing?)
      ensures AllSucceed() ==> fail.None?
    {
      var ok := InitRing(RxDir);
      if !ok { return Some(DeviceFailed); }
      ok := InitRing(TxDir);
      if !ok { return Some(ReleaseRxRing); }
      return None;
    }

    /** Sets up the transmit side, then publishes the receive side. */
    method BringTraffic() returns (fail: Option<Rung>)
      requires held == RX_RING + TX_RING && reach == {} && DriverOk in status
      modifies this`clock, this`held, this`status, this`reach
      ensures fail.None? ==> status == old(status) && held == RX_RING + TX_RING + TX_AUX + RX_AUX && reach == {RxMap}
      ensures fail.Some? ==> held == HeldAt(fail.value) && reach == {} && fail.value.Height() >= 4
      ensures AllSucceed() ==> fail.None?
    {
      var ok := InitTx();
      if !ok { return Some(AbortDevice); }
      ok := InitRx();
      if !ok { return Some(ReleaseTxAux); }
      return None;
    }

    /** The steps of the initialization up to the first failure. */
    method Bring() returns (fail: Option<Rung>)
      requires status == {} && held == {} && tx == map[] && reach == {}
      modifies this`clock, this`held, this`status, this`reach
      ensures fail.None? ==> status == Running(modern) && held == RX_RING + TX_RING + TX_AUX + RX_AUX && reach == {RxMap}
      ensures fail.Some? ==> held == HeldAt(fail.value) && reach == {}
      ensures fail == Some(InitFailed) ==> status == {}
      ensures fail.Some? && fail.value.Height() <= 3 ==> DriverOk !in status
      ensures AllSucceed() ==> fail.None?
    {
      var next;
      fail, next := Negotiate();
      if fail.Some? { return; }
      fail := BringRings();
      if fail.Some? { return; }
      var ok := true;
      if !modern {
        ok := Try();                     // guest features
      }
      if ok {
        ok := SetStatus(next + {DriverOk});
      }
      if !ok { return Some(ReleaseTxRing); }
      fail := BringTraffic();
    }

    /** VirtioNetShutdown: the device is reset before anything is released. */
    method Shutdown() returns (st: Status)
      requires Valid()
      modifies this
      ensures Valid()
      ensures st == (match old(state) case Stopped => NotStarted case Started => DeviceError case Initialized => Success)
      ensures state == if st == Success then Started else old(state)
    {
      match state {
        case Stopped => return NotStarted;
        case Started => return DeviceError;
        case Initialized =>
          hide Running;
          OnlyBufMaps(tx);
          Reset();
          ShutdownRx();
          ShutdownTx();
          UninitRing(TxDir);
          UninitRing(RxDir);
          state := Started;
          return Success;
      }
    }

    /** Transmit maps a buffer, enters it in the collection and publishes it. */
    method Transmit(a: nat) returns (st: Status)
      requires Valid()
      modifies this`clock, this`held, this`tx, this`reach
      ensures Valid()
      ensures st == Success ==> a !in old(tx) && tx == old(tx)[a := false]
      ensures tx == old(tx) || (a !in old(tx) && tx == old(tx)[a := false] && BufMap(a) in reach)
      ensures AllSucceed() && state == Initialized && a !in old(tx) ==> st == Success
    {
      hide Running, BufMaps, RX_RING, TX_RING, TX_AUX, RX_AUX;
      if state != Initialized { return if state == Stopped then NotStarted else DeviceError; }
      if a in tx { return DeviceError; }
      var ok := Acquire(BufMap(a));
      if !ok { return DeviceError; }
      BufMapsAdd(tx, a, false);
      tx := tx[a := false];
      reach := reach + {BufMap(a), ReqMap};
      RunningIsDriven(modern);
      ok := Try();                       // notify
      return if ok then Success else DeviceError;
    }

    /** The device has used a transmit entry and will not follow it again. */
    method DeviceUse(a: nat)
      requires Valid()
      modifies this`tx, this`reach
      ensures Valid()
      ensures tx == if state == Initialized && a in old(tx) then old(tx)[a := true] else old(tx)
    {
      hide Running, BufMaps, RX_RING, TX_RING, TX_AUX, RX_AUX;
      if state == Initialized && a in tx {
        BufMapsAdd(tx, a, true);
        tx := tx[a := true];
        reach := reach - {BufMap(a)};
      }
    }

    /** GetStatus unmaps the buffer of a used entry. */
    method Reap(a: nat)
      requires Valid()
      modifies this`held, this`tx
      ensures Valid()
      ensures tx == if state == Initialized && a in old(tx) && old(tx)[a] then old(tx) - {a} else old(tx)
    {
      hide Running, BufMaps, RX_RING, TX_RING, TX_AUX, RX_AUX;
      if state == Initialized && a in tx {
        if tx[a] {
          BufMapsRemove(tx, a);
          BufMapIsNoRing(a);
          Release(BufMap(a));
          tx := tx - {a};
        }
      }
    }
  }

  datatype Op = OpStart | OpStop | OpInitialize | OpShutdown | OpTransmit(a: nat) | OpUse(a: nat) | OpReap(a: nat)

  method Step(d: Device, op: Op)
    requires d.Valid()
    modifies d
    ensures d.Valid()
  {
    match op {
      case OpStart => var _ := d.Start();
      case OpStop => var _ := d.Stop();
      case OpInitialize => var _ := d.Initialize();
      case OpShutdown => var _ := d.Shutdown();
      case OpTransmit(a) => var _ := d.Transmit(a);
      case OpUse(a) => d.DeviceUse(a);
      case OpReap(a) => d.Reap(a);
    }
  }

  /**
   Over every run, whatever the services answer, a stopped or started driver leaves the device
   reset and holds nothing, and an initialized one holds exactly its rings, buffers and one
   mapping per transmit entry.
   */
  method Run(oracle: nat -> bool, modern: bool, ops: seq<Op>)
    returns (state: State, status: set<Bit>, held: set<Res>, tx: map<nat, bool>)
    ensures state != Initialized ==> status == {} && held == {} && tx == map[]
    ensures state == Initialized ==> status == Running(modern) && held == RX_RING + TX_RING + TX_AUX + RX_AUX + BufMaps(tx)
  {
    var d := new Device(oracle, modern);
    for k := 0 to |ops|
      invariant d.Valid() && fresh(d)
    {
      Step(d, ops[k]);
    }
    return d.state, d.status, d.held, d.tx;
  }
}
