/**
 A virtio split ring (section 2.4 of virtio 0.9.5) shared by a driver and a device. Each side
 owns wrapping 16-bit indices; a log with unbounded counters says what the ring means.
 */
module SplitRing {
  import opened Wrap

  /** A used entry: the head of the completed chain and the number of bytes written. */
  datatype Elem = Elem(id: nat, len: nat)

  datatype Ring = Ring(
    size: nat,               // QueueSize
    avail: seq<nat>,         // Avail.Ring
    availIdx: nat,           // Avail.Idx
    used: seq<Elem>,         // Used.UsedElem
    usedIdx: nat,            // Used.Idx
    lastUsed: nat,           // the driver's position in the used ring
    devAvail: nat,           // the device's position in the available ring
    held: set<nat>)          // heads the device has taken and not completed

  predicate Shaped(r: Ring) {
    && IsQueueSize(r.size) && |r.avail| == |r.used| == r.size
    && r.availIdx < WRAP && r.usedIdx < WRAP && r.lastUsed < WRAP && r.devAvail < WRAP
  }

  // ----- the driver's side -----

  /** Puts a head on the available ring. */
  function Publish(r: Ring, head: nat): Ring
    requires Shaped(r)
  {
    r.(avail := r.avail[Slot(r.availIdx, r.size) := head], availIdx := (r.availIdx + 1) % WRAP)
  }

  /** Moves past the used entry at the front. */
  function Consume(r: Ring): Ring {
    r.(lastUsed := (r.lastUsed + 1) % WRAP)
  }

  /** The used entry at the front. */
  function NextUsed(r: Ring): Elem
    requires Shaped(r)
  {
    r.used[Slot(r.lastUsed, r.size)]
  }

  // ----- the device's side -----

  /** Takes the next published head, if the device sees one. */
  function Take(r: Ring): Ring
    requires Shaped(r)
  {
    if r.devAvail == r.availIdx then r
    else r.(devAvail := (r.devAvail + 1) % WRAP, held := r.held + {r.avail[Slot(r.devAvail, r.size)]})
  }

  /** Completes any head the device holds. */
  function Complete(r: Ring, head: nat, len: nat): Ring
    requires Shaped(r)
  {
    if head !in r.held then r
    else
      r.(used := r.used[Slot(r.usedIdx, r.size) := Elem(head, len)],
         usedIdx := (r.usedIdx + 1) % WRAP, held := r.held - {head})
  }

  // ----- what has happened -----

  /** What has happened so far, counted without wrapping. */
  datatype Log = Log(
    pub: seq<nat>,           // the heads published, in order
    taken: nat,              // how many publications the device has taken
    done: seq<nat>,          // the publications completed, in completion order
    lens: seq<nat>,          // the lengths reported for them
    reaped: nat,             // how many completions the driver has read
    flight: map<nat, nat>)   // the publication that each head in flight belongs to

  /** Heads of two-descriptor chains are even. */
  predicate IsHead(n: nat, x: nat) {
    x % 2 == 0 && x < 2 * n
  }

  lemma HeadBelow(n: nat, x: nat)
    requires IsHead(n, x)
    ensures x < 2 * n - 1
  {}

  ghost predicate NoRepeat(q: seq<nat>) {
    forall i, j :: 0 <= i < j < |q| ==> q[i] != q[j]
  }

  ghost predicate Counts(g: Log, n: nat) {
    && g.reaped <= |g.done| == |g.lens| <= g.taken <= |g.pub| && |g.pub| - g.reaped <= n
    && (forall k :: 0 <= k < |g.done| ==> g.done[k] < g.taken)
  }

  /** The ring, read through wrapped indices, holds what the unbounded counters say. */
  ghost predicate RingInv(r: Ring, g: Log, n: nat) {
    && Shaped(r) && n <= r.size / 2 && Counts(g, n)
    && |g.done| + |r.held| == g.taken
    && r.availIdx == Idx(|g.pub|) && r.devAvail == Idx(g.taken)
    && r.usedIdx == Idx(|g.done|) && r.lastUsed == Idx(g.reaped)
    && (forall k :: g.taken <= k < |g.pub| ==> r.avail[Slot(k, r.size)] == g.pub[k])
    && (forall k :: g.reaped <= k < |g.done| ==> r.used[Slot(k, r.size)] == Elem(g.pub[g.done[k]], g.lens[k]))
  }

  /** Publication `id` is the one in flight under its head. */
  ghost predicate Flying(g: Log, id: nat) {
    id < |g.pub| && g.pub[id] in g.flight && g.flight[g.pub[id]] == id
  }

  /** A publication that has not come back: waiting, held by the device, or completed and unread. */
  ghost predicate Open(held: set<nat>, g: Log, id: nat) {
    g.reaped <= |g.done| && id < |g.pub| && (g.taken <= id || g.pub[id] in held || id in g.done[g.reaped..])
  }

  ghost predicate InFlight(n: nat, held: set<nat>, g: Log, x: nat)
    requires x in g.flight
  {
    IsHead(n, x) && Open(held, g, g.flight[x]) && g.pub[g.flight[x]] == x
  }

  ghost predicate HeldOk(g: Log, x: nat) {
    x in g.flight && g.flight[x] < g.taken && g.flight[x] !in g.done
  }

  /** Exactly the open publications are in flight, each under its own head. */
  ghost predicate FlightInv(n: nat, held: set<nat>, g: Log) {
    && (forall x :: x in g.flight ==> InFlight(n, held, g, x))
    && (forall k :: g.taken <= k < |g.pub| ==> Flying(g, k))
    && (forall x :: x in held ==> HeldOk(g, x))
    && (forall k :: g.reaped <= k < |g.done| ==> Flying(g, g.done[k]))
    && NoRepeat(g.done)
  }

  ghost predicate Inv(r: Ring, g: Log, n: nat) {
    RingInv(r, g, n) && FlightInv(n, r.held, g)
  }

  const EMPTY: Log := Log([], 0, [], [], 0, map[])

  ghost predicate Zeroed(r: Ring) {
    Shaped(r) && r.availIdx == r.usedIdx == r.lastUsed == r.devAvail == 0 && r.held == {}
  }

  lemma ZeroedInv(r: Ring, n: nat)
    requires Zeroed(r) && n <= r.size / 2
    ensures Inv(r, EMPTY, n)
  {}

  // ----- what the invariant says -----

  /** Comparing wrapped indices is exact, for the driver and for the device. */
  lemma IndicesExact(r: Ring, g: Log, n: nat)
    requires RingInv(r, g, n)
    ensures r.lastUsed != r.usedIdx <==> g.reaped < |g.done|
    ensures r.devAvail != r.availIdx <==> g.taken < |g.pub|
  {
    WrapCompare(g.reaped, |g.done|);
    WrapCompare(g.taken, |g.pub|);
  }

  /** What the calls need to know of the invariant before they touch the ring. */
  lemma InvFacts(r: Ring, g: Log, n: nat)
    requires Inv(r, g, n)
    ensures Shaped(r) && Counts(g, n)
    ensures r.lastUsed != r.usedIdx <==> g.reaped < |g.done|
    ensures r.devAvail != r.availIdx <==> g.taken < |g.pub|
  {
    IndicesExact(r, g, n);
  }

  /** The next slot to be written holds no entry that the other side has not read. */
  lemma SlotFree(r: Ring, g: Log, n: nat, k: nat)
    requires RingInv(r, g, n)
    ensures g.taken <= k < |g.pub| ==> Slot(k, r.size) != Slot(r.availIdx, r.size)
    ensures g.reaped <= k < |g.done| ==> Slot(k, r.size) != Slot(r.usedIdx, r.size)
  {
    WrapSlot(|g.pub|, r.size);
    WrapSlot(|g.done|, r.size);
    if g.taken <= k < |g.pub| {
      ModDistinct(k, |g.pub|, r.size);
    }
    if g.reaped <= k < |g.done| {
      ModDistinct(k, |g.done|, r.size);
    }
  }

  /** The used entry at the front is the oldest completion that the driver has not read. */
  lemma NextUsedIs(r: Ring, g: Log, n: nat)
    requires Inv(r, g, n) && g.reaped < |g.done|
    ensures Shaped(r) && Counts(g, n)
    ensures NextUsed(r) == Elem(g.pub[g.done[g.reaped]], g.lens[g.reaped])
    ensures var x := NextUsed(r).id; IsHead(n, x) && x in g.flight && g.flight[x] == g.done[g.reaped]
  {
    WrapSlot(g.reaped, r.size);
    assert Flying(g, g.done[g.reaped]);
    assert InFlight(n, r.held, g, g.pub[g.done[g.reaped]]);
  }

  // ----- publishing -----

  ghost function PublishLog(g: Log, head: nat): Log {
    g.(pub := g.pub + [head], flight := g.flight[head := |g.pub|])
  }

  lemma PublishRing(r: Ring, g: Log, n: nat, head: nat)
    requires RingInv(r, g, n) && |g.pub| - g.reaped < n
    ensures RingInv(Publish(r, head), PublishLog(g, head), n)
  {
    var r', g' := Publish(r, head), PublishLog(g, head);
    WrapNext(|g.pub|);
    WrapSlot(|g.pub|, r.size);
    forall k | g'.taken <= k < |g'.pub| ensures r'.avail[Slot(k, r.size)] == g'.pub[k] {
      SlotFree(r, g, n, k);
    }
  }

  lemma PublishFlight(n: nat, held: set<nat>, g: Log, head: nat)
    requires FlightInv(n, held, g) && Counts(g, n) && IsHead(n, head) && head !in g.flight
    ensures FlightInv(n, held, PublishLog(g, head))
  {
    var g' := PublishLog(g, head);
    forall x | x in g'.flight ensures InFlight(n, held, g', x) {
      assert x != head ==> InFlight(n, held, g, x);
    }
    forall k | g.taken <= k < |g'.pub| ensures Flying(g', k) {
      assert k < |g.pub| ==> Flying(g, k);
    }
    forall x | x in held ensures HeldOk(g', x) {
      assert HeldOk(g, x);
    }
    forall k | g.reaped <= k < |g.done| ensures Flying(g', g.done[k]) {
      assert Flying(g, g.done[k]);
    }
  }

  /** Publishing a head that is not in flight. */
  lemma PublishInv(r: Ring, g: Log, n: nat, head: nat)
    requires Inv(r, g, n) && IsHead(n, head) && head !in g.flight && |g.pub| - g.reaped < n
    ensures Shaped(r) && Inv(Publish(r, head), PublishLog(g, head), n)
  {
    PublishRing(r, g, n, head);
    PublishFlight(n, r.held, g, head);
  }

  // ----- consuming -----

  ghost function ConsumeLog(g: Log): Log
    requires g.reaped < |g.done| && g.done[g.reaped] < |g.pub|
  {
    g.(reaped := g.reaped + 1, flight := g.flight - {g.pub[g.done[g.reaped]]})
  }

  lemma ConsumeFlight(n: nat, held: set<nat>, g: Log)
    requires FlightInv(n, held, g) && Counts(g, n) && g.reaped < |g.done|
    ensures FlightInv(n, held, ConsumeLog(g))
  {
    var g' := ConsumeLog(g);
    var id := g.done[g.reaped];
    assert Flying(g, id);
    assert g.done[g.reaped..] == [id] + g.done[g.reaped + 1..];
    forall x | x in g'.flight ensures InFlight(n, held, g', x) {
      assert InFlight(n, held, g, x);
    }
    forall k | g'.taken <= k < |g'.pub| ensures Flying(g', k) {
      assert Flying(g, k);
    }
    forall x | x in held ensures HeldOk(g', x) {
      assert HeldOk(g, x) && id in g.done;
    }
    forall k | g'.reaped <= k < |g'.done| ensures Flying(g', g'.done[k]) {
      assert Flying(g, g.done[k]) && g.done[k] != id;
    }
  }

  lemma ConsumeRing(r: Ring, g: Log, n: nat)
    requires RingInv(r, g, n) && g.reaped < |g.done|
    ensures RingInv(Consume(r), ConsumeLog(g), n)
  {
    WrapNext(g.reaped);
  }

  lemma ConsumeInv(r: Ring, g: Log, n: nat)
    requires Inv(r, g, n) && g.reaped < |g.done|
    ensures g.done[g.reaped] < |g.pub| && Inv(Consume(r), ConsumeLog(g), n)
  {
    ConsumeRing(r, g, n);
    ConsumeFlight(n, r.held, g);
  }

  // ----- device steps -----

  ghost function TakeLog(g: Log): Log {
    if g.taken < |g.pub| then g.(taken := g.taken + 1) else g
  }

  lemma TakeFlight(n: nat, held: set<nat>, g: Log)
    requires FlightInv(n, held, g) && Counts(g, n) && g.taken < |g.pub|
    ensures g.pub[g.taken] !in held
    ensures FlightInv(n, held + {g.pub[g.taken]}, TakeLog(g))
  {
    var head := g.pub[g.taken];
    var held', g' := held + {head}, TakeLog(g);
    assert Flying(g, g.taken);
    assert head in held ==> HeldOk(g, head);
    assert g.taken !in g.done;
    forall x | x in g'.flight ensures InFlight(n, held', g', x) {
      assert InFlight(n, held, g, x);
    }
    forall k | g'.taken <= k < |g'.pub| ensures Flying(g', k) {
      assert Flying(g, k);
    }
    forall x | x in held' ensures HeldOk(g', x) {
      assert x in held ==> HeldOk(g, x);
    }
    forall k | g'.reaped <= k < |g'.done| ensures Flying(g', g'.done[k]) {
      assert Flying(g, g.done[k]);
    }
  }

  lemma TakeRing(r: Ring, g: Log, n: nat)
    requires RingInv(r, g, n) && g.taken < |g.pub| && r.devAvail != r.availIdx
    requires g.pub[g.taken] !in r.held
    ensures RingInv(Take(r), TakeLog(g), n) && Take(r).held == r.held + {g.pub[g.taken]}
  {
    hide IsQueueSize, Idx;
    WrapNext(g.taken);
    WrapSlot(g.taken, r.size);
    assert r.avail[Slot(r.devAvail, r.size)] == g.pub[g.taken];
  }

  lemma TakeInv(r: Ring, g: Log, n: nat)
    requires Inv(r, g, n)
    ensures Shaped(r) && Inv(Take(r), TakeLog(g), n)
  {
    IndicesExact(r, g, n);
    if r.devAvail != r.availIdx {
      TakeFlight(n, r.held, g);
      TakeRing(r, g, n);
    }
  }

  ghost function CompleteLog(g: Log, held: set<nat>, head: nat, len: nat): Log {
    if head in held && head in g.flight then g.(done := g.done + [g.flight[head]], lens := g.lens + [len]) else g
  }

  /** A completion lands behind the unread entries, which stay as they are. */
  lemma CompleteSlots(r: Ring, g: Log, n: nat, e: Elem, k: nat)
    requires RingInv(r, g, n) && g.reaped <= k <= |g.done|
    ensures var used := r.used[Slot(r.usedIdx, r.size) := e];
            used[Slot(k, r.size)] == if k == |g.done| then e else Elem(g.pub[g.done[k]], g.lens[k])
  {
    WrapSlot(|g.done|, r.size);
    SlotFree(r, g, n, k);
  }

  lemma CompleteRing(r: Ring, g: Log, n: nat, head: nat, len: nat)
    requires RingInv(r, g, n) && head in r.held && HeldOk(g, head) && g.pub[g.flight[head]] == head
    ensures RingInv(Complete(r, head, len), CompleteLog(g, r.held, head, len), n)
  {
    var r', g' := Complete(r, head, len), CompleteLog(g, r.held, head, len);
    WrapNext(|g.done|);
    assert |r'.held| == |r.held| - 1;
    assert |g'.done| == |g.done| + 1 && g'.done[|g.done|] == g.flight[head];
    assert Counts(g', n);
    forall k | g'.reaped <= k < |g'.done|
      ensures r'.used[Slot(k, r.size)] == Elem(g'.pub[g'.done[k]], g'.lens[k])
    {
      CompleteSlots(r, g, n, Elem(head, len), k);
    }
  }

  lemma CompleteFlight(n: nat, held: set<nat>, g: Log, head: nat, len: nat)
    requires FlightInv(n, held, g) && Counts(g, n) && head in held
    ensures FlightInv(n, held - {head}, CompleteLog(g, held, head, len))
  {
    var held', g' := held - {head}, CompleteLog(g, held, head, len);
    assert HeldOk(g, head) && InFlight(n, held, g, head);
    var id := g.flight[head];
    assert g'.done[g.reaped..] == g.done[g.reaped..] + [id];
    forall x | x in g'.flight ensures InFlight(n, held', g', x) {
      assert InFlight(n, held, g, x);
    }
    forall k | g'.taken <= k < |g'.pub| ensures Flying(g', k) {
      assert Flying(g, k);
    }
    forall x | x in held' ensures HeldOk(g', x) {
      assert HeldOk(g, x) && InFlight(n, held, g, x);
    }
    forall k | g'.reaped <= k < |g'.done| ensures Flying(g', g'.done[k]) {
      assert k < |g.done| ==> Flying(g, g.done[k]);
    }
  }

  lemma CompleteInv(r: Ring, g: Log, n: nat, head: nat, len: nat)
    requires Inv(r, g, n)
    ensures Shaped(r) && Inv(Complete(r, head, len), CompleteLog(g, r.held, head, len), n)
  {
    if head in r.held {
      assert HeldOk(g, head) && InFlight(n, r.held, g, head);
      CompleteRing(r, g, n, head, len);
      CompleteFlight(n, r.held, g, head, len);
    }
  }

  /** A head that the device holds is in flight. */
  lemma HeldFlies(r: Ring, g: Log, n: nat, head: nat)
    requires Inv(r, g, n) && head in r.held
    ensures head in g.flight && g.flight[head] < |g.pub| && g.pub[g.flight[head]] == head && IsHead(n, head)
    ensures g.flight[head] !in g.done
  {
    assert HeldOk(g, head) && InFlight(n, r.held, g, head);
  }

  /** An unread completion belongs to another chain than any head the device holds. */
  lemma UnreadNotHeld(r: Ring, g: Log, n: nat, head: nat, k: nat)
    requires Inv(r, g, n) && head in r.held && g.reaped <= k < |g.done|
    ensures g.done[k] < |g.pub| && g.pub[g.done[k]] != head
  {
    assert HeldOk(g, head) && Flying(g, g.done[k]);
  }

  /** A head in flight is waiting, held, or completed and unread, and only one of them. */
  lemma OnePlace(r: Ring, g: Log, n: nat, x: nat)
    requires Inv(r, g, n) && x in g.flight
    ensures g.reaped <= |g.done|
    ensures g.taken <= g.flight[x] || x in r.held || g.flight[x] in g.done[g.reaped..]
    ensures !(g.taken <= g.flight[x] && x in r.held)
    ensures !(g.taken <= g.flight[x] && g.flight[x] in g.done[g.reaped..])
    ensures !(x in r.held && g.flight[x] in g.done[g.reaped..])
  {
    assert InFlight(n, r.held, g, x);
    assert x in r.held ==> HeldOk(g, x);
    assert forall id :: id in g.done[g.reaped..] ==> id in g.done && id < g.taken;
  }
}
