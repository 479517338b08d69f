/** The shared timer context of `ofp_timer.c` and its operations. Each
    spinlock-protected region runs as one atomic step of a method. */
module Timer {
  import opened Types
  import opened Handle
  import opened Wheel

  /** One second in microseconds: the long path's resolution. */
  const SecondUs: nat := 1_000_000

  /** The conversion of an unsigned value to a 32-bit `int`: the value
      modulo 2^32, read as two's complement. */
  function ToInt32(x: nat): (v: int)
    ensures -0x8000_0000 <= v < 0x8000_0000
    ensures (v - x) % 0x1_0000_0000 == 0
  {
    var low := x % 0x1_0000_0000;
    if low < 0x8000_0000 then low else low - 0x1_0000_0000
  }

  /** `ofp_timer_ticks`: 0 while this thread has no mapped context,
      otherwise the hardware pool's `uint64_t` tick counter returned through
      the function's `int` result type. */
  function Ticks(mapped: bool, poolTick: nat): (t: int)
    requires poolTick < 0x1_0000_0000_0000_0000
    ensures !mapped ==> t == 0
    ensures mapped ==> -0x8000_0000 <= t < 0x8000_0000 && (t - poolTick) % 0x1_0000_0000 == 0
  {
    if mapped then ToInt32(poolTick) else 0
  }

  /** The tick count survives the conversion exactly while it is below 2^31;
      from there on the caller sees it wrap to negative values. */
  lemma TicksSmall(poolTick: nat)
    requires poolTick < 0x1_0000_0000_0000_0000
    ensures poolTick < 0x8000_0000 <==> Ticks(true, poolTick) == poolTick
    ensures 0x8000_0000 <= poolTick < 0x1_0000_0000 ==> Ticks(true, poolTick) == poolTick - 0x1_0000_0000
  {
  }

  /** `struct ofp_timer_mem`, with the hardware timer pool reduced to the
      list of timers it has armed, and with the effects the engine has on
      the outside world (callbacks invoked, pool buffers handed out and
      returned) recorded in fields. */
  class TimerContext {
    /** OFP_TIMER_MAX_US: deadlines at or above it take the long path. */
    const shortLimitUs: nat
    /** OFP_TIMER_ARG_LEN: capacity of a request's argument buffer. */
    const argCapacity: nat
    /** ODP_TIMER_INVALID */
    const invalid: u32
    /** The callback `one_sec` that drives the wheel. */
    const tick: Callback

    /** `long_table`: bucket `i` lists its requests head first. */
    const wheel: array<seq<Req>>
    /** `sec_counter` */
    var cursor: nat
    /** `id`, the generation counter of long handles. */
    var nextId: nat
    /** The timers armed in the hardware timer pool. */
    var hwArmed: seq<HwTimer>

    /** Every callback invocation so far, in order. */
    var fired: seq<Firing>
    /** Every `odp_buffer_free` so far. */
    var released: multiset<Buf>
    /** The buffers freed by a successful `ofp_timer_cancel`. */
    var cancelled: multiset<Buf>
    /** Every buffer `odp_buffer_alloc` handed to `ofp_timer_start`. */
    var allocs: multiset<Buf>

    /** Buffers currently owned by an armed timer, on either path. */
    function Held(): multiset<Buf>
      reads this, wheel
    {
      HeldBy(wheel[..], hwArmed)
    }

    /** The context invariant: the wheel has its fixed size and the cursor is
        in it; each wheel entry's handle names its bucket; short handles have
        bit 31 clear, differ from INVALID and from each other; every buffer ever handed out
        is either still held by exactly one armed timer or has been released,
        never both and never twice; and every release was made on behalf of
        one firing or one successful cancel. */
    ghost predicate Valid()
      reads this, wheel
    {
      && wheel.Length == Slots
      && cursor < Slots
      && Placed(wheel[..])
      && (forall a :: a in hwArmed ==> !IsLong(a.timer) && a.timer != invalid)
      && Distinct(hwArmed)
      && Accounted(wheel[..], hwArmed, released, allocs)
      && Delivered(fired, cancelled, released)
    }

    /** The zero-initialised shared block: an empty wheel, cursor 0, counter 0. */
    constructor (shortLimitUs: nat, argCapacity: nat, invalid: u32, tick: Callback)
      ensures Valid() && fresh(wheel)
      ensures this.shortLimitUs == shortLimitUs && this.argCapacity == argCapacity
      ensures this.invalid == invalid && this.tick == tick
      ensures cursor == 0 && nextId == 0 && hwArmed == []
      ensures forall i :: 0 <= i < Slots ==> wheel[i] == []
      ensures fired == [] && released == multiset{} && allocs == multiset{} && cancelled == multiset{}
    {
      this.shortLimitUs := shortLimitUs;
      this.argCapacity := argCapacity;
      this.invalid := invalid;
      this.tick := tick;
      wheel := new seq<Req>[Slots](_ => []);
      cursor, nextId, hwArmed := 0, 0, [];
      fired, released, allocs, cancelled := [], multiset{}, multiset{}, multiset{};
      new;
      WheelBufsEmpty(wheel[..]);
    }

    /** `ofp_timer_start(tmo_us, callback, arg, |arg|)`. `buf` is the buffer
        the pool allocated for the request and `hw` the handle the hardware
        pool allocates if the short path is taken. A long deadline beyond the
        wheel's horizon never returns in the source, hence the precondition. */
    method Start(tmoUs: nat, callback: Callback, arg: seq<byte>, buf: Buf, hw: u32) returns (h: u32)
      requires Valid()
      requires |arg| <= argCapacity
      requires buf !in Held()
      requires tmoUs >= shortLimitUs ==> tmoUs / SecondUs <= Slots
      requires tmoUs < shortLimitUs ==> !IsLong(hw) && hw != invalid && hw !in Timers(hwArmed)
      modifies this, wheel
      ensures Valid()
      ensures cursor == old(cursor) && fired == old(fired) && released == old(released)
      ensures cancelled == old(cancelled)
      ensures allocs == old(allocs) + multiset{buf}
      ensures Held() == old(Held()) + multiset{buf}
      ensures tmoUs >= shortLimitUs ==>
        var ix := TargetSlot(old(cursor), tmoUs / SecondUs);
        && h == EncodeLong(old(nextId), ix)
        && nextId == old(nextId) + 1
        && wheel[..] == old(wheel[..])[ix := [Req(h, callback, arg, buf)] + old(wheel[ix])]
        && hwArmed == old(hwArmed)
      ensures tmoUs < shortLimitUs ==>
        && h == hw
        && nextId == old(nextId)
        && wheel[..] == old(wheel[..])
        && hwArmed == old(hwArmed) + [HwTimer(hw, Req(0, callback, arg, buf))]
    {
      if tmoUs >= shortLimitUs {
        h := ArmLong(tmoUs / SecondUs, callback, arg, buf);
      } else {
        h := ArmShort(callback, arg, buf, hw);
      }
    }

    /** The locked region of the long path: pick the slot `sec` seconds
        ahead of the cursor, build the handle from the counter, and push the
        request on the head of that bucket. */
    method ArmLong(sec: nat, callback: Callback, arg: seq<byte>, buf: Buf) returns (h: u32)
      requires Valid()
      requires buf !in Held()
      requires sec <= Slots
      modifies this, wheel
      ensures Valid()
      ensures cursor == old(cursor) && fired == old(fired) && released == old(released)
      ensures cancelled == old(cancelled)
      ensures allocs == old(allocs) + multiset{buf}
      ensures Held() == old(Held()) + multiset{buf}
      ensures var ix := TargetSlot(old(cursor), sec);
        && h == EncodeLong(old(nextId), ix)
        && nextId == old(nextId) + 1
        && wheel[..] == old(wheel[..])[ix := [Req(h, callback, arg, buf)] + old(wheel[ix])]
        && hwArmed == old(hwArmed)
    {
      ghost var ws := wheel[..];
      var ix := TargetSlot(cursor, sec);
      h := EncodeLong(nextId, ix);
      nextId := nextId + 1;
      var req := Req(h, callback, arg, buf);
      wheel[ix] := [req] + wheel[ix];
      AccountedPush(ws, hwArmed, released, allocs, ix, req);
      PlacedPush(ws, ix, req);
      allocs := allocs + multiset{buf};
      assert wheel[..] == ws[ix := [req] + ws[ix]];
    }

    /** The short path, reduced to its effect: the hardware pool now holds
        a timer `hw` carrying the request (whose own id stays 0). */
    method ArmShort(callback: Callback, arg: seq<byte>, buf: Buf, hw: u32) returns (h: u32)
      requires Valid()
      requires buf !in Held()
      requires !IsLong(hw) && hw != invalid && hw !in Timers(hwArmed)
      modifies this
      ensures Valid()
      ensures cursor == old(cursor) && nextId == old(nextId)
      ensures fired == old(fired) && released == old(released) && cancelled == old(cancelled)
      ensures allocs == old(allocs) + multiset{buf}
      ensures Held() == old(Held()) + multiset{buf}
      ensures h == hw
      ensures hwArmed == old(hwArmed) + [HwTimer(hw, Req(0, callback, arg, buf))]
    {
      var t := HwTimer(hw, Req(0, callback, arg, buf));
      AccountedArm(wheel[..], hwArmed, released, allocs, t);
      DistinctArm(hwArmed, t);
      hwArmed := hwArmed + [t];
      allocs := allocs + multiset{buf};
      h := hw;
    }

    /** `ofp_timer_cancel(tim)`. The INVALID handle is accepted and ignored.
        A handle with bit 31 set is looked up in the bucket its low 13 bits
        name: the first request with that id is unlinked, the rest of the
        bucket keeps its order, its buffer is released and 0 is returned; if
        none matches, -1 and nothing changes. A long timer on the wheel whose
        handle differs from INVALID is always found and unlinked; one whose
        handle equals INVALID is not (see `CancelChecked`). Any other handle
        goes to the hardware pool and never touches the wheel. */
    method Cancel(tim: u32) returns (r: int)
      requires Valid()
      modifies this, wheel
      ensures Valid()
      ensures cursor == old(cursor) && nextId == old(nextId)
      ensures fired == old(fired) && allocs == old(allocs)
      ensures tim == invalid ==>
        && r == 0 && wheel[..] == old(wheel[..]) && hwArmed == old(hwArmed)
        && released == old(released) && cancelled == old(cancelled)
      ensures tim != invalid && IsLong(tim) ==>
        var s := SlotOf(tim);
        var b := old(wheel[s]);
        && hwArmed == old(hwArmed)
        && match FirstIndex(Ids(b), tim)
           case Some(k) =>
             && r == 0
             && wheel[..] == old(wheel[..])[s := RemoveAt(b, k)]
             && released == old(released) + multiset{b[k].buf}
             && cancelled == old(cancelled) + multiset{b[k].buf}
             && b[k].buf !in Held()
           case None =>
             && r == -1 && wheel[..] == old(wheel[..])
             && released == old(released) && cancelled == old(cancelled)
      ensures (exists i, j :: 0 <= i < Slots && 0 <= j < |old(wheel[..])[i]| && old(wheel[..])[i][j].id == tim) ==> r == 0
      ensures tim != invalid && (exists i, j :: 0 <= i < Slots && 0 <= j < |old(wheel[..])[i]| && old(wheel[..])[i][j].id == tim) ==>
        IsLong(tim) && FirstIndex(Ids(old(wheel[SlotOf(tim)])), tim).Some?
      ensures tim != invalid && !IsLong(tim) ==>
        && wheel[..] == old(wheel[..])
        && match FirstIndex(Timers(old(hwArmed)), tim)
           case Some(k) =>
             && r == 0
             && hwArmed == RemoveAt(old(hwArmed), k)
             && tim !in Timers(hwArmed)
             && released == old(released) + multiset{old(hwArmed)[k].req.buf}
             && cancelled == old(cancelled) + multiset{old(hwArmed)[k].req.buf}
             && old(hwArmed)[k].req.buf !in Held()
           case None =>
             && r == -1 && hwArmed == old(hwArmed)
             && released == old(released) && cancelled == old(cancelled)
    {
      if tim == invalid {
        return 0;
      }
      forall i, j | 0 <= i < Slots && 0 <= j < |wheel[..][i]|
        ensures SlotOf(wheel[..][i][j].id) == i && FirstIndex(Ids(wheel[..][i]), wheel[..][i][j].id).Some?
      {
        FoundByHandle(wheel[..], i, j);
      }
      if IsLong(tim) {
        r := CancelLong(tim);
      } else {
        r := CancelShort(tim);
      }
    }

    /** `ofp_timer_cancel` with the bit-31 test ahead of the INVALID test:
        a long handle is always looked up on the wheel, so every long timer
        on it is found and unlinked even when its handle equals INVALID, and
        INVALID with nothing behind it is still accepted with result 0. */
    method CancelChecked(tim: u32) returns (r: int)
      requires Valid()
      modifies this, wheel
      ensures Valid()
      ensures cursor == old(cursor) && nextId == old(nextId)
      ensures fired == old(fired) && allocs == old(allocs)
      ensures tim == invalid && !IsLong(tim) ==>
        && r == 0 && wheel[..] == old(wheel[..]) && hwArmed == old(hwArmed)
        && released == old(released) && cancelled == old(cancelled)
      ensures IsLong(tim) ==>
        var s := SlotOf(tim);
        var b := old(wheel[s]);
        && hwArmed == old(hwArmed)
        && match FirstIndex(Ids(b), tim)
           case Some(k) =>
             && r == 0
             && wheel[..] == old(wheel[..])[s := RemoveAt(b, k)]
             && released == old(released) + multiset{b[k].buf}
             && cancelled == old(cancelled) + multiset{b[k].buf}
             && b[k].buf !in Held()
           case None =>
             && r == (if tim == invalid then 0 else -1) && wheel[..] == old(wheel[..])
             && released == old(released) && cancelled == old(cancelled)
      ensures (exists i, j :: 0 <= i < Slots && 0 <= j < |old(wheel[..])[i]| && old(wheel[..])[i][j].id == tim) ==>
        IsLong(tim) && FirstIndex(Ids(old(wheel[SlotOf(tim)])), tim).Some? && r == 0
      ensures tim != invalid && !IsLong(tim) ==>
        && wheel[..] == old(wheel[..])
        && match FirstIndex(Timers(old(hwArmed)), tim)
           case Some(k) =>
             && r == 0
             && hwArmed == RemoveAt(old(hwArmed), k)
             && tim !in Timers(hwArmed)
             && released == old(released) + multiset{old(hwArmed)[k].req.buf}
             && cancelled == old(cancelled) + multiset{old(hwArmed)[k].req.buf}
             && old(hwArmed)[k].req.buf !in Held()
           case None =>
             && r == -1 && hwArmed == old(hwArmed)
             && released == old(released) && cancelled == old(cancelled)
    {
      forall i, j | 0 <= i < Slots && 0 <= j < |wheel[..][i]|
        ensures SlotOf(wheel[..][i][j].id) == i && FirstIndex(Ids(wheel[..][i]), wheel[..][i][j].id).Some?
      {
        FoundByHandle(wheel[..], i, j);
      }
      if IsLong(tim) {
        r := CancelLong(tim);
        if r == -1 && tim == invalid {
          r := 0;
        }
      } else if tim == invalid {
        r := 0;
      } else {
        r := CancelShort(tim);
      }
    }

    /** The locked region of the long path of `ofp_timer_cancel`: scan the
        bucket from its head for the first request whose id is `tim`, and
        unlink it. */
    method CancelLong(tim: u32) returns (r: int)
      requires Valid()
      modifies this, wheel
      ensures Valid()
      ensures cursor == old(cursor) && nextId == old(nextId) && hwArmed == old(hwArmed)
      ensures fired == old(fired) && allocs == old(allocs)
      ensures var s := SlotOf(tim);
        var b := old(wheel[s]);
        match FirstIndex(Ids(b), tim)
        case Some(k) =>
          && r == 0
          && wheel[..] == old(wheel[..])[s := RemoveAt(b, k)]
          && released == old(released) + multiset{b[k].buf}
          && cancelled == old(cancelled) + multiset{b[k].buf}
          && b[k].buf !in Held()
        case None =>
          && r == -1 && wheel[..] == old(wheel[..])
          && released == old(released) && cancelled == old(cancelled)
    {
      var s := SlotOf(tim);
      var b := wheel[s];
      var i := 0;
      while i < |b| && b[i].id != tim
        invariant i <= |b|
        invariant forall j :: 0 <= j < i ==> b[j].id != tim
      {
        i := i + 1;
      }
      if i == |b| {
        assert tim !in Ids(b);
        return -1;
      }
      assert FirstIndex(Ids(b), tim) == Some(i);
      ghost var ws := wheel[..];
      AccountedUnlink(ws, hwArmed, released, allocs, s, i);
      DeliveredCancel(fired, cancelled, released, b[i].buf);
      PlacedReplace(ws, s, RemoveAt(b, i));
      wheel[s] := RemoveAt(b, i);
      released, cancelled := released + multiset{b[i].buf}, cancelled + multiset{b[i].buf};
      assert wheel[..] == ws[s := RemoveAt(b, i)];
      r := 0;
    }

    /** The short path of `ofp_timer_cancel`, reduced to its effect: the
        hardware pool gives up the armed timer `tim`, if it still has it, and
        its request's buffer is released. */
    method CancelShort(tim: u32) returns (r: int)
      requires Valid()
      modifies this
      ensures Valid()
      ensures cursor == old(cursor) && nextId == old(nextId)
      ensures fired == old(fired) && allocs == old(allocs)
      ensures match FirstIndex(Timers(old(hwArmed)), tim)
        case Some(k) =>
          && r == 0
          && hwArmed == RemoveAt(old(hwArmed), k)
          && tim !in Timers(hwArmed)
          && released == old(released) + multiset{old(hwArmed)[k].req.buf}
          && cancelled == old(cancelled) + multiset{old(hwArmed)[k].req.buf}
          && old(hwArmed)[k].req.buf !in Held()
        case None =>
          && r == -1 && hwArmed == old(hwArmed)
          && released == old(released) && cancelled == old(cancelled)
    {
      match FirstIndex(Timers(hwArmed), tim)
      case None =>
        r := -1;
      case Some(k) =>
        var buf := hwArmed[k].req.buf;
        AccountedDrop(wheel[..], hwArmed, released, allocs, k);
        DistinctDrop(hwArmed, k);
        DeliveredCancel(fired, cancelled, released, buf);
        hwArmed, released, cancelled := RemoveAt(hwArmed, k), released + multiset{buf}, cancelled + multiset{buf};
        r := 0;
    }

    /** `ofp_timer_handle(ev)`: the hardware pool delivers armed timer `tim`;
        its callback runs once with its argument and its buffer is released. */
    method DeliverShort(tim: u32)
      requires Valid()
      requires tim in Timers(hwArmed)
      modifies this
      ensures Valid()
      ensures cursor == old(cursor) && nextId == old(nextId) && allocs == old(allocs)
      ensures cancelled == old(cancelled)
      ensures var k := FirstIndex(Timers(old(hwArmed)), tim).value;
        var q := old(hwArmed)[k].req;
        && hwArmed == RemoveAt(old(hwArmed), k)
        && tim !in Timers(hwArmed)
        && fired == old(fired) + [Firing(q.callback, q.arg, q.buf)]
        && released == old(released) + multiset{q.buf}
        && q.buf !in Held()
    {
      var k := FirstIndex(Timers(hwArmed), tim).value;
      var q := hwArmed[k].req;
      AccountedDrop(wheel[..], hwArmed, released, allocs, k);
      DistinctDrop(hwArmed, k);
      DeliveredFire(fired, cancelled, released, Firing(q.callback, q.arg, q.buf));
      hwArmed, fired, released := RemoveAt(hwArmed, k), fired + [Firing(q.callback, q.arg, q.buf)], released + multiset{q.buf};
    }

    /** The body of `one_sec` up to the re-arm: under the lock, advance the
        cursor by one and detach the bucket it now points at; then, with the
        lock released, walk the detached list. */
    method ExpireNext()
      requires Valid()
      modifies this, wheel
      ensures Valid()
      ensures cursor == NextCursor(old(cursor))
      ensures wheel[..] == old(wheel[..])[cursor := []]
      ensures fired == old(fired) + Firings(old(wheel[..])[cursor])
      ensures released == old(released) + Bufs(old(wheel[..])[cursor])
      ensures Held() + Bufs(old(wheel[..])[cursor]) == old(Held())
      ensures nextId == old(nextId) && hwArmed == old(hwArmed) && allocs == old(allocs)
      ensures cancelled == old(cancelled)
    {
      ghost var ws := wheel[..];
      cursor := NextCursor(cursor);
      var due := wheel[cursor];
      AccountedDetach(ws, hwArmed, released, allocs, cursor);
      PlacedReplace(ws, cursor, []);
      wheel[cursor] := [];
      assert wheel[..] == ws[cursor := []];
      // the lock is released here; the detached list belongs to this walk
      DeliveredWalk(fired, cancelled, released, due);
      Dispatch(due);
    }

    /** The walk over a detached list, head first: each request's callback
        is invoked with its argument, then its buffer is released. */
    method Dispatch(due: seq<Req>)
      modifies this`fired, this`released
      ensures fired == old(fired) + Firings(due)
      ensures released == old(released) + Bufs(due)
    {
      var i := 0;
      while i < |due|
        invariant i <= |due|
        invariant fired == old(fired) + Firings(due[..i])
        invariant released == old(released) + Bufs(due[..i])
      {
        WalkStep(due, i);
        fired := fired + [Firing(due[i].callback, due[i].arg, due[i].buf)];
        released := released + multiset{due[i].buf};
        i := i + 1;
      }
      assert due[..i] == due;
    }

    /** `one_sec`: expire the next bucket, then re-arm the tick one second
        ahead through `ofp_timer_start`, with buffer `buf` (which may be one
        the expiry just released) and hardware handle `hw` for the short path. */
    method OneSec(buf: Buf, hw: u32)
      requires Valid()
      requires buf !in Held() - Bufs(wheel[NextCursor(cursor)])
      requires SecondUs < shortLimitUs ==> !IsLong(hw) && hw != invalid && hw !in Timers(hwArmed)
      modifies this, wheel
      ensures Valid()
      ensures cursor == NextCursor(old(cursor))
      ensures fired == old(fired) + Firings(old(wheel[..])[cursor])
      ensures released == old(released) + Bufs(old(wheel[..])[cursor])
      ensures allocs == old(allocs) + multiset{buf} && cancelled == old(cancelled)
      ensures SecondUs >= shortLimitUs ==>
        var ix := NextCursor(cursor);
        && nextId == old(nextId) + 1
        && wheel[..] == old(wheel[..])[cursor := []][ix := [Req(EncodeLong(old(nextId), ix), tick, [], buf)] + old(wheel[..])[ix]]
        && hwArmed == old(hwArmed)
      ensures SecondUs < shortLimitUs ==>
        && nextId == old(nextId)
        && wheel[..] == old(wheel[..])[cursor := []]
        && hwArmed == old(hwArmed) + [HwTimer(hw, Req(0, tick, [], buf))]
    {
      ghost var w0, held0 := wheel[..], Held();
      ExpireNext();
      ghost var w1, ix := wheel[..], NextCursor(cursor);
      NextCursorMoves(cursor);
      assert SecondUs / SecondUs == 1 && TargetSlot(cursor, 1) == ix;
      assert w1[ix] == w0[ix];
      NotHeldAfter(Held(), Bufs(w0[cursor]), held0, buf);
      var h := Start(SecondUs, tick, [], buf, hw);
    }
  }
}
