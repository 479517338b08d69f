/** Whole-engine runs on a freshly initialised context: what a caller of
    `ofp_timer_start`, `ofp_timer_cancel` and the one-second tick observes. */
module Scenarios {
  import opened Types
  import opened Handle
  import opened Wheel
  import opened Timer

  /** The one-byte argument "x". */
  const ArgX: seq<byte> := [0x78]

  /** A 2-second long timer with no cancel runs its callback exactly once,
      with its argument, on the second tick and not before. */
  method LongTimerFiresOnSecondTick(limitUs: nat, invalid: u32, tick: Callback, cb: Callback)
    returns (afterFirst: seq<Firing>, afterSecond: seq<Firing>, freed: multiset<Buf>)
    requires limitUs <= 2 * SecondUs
    ensures afterFirst == []
    ensures afterSecond == [Firing(cb, ArgX, 1)]
    ensures freed == multiset{1}
  {
    var ctx := new TimerContext(limitUs, 1, invalid, tick);
    ghost var w0 := ctx.wheel[..];
    assert ctx.cursor == 0 && w0[2] == [];
    assert 2 * SecondUs / SecondUs == 2 && TargetSlot(0, 2) == 2;
    var h := ctx.Start(2 * SecondUs, cb, ArgX, 1, 0);
    var armed := Req(h, cb, ArgX, 1);
    ghost var w1 := ctx.wheel[..];
    assert 2 * SecondUs >= ctx.shortLimitUs;
    assert w1 == w0[2 := [armed] + w0[2]];
    assert w1[1] == [] && NextCursor(0) == 1;
    ctx.ExpireNext();
    ghost var w2 := ctx.wheel[..];
    assert w2 == w1[1 := []] && w2[2] == [armed] + w0[2] == [armed];
    assert Firings(w1[1]) == [];
    afterFirst := ctx.fired;
    assert NextCursor(1) == 2;
    ctx.ExpireNext();
    assert Firings(w2[2]) == [Firing(cb, ArgX, 1)];
    BufsSingle(armed);
    afterSecond := ctx.fired;
    freed := ctx.released;
  }

  /** Two timers armed into the same slot with no tick between them fire
      most recently armed first. */
  method SameSlotFiresLifo(limitUs: nat, invalid: u32, tick: Callback, first: Callback, second: Callback)
    returns (log: seq<Firing>)
    requires limitUs <= SecondUs
    ensures log == [Firing(second, [], 2), Firing(first, [], 1)]
  {
    var ctx := new TimerContext(limitUs, 0, invalid, tick);
    ghost var w0 := ctx.wheel[..];
    assert ctx.cursor == 0 && w0[1] == [];
    assert SecondUs / SecondUs == 1 && TargetSlot(0, 1) == 1;
    assert SecondUs >= ctx.shortLimitUs;
    var h1 := ctx.Start(SecondUs, first, [], 1, 0);
    var r1 := Req(h1, first, [], 1);
    ghost var w1 := ctx.wheel[..];
    assert w1 == w0[1 := [r1] + w0[1]] && w1[1] == [r1];
    var h2 := ctx.Start(SecondUs, second, [], 2, 0);
    var r2 := Req(h2, second, [], 2);
    ghost var w2 := ctx.wheel[..];
    assert w2 == w1[1 := [r2] + w1[1]] && w2[1] == [r2, r1];
    assert ctx.fired == [] && NextCursor(0) == 1;
    ctx.ExpireNext();
    assert Firings([r2, r1]) == [Firing(second, [], 2), Firing(first, [], 1)];
    log := ctx.fired;
  }

  /** A short timer cancelled straight after arming: cancel succeeds, the
      callback never runs, and the buffer is released. */
  method ShortStartThenCancel(limitUs: nat, invalid: u32, tick: Callback, cb: Callback, hw: u32)
    returns (r: int, log: seq<Firing>, freed: multiset<Buf>)
    requires 500 < limitUs
    requires !IsLong(hw) && hw != invalid
    ensures r == 0 && log == [] && freed == multiset{1}
  {
    var ctx := new TimerContext(limitUs, 1, invalid, tick);
    var h := ctx.Start(500, cb, ArgX, 1, hw);
    assert Timers(ctx.hwArmed) == [hw];
    r := ctx.Cancel(h);
    log := ctx.fired;
    freed := ctx.released;
  }

  /** Arming a long timer and cancelling it, `n` times over: every cancel
      succeeds, nothing fires, and no buffer stays held. */
  method ArmCancelLeavesNothing(limitUs: nat, invalid: u32, tick: Callback, cb: Callback, n: nat)
    returns (allCancelled: bool, held: multiset<Buf>, freed: multiset<Buf>, log: seq<Firing>)
    requires limitUs <= SecondUs
    requires !IsLong(invalid) || SlotOf(invalid) != 1
    ensures allCancelled && held == multiset{} && log == []
    ensures |freed| == n
  {
    var ctx := new TimerContext(limitUs, 0, invalid, tick);
    var k := 0;
    allCancelled := true;
    while k < n
      invariant k <= n
      invariant ctx.Valid()
      invariant ctx.invalid == invalid && ctx.shortLimitUs == limitUs && ctx.argCapacity == 0
      invariant ctx.Held() == multiset{}
      invariant ctx.fired == [] && |ctx.released| == k
      invariant allCancelled && ctx.cursor == 0
      modifies ctx, ctx.wheel
    {
      var r := ArmCancelOnce(ctx, cb, k);
      allCancelled := allCancelled && r == 0;
      k := k + 1;
    }
    held, freed, log := ctx.Held(), ctx.released, ctx.fired;
  }

  /** One cycle of `ArmCancelLeavesNothing`: with nothing held and the
      cursor at 0, a one-second arm with buffer `buf` followed by a cancel of
      its handle gives 0 and leaves nothing held, with `buf` freed. */
  method ArmCancelOnce(ctx: TimerContext, cb: Callback, buf: Buf) returns (r: int)
    requires ctx.Valid() && ctx.Held() == multiset{} && ctx.cursor == 0
    requires ctx.shortLimitUs <= SecondUs && ctx.argCapacity == 0
    requires !IsLong(ctx.invalid) || SlotOf(ctx.invalid) != 1
    modifies ctx, ctx.wheel
    ensures ctx.Valid() && ctx.Held() == multiset{} && ctx.cursor == 0
    ensures r == 0 && ctx.fired == old(ctx.fired) && ctx.released == old(ctx.released) + multiset{buf}
  {
    ghost var w0 := ctx.wheel[..];
    assert SecondUs / SecondUs == 1 && TargetSlot(0, 1) == 1;
    var h := ctx.Start(SecondUs, cb, [], buf, 0);
    ghost var b := [Req(h, cb, [], buf)] + w0[1];
    assert ctx.wheel[..] == w0[1 := b] && SlotOf(h) == 1;
    assert FirstIndex(Ids(b), h) == Some(0) && h != ctx.invalid;
    r := ctx.Cancel(h);
    AccountedSettled(ctx.wheel[..], ctx.hwArmed, ctx.released, ctx.allocs);
  }

  /** An INVALID value with bit 31 set (here slot 1, counter bits 0): the
      first one-second arm on a fresh context is handed that very value, the
      cancel takes it for INVALID and gives 0 without unlinking it, and the
      timer fires on the next tick. */
  method CancelOfInvalidHandleStillFires(limitUs: nat, tick: Callback, cb: Callback)
    returns (h: u32, r: int, log: seq<Firing>)
    requires limitUs <= SecondUs
    ensures h == 0x8000_0001 && r == 0
    ensures log == [Firing(cb, [], 7)]
  {
    var ctx := new TimerContext(limitUs, 0, 0x8000_0001, tick);
    ghost var w0 := ctx.wheel[..];
    assert ctx.cursor == 0 && ctx.nextId == 0 && w0[1] == [];
    FirstArmIsInvalid();
    h := ctx.Start(SecondUs, cb, [], 7, 0);
    var armed := Req(h, cb, [], 7);
    ghost var w1 := ctx.wheel[..];
    assert SecondUs >= ctx.shortLimitUs;
    assert w1 == w0[1 := [armed] + w0[1]] && h == ctx.invalid;
    r := ctx.Cancel(h);
    assert ctx.wheel[..] == w1 && ctx.fired == [] && ctx.cursor == 0;
    ctx.ExpireNext();
    assert Firings([armed]) == [Firing(cb, [], 7)];
    log := ctx.fired;
  }

  /** The same run with the corrected cancel: the timer is unlinked, the
      cancel gives 0 and nothing fires. */
  method CheckedCancelOfInvalidHandle(limitUs: nat, tick: Callback, cb: Callback)
    returns (h: u32, r: int, log: seq<Firing>)
    requires limitUs <= SecondUs
    ensures h == 0x8000_0001 && r == 0
    ensures log == []
  {
    var ctx := new TimerContext(limitUs, 0, 0x8000_0001, tick);
    ghost var w0 := ctx.wheel[..];
    assert ctx.cursor == 0 && ctx.nextId == 0 && w0[1] == [];
    FirstArmIsInvalid();
    h := ctx.Start(SecondUs, cb, [], 7, 0);
    var armed := Req(h, cb, [], 7);
    ghost var w1 := ctx.wheel[..];
    assert SecondUs >= ctx.shortLimitUs;
    assert w1 == w0[1 := [armed] + w0[1]] && SlotOf(h) == 1;
    assert FirstIndex(Ids([armed]), h) == Some(0);
    r := ctx.CancelChecked(h);
    assert ctx.wheel[..] == w1[1 := []] && ctx.fired == [] && ctx.cursor == 0;
    ctx.ExpireNext();
    assert Firings([]) == [];
    log := ctx.fired;
  }

  /** With INVALID = 0x80000001, the first one-second arm on a fresh context
      lands in slot 1 with counter 0 and is handed INVALID itself. */
  lemma FirstArmIsInvalid()
    ensures TargetSlot(0, SecondUs / SecondUs) == 1
    ensures EncodeLong(0, 1) == 0x8000_0001
  {
    DecodeEncode(0x8000_0001);
  }
}
