/** Pure view of the long-timer wheel: cursor arithmetic, and the operations
    on one bucket (a singly-linked list, head first) that arming, cancelling
    and expiring perform. */
module Wheel {
  import opened Types
  import opened Handle

  // ---------------------------------------------------------------- cursor

  /** `(sec_counter + sec) & TIMER_LONG_MASK`: the bucket a long arm lands in. */
  function TargetSlot(cursor: nat, sec: nat): (ix: nat)
    requires cursor < Slots
    ensures ix < Slots
    ensures sec == 0 || sec == Slots ==> ix == cursor
  {
    (cursor + sec) % Slots
  }

  /** `(sec_counter + 1) & TIMER_LONG_MASK`: one tick of the wheel. */
  function NextCursor(cursor: nat): (c: nat)
    requires cursor < Slots
    ensures c < Slots
  {
    (cursor + 1) % Slots
  }

  /** A tick always moves the cursor, so the slot a one-second re-arm lands
      in is never the one the same tick has just emptied. */
  lemma NextCursorMoves(cursor: nat)
    requires cursor < Slots
    ensures NextCursor(cursor) != cursor
    ensures NextCursor(cursor) == if cursor + 1 < Slots then cursor + 1 else 0
  {
  }

  /** The cursor after `ticks` one-second ticks. */
  function CursorAfter(cursor: nat, ticks: nat): (c: nat)
    requires cursor < Slots
    ensures c < Slots
  {
    if ticks == 0 then cursor else NextCursor(CursorAfter(cursor, ticks - 1))
  }

  /** Ticking `ticks` times moves the cursor `ticks` slots round the wheel. */
  lemma {:induction false} CursorAfterSum(cursor: nat, ticks: nat)
    requires cursor < Slots
    ensures CursorAfter(cursor, ticks) == (cursor + ticks) % Slots
  {
    if ticks > 0 {
      CursorAfterSum(cursor, ticks - 1);
      ModSucc(cursor + ticks - 1);
    }
  }

  lemma ModSucc(x: nat)
    ensures (x % Slots + 1) % Slots == (x + 1) % Slots
  {
    var q, r := x / Slots, x % Slots;
    assert x == q * Slots + r;
    if r + 1 == Slots {
      assert x + 1 == (q + 1) * Slots;
    } else {
      assert x + 1 == q * Slots + (r + 1);
    }
  }

  /** Since a tick advances the cursor before it expires a bucket, a long arm
      of `sec` seconds is expired by tick number `sec` of the next revolution
      and by no earlier one; `sec == 0` lands on the current slot and waits a
      full revolution of `Slots` ticks, as does `sec == Slots`. */
  lemma ExpiryTick(cursor: nat, sec: nat, ticks: nat)
    requires cursor < Slots && sec <= Slots
    requires 1 <= ticks <= Slots
    ensures CursorAfter(cursor, ticks) == TargetSlot(cursor, sec) <==> (ticks == sec || (sec == 0 && ticks == Slots))
  {
    CursorAfterSum(cursor, ticks);
  }

  // ------------------------------------------------------ bucket contents

  /** The ids along a bucket, head first. */
  function Ids(b: seq<Req>): (ids: seq<u32>)
    ensures |ids| == |b| && forall i :: 0 <= i < |b| ==> ids[i] == b[i].id
  {
    seq(|b|, i requires 0 <= i < |b| => b[i].id)
  }

  /** The native handles of the armed hardware timers. */
  function Timers(p: seq<HwTimer>): (ts: seq<u32>)
    ensures |ts| == |p| && forall i :: 0 <= i < |p| ==> ts[i] == p[i].timer
  {
    seq(|p|, i requires 0 <= i < |p| => p[i].timer)
  }

  /** The requests the armed hardware timers carry. */
  function Reqs(p: seq<HwTimer>): (rs: seq<Req>)
    ensures |rs| == |p| && forall i :: 0 <= i < |p| ==> rs[i] == p[i].req
  {
    seq(|p|, i requires 0 <= i < |p| => p[i].req)
  }

  /** The multiset of buffers a list of requests holds. */
  function Bufs(b: seq<Req>): multiset<Buf>
  {
    multiset(seq(|b|, i requires 0 <= i < |b| => b[i].buf))
  }

  /** The callbacks a walk over the list invokes, in list order. */
  function Firings(b: seq<Req>): (fs: seq<Firing>)
    ensures |fs| == |b|
    ensures forall i :: 0 <= i < |b| ==> fs[i] == Firing(b[i].callback, b[i].arg, b[i].buf)
  {
    if b == [] then [] else [Firing(b[0].callback, b[0].arg, b[0].buf)] + Firings(b[1..])
  }

  /** The buffers of the requests a log of firings was made on behalf of. */
  function FiredBufs(fs: seq<Firing>): multiset<Buf>
  {
    multiset(seq(|fs|, i requires 0 <= i < |fs| => fs[i].buf))
  }

  /** Buffers held by the whole wheel. */
  function WheelBufs(ws: seq<seq<Req>>): multiset<Buf>
  {
    if ws == [] then multiset{} else Bufs(ws[0]) + WheelBufs(ws[1..])
  }

  /** Buffers held by the armed hardware timers. */
  function PoolBufs(p: seq<HwTimer>): multiset<Buf>
  {
    Bufs(Reqs(p))
  }

  /** No buffer is held in two places. */
  ghost predicate NoDup(m: multiset<Buf>) {
    forall x :: m[x] <= 1
  }

  lemma NoDupAdd(m: multiset<Buf>, x: Buf)
    requires NoDup(m) && x !in m
    ensures NoDup(m + multiset{x})
  {
  }

  lemma NoDupShrink(m: multiset<Buf>, d: multiset<Buf>)
    requires NoDup(m + d)
    ensures NoDup(m)
  {
    forall x ensures m[x] <= 1 {
      assert (m + d)[x] == m[x] + d[x];
    }
  }

  lemma NoDupRemoved(m: multiset<Buf>, x: Buf)
    requires NoDup(m + multiset{x})
    ensures x !in m
  {
    assert (m + multiset{x})[x] == m[x] + 1;
  }

  /** No two armed hardware timers share a native handle. */
  ghost predicate Distinct(p: seq<HwTimer>) {
    forall i, j :: 0 <= i < j < |p| ==> p[i].timer != p[j].timer
  }

  /** Arming a timer under a handle the pool does not hold keeps the
      handles apart. */
  lemma DistinctArm(p: seq<HwTimer>, x: HwTimer)
    requires Distinct(p) && x.timer !in Timers(p)
    ensures Distinct(p + [x])
  {
    assert forall i :: 0 <= i < |p| ==> p[i].timer == Timers(p)[i];
  }

  /** Giving up one armed timer keeps the rest apart, and its handle is no
      longer held. */
  lemma DistinctDrop(p: seq<HwTimer>, k: nat)
    requires Distinct(p) && k < |p|
    ensures Distinct(RemoveAt(p, k))
    ensures p[k].timer !in Timers(RemoveAt(p, k))
  {
  }

  // ------------------------------------------------- search and unlinking

  /** Position of the first occurrence of `t` in `keys`: the entry a scan
      from the list head that stops at the first match finds. */
  function FirstIndex(keys: seq<u32>, t: u32): (r: Option<nat>)
    ensures r.Some? ==> r.value < |keys| && keys[r.value] == t
    ensures r.Some? ==> forall j :: 0 <= j < r.value ==> keys[j] != t
    ensures r.None? <==> t !in keys
  {
    if keys == [] then None
    else if keys[0] == t then Some(0)
    else match FirstIndex(keys[1..], t)
      case None => None
      case Some(k) => Some(k + 1)
  }

  /** `prev->next = next` (or the head moved on): the list without entry `k`,
      every other entry kept in its order. */
  function RemoveAt<T>(s: seq<T>, k: nat): (r: seq<T>)
    requires k < |s|
    ensures |r| == |s| - 1
    ensures forall j :: 0 <= j < k ==> r[j] == s[j]
    ensures forall j :: k <= j < |r| ==> r[j] == s[j + 1]
  {
    s[..k] + s[k + 1..]
  }

  // -------------------------------------------------------- buffer lemmas

  lemma BufsPrepend(x: Req, b: seq<Req>)
    ensures Bufs([x] + b) == Bufs(b) + multiset{x.buf}
  {
    var l := seq(|b|, i requires 0 <= i < |b| => b[i].buf);
    var b' := [x] + b;
    assert seq(|b'|, i requires 0 <= i < |b'| => b'[i].buf) == [x.buf] + l;
  }

  lemma BufsSingle(x: Req)
    ensures Bufs([x]) == multiset{x.buf}
  {
    assert seq(1, i requires 0 <= i < 1 => [x][i].buf) == [x.buf];
  }

  lemma BufsAppend(b: seq<Req>, x: Req)
    ensures Bufs(b + [x]) == Bufs(b) + multiset{x.buf}
  {
    var l := seq(|b|, i requires 0 <= i < |b| => b[i].buf);
    var b' := b + [x];
    assert seq(|b'|, i requires 0 <= i < |b'| => b'[i].buf) == l + [x.buf];
  }

  /** Unlinking entry `k` gives up exactly that entry's buffer. */
  lemma RemoveAtBufs(b: seq<Req>, k: nat)
    requires k < |b|
    ensures Bufs(RemoveAt(b, k)) + multiset{b[k].buf} == Bufs(b)
  {
    var l := seq(|b|, i requires 0 <= i < |b| => b[i].buf);
    var r := RemoveAt(b, k);
    assert seq(|r|, i requires 0 <= i < |r| => r[i].buf) == l[..k] + l[k + 1..];
    assert l == l[..k] + [l[k]] + l[k + 1..];
  }

  /** One more step of a walk over `b`: the prefix up to `i + 1` fires and
      frees what the prefix up to `i` does, and then entry `i`. */
  lemma WalkStep(b: seq<Req>, i: nat)
    requires i < |b|
    ensures Firings(b[..i + 1]) == Firings(b[..i]) + [Firing(b[i].callback, b[i].arg, b[i].buf)]
    ensures Bufs(b[..i + 1]) == Bufs(b[..i]) + multiset{b[i].buf}
  {
    assert b[..i + 1] == b[..i] + [b[i]];
    BufsAppend(b[..i], b[i]);
  }

  lemma PoolBufsAppend(p: seq<HwTimer>, x: HwTimer)
    ensures PoolBufs(p + [x]) == PoolBufs(p) + multiset{x.req.buf}
  {
    assert Reqs(p + [x]) == Reqs(p) + [x.req];
    BufsAppend(Reqs(p), x.req);
  }

  lemma PoolRemoveAtBufs(p: seq<HwTimer>, k: nat)
    requires k < |p|
    ensures PoolBufs(RemoveAt(p, k)) + multiset{p[k].req.buf} == PoolBufs(p)
  {
    assert Reqs(RemoveAt(p, k)) == RemoveAt(Reqs(p), k);
    RemoveAtBufs(Reqs(p), k);
  }

  /** Replacing one bucket trades that bucket's buffers for the new ones and
      leaves the rest of the wheel's holdings alone. */
  lemma {:induction false} WheelBufsUpdate(ws: seq<seq<Req>>, i: nat, nb: seq<Req>)
    requires i < |ws|
    ensures WheelBufs(ws[i := nb]) + Bufs(ws[i]) == WheelBufs(ws) + Bufs(nb)
  {
    if i == 0 {
      assert ws[i := nb][1..] == ws[1..];
    } else {
      var ws': seq<seq<Req>> := ws[i := nb];
      WheelBufsUpdate(ws[1..], i - 1, nb);
      assert ws'[0] == ws[0] && ws[1..][i - 1] == ws[i];
      assert ws'[1..] == ws[1..][i - 1 := nb];
      assert WheelBufs(ws') == Bufs(ws[0]) + WheelBufs(ws[1..][i - 1 := nb]);
      assert WheelBufs(ws) == Bufs(ws[0]) + WheelBufs(ws[1..]);
      calc {
        WheelBufs(ws') + Bufs(ws[i]);
        Bufs(ws[0]) + (WheelBufs(ws[1..][i - 1 := nb]) + Bufs(ws[1..][i - 1]));
        Bufs(ws[0]) + (WheelBufs(ws[1..]) + Bufs(nb));
        WheelBufs(ws) + Bufs(nb);
      }
    }
  }

  /** Pushing a request on one bucket adds exactly its buffer to the wheel. */
  lemma WheelPush(ws: seq<seq<Req>>, i: nat, x: Req)
    requires i < |ws|
    ensures WheelBufs(ws[i := [x] + ws[i]]) == WheelBufs(ws) + multiset{x.buf}
  {
    var a, b := WheelBufs(ws[i := [x] + ws[i]]), WheelBufs(ws);
    WheelBufsUpdate(ws, i, [x] + ws[i]);
    BufsPrepend(x, ws[i]);
    assert a + Bufs(ws[i]) == b + Bufs(ws[i]) + multiset{x.buf};
    forall y ensures a[y] == (b + multiset{x.buf})[y] {
      assert (a + Bufs(ws[i]))[y] == (b + Bufs(ws[i]) + multiset{x.buf})[y];
    }
  }

  /** Unlinking entry `k` of bucket `i` gives up exactly that entry's buffer. */
  lemma WheelUnlink(ws: seq<seq<Req>>, i: nat, k: nat)
    requires i < |ws| && k < |ws[i]|
    ensures WheelBufs(ws[i := RemoveAt(ws[i], k)]) + multiset{ws[i][k].buf} == WheelBufs(ws)
  {
    var a, b := WheelBufs(ws[i := RemoveAt(ws[i], k)]), WheelBufs(ws);
    WheelBufsUpdate(ws, i, RemoveAt(ws[i], k));
    RemoveAtBufs(ws[i], k);
    forall y ensures (a + multiset{ws[i][k].buf})[y] == b[y] {
      assert (a + Bufs(ws[i]))[y] == (b + Bufs(RemoveAt(ws[i], k)))[y];
    }
  }

  /** Detaching bucket `i` gives up exactly that bucket's buffers. */
  lemma WheelDetach(ws: seq<seq<Req>>, i: nat)
    requires i < |ws|
    ensures WheelBufs(ws[i := []]) + Bufs(ws[i]) == WheelBufs(ws)
  {
    WheelBufsUpdate(ws, i, []);
    assert Bufs([]) == multiset{};
  }

  /** A wheel of empty buckets holds nothing. */
  lemma {:induction false} WheelBufsEmpty(ws: seq<seq<Req>>)
    requires forall i :: 0 <= i < |ws| ==> ws[i] == []
    ensures WheelBufs(ws) == multiset{}
  {
    if ws != [] {
      assert Bufs(ws[0]) == multiset{};
      WheelBufsEmpty(ws[1..]);
    }
  }

  // ------------------------------------------------ handle placement

  /** Every request on the wheel carries a long handle that names the bucket
      it sits in, so `ofp_timer_cancel` searches the right bucket. */
  ghost predicate Placed(ws: seq<seq<Req>>)
  {
    forall i, j :: 0 <= i < |ws| && 0 <= j < |ws[i]| ==> IsLong(ws[i][j].id) && SlotOf(ws[i][j].id) == i
  }

  lemma PlacedPush(ws: seq<seq<Req>>, i: nat, x: Req)
    requires Placed(ws) && i < |ws| && IsLong(x.id) && SlotOf(x.id) == i
    ensures Placed(ws[i := [x] + ws[i]])
  {
  }

  lemma PlacedReplace(ws: seq<seq<Req>>, i: nat, nb: seq<Req>)
    requires Placed(ws) && i < |ws|
    requires forall r :: r in nb ==> r in ws[i]
    ensures Placed(ws[i := nb])
  {
    var ws': seq<seq<Req>> := ws[i := nb];
    forall a: int, j: int | 0 <= a < |ws'| && 0 <= j < |ws'[a]|
      ensures IsLong(ws'[a][j].id) && SlotOf(ws'[a][j].id) == a
    {
      if a == i {
        assert ws'[a][j] in ws[i];
      }
    }
  }

  /** A long timer on the wheel is found by the bucket scan of its own
      handle: cancelling it cannot miss it. */
  lemma FoundByHandle(ws: seq<seq<Req>>, i: nat, j: nat)
    requires Placed(ws) && i < |ws| && j < |ws[i]|
    ensures SlotOf(ws[i][j].id) == i
    ensures FirstIndex(Ids(ws[i]), ws[i][j].id).Some?
  {
    assert Ids(ws[i])[j] == ws[i][j].id;
  }

  // ------------------------------------------------ buffer accounting

  /** The buffers held by the wheel `ws` and the hardware pool `pool`. */
  function HeldBy(ws: seq<seq<Req>>, pool: seq<HwTimer>): multiset<Buf>
  {
    WheelBufs(ws) + PoolBufs(pool)
  }

  /** Every buffer handed out is held by exactly one armed timer or has been
      released; none is held twice. */
  ghost predicate Accounted(ws: seq<seq<Req>>, pool: seq<HwTimer>, released: multiset<Buf>, allocs: multiset<Buf>)
  {
    HeldBy(ws, pool) + released == allocs && NoDup(HeldBy(ws, pool))
  }

  /** Every buffer freed so far was freed on behalf of exactly one firing or
      one successful cancel. */
  ghost predicate Delivered(fired: seq<Firing>, cancelled: multiset<Buf>, released: multiset<Buf>)
  {
    FiredBufs(fired) + cancelled == released
  }

  /** Walking a detached list adds exactly its buffers to those fired. */
  lemma FiredBufsWalk(fs: seq<Firing>, b: seq<Req>)
    ensures FiredBufs(fs + Firings(b)) == FiredBufs(fs) + Bufs(b)
  {
    var l := seq(|fs|, i requires 0 <= i < |fs| => fs[i].buf);
    var m := seq(|b|, i requires 0 <= i < |b| => b[i].buf);
    var all := fs + Firings(b);
    assert seq(|all|, i requires 0 <= i < |all| => all[i].buf) == l + m;
  }

  /** One more firing adds exactly its buffer to those fired. */
  lemma FiredBufsAppend(fs: seq<Firing>, f: Firing)
    ensures FiredBufs(fs + [f]) == FiredBufs(fs) + multiset{f.buf}
  {
    var l := seq(|fs|, i requires 0 <= i < |fs| => fs[i].buf);
    var all := fs + [f];
    assert seq(|all|, i requires 0 <= i < |all| => all[i].buf) == l + [f.buf];
  }

  /** Firing a request and freeing its buffer keeps every release explained. */
  lemma DeliveredFire(fired: seq<Firing>, cancelled: multiset<Buf>, released: multiset<Buf>, f: Firing)
    requires Delivered(fired, cancelled, released)
    ensures Delivered(fired + [f], cancelled, released + multiset{f.buf})
  {
    FiredBufsAppend(fired, f);
  }

  /** Walking a detached list keeps every release explained. */
  lemma DeliveredWalk(fired: seq<Firing>, cancelled: multiset<Buf>, released: multiset<Buf>, b: seq<Req>)
    requires Delivered(fired, cancelled, released)
    ensures Delivered(fired + Firings(b), cancelled, released + Bufs(b))
  {
    FiredBufsWalk(fired, b);
  }

  /** A successful cancel that frees `x` keeps every release explained. */
  lemma DeliveredCancel(fired: seq<Firing>, cancelled: multiset<Buf>, released: multiset<Buf>, x: Buf)
    requires Delivered(fired, cancelled, released)
    ensures Delivered(fired, cancelled + multiset{x}, released + multiset{x})
  {
  }

  /** At-most-once delivery: each time a buffer was handed out, the request
      it backs is still armed, or has fired, or has been cancelled, and only
      one of these. In particular a request whose buffer was handed out once
      fires at most once, and never both fires and is cancelled. */
  lemma AtMostOnce(ws: seq<seq<Req>>, pool: seq<HwTimer>, fired: seq<Firing>, cancelled: multiset<Buf>,
                   released: multiset<Buf>, allocs: multiset<Buf>, x: Buf)
    requires Accounted(ws, pool, released, allocs) && Delivered(fired, cancelled, released)
    ensures HeldBy(ws, pool)[x] + FiredBufs(fired)[x] + cancelled[x] == allocs[x]
    ensures allocs[x] == 1 ==>
      && FiredBufs(fired)[x] + cancelled[x] <= 1
      && (x in HeldBy(ws, pool) <==> x !in FiredBufs(fired) && x !in cancelled)
  {
    assert (HeldBy(ws, pool) + released)[x] == allocs[x];
    assert (FiredBufs(fired) + cancelled)[x] == released[x];
  }

  /** A buffer not held before a detach, other than the detached ones, is
      not held after it. */
  lemma NotHeldAfter(after: multiset<Buf>, detached: multiset<Buf>, before: multiset<Buf>, x: Buf)
    requires after + detached == before && x !in before - detached
    ensures x !in after
  {
  }

  /** Once every buffer handed out has come back, no timer holds any. */
  lemma AccountedSettled(ws: seq<seq<Req>>, pool: seq<HwTimer>, rel: multiset<Buf>, al: multiset<Buf>)
    requires Accounted(ws, pool, rel, al) && rel == al
    ensures HeldBy(ws, pool) == multiset{}
  {
    assert |HeldBy(ws, pool)| + |rel| == |al|;
  }

  /** Arming a fresh buffer on the long path keeps the books. */
  lemma AccountedPush(ws: seq<seq<Req>>, pool: seq<HwTimer>, rel: multiset<Buf>, al: multiset<Buf>, i: nat, x: Req)
    requires i < |ws| && Accounted(ws, pool, rel, al) && x.buf !in HeldBy(ws, pool)
    ensures HeldBy(ws[i := [x] + ws[i]], pool) == HeldBy(ws, pool) + multiset{x.buf}
    ensures Accounted(ws[i := [x] + ws[i]], pool, rel, al + multiset{x.buf})
  {
    WheelPush(ws, i, x);
    NoDupAdd(HeldBy(ws, pool), x.buf);
  }

  /** Arming a fresh buffer on the short path keeps the books. */
  lemma AccountedArm(ws: seq<seq<Req>>, pool: seq<HwTimer>, rel: multiset<Buf>, al: multiset<Buf>, x: HwTimer)
    requires Accounted(ws, pool, rel, al) && x.req.buf !in HeldBy(ws, pool)
    ensures HeldBy(ws, pool + [x]) == HeldBy(ws, pool) + multiset{x.req.buf}
    ensures Accounted(ws, pool + [x], rel, al + multiset{x.req.buf})
  {
    PoolBufsAppend(pool, x);
    NoDupAdd(HeldBy(ws, pool), x.req.buf);
  }

  /** Unlinking one wheel entry and releasing its buffer keeps the books, and
      that buffer is then held nowhere. */
  lemma AccountedUnlink(ws: seq<seq<Req>>, pool: seq<HwTimer>, rel: multiset<Buf>, al: multiset<Buf>, i: nat, k: nat)
    requires i < |ws| && k < |ws[i]| && Accounted(ws, pool, rel, al)
    ensures Accounted(ws[i := RemoveAt(ws[i], k)], pool, rel + multiset{ws[i][k].buf}, al)
    ensures ws[i][k].buf !in HeldBy(ws[i := RemoveAt(ws[i], k)], pool)
  {
    var x := ws[i][k].buf;
    WheelUnlink(ws, i, k);
    var m := HeldBy(ws[i := RemoveAt(ws[i], k)], pool);
    assert m + multiset{x} == HeldBy(ws, pool);
    NoDupShrink(m, multiset{x});
    NoDupRemoved(m, x);
  }

  /** Handing one hardware timer's request back and releasing its buffer
      keeps the books, and that buffer is then held nowhere. */
  lemma AccountedDrop(ws: seq<seq<Req>>, pool: seq<HwTimer>, rel: multiset<Buf>, al: multiset<Buf>, k: nat)
    requires k < |pool| && Accounted(ws, pool, rel, al)
    ensures Accounted(ws, RemoveAt(pool, k), rel + multiset{pool[k].req.buf}, al)
    ensures pool[k].req.buf !in HeldBy(ws, RemoveAt(pool, k))
  {
    var x := pool[k].req.buf;
    PoolRemoveAtBufs(pool, k);
    var m := HeldBy(ws, RemoveAt(pool, k));
    assert m + multiset{x} == HeldBy(ws, pool);
    NoDupShrink(m, multiset{x});
    NoDupRemoved(m, x);
  }

  /** Detaching bucket `i` and releasing all its buffers keeps the books. */
  lemma AccountedDetach(ws: seq<seq<Req>>, pool: seq<HwTimer>, rel: multiset<Buf>, al: multiset<Buf>, i: nat)
    requires i < |ws| && Accounted(ws, pool, rel, al)
    ensures HeldBy(ws[i := []], pool) + Bufs(ws[i]) == HeldBy(ws, pool)
    ensures Accounted(ws[i := []], pool, rel + Bufs(ws[i]), al)
  {
    WheelDetach(ws, i);
    var m := HeldBy(ws[i := []], pool);
    assert m + Bufs(ws[i]) == (WheelBufs(ws[i := []]) + Bufs(ws[i])) + PoolBufs(pool);
    NoDupShrink(m, Bufs(ws[i]));
  }
}
