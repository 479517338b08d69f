/** Values shared by the timer engine model: handles, bytes, requests and the
    events the model records in place of calling a callback. */
module Types {

  /** A C `uint32_t`: timer handles and request ids. */
  newtype u32 = x: int | 0 <= x < 0x1_0000_0000

  /** A C `char` of the argument buffer. */
  newtype byte = x: int | 0 <= x < 0x100

  /** Handle of a block of the buffer pool that backs one timer request. */
  type Buf = nat

  /** A callback function pointer, kept as an opaque token. */
  type Callback = nat

  datatype Option<T> = None | Some(value: T)

  /** `struct ofp_timer_internal`: what one outstanding timer carries.
      `id` is the long handle for a wheel entry and 0 for a short timer;
      `arg` is the prefix of the argument buffer that `ofp_timer_start` copied. */
  datatype Req = Req(id: u32, callback: Callback, arg: seq<byte>, buf: Buf)

  /** One invocation `callback(&arg)` on behalf of the request backed by
      buffer `buf`, as recorded by the model. */
  datatype Firing = Firing(callback: Callback, arg: seq<byte>, buf: Buf)

  /** A timer armed in the hardware timer pool: its native handle and the
      request the pool hands back as user pointer when it expires. */
  datatype HwTimer = HwTimer(timer: u32, req: Req)
}
