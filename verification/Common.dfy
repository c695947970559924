/** Types shared by the modules of the model. */
module Common {

  datatype Option<+T> = None | Some(value: T)

  const INT64_MIN: int := -0x8000_0000_0000_0000
  const INT64_MAX: int := 0x7fff_ffff_ffff_ffff

  /** The C++ `int64_t` that carries every presentation timestamp. */
  type Int64 = x: int | INT64_MIN <= x <= INT64_MAX

  /** One audio packet: the timestamp of its buffer and the one in its USER_FRAME_PTS tag. */
  datatype Packet = Packet(pts: Int64, special: Int64)

  /**
   * The status codes of av_trans_errno.h that the modelled functions return.
   */
  datatype Status =
    | Success
    | InvalidParam
    | SharedMemoryFailed
    | MasterNotReady
    | SessionHasOpened
    | SessionError
}
