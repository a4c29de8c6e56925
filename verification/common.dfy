/**
 Scalar types and constants shared by the model of the SDL audio port manager.
 */
module Common {

  /** A value that may be absent: the stream id the host returned, or None
      for a null stream; the first free slot, or None when every slot is open. */
  datatype Option<+T> = None | Some(value: T)

  /** The C++ `u32` of `samples_num` and `freq`. */
  type U32 = x: int | 0 <= x < 0x1_0000_0000

  /** The C++ `s32` of the volume bit mask. */
  type S32 = x: int | -0x8000_0000 <= x < 0x8000_0000

  /** The implicit conversion of a `u32` into an `int` field: the same 32
      bits read as two's complement, so rates of 2^31 and above turn negative. */
  function AsSigned32(x: U32): (r: S32)
    ensures (r - x) % 0x1_0000_0000 == 0
    ensures r >= 0 <==> x < 0x8000_0000
  {
    if x < 0x8000_0000 then x else x - 0x1_0000_0000
  }

  /** Every port has room for the volumes of eight channels, the widest layout. */
  const MaxChannels: nat := 8

  /** SCE_AUDIO_OUT_VOLUME_0DB, the unity gain a freshly opened channel gets.
      The AudioOut library header that defines it is not part of this model. */
  const Volume0dB: int := 32768

  /** The fixed per-port volume array, one entry per possible channel. */
  type Volumes = v: seq<int> | |v| == MaxChannels witness [0, 0, 0, 0, 0, 0, 0, 0]
}
