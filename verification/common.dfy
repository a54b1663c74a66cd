/** Types shared by the player's components: optional and failure-carrying
    values, bytes, the elementary stream type and the demuxed packet. */
module Common {

  datatype Option<+T> = None | Some(value: T) {
    function GetOr(default: T): T {
      match this
      case Some(v) => v
      case None => default
    }
  }

  datatype Result<+R, +E> = Success(value: R) | Failure(error: E)

  /** A byte, and a 32-bit unsigned value (the bit pattern of a C# `int`). */
  type byte = x: int | 0 <= x < 256
  type uint32 = x: int | 0 <= x < 0x1_0000_0000

  /** JuvoPlayer.Common.StreamType. */
  datatype StreamType = Audio | Video | Subtitle

  /** One (clear bytes, protected bytes) pair of a CENC subsample layout. */
  datatype Subsample = Subsample(clearData: int, encData: int)

  /** The side data of an EncryptedPacket: key id, IV and the subsample
      layout; `subsamples` is None where the source leaves the array null. */
  datatype Encryption = Encryption(keyId: seq<byte>, iv: seq<byte>, subsamples: Option<seq<Subsample>>)

  /** A demuxed packet; times are milliseconds. `encryption` is Some exactly
      for an EncryptedPacket. */
  datatype Packet = Packet(
    streamType: StreamType,
    pts: int,
    dts: int,
    duration: int,
    isKeyFrame: bool,
    data: seq<byte>,
    encryption: Option<Encryption>)
  {
    predicate IsEncrypted() { encryption.Some? }
  }

  /** Two's-complement reinterpretation of a 32-bit unsigned value, as a C#
      cast `(int) u` does. */
  function ToInt32(u: nat): (r: int)
    requires u < 0x1_0000_0000
    ensures -0x8000_0000 <= r < 0x8000_0000
    ensures r <= 0 <==> u == 0 || u >= 0x8000_0000
  {
    if u < 0x8000_0000 then u else u - 0x1_0000_0000
  }

  function Abs(x: int): nat {
    if x < 0 then -x else x
  }

  /** C#'s integer division `a / b`: the quotient rounded toward zero, so
      the remainder takes the sign of the dividend and is smaller than the
      divisor in magnitude. */
  function TruncDiv(a: int, b: int): (q: int)
    requires b != 0
    ensures a >= 0 && b > 0 ==> q == a / b
    ensures a >= 0 ==> 0 <= a - q * b < Abs(b)
    ensures a < 0 ==> 0 <= q * b - a < Abs(b)
  {
    if a >= 0 then (if b > 0 then a / b else -(a / -b))
    else (if b > 0 then -((-a) / b) else (-a) / (-b))
  }
}
