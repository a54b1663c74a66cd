/** Equality of stream configurations (JuvoPlayer/Common/StreamConfig.cs):
    two configurations are equal when they hold the same CodecExtraData
    array, compared by reference, whatever else they carry. */
module StreamConfig {
  import opened Common

  /** A stream configuration: its stream type, its codec extra data (a
      possibly null array, shared by reference) and the fields of its
      subclass, which equality does not look at. */
  datatype StreamConfig = StreamConfig(streamType: StreamType, codecExtraData: array?<byte>, subclassFields: seq<int>)

  /** The argument of Equals(object): a stream configuration, some other
      object, or null. */
  datatype Object = ConfigObject(config: StreamConfig) | OtherObject(id: nat) | NullObject

  /** The static object.Equals on two byte arrays: true for the same
      reference, false when one is null, and otherwise the arrays' own
      Equals, which byte[] inherits from object and which compares
      references. */
  function ArraysEqual(a: array?<byte>, b: array?<byte>): (r: bool)
    ensures r <==> a == b
  {
    if a == b then true
    else if a == null || b == null then false
    else a == b
  }

  /** Equals(StreamConfig): false for null, otherwise the extra-data arrays
      compared with object.Equals. */
  function EqualsConfig(self: StreamConfig, other: Option<StreamConfig>): (r: bool)
    ensures other.None? ==> !r
    ensures other.Some? ==> (r <==> self.codecExtraData == other.value.codecExtraData)
  {
    other.Some? && ArraysEqual(self.codecExtraData, other.value.codecExtraData)
  }

  /** `obj as StreamConfig`: the configuration, or null for anything else. */
  function AsStreamConfig(obj: Object): Option<StreamConfig> {
    if obj.ConfigObject? then Some(obj.config) else None
  }

  /** Equals(object): false for anything that is not a StreamConfig. */
  function EqualsObject(self: StreamConfig, obj: Object): (r: bool)
    ensures !obj.ConfigObject? ==> !r
    ensures obj.ConfigObject? ==> r == EqualsConfig(self, Some(obj.config))
  {
    EqualsConfig(self, AsStreamConfig(obj))
  }

  /** GetHashCode: the hash of the extra-data array, which for a byte[] is
      its identity hash (a parameter here); a null array throws
      NullReferenceException. */
  function GetHashCode(self: StreamConfig, identityHash: array<byte> -> int): (r: Option<int>)
    ensures r.None? <==> self.codecExtraData == null
    ensures r.Some? ==> r.value == identityHash(self.codecExtraData)
  {
    if self.codecExtraData == null then None else Some(identityHash(self.codecExtraData))
  }

  /** Equality is an equivalence on configurations, and it ignores the
      stream type and the subclass fields. */
  lemma EqualsIsEquivalence(a: StreamConfig, b: StreamConfig, c: StreamConfig)
    ensures EqualsConfig(a, Some(a))
    ensures EqualsConfig(a, Some(b)) == EqualsConfig(b, Some(a))
    ensures EqualsConfig(a, Some(b)) && EqualsConfig(b, Some(c)) ==> EqualsConfig(a, Some(c))
    ensures EqualsConfig(a, Some(b)) == EqualsConfig(a.(streamType := b.streamType, subclassFields := []), Some(b))
  {
  }

  /** Equal configurations with non-null arrays have equal hash codes. */
  lemma EqualConfigsEqualHashes(a: StreamConfig, b: StreamConfig, identityHash: array<byte> -> int)
    requires a.codecExtraData != null
    requires EqualsConfig(a, Some(b))
    ensures GetHashCode(a, identityHash).Some? && GetHashCode(a, identityHash) == GetHashCode(b, identityHash)
  {
  }

  /** Two configurations whose extra data are distinct arrays holding the
      same bytes are not equal. */
  method SameBytesDifferentArrays() returns (first: StreamConfig, second: StreamConfig)
    ensures first.codecExtraData != null && second.codecExtraData != null
    ensures first.codecExtraData[..] == second.codecExtraData[..] == [1, 2]
    ensures !EqualsConfig(first, Some(second))
    ensures EqualsConfig(first, Some(first.(streamType := Video, subclassFields := [7])))
  {
    var a := new byte[2];
    a[0], a[1] := 1, 2;
    var b := new byte[2];
    b[0], b[1] := 1, 2;
    first := StreamConfig(Audio, a, []);
    second := StreamConfig(Audio, b, []);
  }
}
