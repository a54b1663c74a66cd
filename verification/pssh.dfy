/** The Protection System Specific Header box that AvFormatContextWrapper
    (JuvoPlayer/Demuxers/FFmpeg/AVFormatContextWrapper.cs) rebuilds from
    FFmpeg's encryption init info: the box of section 8.1 of ISO/IEC 23001-7,
    with the box header (32-bit big-endian size, then the type) of section 4.2
    of ISO/IEC 14496-12. A C# `int` is modelled by its 32-bit pattern. */
module Pssh {
  import opened Common

  /** The four bytes of a 32-bit value, least significant first: what
      `(value >> 8 k) & 0xff` extracts for k = 0, 1, 2, 3. */
  function ByteOf(value: uint32, k: nat): (r: byte)
    requires k < 4
  {
    if k == 0 then value % 0x100
    else if k == 1 then (value / 0x100) % 0x100
    else if k == 2 then (value / 0x1_0000) % 0x100
    else value / 0x100_0000
  }

  /** The value whose bytes, most significant first, are a, b, c, d. */
  function FromBytes(a: byte, b: byte, c: byte, d: byte): uint32 {
    a * 0x100_0000 + b * 0x1_0000 + c * 0x100 + d
  }

  /** The bytes of FromBytes(a, b, c, d) are d, c, b, a. */
  lemma FromBytesBytes(a: byte, b: byte, c: byte, d: byte)
    ensures ByteOf(FromBytes(a, b, c, d), 0) == d
    ensures ByteOf(FromBytes(a, b, c, d), 1) == c
    ensures ByteOf(FromBytes(a, b, c, d), 2) == b
    ensures ByteOf(FromBytes(a, b, c, d), 3) == a
  {
    var v := FromBytes(a, b, c, d);
    assert v == (a * 0x100 + b) * 0x1_0000 + (c * 0x100 + d);
    assert v / 0x1_0000 == a * 0x100 + b;
    assert v == ((a * 0x1_0000 + b * 0x100 + c) * 0x100) + d;
    assert v % 0x100 == d && v / 0x100 == a * 0x1_0000 + b * 0x100 + c;
  }

  /** A value is rebuilt from its four bytes. */
  lemma BytesFromBytes(v: uint32)
    ensures FromBytes(ByteOf(v, 3), ByteOf(v, 2), ByteOf(v, 1), ByteOf(v, 0)) == v
  {
    var q1 := v / 0x100;
    var q2 := q1 / 0x100;
    assert v == q1 * 0x100 + v % 0x100;
    assert q1 == q2 * 0x100 + q1 % 0x100;
    assert q2 == v / 0x1_0000;
    assert q2 == (q2 / 0x100) * 0x100 + q2 % 0x100;
    assert q2 / 0x100 == v / 0x100_0000;
  }

  /** A C# `int` as its 32-bit pattern, held as its four bytes, least
      significant first. */
  datatype Word = Word(b0: byte, b1: byte, b2: byte, b3: byte)

  /** The word whose bit pattern is `v`. */
  function WordOf(v: uint32): Word {
    Word(ByteOf(v, 0), ByteOf(v, 1), ByteOf(v, 2), ByteOf(v, 3))
  }

  /** The bit pattern of a word. */
  function Value(w: Word): uint32 {
    FromBytes(w.b3, w.b2, w.b1, w.b0)
  }

  lemma ValueWordOf(v: uint32)
    ensures Value(WordOf(v)) == v
  {
    BytesFromBytes(v);
  }

  lemma WordOfValue(w: Word)
    ensures WordOf(Value(w)) == w
  {
    FromBytesBytes(w.b3, w.b2, w.b1, w.b0);
  }

  /** The word of a C# `int` computed with unchecked (wrapping) arithmetic
      whose mathematical value is `n`. */
  function Int32(n: int): Word {
    WordOf(n % 0x1_0000_0000)
  }

  /** SwapEndianess: takes out the four bytes with shifts and masks and puts
      them back with the lowest byte at the top (`b1 << 24 | ... | b4`). */
  function SwapEndianness(value: Word): Word {
    var b1 := value.b0;
    var b2 := value.b1;
    var b3 := value.b2;
    var b4 := value.b3;
    Word(b4, b3, b2, b1)
  }

  /** As a number, the swapped word is the source's shift-or expression, and
      swapping twice gives the value back. */
  lemma SwapValue(value: Word)
    ensures Value(SwapEndianness(value)) == FromBytes(value.b0, value.b1, value.b2, value.b3)
    ensures SwapEndianness(SwapEndianness(value)) == value
  {
  }

  /** BinaryWriter.Write(int): the four bytes of the value, least significant
      first. */
  function WriteInt32(w: Word): (r: seq<byte>)
    ensures |r| == 4
  {
    [w.b0, w.b1, w.b2, w.b3]
  }

  /** The four bytes of a value, most significant first. */
  function BigEndian(v: uint32): (r: seq<byte>)
    ensures |r| == 4
  {
    [ByteOf(v, 3), ByteOf(v, 2), ByteOf(v, 1), ByteOf(v, 0)]
  }

  /** Reads a 32-bit big-endian value from the first four bytes. */
  function ReadBigEndian(b: seq<byte>): uint32
    requires |b| >= 4
  {
    FromBytes(b[0], b[1], b[2], b[3])
  }

  /** Writing a swapped value with the little-endian writer lays it out
      big-endian, and reading it back gives the value. */
  lemma WriteSwappedIsBigEndian(v: uint32)
    ensures WriteInt32(SwapEndianness(WordOf(v))) == BigEndian(v)
    ensures ReadBigEndian(BigEndian(v)) == v
  {
    BytesFromBytes(v);
  }

  /** A value that fits in 32 bits is its own pattern. */
  lemma Int32Small(n: int)
    requires 0 <= n < 0x1_0000_0000
    ensures Int32(n) == WordOf(n)
  {
  }

  /** FFmpeg's AVEncryptionInitInfo: `keyIds` and `data` are None where the
      native array is null; `numKeyIds` and `dataSize` are the native
      counts, kept apart from the arrays as in the struct. */
  datatype EncryptionInitInfo = EncryptionInitInfo(
    systemId: seq<byte>,
    keyIds: Option<seq<seq<byte>>>,
    numKeyIds: nat,
    data: Option<seq<byte>>,
    dataSize: nat)

  /** What FFmpeg guarantees of an init info: a 16-byte system id, 16-byte
      key ids, arrays as long as their counts, and 32-bit counts. */
  predicate WellFormed(e: EncryptionInitInfo) {
    && |e.systemId| == 16
    && e.numKeyIds < 0x1_0000_0000
    && e.dataSize < 0x1_0000_0000
    && (e.keyIds.Some? ==> |e.keyIds.value| == e.numKeyIds)
    && (e.keyIds.Some? ==> forall i :: 0 <= i < |e.keyIds.value| ==> |e.keyIds.value[i]| == 16)
    && (e.data.Some? ==> |e.data.value| == e.dataSize)
  }

  predicate HasKeyIds(e: EncryptionInitInfo) {
    e.keyIds.Some? && e.numKeyIds != 0
  }

  predicate HasData(e: EncryptionInitInfo) {
    e.data.Some? && e.dataSize != 0
  }

  /** The length the builder declares, before the cast to 32 bits: header,
      system id, data size field, data size, version word, and the key-id
      count and key ids when there are key ids. Note that `dataSize` counts
      even when the native data is null. */
  function DeclaredLength(e: EncryptionInitInfo): nat {
    8 + 16 + 4 + e.dataSize + 4 + (if HasKeyIds(e) then 4 + e.numKeyIds * 16 else 0)
  }

  /** The box type "pssh" as written by BinaryWriter.Write(char) (UTF-8). */
  const PsshType: seq<byte> := [0x70, 0x73, 0x73, 0x68]

  /** The key ids one after another. */
  function KeyIdBytes(kids: seq<seq<byte>>): seq<byte>
    decreases |kids|
  {
    if |kids| == 0 then [] else KeyIdBytes(kids[..|kids| - 1]) + kids[|kids| - 1]
  }

  /** The fields of the box, in writing order. */
  function LengthField(e: EncryptionInitInfo): seq<byte> {
    WriteInt32(SwapEndianness(Int32(DeclaredLength(e))))
  }

  function VersionField(e: EncryptionInitInfo): seq<byte> {
    WriteInt32(if HasKeyIds(e) then SwapEndianness(Int32(0x01000000)) else Int32(0))
  }

  function KeyIdField(e: EncryptionInitInfo): seq<byte>
    requires WellFormed(e)
  {
    if HasKeyIds(e) then WriteInt32(SwapEndianness(Int32(e.numKeyIds))) + KeyIdBytes(e.keyIds.value) else []
  }

  function DataField(e: EncryptionInitInfo): (r: seq<byte>)
    requires WellFormed(e)
    ensures |r| == 4 + (if HasData(e) then e.dataSize else 0)
  {
    if HasData(e) then WriteInt32(SwapEndianness(Int32(e.dataSize))) + e.data.value else WriteInt32(Int32(0))
  }

  /** The box, field by field, as the builder writes it. */
  function PsshBox(e: EncryptionInitInfo): seq<byte>
    requires WellFormed(e)
  {
    LengthField(e) + PsshType + VersionField(e) + e.systemId + KeyIdField(e) + DataField(e)
  }

  /** Writes `bytes` one writer call at a time. */
  method WriteBytes(stream: seq<byte>, bytes: seq<byte>) returns (out: seq<byte>)
    ensures out == stream + bytes
  {
    out := stream;
    for i := 0 to |bytes|
      invariant out == stream + bytes[..i]
    {
      out := out + [bytes[i]];
    }
    assert bytes[..|bytes|] == bytes;
  }

  /** The nested loop over the key ids and their sixteen bytes. */
  method WriteKeyIds(stream: seq<byte>, kids: seq<seq<byte>>) returns (out: seq<byte>)
    requires forall i :: 0 <= i < |kids| ==> |kids[i]| == 16
    ensures out == stream + KeyIdBytes(kids)
  {
    out := stream;
    for i := 0 to |kids|
      invariant out == stream + KeyIdBytes(kids[..i])
    {
      ghost var before := out;
      for j := 0 to 16
        invariant out == before + kids[i][..j]
      {
        out := out + [kids[i][j]];
      }
      assert kids[i][..16] == kids[i];
      assert kids[..i + 1][..i] == kids[..i];
    }
    assert kids[..|kids|] == kids;
  }

  /** BuildPsshAtom: writes the box into a growing stream, one writer call
      at a time. */
  method BuildPsshAtom(e: EncryptionInitInfo) returns (box: seq<byte>)
    requires WellFormed(e)
    ensures box == PsshBox(e)
  {
    var psshBoxLength := 8 + 16 + 4 + e.dataSize + 4;
    var hasKeyIds := e.keyIds.Some? && e.numKeyIds != 0;
    if hasKeyIds {
      psshBoxLength := psshBoxLength + 4 + e.numKeyIds * 16;
    }
    assert psshBoxLength == DeclaredLength(e);
    var stream: seq<byte> := WriteInt32(SwapEndianness(Int32(psshBoxLength)));
    ghost var s1 := stream;
    stream := WriteBytes(stream, PsshType);
    ghost var s2 := stream;
    stream := stream + WriteInt32(if hasKeyIds then SwapEndianness(Int32(0x01000000)) else Int32(0));
    ghost var s3 := stream;
    stream := WriteBytes(stream, e.systemId);
    ghost var s4 := stream;
    if hasKeyIds {
      stream := stream + WriteInt32(SwapEndianness(Int32(e.numKeyIds)));
      stream := WriteKeyIds(stream, e.keyIds.value);
    }
    ghost var s5 := stream;
    if e.data.Some? && e.dataSize != 0 {
      stream := stream + WriteInt32(SwapEndianness(Int32(e.dataSize)));
      stream := WriteBytes(stream, e.data.value);
    } else {
      stream := stream + WriteInt32(Int32(0));
    }
    Assemble(e, s1, s2, s3, s4, s5, stream);
    box := stream;
  }

  lemma Assemble(e: EncryptionInitInfo, s1: seq<byte>, s2: seq<byte>, s3: seq<byte>,
                 s4: seq<byte>, s5: seq<byte>, s6: seq<byte>)
    requires WellFormed(e)
    requires s1 == LengthField(e) && s2 == s1 + PsshType && s3 == s2 + VersionField(e)
    requires s4 == s3 + e.systemId && s5 == s4 + KeyIdField(e) && s6 == s5 + DataField(e)
    ensures s6 == PsshBox(e)
  {
  }

  // ---- layout of the box ----

  lemma {:induction false} KeyIdBytesLength(kids: seq<seq<byte>>)
    requires forall i :: 0 <= i < |kids| ==> |kids[i]| == 16
    ensures |KeyIdBytes(kids)| == 16 * |kids|
    decreases |kids|
  {
    if |kids| > 0 {
      KeyIdBytesLength(kids[..|kids| - 1]);
    }
  }

  /** Key id number i occupies bytes 16 i to 16 (i + 1) of the key-id area. */
  lemma {:induction false} KeyIdBytesAt(kids: seq<seq<byte>>, i: nat)
    requires forall k :: 0 <= k < |kids| ==> |kids[k]| == 16
    requires i < |kids|
    ensures |KeyIdBytes(kids)| == 16 * |kids|
    ensures KeyIdBytes(kids)[16 * i..16 * (i + 1)] == kids[i]
    decreases |kids|
  {
    KeyIdBytesLength(kids);
    var init := kids[..|kids| - 1];
    KeyIdBytesLength(init);
    if i < |kids| - 1 {
      KeyIdBytesAt(init, i);
      assert KeyIdBytes(kids)[16 * i..16 * (i + 1)] == KeyIdBytes(init)[16 * i..16 * (i + 1)];
    }
  }

  /** The fixed part of the box: bytes 0..3 are the declared length (as a
      32-bit pattern) big-endian, 4..7 the ASCII type `pssh`, 8..11 the
      version/flags word, `01 00 00 00` exactly when there are key ids and
      zero otherwise, and 12..27 the system id. */
  lemma PsshHeader(e: EncryptionInitInfo)
    requires WellFormed(e)
    ensures |PsshBox(e)| >= 32
    ensures PsshBox(e)[0..4] == BigEndian(DeclaredLength(e) % 0x1_0000_0000)
    ensures PsshBox(e)[4..8] == PsshType
    ensures PsshBox(e)[8..12] == (if HasKeyIds(e) then [1, 0, 0, 0] else [0, 0, 0, 0])
    ensures PsshBox(e)[12..28] == e.systemId
  {
    HeadSlices(LengthField(e), VersionField(e), e.systemId, KeyIdField(e), DataField(e));
    WriteSwappedIsBigEndian(DeclaredLength(e) % 0x1_0000_0000);
    VersionWords();
  }

  /** Where the fixed-size fields sit in any concatenation laid out as the box. */
  lemma HeadSlices(len: seq<byte>, version: seq<byte>, sid: seq<byte>, kid: seq<byte>, data: seq<byte>)
    requires |len| == 4 && |version| == 4 && |sid| == 16 && |data| >= 4
    ensures var b := len + PsshType + version + sid + kid + data;
            && |b| >= 32
            && b[0..4] == len && b[4..8] == PsshType && b[8..12] == version && b[12..28] == sid
  {
    var b := len + PsshType + version + sid + kid + data;
    assert b[0..4] == len;
    assert b[4..8] == PsshType;
    assert b[8..12] == version;
    assert b[12..28] == sid;
  }

  /** The two version/flags words. */
  lemma VersionWords()
    ensures WriteInt32(SwapEndianness(Int32(0x01000000))) == [1, 0, 0, 0]
    ensures WriteInt32(Int32(0)) == [0, 0, 0, 0]
  {
    assert Int32(0x01000000) == Word(0, 0, 0, 1);
  }

  /** A slice inside the middle part of a concatenation. */
  lemma SliceOfMiddle(a: seq<byte>, b: seq<byte>, c: seq<byte>, lo: nat, hi: nat)
    requires lo <= hi <= |b|
    ensures (a + b + c)[|a| + lo..|a| + hi] == b[lo..hi]
  {
    forall k | 0 <= k < hi - lo
      ensures (a + b + c)[|a| + lo..|a| + hi][k] == b[lo..hi][k]
    {
    }
  }

  /** Everything after the 28-byte fixed part is the key-id field followed by
      the data field. */
  lemma PsshTail(e: EncryptionInitInfo)
    requires WellFormed(e)
    ensures |PsshBox(e)| == 28 + |KeyIdField(e)| + |DataField(e)|
    ensures PsshBox(e)[28..] == KeyIdField(e) + DataField(e)
  {
    var head := LengthField(e) + PsshType + VersionField(e) + e.systemId;
    assert |head| == 28;
    assert PsshBox(e) == head + (KeyIdField(e) + DataField(e));
  }

  /** With key ids, the key-id field is the big-endian count followed by the
      16-byte key ids; without, it is empty. */
  lemma KeyIdFieldLayout(e: EncryptionInitInfo)
    requires WellFormed(e)
    ensures HasKeyIds(e) ==> |KeyIdField(e)| == 4 + 16 * e.numKeyIds
    ensures HasKeyIds(e) ==> KeyIdField(e)[..4] == BigEndian(e.numKeyIds)
    ensures HasKeyIds(e) ==> forall i :: 0 <= i < e.numKeyIds ==>
              KeyIdField(e)[4 + 16 * i..4 + 16 * (i + 1)] == e.keyIds.value[i]
    ensures !HasKeyIds(e) ==> KeyIdField(e) == []
  {
    if HasKeyIds(e) {
      var kids := e.keyIds.value;
      Int32Small(e.numKeyIds);
      WriteSwappedIsBigEndian(e.numKeyIds);
      var count := WriteInt32(SwapEndianness(Int32(e.numKeyIds)));
      assert KeyIdField(e) == count + KeyIdBytes(kids) + [];
      KeyIdBytesLength(kids);
      forall i | 0 <= i < e.numKeyIds
        ensures KeyIdField(e)[4 + 16 * i..4 + 16 * (i + 1)] == kids[i]
      {
        KeyIdBytesAt(kids, i);
        SliceOfMiddle(count, KeyIdBytes(kids), [], 16 * i, 16 * (i + 1));
      }
    }
  }

  /** The data field: the big-endian data size and the data, or four zero
      bytes when there is no data. */
  lemma DataFieldLayout(e: EncryptionInitInfo)
    requires WellFormed(e)
    ensures DataField(e) == if HasData(e) then BigEndian(e.dataSize) + e.data.value else [0, 0, 0, 0]
  {
    Int32Small(e.dataSize);
    WriteSwappedIsBigEndian(e.dataSize);
    VersionWords();
  }

  /** After the system id: with key ids, a big-endian key-id count and the
      16-byte key ids; then a big-endian data size and the data, or four zero
      bytes when there is no data. */
  lemma PsshBody(e: EncryptionInitInfo)
    requires WellFormed(e)
    ensures var box := PsshBox(e);
            var tail := if HasData(e) then BigEndian(e.dataSize) + e.data.value else [0, 0, 0, 0];
            if HasKeyIds(e) then
              && |box| == 32 + 16 * e.numKeyIds + |tail|
              && box[28..32] == BigEndian(e.numKeyIds)
              && (forall i :: 0 <= i < e.numKeyIds ==> box[32 + 16 * i..32 + 16 * (i + 1)] == e.keyIds.value[i])
              && box[32 + 16 * e.numKeyIds..] == tail
            else
              |box| == 28 + |tail| && box[28..] == tail
  {
    PsshTail(e);
    KeyIdFieldLayout(e);
    DataFieldLayout(e);
    TailSlices(PsshBox(e), KeyIdField(e), DataField(e), if HasKeyIds(e) then e.numKeyIds else 0);
  }

  lemma SliceOfSlice(b: seq<byte>, off: nat, lo: nat, hi: nat)
    requires off <= |b| && lo <= hi <= |b| - off
    ensures b[off..][lo..hi] == b[off + lo..off + hi]
  {
  }

  /** Slicing the part of a box after its fixed 28 bytes. */
  lemma TailSlices(box: seq<byte>, k: seq<byte>, d: seq<byte>, n: nat)
    requires |box| == 28 + |k| + |d| && box[28..] == k + d
    requires |k| == 0 || |k| == 4 + 16 * n
    ensures |k| > 0 ==> box[28..32] == k[..4]
    ensures |k| > 0 ==> forall i :: 0 <= i < n ==> box[32 + 16 * i..32 + 16 * (i + 1)] == k[4 + 16 * i..4 + 16 * (i + 1)]
    ensures box[28 + |k|..] == d
  {
    if |k| > 0 {
      assert box[28..32] == box[28..][..4];
      forall i | 0 <= i < n
        ensures box[32 + 16 * i..32 + 16 * (i + 1)] == k[4 + 16 * i..4 + 16 * (i + 1)]
      {
        SliceOfSlice(box, 28, 4 + 16 * i, 4 + 16 * (i + 1));
      }
    }
    assert box[28 + |k|..] == box[28..][|k|..];
  }

  /** The number of bytes written. */
  lemma PsshLength(e: EncryptionInitInfo)
    requires WellFormed(e)
    ensures |PsshBox(e)| == 32 + (if HasKeyIds(e) then 4 + 16 * e.numKeyIds else 0)
                               + (if HasData(e) then e.dataSize else 0)
  {
    PsshTail(e);
    KeyIdFieldLayout(e);
    DataFieldLayout(e);
  }

  /** The declared length equals the number of bytes written exactly when the
      native data is non-null or the data size is 0; and then, for a box
      shorter than 2^32 bytes, the big-endian length field reads back as the
      box's length. */
  lemma {:induction false} DeclaredLengthMatches(e: EncryptionInitInfo)
    requires WellFormed(e)
    ensures DeclaredLength(e) == |PsshBox(e)| <==> e.data.Some? || e.dataSize == 0
    ensures (e.data.Some? || e.dataSize == 0) && |PsshBox(e)| < 0x1_0000_0000 ==>
              ReadBigEndian(PsshBox(e)[0..4]) == |PsshBox(e)|
  {
    PsshLength(e);
    PsshHeader(e);
    var n := DeclaredLength(e);
    if (e.data.Some? || e.dataSize == 0) && |PsshBox(e)| < 0x1_0000_0000 {
      ModSmall(n);
      var field := PsshBox(e)[0..4];
      assert field == BigEndian(n);
      WriteSwappedIsBigEndian(n);
      assert ReadBigEndian(field) == n;
    }
  }

  lemma ModSmall(n: int)
    requires 0 <= n < 0x1_0000_0000
    ensures n % 0x1_0000_0000 == n
  {
  }
}
