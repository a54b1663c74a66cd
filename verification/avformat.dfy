/** AvFormatContextWrapper (JuvoPlayer/Demuxers/FFmpeg/AVFormatContextWrapper.cs):
    the player's view of an FFmpeg format context. The native context is a
    sequence of stream records; what av_read_frame, av_seek_frame,
    av_rescale_q and CodecExtraDataParser.Parse produce comes in as
    parameters. */
module AvFormat {
  import opened Common
  import opened Text
  import opened Pssh

  /** AVMediaType, as far as the wrapper tells types apart. */
  datatype MediaType = MediaAudio | MediaVideo | MediaOther

  /** AVDiscard: the wrapper only writes DEFAULT and ALL; a stream may hold
      another level before EnableStreams runs. */
  datatype Discard = DiscardDefault | DiscardAll | DiscardOther

  datatype Rational = Rational(num: int, den: int)

  /** The time base of milliseconds, `_millsBase`. */
  const MillisBase: Rational := Rational(1, 1000)

  /** AVERROR_EOF, the read code that means end of stream. */
  const AverrorEof: int := -541478725

  /** What the wrapper reads of one AVStream. `indexEntries` holds the
      timestamps of `index_entries` (None where the native array is null);
      `initInfos` is the parsed encryption-init-info side data (None where
      the stream has none). */
  datatype AvStream = AvStream(
    codecType: MediaType,
    variantBitrate: Option<string>,
    discard: Discard,
    timeBase: Rational,
    firstDts: int,
    indexEntries: Option<seq<int>>,
    duration: int,
    codecId: int,
    extraData: seq<byte>,
    initInfos: Option<seq<EncryptionInitInfo>>)

  /** The exceptions the wrapper throws. */
  datatype Error =
    | FormatContextNull
    | WrongStreamIndex(nbStreams: int, idx: int)
    | SeekFailed(ret: int)
    | CannotGetNextPacket(ret: int)
    | ObjectDisposed
    | NullReference

  /** AV_PKT_DATA_ENCRYPTION_INFO side data of a packet. */
  datatype EncryptionSideData = EncryptionSideData(
    keyId: seq<byte>,
    iv: seq<byte>,
    subsampleCount: nat,
    subsamples: seq<Subsample>)

  predicate SideDataOk(info: EncryptionSideData) {
    info.subsampleCount < 0x1_0000_0000 && |info.subsamples| == info.subsampleCount
  }

  /** An AVPacket as av_read_frame fills it; times are in the stream's time
      base. */
  datatype AvPacket = AvPacket(
    streamIndex: int,
    pts: int,
    dts: int,
    duration: int,
    flags: int,
    data: seq<byte>,
    encryption: Option<EncryptionSideData>)

  /** What av_seek_frame is asked to do. */
  datatype SeekRequest = SeekRequest(streamIndex: int, target: int)

  datatype DrmInitDataType = Cenc
  datatype DrmInitData = DrmInitData(dataType: DrmInitDataType, data: seq<byte>)

  // ---- bandwidth selection ----

  /** ulong.TryParse on the digits-only form: a decimal numeral below 2^64. */
  function ParseULong(s: string): (r: Option<nat>)
    ensures r.Some? ==> r.value < 0x1_0000_0000_0000_0000 && ParseDecimal(s) == Some(r.value)
    ensures ParseDecimal(s).Some? && ParseDecimal(s).value < 0x1_0000_0000_0000_0000 ==> r.Some?
  {
    match ParseDecimal(s)
    case Some(v) => if v < 0x1_0000_0000_0000_0000 then Some(v) else None
    case None => None
  }

  /** The bandwidth stream i offers for `t`: None for a stream of another
      type, one without `variant_bitrate`, or one whose value does not
      parse. */
  function OfferedBandwidth(ss: seq<AvStream>, t: MediaType, i: int): Option<nat>
    requires 0 <= i < |ss|
  {
    if ss[i].codecType != t || ss[i].variantBitrate.None? then None
    else ParseULong(ss[i].variantBitrate.value)
  }

  /** Some stream of type `t` carries no `variant_bitrate` tag. */
  predicate MissingTag(ss: seq<AvStream>, t: MediaType) {
    exists i :: 0 <= i < |ss| && ss[i].codecType == t && ss[i].variantBitrate.None?
  }

  /** `i` is the first stream with the strictly greatest positive bandwidth
      of type `t`. */
  predicate IsBestBandwidth(ss: seq<AvStream>, t: MediaType, i: int) {
    && 0 <= i < |ss|
    && OfferedBandwidth(ss, t, i).Some?
    && OfferedBandwidth(ss, t, i).value > 0
    && (forall j :: 0 <= j < |ss| && OfferedBandwidth(ss, t, j).Some? ==>
          OfferedBandwidth(ss, t, j).value <= OfferedBandwidth(ss, t, i).value)
    && (forall j :: 0 <= j < i && OfferedBandwidth(ss, t, j).Some? ==>
          OfferedBandwidth(ss, t, j).value < OfferedBandwidth(ss, t, i).value)
  }

  /** No stream of type `t` offers a positive bandwidth. */
  predicate NoPositiveBandwidth(ss: seq<AvStream>, t: MediaType) {
    forall j :: 0 <= j < |ss| && OfferedBandwidth(ss, t, j).Some? ==> OfferedBandwidth(ss, t, j).value == 0
  }

  /** At most one stream is the best. */
  lemma BestBandwidthUnique(ss: seq<AvStream>, t: MediaType, i: int, j: int)
    requires IsBestBandwidth(ss, t, i) && IsBestBandwidth(ss, t, j)
    ensures i == j
  {
  }

  // ---- seek ----

  /** Stream i is enabled (discard DEFAULT) and of type t. */
  predicate EnabledAs(ss: seq<AvStream>, i: int, t: MediaType) {
    0 <= i < |ss| && ss[i].discard == DiscardDefault && ss[i].codecType == t
  }

  /** The stream Seek works on: the first enabled video stream, or, when
      there is none, the last enabled audio stream. */
  predicate IsSeekStream(ss: seq<AvStream>, i: int) {
    || (EnabledAs(ss, i, MediaVideo) && forall j :: 0 <= j < i ==> !EnabledAs(ss, j, MediaVideo))
    || (&& EnabledAs(ss, i, MediaAudio)
        && (forall j :: 0 <= j < |ss| ==> !EnabledAs(ss, j, MediaVideo))
        && (forall j :: i < j < |ss| ==> !EnabledAs(ss, j, MediaAudio)))
  }

  /** No enabled audio or video stream to seek on. */
  predicate NothingToSeek(ss: seq<AvStream>) {
    forall j :: 0 <= j < |ss| ==> !EnabledAs(ss, j, MediaVideo) && !EnabledAs(ss, j, MediaAudio)
  }

  /** The choice is unique, and exists exactly when there is something to
      seek on. */
  lemma SeekStreamUnique(ss: seq<AvStream>, i: int, j: int)
    requires IsSeekStream(ss, i) && IsSeekStream(ss, j)
    ensures i == j
  {
  }

  lemma {:induction false} SeekStreamExists(ss: seq<AvStream>)
    requires !NothingToSeek(ss)
    ensures exists i :: IsSeekStream(ss, i)
  {
    if exists v :: EnabledAs(ss, v, MediaVideo) {
      var v := FirstEnabled(ss, MediaVideo);
      assert IsSeekStream(ss, v);
    } else {
      var a := LastEnabled(ss, MediaAudio);
      assert IsSeekStream(ss, a);
    }
  }

  /** The least enabled stream of type t, when one exists. */
  lemma FirstEnabled(ss: seq<AvStream>, t: MediaType) returns (v: int)
    requires exists v :: EnabledAs(ss, v, t)
    ensures EnabledAs(ss, v, t) && forall j :: 0 <= j < v ==> !EnabledAs(ss, j, t)
  {
    var w :| EnabledAs(ss, w, t);
    v := w;
    while exists j :: 0 <= j < v && EnabledAs(ss, j, t)
      invariant EnabledAs(ss, v, t)
      decreases v
    {
      var j :| 0 <= j < v && EnabledAs(ss, j, t);
      v := j;
    }
  }

  /** The greatest enabled stream of type t, when one exists. */
  lemma LastEnabled(ss: seq<AvStream>, t: MediaType) returns (a: int)
    requires exists a :: EnabledAs(ss, a, t)
    ensures EnabledAs(ss, a, t) && forall j :: a < j < |ss| ==> !EnabledAs(ss, j, t)
  {
    var w :| EnabledAs(ss, w, t);
    a := w;
    while exists j :: a < j < |ss| && EnabledAs(ss, j, t)
      invariant EnabledAs(ss, a, t)
      decreases |ss| - a
    {
      var j :| a < j < |ss| && EnabledAs(ss, j, t);
      a := j;
    }
  }

  predicate HasIndexEntries(s: AvStream) {
    s.indexEntries.Some? && |s.indexEntries.value| > 0
  }

  function LastTimestamp(s: AvStream): int
    requires HasIndexEntries(s)
  {
    s.indexEntries.value[|s.indexEntries.value| - 1]
  }

  /** CalculateTarget: a target below `first_dts` is raised to it; otherwise
      a target past the last index entry is lowered to that entry, and a
      target past a positive duration to the duration. The result is never
      above the target unless it is `first_dts`. */
  function CalculateTarget(s: AvStream, target: int): (r: int)
    ensures target < s.firstDts ==> r == s.firstDts
    ensures target >= s.firstDts ==> r <= target
    ensures s.firstDts <= target && HasIndexEntries(s) && target > LastTimestamp(s) ==> r == LastTimestamp(s)
    ensures (&& s.firstDts <= target
             && !(HasIndexEntries(s) && target > LastTimestamp(s))
             && s.duration > 0 && target > s.duration) ==> r == s.duration
    ensures (&& s.firstDts <= target
             && !(HasIndexEntries(s) && target > LastTimestamp(s))
             && !(s.duration > 0 && target > s.duration)) ==> r == target
    ensures r == target || r == s.firstDts || r == s.duration || (HasIndexEntries(s) && r == LastTimestamp(s))
  {
    if target < s.firstDts then s.firstDts
    else if HasIndexEntries(s) && target > LastTimestamp(s) then LastTimestamp(s)
    else if s.duration > 0 && target > s.duration then s.duration
    else target
  }

  /** For a stream whose first dts, last index entry and positive duration
      come in that order, the clamped target lies in the stream's range, a
      target already in range is unchanged, a target past the range is
      lowered to the last index entry (or, without index entries, to the
      duration), and clamping twice is clamping once. */
  lemma CalculateTargetInRange(s: AvStream, target: int)
    requires HasIndexEntries(s) ==> s.firstDts <= LastTimestamp(s)
    requires s.duration > 0 ==> s.firstDts <= s.duration
    requires HasIndexEntries(s) && s.duration > 0 ==> LastTimestamp(s) <= s.duration
    ensures s.firstDts <= CalculateTarget(s, target)
    ensures HasIndexEntries(s) ==> CalculateTarget(s, target) <= LastTimestamp(s)
    ensures s.duration > 0 ==> CalculateTarget(s, target) <= s.duration
    ensures (&& s.firstDts <= target
             && (HasIndexEntries(s) ==> target <= LastTimestamp(s))
             && (s.duration > 0 ==> target <= s.duration)) ==> CalculateTarget(s, target) == target
    ensures HasIndexEntries(s) && target > LastTimestamp(s) ==> CalculateTarget(s, target) == LastTimestamp(s)
    ensures !HasIndexEntries(s) && s.duration > 0 && target > s.duration ==> CalculateTarget(s, target) == s.duration
    ensures CalculateTarget(s, CalculateTarget(s, target)) == CalculateTarget(s, target)
  {
  }

  /** For a stream with ordered bounds, a later time never seeks to an
      earlier target. */
  lemma CalculateTargetMonotone(s: AvStream, t1: int, t2: int)
    requires HasIndexEntries(s) ==> s.firstDts <= LastTimestamp(s)
    requires s.duration > 0 ==> s.firstDts <= s.duration
    requires t1 <= t2
    ensures CalculateTarget(s, t1) <= CalculateTarget(s, t2)
  {
  }

  // ---- packets ----

  /** The EncryptedPacket side data of CreateEncryptedPacket: the whole key
      id and IV, and the subsample layout only when the count, cast to a C#
      `int`, is positive. */
  function EncryptionOf(info: EncryptionSideData): (r: Encryption)
    requires SideDataOk(info)
    ensures r.subsamples.Some? <==> 0 < info.subsampleCount < 0x8000_0000
  {
    Encryption(info.keyId, info.iv,
      if ToInt32(info.subsampleCount) > 0 then Some(info.subsamples) else None)
  }

  /** CreateEncryptedPacket: copies the key id and the IV and fills the
      subsample array pair by pair. */
  method CreateEncryptedPacket(info: EncryptionSideData) returns (enc: Encryption)
    requires SideDataOk(info)
    ensures enc == EncryptionOf(info)
  {
    var subsampleCount := ToInt32(info.subsampleCount);
    enc := Encryption(info.keyId, info.iv, None);
    if subsampleCount <= 0 {
      return;
    }
    var subSamples: seq<Subsample> := [];
    for i := 0 to subsampleCount
      invariant subSamples == info.subsamples[..i]
    {
      subSamples := subSamples + [Subsample(info.subsamples[i].clearData, info.subsamples[i].encData)];
    }
    assert info.subsamples[..subsampleCount] == info.subsamples;
    enc := enc.(subsamples := Some(subSamples));
  }

  /** The packet NextPacket builds from a read, before extra data: Audio for
      an audio stream and Video for any other, times rescaled to
      milliseconds with pts and dts clamped at zero, and the key-frame bit
      the low bit of `flags`. */
  function DemuxedPacket(s: AvStream, pkt: AvPacket, rescale: (int, Rational, Rational) -> int): (p: Packet)
    requires pkt.encryption.Some? ==> SideDataOk(pkt.encryption.value)
    ensures p.pts >= 0 && p.dts >= 0
    ensures rescale(pkt.pts, s.timeBase, MillisBase) >= 0 ==> p.pts == rescale(pkt.pts, s.timeBase, MillisBase)
    ensures rescale(pkt.dts, s.timeBase, MillisBase) >= 0 ==> p.dts == rescale(pkt.dts, s.timeBase, MillisBase)
    ensures rescale(pkt.pts, s.timeBase, MillisBase) < 0 ==> p.pts == 0
    ensures rescale(pkt.dts, s.timeBase, MillisBase) < 0 ==> p.dts == 0
    ensures p.duration == rescale(pkt.duration, s.timeBase, MillisBase)
    ensures p.data == pkt.data
    ensures pkt.encryption.Some? ==> p.encryption == Some(EncryptionOf(pkt.encryption.value))
    ensures p.isKeyFrame <==> pkt.flags % 2 == 1
    ensures p.streamType == Audio <==> s.codecType == MediaAudio
    ensures p.streamType != Subtitle
    ensures p.IsEncrypted() <==> pkt.encryption.Some?
  {
    var pts := rescale(pkt.pts, s.timeBase, MillisBase);
    var dts := rescale(pkt.dts, s.timeBase, MillisBase);
    Packet(
      if s.codecType == MediaAudio then Audio else Video,
      if pts >= 0 then pts else 0,
      if dts >= 0 then dts else 0,
      rescale(pkt.duration, s.timeBase, MillisBase),
      pkt.flags % 2 != 0,
      pkt.data,
      if pkt.encryption.Some? then Some(EncryptionOf(pkt.encryption.value)) else None)
  }

  /** PrependExtraDataIfNeeded's effect: a video key frame gets the parsed
      extra data in front of its bytes when there is any; every other packet
      is left as it is. */
  function WithExtraData(p: Packet, extra: Option<seq<byte>>): (r: Packet)
    ensures r.(data := p.data) == p
    ensures p.isKeyFrame && p.streamType == Video && extra.Some? ==> r.data == extra.value + p.data
    ensures !(p.isKeyFrame && p.streamType == Video && extra.Some?) ==> r == p
  {
    if p.isKeyFrame && p.streamType == Video && extra.Some? then p.(data := extra.value + p.data) else p
  }

  // ---- DRM init data ----

  predicate AllInitInfosWellFormed(ss: seq<AvStream>) {
    forall i :: 0 <= i < |ss| && ss[i].initInfos.Some? ==>
      forall k :: 0 <= k < |ss[i].initInfos.value| ==> WellFormed(ss[i].initInfos.value[k])
  }

  /** The boxes of a list of init infos, in list order. */
  function BoxesOf(infos: seq<EncryptionInitInfo>): seq<byte>
    requires forall k :: 0 <= k < |infos| ==> WellFormed(infos[k])
    decreases |infos|
  {
    if |infos| == 0 then [] else BoxesOf(infos[..|infos| - 1]) + PsshBox(infos[|infos| - 1])
  }

  lemma BoxesOfSnoc(infos: seq<EncryptionInitInfo>, k: nat)
    requires forall k :: 0 <= k < |infos| ==> WellFormed(infos[k])
    requires k < |infos|
    ensures BoxesOf(infos[..k + 1]) == BoxesOf(infos[..k]) + PsshBox(infos[k])
  {
    assert infos[..k + 1][..k] == infos[..k];
  }

  /** The boxes of every stream, in stream order. */
  function AllBoxes(ss: seq<AvStream>): seq<byte>
    requires AllInitInfosWellFormed(ss)
    decreases |ss|
  {
    if |ss| == 0 then []
    else
      var last := ss[|ss| - 1];
      AllBoxes(ss[..|ss| - 1]) + (if last.initInfos.Some? then BoxesOf(last.initInfos.value) else [])
  }

  /** No stream carries an init-info entry. */
  predicate NoInitInfo(ss: seq<AvStream>) {
    forall i :: 0 <= i < |ss| ==> ss[i].initInfos.None? || |ss[i].initInfos.value| == 0
  }

  lemma {:induction false} BoxesOfEmpty(infos: seq<EncryptionInitInfo>)
    requires forall k :: 0 <= k < |infos| ==> WellFormed(infos[k])
    ensures |BoxesOf(infos)| == 0 <==> |infos| == 0
    ensures |BoxesOf(infos)| >= 32 * |infos|
    decreases |infos|
  {
    if |infos| > 0 {
      BoxesOfEmpty(infos[..|infos| - 1]);
      PsshHeader(infos[|infos| - 1]);
    }
  }

  /** The init data is empty exactly when no stream carries init info, so
      GetDrmInitData returns null exactly then. */
  lemma {:induction false} AllBoxesEmpty(ss: seq<AvStream>)
    requires AllInitInfosWellFormed(ss)
    ensures |AllBoxes(ss)| == 0 <==> NoInitInfo(ss)
    decreases |ss|
  {
    if |ss| > 0 {
      var init := ss[..|ss| - 1];
      assert AllInitInfosWellFormed(init);
      AllBoxesEmpty(init);
      var last := ss[|ss| - 1];
      if last.initInfos.Some? {
        BoxesOfEmpty(last.initInfos.value);
      }
      assert NoInitInfo(ss) <==> NoInitInfo(init) && (last.initInfos.None? || |last.initInfos.value| == 0) by {
        assert forall i :: 0 <= i < |init| ==> init[i] == ss[i];
      }
    }
  }

  /** Associativity of concatenation, stated generically so that it is proved
      without looking inside the sequences. */
  lemma AppendAssoc<T>(a: seq<T>, b: seq<T>, c: seq<T>)
    ensures (a + b) + c == a + (b + c)
  {
  }

  /** One step of the inner loop of GetDrmInitData. */
  lemma BoxesOfStep(result: seq<byte>, infos: seq<EncryptionInitInfo>, k: nat, out: seq<byte>)
    requires forall k :: 0 <= k < |infos| ==> WellFormed(infos[k])
    requires k < |infos|
    requires out == result + BoxesOf(infos[..k])
    ensures out + PsshBox(infos[k]) == result + BoxesOf(infos[..k + 1])
  {
    BoxesOfSnoc(infos, k);
    AppendAssoc(result, BoxesOf(infos[..k]), PsshBox(infos[k]));
  }

  /** The inner loop of GetDrmInitData: walks the init-info list and appends
      the box built for each entry. */
  method AppendBoxes(result: seq<byte>, infos: seq<EncryptionInitInfo>) returns (out: seq<byte>)
    requires forall k :: 0 <= k < |infos| ==> WellFormed(infos[k])
    ensures out == result + BoxesOf(infos)
  {
    out := result;
    for k := 0 to |infos|
      invariant out == result + BoxesOf(infos[..k])
    {
      var psshBox := BuildPsshAtom(infos[k]);
      BoxesOfStep(result, infos, k, out);
      out := out + psshBox;
    }
    assert infos[..|infos|] == infos;
  }

  /** The wrapper around one native AVFormatContext. `hasContext` is false
      once the native context is null (after Dispose); the map caches the
      parsed codec extra data per stream index, and the ghost log records
      each call of the extra-data parser. */
  class AvFormatContextWrapper {
    var streams: seq<AvStream>
    var hasContext: bool
    var disposed: bool
    /** AVFormatContext.duration, in microseconds. */
    var duration: int
    var parsedExtraDatas: map<nat, Option<seq<byte>>>
    ghost var parserCalls: seq<nat>
    /** av_rescale_q. */
    const rescale: (int, Rational, Rational) -> int
    /** CodecExtraDataParser.Parse on (codec id, extra data). */
    const parseExtraData: (int, seq<byte>) -> Option<seq<byte>>

    /** Every cached entry is the parser's result for that stream, the parser
        has run once per cached index and never twice for one index, and a
        disposed wrapper has no context. */
    ghost predicate Valid()
      reads this
    {
      && (forall k :: k in parsedExtraDatas ==>
            k < |streams| && parsedExtraDatas[k] == parseExtraData(streams[k].codecId, streams[k].extraData))
      && (forall k :: k in parsedExtraDatas <==> k in parserCalls)
      && (forall i, j :: 0 <= i < j < |parserCalls| ==> parserCalls[i] != parserCalls[j])
      && (disposed ==> !hasContext)
    }

    constructor(streams: seq<AvStream>, duration: int,
                rescale: (int, Rational, Rational) -> int,
                parseExtraData: (int, seq<byte>) -> Option<seq<byte>>)
      ensures Valid()
      ensures this.streams == streams && this.duration == duration
      ensures this.rescale == rescale && this.parseExtraData == parseExtraData
      ensures hasContext && !disposed && parsedExtraDatas == map[] && parserCalls == []
    {
      this.streams := streams;
      this.duration := duration;
      this.rescale := rescale;
      this.parseExtraData := parseExtraData;
      hasContext := true;
      disposed := false;
      parsedExtraDatas := map[];
      parserCalls := [];
    }

    /** Duration: the context's duration in whole milliseconds (truncated),
        or zero when it is not positive; the unguarded dereference throws a
        NullReferenceException once the context is gone. */
    function Duration(): (r: Result<int, Error>)
      reads this
      ensures !hasContext <==> r == Failure(NullReference)
      ensures hasContext && duration > 0 ==>
        r.Success? && 0 <= r.value && r.value * 1000 <= duration < (r.value + 1) * 1000
      ensures hasContext && duration <= 0 ==> r == Success(0)
    {
      if !hasContext then Failure(NullReference)
      else if duration > 0 then Success(duration / 1000)
      else Success(0)
    }

    /** FindBestBandwidthStream: -1 as soon as a stream of the type has no
        `variant_bitrate`; otherwise the first stream with the strictly
        greatest positive parsed bandwidth, or -1 when there is none. */
    method FindBestBandwidthStream(mediaType: MediaType) returns (r: Result<int, Error>)
      ensures !hasContext ==> r == Failure(FormatContextNull)
      ensures hasContext && MissingTag(streams, mediaType) ==> r == Success(-1)
      ensures hasContext && !MissingTag(streams, mediaType) ==>
                r.Success? && (r.value == -1 <==> NoPositiveBandwidth(streams, mediaType))
      ensures hasContext && r.Success? && r.value != -1 ==> IsBestBandwidth(streams, mediaType, r.value)
    {
      if !hasContext {
        return Failure(FormatContextNull);
      }
      var bandwidth: nat := 0;
      var streamId := -1;
      for i := 0 to |streams|
        invariant forall j :: 0 <= j < i && streams[j].codecType == mediaType ==> streams[j].variantBitrate.Some?
        invariant streamId == -1 ==> bandwidth == 0
        invariant forall j :: 0 <= j < i && OfferedBandwidth(streams, mediaType, j).Some? ==>
                    OfferedBandwidth(streams, mediaType, j).value <= bandwidth
        invariant streamId != -1 ==>
                    && 0 <= streamId < i
                    && OfferedBandwidth(streams, mediaType, streamId) == Some(bandwidth)
                    && bandwidth > 0
                    && forall j :: 0 <= j < streamId && OfferedBandwidth(streams, mediaType, j).Some? ==>
                         OfferedBandwidth(streams, mediaType, j).value < bandwidth
      {
        if streams[i].codecType == mediaType {
          if streams[i].variantBitrate.None? {
            return Success(-1);
          }
          var value := ParseULong(streams[i].variantBitrate.value);
          if value.Some? && bandwidth < value.value {
            streamId := i;
            bandwidth := value.value;
          }
        }
      }
      return Success(streamId);
    }

    /** EnableStreams: every stream is discarded except those whose index is
        listed; out-of-range indexes are ignored. */
    method EnableStreams(indexes: seq<int>) returns (r: Result<(), Error>)
      requires Valid()
      modifies this
      ensures Valid()
      ensures !old(hasContext) ==> r == Failure(FormatContextNull) && streams == old(streams)
      ensures old(hasContext) ==> r == Success(())
      ensures old(hasContext) ==> |streams| == |old(streams)|
      ensures old(hasContext) ==>
                forall i :: 0 <= i < |streams| ==>
                  streams[i] == old(streams[i]).(discard := if i in indexes then DiscardDefault else DiscardAll)
      ensures hasContext == old(hasContext) && disposed == old(disposed) && duration == old(duration)
      ensures parsedExtraDatas == old(parsedExtraDatas) && parserCalls == old(parserCalls)
    {
      if !hasContext {
        return Failure(FormatContextNull);
      }
      var ss := streams;
      for i := 0 to |ss|
        invariant |ss| == |streams|
        invariant forall j :: 0 <= j < i ==> ss[j] == streams[j].(discard := DiscardAll)
        invariant forall j :: i <= j < |ss| ==> ss[j] == streams[j]
      {
        ss := ss[i := ss[i].(discard := DiscardAll)];
      }
      for k := 0 to |indexes|
        invariant |ss| == |streams|
        invariant forall j :: 0 <= j < |ss| ==>
                    ss[j] == streams[j].(discard := if j in indexes[..k] then DiscardDefault else DiscardAll)
      {
        var index := indexes[k];
        assert indexes[..k + 1] == indexes[..k] + [index];
        if 0 <= index < |ss| {
          ss := ss[index := ss[index].(discard := DiscardDefault)];
        }
      }
      assert indexes[..|indexes|] == indexes;
      streams := ss;
      return Success(());
    }

    /** Seek (with VerifyStreamIndex, HandleSeek and CalculateTarget): picks
        the stream, converts the time in milliseconds to its time base,
        clamps it, and reports what av_seek_frame was asked; `seekResult` is
        av_seek_frame's return code. */
    method Seek(time: int, seekResult: int) returns (r: Result<SeekRequest, Error>)
      ensures !hasContext ==> r == Failure(FormatContextNull)
      ensures hasContext && NothingToSeek(streams) ==> r == Failure(WrongStreamIndex(|streams|, -1))
      ensures hasContext && !NothingToSeek(streams) && seekResult != 0 ==> r == Failure(SeekFailed(seekResult))
      ensures hasContext && !NothingToSeek(streams) && seekResult == 0 ==> r.Success?
      ensures r.Success? ==>
                && IsSeekStream(streams, r.value.streamIndex)
                && r.value.target == CalculateTarget(streams[r.value.streamIndex],
                     rescale(time, MillisBase, streams[r.value.streamIndex].timeBase))
    {
      if !hasContext {
        return Failure(FormatContextNull);
      }
      var idx := -1;
      var i := 0;
      while i < |streams|
        invariant 0 <= i <= |streams|
        invariant forall j :: 0 <= j < i ==> !EnabledAs(streams, j, MediaVideo)
        invariant idx == -1 ==> forall j :: 0 <= j < i ==> !EnabledAs(streams, j, MediaAudio)
        invariant idx != -1 ==> EnabledAs(streams, idx, MediaAudio) && idx < i
        invariant idx != -1 ==> forall j :: idx < j < i ==> !EnabledAs(streams, j, MediaAudio)
      {
        var stream := streams[i];
        if stream.discard == DiscardDefault {
          if stream.codecType == MediaVideo {
            idx := i;
            break;
          }
          if stream.codecType == MediaAudio {
            idx := i;
          }
        }
        i := i + 1;
      }
      if idx < 0 || idx >= |streams| {
        return Failure(WrongStreamIndex(|streams|, idx));
      }
      assert IsSeekStream(streams, idx);
      var stream := streams[idx];
      var target := CalculateTarget(stream, rescale(time, MillisBase, stream.timeBase));
      if seekResult != 0 {
        return Failure(SeekFailed(seekResult));
      }
      return Success(SeekRequest(idx, target));
    }

    /** NextPacket, with PrependExtraDataIfNeeded: `ret` and `pkt` are what
        av_read_frame returned. */
    method NextPacket(ret: int, pkt: AvPacket) returns (r: Result<Option<Packet>, Error>)
      requires Valid()
      requires ret >= 0 ==> 0 <= pkt.streamIndex < |streams|
      requires pkt.encryption.Some? ==> SideDataOk(pkt.encryption.value)
      modifies this
      ensures Valid()
      ensures streams == old(streams) && hasContext == old(hasContext)
      ensures disposed == old(disposed) && duration == old(duration)
      ensures old(disposed) ==> r == Failure(ObjectDisposed)
      ensures !disposed && !hasContext ==> r == Success(None)
      ensures !disposed && hasContext && ret == AverrorEof ==> r == Success(None)
      ensures !disposed && hasContext && ret < 0 && ret != AverrorEof ==> r == Failure(CannotGetNextPacket(ret))
      ensures !disposed && hasContext && ret >= 0 ==>
                var s := streams[pkt.streamIndex];
                r == Success(Some(WithExtraData(DemuxedPacket(s, pkt, rescale),
                                                parseExtraData(s.codecId, s.extraData))))
      ensures forall k :: k in old(parsedExtraDatas) ==> k in parsedExtraDatas && parsedExtraDatas[k] == old(parsedExtraDatas[k])
      ensures forall k :: k in parsedExtraDatas && k !in old(parsedExtraDatas) ==> k == pkt.streamIndex
      ensures |old(parserCalls)| <= |parserCalls| <= |old(parserCalls)| + 1
      ensures parserCalls[..|old(parserCalls)|] == old(parserCalls)
    {
      if disposed {
        return Failure(ObjectDisposed);
      }
      if !hasContext {
        return Success(None);
      }
      if ret == AverrorEof {
        return Success(None);
      }
      if ret < 0 {
        return Failure(CannotGetNextPacket(ret));
      }
      var streamIndex := pkt.streamIndex;
      var stream := streams[streamIndex];
      var pts := rescale(pkt.pts, stream.timeBase, MillisBase);
      var dts := rescale(pkt.dts, stream.timeBase, MillisBase);
      var encryption: Option<Encryption> := None;
      if pkt.encryption.Some? {
        var enc := CreateEncryptedPacket(pkt.encryption.value);
        encryption := Some(enc);
      }
      var packet := Packet(
        if stream.codecType == MediaAudio then Audio else Video,
        if pts >= 0 then pts else 0,
        if dts >= 0 then dts else 0,
        rescale(pkt.duration, stream.timeBase, MillisBase),
        pkt.flags % 2 != 0,
        pkt.data,
        encryption);
      assert packet == DemuxedPacket(stream, pkt, rescale);
      packet := PrependExtraDataIfNeeded(packet, streamIndex);
      return Success(Some(packet));
    }

    /** PrependExtraDataIfNeeded: for a video key frame, parses the stream's
        extra data the first time the stream index is seen and prepends the
        cached result when it is not null. */
    method PrependExtraDataIfNeeded(packet: Packet, index: nat) returns (p: Packet)
      requires Valid()
      requires index < |streams|
      modifies this`parsedExtraDatas, this`parserCalls
      ensures Valid()
      ensures p == WithExtraData(packet, parseExtraData(streams[index].codecId, streams[index].extraData))
      ensures !(packet.isKeyFrame && packet.streamType == Video) ==>
                parsedExtraDatas == old(parsedExtraDatas) && parserCalls == old(parserCalls)
      ensures packet.isKeyFrame && packet.streamType == Video ==>
                parsedExtraDatas == old(parsedExtraDatas)[index := parseExtraData(streams[index].codecId, streams[index].extraData)]
      ensures parserCalls == old(parserCalls) || (index !in old(parsedExtraDatas) && parserCalls == old(parserCalls) + [index])
    {
      if !packet.isKeyFrame || packet.streamType != Video {
        return packet;
      }
      if index !in parsedExtraDatas {
        var stream := streams[index];
        parsedExtraDatas := parsedExtraDatas[index := parseExtraData(stream.codecId, stream.extraData)];
        parserCalls := parserCalls + [index];
      }
      var parsedExtraData := parsedExtraDatas[index];
      p := packet;
      if parsedExtraData.Some? {
        p := packet.(data := parsedExtraData.value + packet.data);
      }
    }

    /** GetDrmInitData: the PSSH boxes of every init-info entry of every
        stream, in stream order and then list order, typed Cenc; null when no
        box was written; the unguarded dereference throws a
        NullReferenceException once the context is gone. */
    method GetDrmInitData() returns (r: Result<Option<DrmInitData>, Error>)
      requires AllInitInfosWellFormed(streams)
      ensures !hasContext ==> r == Failure(NullReference)
      ensures hasContext && NoInitInfo(streams) ==> r == Success(None)
      ensures hasContext && !NoInitInfo(streams) ==> r == Success(Some(DrmInitData(Cenc, AllBoxes(streams))))
    {
      if !hasContext {
        return Failure(NullReference);
      }
      var result: seq<byte> := [];
      for i := 0 to |streams|
        invariant AllInitInfosWellFormed(streams[..i])
        invariant result == AllBoxes(streams[..i])
      {
        assert streams[..i + 1][..i] == streams[..i];
        assert AllInitInfosWellFormed(streams[..i + 1]);
        var enc := streams[i].initInfos;
        if enc.Some? {
          result := AppendBoxes(result, enc.value);
        }
      }
      assert streams[..|streams|] == streams;
      AllBoxesEmpty(streams);
      if |result| == 0 {
        return Success(None);
      }
      return Success(Some(DrmInitData(Cenc, result)));
    }

    /** Dispose: closes the native context once; a second call does
        nothing. */
    method Dispose()
      requires Valid()
      modifies this
      ensures Valid()
      ensures disposed && !hasContext
      ensures streams == old(streams) && duration == old(duration)
      ensures parsedExtraDatas == old(parsedExtraDatas) && parserCalls == old(parserCalls)
    {
      if disposed {
        return;
      }
      hasContext := false;
      disposed := true;
    }
  }
}
