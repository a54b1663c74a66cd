/** The older FFmpeg demuxer (JuvoPlayer/JuvoPlayer/FFmpeg/FFmpegDemuxer.cs):
    reads the audio and video configuration of the chosen streams, then
    turns every av_read_frame result into a StreamPacket until the first
    negative read code. The native results, av_rescale_q and
    av_get_bytes_per_sample come in as parameters. */
module FfmpegDemuxer {
  import opened Common

  // ---- native inputs ----

  datatype Rational = Rational(num: int, den: int)

  /** The time base of microseconds, `microsBase`. */
  const MicrosBase: Rational := Rational(1, 1000000)

  /** AVERROR_EOF, the read code that means end of stream. */
  const AverrorEof: int := -541478725

  /** AVCodecID: the ids the demuxer converts, and any other id. */
  datatype AvCodecId =
    | IdAac | IdMp2 | IdMp3 | IdVorbis | IdFlac | IdAmrNb | IdAmrWb | IdPcmMulaw
    | IdGsmMs | IdPcmS16be | IdPcmS24be | IdOpus | IdEac3 | IdDts | IdAc3 | IdWmav1 | IdWmav2
    | IdH264 | IdHevc | IdTheora | IdMpeg4 | IdVp8 | IdVp9 | IdMpeg2Video | IdVc1
    | IdWmv1 | IdWmv2 | IdWmv3 | IdH263 | IdIndeo3
    | IdOther(code: int)

  /** What the demuxer reads of one AVStream and its codec parameters;
      `extraData` holds `extradata_size` bytes. */
  datatype AvStream = AvStream(
    codecId: AvCodecId,
    sampleFormat: int,
    bitsPerCodedSample: int,
    channels: int,
    sampleRate: int,
    profile: int,
    width: int,
    height: int,
    frameRate: Rational,
    timeBase: Rational,
    extraData: seq<byte>)

  /** The AVEncInfo side data of a packet. `iv` is the fixed IV array of
      the structure, of which `ivSize` bytes are meaningful. */
  datatype EncInfo = EncInfo(
    kid: seq<byte>,
    iv: seq<byte>,
    ivSize: nat,
    subsampleCount: int,
    subsamples: seq<Subsample>)

  /** What the native structure guarantees: the IV size fits the IV array
      and the subsample array holds the announced number of entries. */
  predicate EncInfoOk(info: EncInfo) {
    info.ivSize <= |info.iv| && (info.subsampleCount > 0 ==> info.subsampleCount <= |info.subsamples|)
  }

  /** An AVPacket as av_read_frame fills it; times are in the stream's time
      base and `data` holds `size` bytes. */
  datatype AvPacket = AvPacket(
    streamIndex: int,
    pts: int,
    dts: int,
    flags: int,
    data: seq<byte>,
    sideData: Option<EncInfo>)

  /** One call of av_read_frame: its return code and the packet it filled. */
  datatype Read = Read(ret: int, pkt: AvPacket)

  // ---- player-side values ----

  datatype AudioCodec =
    | Aac | Mp2 | Mp3 | Vorbis | Flac | AmrNb | AmrWb | PcmMulaw
    | GsmMs | PcmS16be | PcmS24be | Opus | Eac3 | Dts | Ac3 | Wmav1 | Wmav2

  datatype VideoCodec =
    | H264 | H265 | Theora | Mpeg4 | Vp8 | Vp9 | Mpeg2 | Vc1 | Wmv1 | Wmv2 | Wmv3 | H263 | Indeo3

  /** The exceptions of the configuration readers. */
  datatype DemuxError = UnsupportedCodec(id: AvCodecId) | DivideByZero

  /** AudioStreamConfig; `extraData` is None where CodecExtraData stays null. */
  datatype AudioConfig = AudioConfig(
    codec: AudioCodec,
    bitsPerChannel: int,
    channelLayout: int,
    sampleRate: int,
    extraData: Option<seq<byte>>)

  /** VideoStreamConfig. */
  datatype VideoConfig = VideoConfig(
    codec: VideoCodec,
    profile: int,
    width: int,
    height: int,
    frameRateNum: int,
    frameRateDen: int,
    extraData: Option<seq<byte>>)

  /** One StreamConfigReady event. */
  datatype ConfigEvent = AudioReady(audio: AudioConfig) | VideoReady(video: VideoConfig)

  // ---- codec conversion ----

  /** The FFmpeg id each player audio codec is converted from. */
  function AudioCodecId(c: AudioCodec): AvCodecId {
    match c
    case Aac => IdAac case Mp2 => IdMp2 case Mp3 => IdMp3 case Vorbis => IdVorbis
    case Flac => IdFlac case AmrNb => IdAmrNb case AmrWb => IdAmrWb case PcmMulaw => IdPcmMulaw
    case GsmMs => IdGsmMs case PcmS16be => IdPcmS16be case PcmS24be => IdPcmS24be
    case Opus => IdOpus case Eac3 => IdEac3 case Dts => IdDts case Ac3 => IdAc3
    case Wmav1 => IdWmav1 case Wmav2 => IdWmav2
  }

  /** The FFmpeg id each player video codec is converted from. */
  function VideoCodecId(c: VideoCodec): AvCodecId {
    match c
    case H264 => IdH264 case H265 => IdHevc case Theora => IdTheora case Mpeg4 => IdMpeg4
    case Vp8 => IdVp8 case Vp9 => IdVp9 case Mpeg2 => IdMpeg2Video case Vc1 => IdVc1
    case Wmv1 => IdWmv1 case Wmv2 => IdWmv2 case Wmv3 => IdWmv3 case H263 => IdH263
    case Indeo3 => IdIndeo3
  }

  /** ConvertAudioCodec: each listed id to its own codec; any other id
      throws "Unsupported codec". */
  function ConvertAudioCodec(id: AvCodecId): (r: Result<AudioCodec, DemuxError>)
    ensures r.Success? ==> AudioCodecId(r.value) == id
    ensures r.Failure? ==> r.error == UnsupportedCodec(id)
  {
    match id
    case IdAac => Success(Aac) case IdMp2 => Success(Mp2) case IdMp3 => Success(Mp3)
    case IdVorbis => Success(Vorbis) case IdFlac => Success(Flac)
    case IdAmrNb => Success(AmrNb) case IdAmrWb => Success(AmrWb)
    case IdPcmMulaw => Success(PcmMulaw) case IdGsmMs => Success(GsmMs)
    case IdPcmS16be => Success(PcmS16be) case IdPcmS24be => Success(PcmS24be)
    case IdOpus => Success(Opus) case IdEac3 => Success(Eac3) case IdDts => Success(Dts)
    case IdAc3 => Success(Ac3) case IdWmav1 => Success(Wmav1) case IdWmav2 => Success(Wmav2)
    case _ => Failure(UnsupportedCodec(id))
  }

  /** ConvertVideoCodec: each listed id to its own codec (HEVC to H265,
      MPEG2VIDEO to MPEG2); any other id throws. */
  function ConvertVideoCodec(id: AvCodecId): (r: Result<VideoCodec, DemuxError>)
    ensures r.Success? ==> VideoCodecId(r.value) == id
    ensures r.Failure? ==> r.error == UnsupportedCodec(id)
  {
    match id
    case IdH264 => Success(H264) case IdHevc => Success(H265) case IdTheora => Success(Theora)
    case IdMpeg4 => Success(Mpeg4) case IdVp8 => Success(Vp8) case IdVp9 => Success(Vp9)
    case IdMpeg2Video => Success(Mpeg2) case IdVc1 => Success(Vc1) case IdWmv1 => Success(Wmv1)
    case IdWmv2 => Success(Wmv2) case IdWmv3 => Success(Wmv3) case IdH263 => Success(H263)
    case IdIndeo3 => Success(Indeo3)
    case _ => Failure(UnsupportedCodec(id))
  }

  /** Every player codec is reached from its own id. */
  lemma CodecRoundTrips(a: AudioCodec, v: VideoCodec)
    ensures ConvertAudioCodec(AudioCodecId(a)) == Success(a)
    ensures ConvertVideoCodec(VideoCodecId(v)) == Success(v)
  {
  }

  /** The conversions throw exactly for the ids outside their lists, and no
      id converts both as audio and as video. */
  lemma CodecConversionFails(id: AvCodecId)
    ensures ConvertAudioCodec(id).Failure? <==> forall c :: AudioCodecId(c) != id
    ensures ConvertVideoCodec(id).Failure? <==> forall c :: VideoCodecId(c) != id
    ensures ConvertAudioCodec(id).Success? ==> ConvertVideoCodec(id).Failure?
  {
    forall a: AudioCodec, v: VideoCodec {
      CodecRoundTrips(a, v);
    }
  }

  // ---- stream configuration ----

  /** The IsSome of a C# byte array that is only allocated for a positive
      size. */
  function ExtraDataOf(s: AvStream): (r: Option<seq<byte>>)
    ensures r.Some? <==> |s.extraData| > 0
    ensures r.Some? ==> r.value == s.extraData
  {
    if |s.extraData| > 0 then Some(s.extraData) else None
  }

  /** Bits per channel of ReadAudioConfig: `bits_per_coded_sample` when it
      is positive, otherwise the sample's byte count times 8 divided (C#
      integer division) by the channel count, which throws for no
      channels. */
  function BitsPerChannel(s: AvStream, bytesPerSample: int -> int): (r: Result<int, DemuxError>)
    ensures s.bitsPerCodedSample > 0 ==> r == Success(s.bitsPerCodedSample)
    ensures s.bitsPerCodedSample <= 0 ==> (r.Failure? <==> s.channels == 0)
    ensures r.Failure? ==> r.error == DivideByZero
    ensures s.bitsPerCodedSample <= 0 && s.channels > 0 && bytesPerSample(s.sampleFormat) >= 0 ==>
      r == Success(bytesPerSample(s.sampleFormat) * 8 / s.channels)
  {
    if s.bitsPerCodedSample > 0 then Success(s.bitsPerCodedSample)
    else if s.channels == 0 then Failure(DivideByZero)
    else Success(TruncDiv(bytesPerSample(s.sampleFormat) * 8, s.channels))
  }

  /** ReadAudioConfig: nothing for an index outside the streams; otherwise
      the codec is converted first (it may throw), then bits per channel
      (it may throw), and the config is emitted. */
  function ReadAudioConfig(audioIdx: int, streams: seq<AvStream>, bytesPerSample: int -> int)
    : (r: Result<Option<AudioConfig>, DemuxError>)
    ensures (audioIdx < 0 || audioIdx >= |streams|) ==> r == Success(None)
    ensures 0 <= audioIdx < |streams| ==> r != Success(None)
    ensures 0 <= audioIdx < |streams| && ConvertAudioCodec(streams[audioIdx].codecId).Failure? ==>
      r == Failure(UnsupportedCodec(streams[audioIdx].codecId))
    ensures 0 <= audioIdx < |streams| && ConvertAudioCodec(streams[audioIdx].codecId).Success? ==>
      (BitsPerChannel(streams[audioIdx], bytesPerSample).Failure? ==> r == Failure(DivideByZero))
      && (BitsPerChannel(streams[audioIdx], bytesPerSample).Success? ==> r.Success? && r.value.Some?)
    ensures r.Success? && r.value.Some? ==>
      var s := streams[audioIdx];
      var c := r.value.value;
      && AudioCodecId(c.codec) == s.codecId
      && BitsPerChannel(s, bytesPerSample) == Success(c.bitsPerChannel)
      && c.channelLayout == s.channels
      && c.sampleRate == s.sampleRate
      && c.extraData == ExtraDataOf(s)
  {
    if audioIdx < 0 || audioIdx >= |streams| then Success(None)
    else
      var s := streams[audioIdx];
      match ConvertAudioCodec(s.codecId)
      case Failure(e) => Failure(e)
      case Success(codec) =>
        match BitsPerChannel(s, bytesPerSample)
        case Failure(e) => Failure(e)
        case Success(bits) => Success(Some(AudioConfig(codec, bits, s.channels, s.sampleRate, ExtraDataOf(s))))
  }

  /** ReadVideoConfig: nothing for an index outside the streams; otherwise
      the codec is converted (it may throw) and the config is emitted. */
  function ReadVideoConfig(videoIdx: int, streams: seq<AvStream>): (r: Result<Option<VideoConfig>, DemuxError>)
    ensures (videoIdx < 0 || videoIdx >= |streams|) ==> r == Success(None)
    ensures 0 <= videoIdx < |streams| ==>
      (r.Failure? <==> ConvertVideoCodec(streams[videoIdx].codecId).Failure?)
    ensures 0 <= videoIdx < |streams| && ConvertVideoCodec(streams[videoIdx].codecId).Success? ==>
      r.Success? && r.value.Some?
    ensures r.Success? && r.value.Some? ==>
      var s := streams[videoIdx];
      var c := r.value.value;
      && VideoCodecId(c.codec) == s.codecId
      && c.profile == s.profile
      && c.width == s.width && c.height == s.height
      && c.frameRateNum == s.frameRate.num && c.frameRateDen == s.frameRate.den
      && c.extraData == ExtraDataOf(s)
  {
    if videoIdx < 0 || videoIdx >= |streams| then Success(None)
    else
      var s := streams[videoIdx];
      match ConvertVideoCodec(s.codecId)
      case Failure(e) => Failure(e)
      case Success(codec) =>
        Success(Some(VideoConfig(codec, s.profile, s.width, s.height, s.frameRate.num, s.frameRate.den, ExtraDataOf(s))))
  }

  /** The StreamConfigReady events of the initialisation block of DemuxTask:
      audio first, then video; an exception ends the block, so a failed
      audio config also suppresses the video one. */
  function InitConfigs(audioIdx: int, videoIdx: int, streams: seq<AvStream>, bytesPerSample: int -> int)
    : (events: seq<ConfigEvent>)
    ensures |events| <= 2
    ensures ReadAudioConfig(audioIdx, streams, bytesPerSample).Failure? ==> events == []
    ensures forall i :: 0 <= i < |events| && events[i].AudioReady? ==>
      i == 0 && ReadAudioConfig(audioIdx, streams, bytesPerSample) == Success(Some(events[i].audio))
    ensures forall i :: 0 <= i < |events| && events[i].VideoReady? ==>
      i == |events| - 1 && ReadVideoConfig(videoIdx, streams) == Success(Some(events[i].video))
    ensures var audio := ReadAudioConfig(audioIdx, streams, bytesPerSample);
            var video := ReadVideoConfig(videoIdx, streams);
            audio.Success? ==>
              && |events| == (if audio.value.Some? then 1 else 0) + (if video.Success? && video.value.Some? then 1 else 0)
              && (audio.value.Some? ==> events[0] == AudioReady(audio.value.value))
              && (video.Success? && video.value.Some? ==> events[|events| - 1] == VideoReady(video.value.value))
  {
    match ReadAudioConfig(audioIdx, streams, bytesPerSample)
    case Failure(_) => []
    case Success(audio) =>
      var first := if audio.Some? then [AudioReady(audio.value)] else [];
      match ReadVideoConfig(videoIdx, streams)
      case Failure(_) => first
      case Success(video) => first + (if video.Some? then [VideoReady(video.value)] else [])
  }

  // ---- packets ----

  /** The PES header ffmpeg leaves at the end of some packets: 0xC0 for an
      audio packet, 0xE0 otherwise, then thirteen fixed bytes. */
  function SuffixPes(t: StreamType): (r: seq<byte>)
    ensures |r| == 14
    ensures r[0] == 0xC0 || r[0] == 0xE0
    ensures r[0] == 0xC0 <==> t == Audio
  {
    [if t == Audio then 0xC0 else 0xE0, 0x00, 0x00, 0x00, 0x01, 0xCE, 0x8C, 0x4D, 0x9D, 0x10, 0x8E, 0x25, 0xE9, 0xFE]
  }

  predicate EndsWith(s: seq<byte>, suffix: seq<byte>) {
    |s| >= |suffix| && s[|s| - |suffix|..] == suffix
  }

  /** The packet bytes CopyPacketData keeps: everything but the PES suffix
      when stripping is asked for and the data ends with it, otherwise all
      bytes. */
  function CopiedData(source: seq<byte>, t: StreamType, removeSuffixPes: bool): (r: seq<byte>)
    ensures removeSuffixPes && EndsWith(source, SuffixPes(t)) ==> r + SuffixPes(t) == source
    ensures !(removeSuffixPes && EndsWith(source, SuffixPes(t))) ==> r == source
  {
    if removeSuffixPes && EndsWith(source, SuffixPes(t)) then source[..|source| - 14] else source
  }

  /** The audio and the video suffix differ in their first byte, so data is
      never stripped both as audio and as video. */
  lemma SuffixesExclusive(source: seq<byte>)
    ensures !(EndsWith(source, SuffixPes(Audio)) && EndsWith(source, SuffixPes(Video)))
  {
  }

  /** CopyPacketData: compares the last fourteen bytes with the suffix one
      by one, stopping at the first difference, then copies either all
      bytes or all but the suffix. */
  method CopyPacketData(source: seq<byte>, t: StreamType, removeSuffixPes: bool) returns (data: seq<byte>)
    ensures data == CopiedData(source, t, removeSuffixPes)
  {
    var suffixPes := SuffixPes(t);
    var size := |source|;
    var suffixPresent := false;
    if removeSuffixPes && size >= |suffixPes| {
      suffixPresent := true;
      var i := 0;
      var dataOffset := size - |suffixPes|;
      while i < |suffixPes| && i + dataOffset < size
        invariant 0 <= i <= |suffixPes|
        invariant suffixPresent
        invariant source[dataOffset..dataOffset + i] == suffixPes[..i]
      {
        if source[i + dataOffset] != suffixPes[i] {
          assert source[dataOffset..][i] == source[i + dataOffset];
          suffixPresent := false;
          break;
        }
        assert source[dataOffset..dataOffset + i + 1] == source[dataOffset..dataOffset + i] + [source[dataOffset + i]];
        assert suffixPes[..i + 1] == suffixPes[..i] + [suffixPes[i]];
        i := i + 1;
      }
      assert suffixPresent ==> source[dataOffset..] == suffixPes by {
        if suffixPresent {
          assert source[dataOffset..] == source[dataOffset..dataOffset + i];
          assert suffixPes[..i] == suffixPes;
        }
      }
    }
    if removeSuffixPes && suffixPresent {
      data := source[..size - |suffixPes|];
    } else {
      data := source;
    }
  }

  /** The packet time in milliseconds: the microsecond time divided by 1000
      (C# division), then clamped at zero. */
  function Millis(micros: int): (ms: int)
    ensures micros >= 0 ==> ms == micros / 1000
    ensures micros < 0 ==> ms == 0
  {
    var t := TruncDiv(micros, 1000);
    if t >= 0 then t else 0
  }

  /** The side data of an EncryptedStreamPacket: the key id, the first
      `iv_size` IV bytes, and the subsample pairs only for a positive count. */
  function EncryptionOf(info: EncInfo): (r: Encryption)
    requires EncInfoOk(info)
    ensures r.keyId == info.kid
    ensures |r.iv| == info.ivSize && r.iv == info.iv[..info.ivSize]
    ensures r.subsamples.Some? <==> info.subsampleCount > 0
    ensures r.subsamples.Some? ==>
      |r.subsamples.value| == info.subsampleCount
      && forall i :: 0 <= i < info.subsampleCount ==> r.subsamples.value[i] == info.subsamples[i]
  {
    Encryption(info.kid, info.iv[..info.ivSize],
      if info.subsampleCount <= 0 then None else Some(info.subsamples[..info.subsampleCount]))
  }

  /** CreateEncryptedPacket: copies key id and IV and, for a positive count,
      fills the subsample array pair by pair. */
  method CreateEncryptedPacket(info: EncInfo) returns (enc: Encryption)
    requires EncInfoOk(info)
    ensures enc == EncryptionOf(info)
  {
    var subsampleCount := info.subsampleCount;
    var iv := info.iv[..info.ivSize];
    enc := Encryption(info.kid, iv, None);
    if subsampleCount <= 0 {
      return;
    }
    var subsamples: seq<Subsample> := [];
    for i := 0 to subsampleCount
      invariant subsamples == info.subsamples[..i]
    {
      subsamples := subsamples + [Subsample(info.subsamples[i].clearData, info.subsamples[i].encData)];
    }
    enc := enc.(subsamples := Some(subsamples));
  }

  /** A read the demux loop forwards: one of the two chosen streams. */
  predicate Selected(pkt: AvPacket, audioIdx: int, videoIdx: int) {
    pkt.streamIndex == audioIdx || pkt.streamIndex == videoIdx
  }

  /** What av_read_frame guarantees of a successful read: the stream index
      names a stream and the side data is well formed. */
  predicate ReadOk(r: Read, streams: seq<AvStream>) {
    r.ret >= 0 ==>
      0 <= r.pkt.streamIndex < |streams| && (r.pkt.sideData.Some? ==> EncInfoOk(r.pkt.sideData.value))
  }

  /** The StreamPacket built for a forwarded read. */
  function StreamPacketOf(pkt: AvPacket, audioIdx: int, s: AvStream, rescale: (int, Rational, Rational) -> int)
    : (p: Packet)
    requires pkt.sideData.Some? ==> EncInfoOk(pkt.sideData.value)
    ensures p.streamType == Audio <==> pkt.streamIndex == audioIdx
    ensures p.streamType != Subtitle
    ensures p.pts >= 0 && p.dts >= 0
    ensures p.pts == Millis(rescale(pkt.pts, s.timeBase, MicrosBase))
    ensures p.dts == Millis(rescale(pkt.dts, s.timeBase, MicrosBase))
    ensures p.isKeyFrame <==> pkt.flags == 1
    ensures p.IsEncrypted() <==> pkt.sideData.Some?
    ensures p.IsEncrypted() ==> p.data == pkt.data && p.encryption.value == EncryptionOf(pkt.sideData.value)
    ensures !p.IsEncrypted() ==> p.data == CopiedData(pkt.data, p.streamType, true)
  {
    var t := if pkt.streamIndex != audioIdx then Video else Audio;
    Packet(t,
      Millis(rescale(pkt.pts, s.timeBase, MicrosBase)),
      Millis(rescale(pkt.dts, s.timeBase, MicrosBase)),
      0,
      pkt.flags == 1,
      CopiedData(pkt.data, t, pkt.sideData.None?),
      if pkt.sideData.Some? then Some(EncryptionOf(pkt.sideData.value)) else None)
  }

  /** The packets forwarded for a run of successful reads, in read order. */
  function PacketsOf(results: seq<Read>, audioIdx: int, videoIdx: int, streams: seq<AvStream>,
                     rescale: (int, Rational, Rational) -> int): seq<Packet>
    requires forall i :: 0 <= i < |results| ==> results[i].ret >= 0 && ReadOk(results[i], streams)
    decreases |results|
  {
    if |results| == 0 then []
    else
      var r := results[|results| - 1];
      assert r.ret >= 0 && ReadOk(r, streams);
      PacketsOf(results[..|results| - 1], audioIdx, videoIdx, streams, rescale)
        + (if Selected(r.pkt, audioIdx, videoIdx)
           then [StreamPacketOf(r.pkt, audioIdx, streams[r.pkt.streamIndex], rescale)]
           else [])
  }

  /** The number of successful reads before the first failing one. */
  function FirstFailure(results: seq<Read>): (k: nat)
    ensures k <= |results|
    ensures forall i :: 0 <= i < k ==> results[i].ret >= 0
    ensures k < |results| ==> results[k].ret < 0
    decreases |results|
  {
    if |results| == 0 || results[0].ret < 0 then 0 else 1 + FirstFailure(results[1..])
  }

  predicate AllReadsOk(results: seq<Read>, streams: seq<AvStream>) {
    forall i :: 0 <= i < |results| ==> ReadOk(results[i], streams)
  }

  /** The StreamPacketReady events of the demux loop: one packet per
      forwarded successful read, and after the first failing read a null
      packet only for end of stream. Reads after that one are never made. */
  function Demuxed(results: seq<Read>, audioIdx: int, videoIdx: int, streams: seq<AvStream>,
                   rescale: (int, Rational, Rational) -> int): seq<Option<Packet>>
    requires AllReadsOk(results, streams)
  {
    var k := FirstFailure(results);
    Wrapped(PacketsOf(results[..k], audioIdx, videoIdx, streams, rescale))
      + (if k < |results| && results[k].ret == AverrorEof then [None] else [])
  }

  function Wrapped(ps: seq<Packet>): (r: seq<Option<Packet>>)
    ensures |r| == |ps|
    ensures forall i :: 0 <= i < |ps| ==> r[i] == Some(ps[i])
  {
    seq(|ps|, i requires 0 <= i < |ps| => Some(ps[i]))
  }

  /** DemuxTask's packet loop over the reads av_read_frame yields: returns
      the events raised and the number of reads made. */
  method DemuxLoop(results: seq<Read>, audioIdx: int, videoIdx: int, streams: seq<AvStream>,
                   rescale: (int, Rational, Rational) -> int)
    returns (events: seq<Option<Packet>>, readCount: nat)
    requires AllReadsOk(results, streams)
    ensures events == Demuxed(results, audioIdx, videoIdx, streams, rescale)
    ensures readCount == if FirstFailure(results) < |results| then FirstFailure(results) + 1 else |results|
  {
    events := [];
    readCount := 0;
    var parse := true;
    while parse && readCount < |results|
      invariant readCount <= FirstFailure(results) + 1 && readCount <= |results|
      invariant parse ==> readCount <= FirstFailure(results)
      invariant parse ==> events == Wrapped(PacketsOf(results[..readCount], audioIdx, videoIdx, streams, rescale))
      invariant !parse ==> events == Demuxed(results, audioIdx, videoIdx, streams, rescale)
      invariant !parse ==> readCount == FirstFailure(results) + 1
      decreases |results| - readCount, parse
    {
      var ret := results[readCount].ret;
      var pkt := results[readCount].pkt;
      ghost var done := results[..readCount];
      readCount := readCount + 1;
      assert results[..readCount][..readCount - 1] == done;
      if ret >= 0 {
        if pkt.streamIndex != audioIdx && pkt.streamIndex != videoIdx {
          continue;
        }
        var s := streams[pkt.streamIndex];
        var pts := TruncDiv(rescale(pkt.pts, s.timeBase, MicrosBase), 1000);
        var dts := TruncDiv(rescale(pkt.dts, s.timeBase, MicrosBase), 1000);
        var streamType := if pkt.streamIndex != audioIdx then Video else Audio;
        var encryption: Option<Encryption> := None;
        if pkt.sideData.Some? {
          var enc := CreateEncryptedPacket(pkt.sideData.value);
          encryption := Some(enc);
        }
        var data := CopyPacketData(pkt.data, streamType, pkt.sideData.None?);
        var streamPacket := Packet(streamType, if pts >= 0 then pts else 0, if dts >= 0 then dts else 0,
                                   0, pkt.flags == 1, data, encryption);
        assert streamPacket == StreamPacketOf(pkt, audioIdx, s, rescale);
        events := events + [Some(streamPacket)];
      } else {
        assert results[..readCount - 1] == results[..FirstFailure(results)];
        if ret == AverrorEof {
          events := events + [None];
        }
        parse := false;
      }
    }
    if parse {
      assert results[..readCount] == results[..FirstFailure(results)];
    }
  }

  // ---- properties of the demux loop ----

  /** Forwarding keeps read order: the packets of two runs of reads are
      the packets of the first run followed by those of the second. */
  lemma {:induction false} PacketsOfAppend(a: seq<Read>, b: seq<Read>, audioIdx: int, videoIdx: int,
                                           streams: seq<AvStream>, rescale: (int, Rational, Rational) -> int)
    requires forall i :: 0 <= i < |a| ==> a[i].ret >= 0 && ReadOk(a[i], streams)
    requires forall i :: 0 <= i < |b| ==> b[i].ret >= 0 && ReadOk(b[i], streams)
    ensures forall i :: 0 <= i < |a + b| ==> (a + b)[i].ret >= 0 && ReadOk((a + b)[i], streams)
    ensures PacketsOf(a + b, audioIdx, videoIdx, streams, rescale)
         == PacketsOf(a, audioIdx, videoIdx, streams, rescale) + PacketsOf(b, audioIdx, videoIdx, streams, rescale)
    decreases |b|
  {
    assert forall i :: 0 <= i < |a + b| ==> (a + b)[i] == if i < |a| then a[i] else b[i - |a|];
    if |b| == 0 {
      assert a + b == a;
    } else {
      var init := b[..|b| - 1];
      PacketsOfAppend(a, init, audioIdx, videoIdx, streams, rescale);
      assert (a + b)[..|a + b| - 1] == a + init;
      assert (a + b)[|a + b| - 1] == b[|b| - 1];
    }
  }

  /** Every forwarded packet belongs to one of the two chosen streams, is
      tagged Audio or Video accordingly, and has non-negative times; there
      are at most as many packets as reads. */
  lemma {:induction false} PacketsOfShape(results: seq<Read>, audioIdx: int, videoIdx: int,
                                          streams: seq<AvStream>, rescale: (int, Rational, Rational) -> int)
    requires forall i :: 0 <= i < |results| ==> results[i].ret >= 0 && ReadOk(results[i], streams)
    ensures |PacketsOf(results, audioIdx, videoIdx, streams, rescale)| <= |results|
    ensures forall p :: p in PacketsOf(results, audioIdx, videoIdx, streams, rescale) ==>
      p.pts >= 0 && p.dts >= 0 && p.streamType != Subtitle
    ensures (forall i :: 0 <= i < |results| ==> !Selected(results[i].pkt, audioIdx, videoIdx)) ==>
      PacketsOf(results, audioIdx, videoIdx, streams, rescale) == []
    decreases |results|
  {
    if |results| > 0 {
      PacketsOfShape(results[..|results| - 1], audioIdx, videoIdx, streams, rescale);
    }
  }

  /** A null packet is raised at most once, as the last event, and exactly
      when the first failing read is end of stream; every other event is a
      packet. */
  lemma NullOnlyAtEnd(results: seq<Read>, audioIdx: int, videoIdx: int, streams: seq<AvStream>,
                      rescale: (int, Rational, Rational) -> int)
    requires AllReadsOk(results, streams)
    ensures var e := Demuxed(results, audioIdx, videoIdx, streams, rescale);
      && (forall i :: 0 <= i < |e| - 1 ==> e[i].Some?)
      && ((exists i :: 0 <= i < |e| && e[i].None?) <==>
          FirstFailure(results) < |results| && results[FirstFailure(results)].ret == AverrorEof)
  {
    var k := FirstFailure(results);
    var ps := PacketsOf(results[..k], audioIdx, videoIdx, streams, rescale);
    var e := Demuxed(results, audioIdx, videoIdx, streams, rescale);
    assert forall i :: 0 <= i < |ps| ==> e[i] == Some(ps[i]);
    if k < |results| && results[k].ret == AverrorEof {
      assert e[|e| - 1].None?;
    }
  }
}
