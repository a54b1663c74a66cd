# JuvoPlayer core in Dafny

This project models the core logic of JuvoPlayer, a media player for Tizen written in C#, and of its Python integration tests. Each core file has one module:

- `AvFormat` (avformat.dfy) and `Pssh` (pssh.dfy) model the wrapper around an FFmpeg format context, `AvFormatContextWrapper`:
  - choosing a stream by bandwidth;
  - enabling streams;
  - seeking with a clamped target;
  - turning a read into a packet, with timestamp clamping, the key-frame bit and extra data cached per stream;
  - rebuilding PSSH boxes (section 8.1 of ISO/IEC 23001-7, with the box header of section 4.2 of ISO/IEC 14496-12) and the DRM init data;
  - disposal.
- `FfmpegDemuxer` (ffmpeg_demuxer.dfy) models the older demuxer:
  - codec conversion;
  - the audio and video configuration;
  - stripping the PES suffix;
  - encrypted packets;
  - the demux loop, up to the first failed read.
- `TizenLogger` (tizen_logger.dfy) models the dlog target: the level dispatch, and cutting long messages at newlines and then into 800-character chunks.
- `DashManifest` (dash_manifest.dfy) models the reload policy of a DASH manifest:
  - `NeedsReload`;
  - the single-flight reload, which commits only on success;
  - cancellation.
- `StreamRenderer` (stream_renderer.dfy) models the push loop: take a packet, decrypt it with retries while the key is missing, submit it, report it to the buffering observer.
- `StreamConfig` (stream_config.dfy) models equality and hashing of stream configurations, which compare the extra-data array by reference.
- `PlayerService` (player_service.dfy) models the front end's player state, its `StateChanged` events, the commands and `SetSource`.
- `TestUtils`, `VideoAnalysis` and `TestDash` (test_utils.dfy, video_analysis.dfy, test_dash.dfy) model the integration tests:
  - the record of a playback action;
  - the classifier that turns OCR'd timestamps into actions;
  - the expected actions of an order queue;
  - the tolerant comparison of detected and expected actions.

`Common` (common.dfy) and `Text` (text.dfy) hold shared types and the split/join and decimal-numeral helpers.

Native code, the clock, the network and every collaborator whose source is not shown (FFmpeg, the CDM, the packet synchronizer, the platform player, the data providers) enter only as parameters. This covers `av_read_frame` results, `av_rescale_q`, `CodecExtraDataParser.Parse`, `av_get_bytes_per_sample`, download and parse outcomes, CDM answers and submit results. The calls made on such collaborators are recorded as sequences in the object's state.

Stateful code follows the source's form. `AvFormatContextWrapper`, `DashManifest`, `StreamRenderer` and `PlayerService` are classes with `modifies` clauses. Source loops are methods with loop invariants, each proved equal to a specification function. The properties are proved about those functions.

Two behaviours of the source a reader may not expect:

- `PrependExtraDataIfNeeded` (JuvoPlayer/Demuxers/FFmpeg/AVFormatContextWrapper.cs:361-376) adds the parsed extra data to every video key frame, while the parse itself runs once per stream index (`AvFormat.AvFormatContextWrapper.PrependExtraDataIfNeeded`).
- The loop of `detect_actions` (IntegrationTests/video_analysis.py:121) also pairs the first timestamp with itself, and `compare_action` (IntegrationTests/test_dash.py:147) subtracts a signed offset from an absolute difference (see Findings).

## Model

| member | source | states |
|---|---|---|
| Common.ToInt32 | JuvoPlayer/Demuxers/FFmpeg/AVFormatContextWrapper.cs:427 | The `(int)` cast of a 32-bit unsigned count is in the int range, and is non-positive exactly for 0 and for counts of 2^31 or more |
| Common.TruncDiv | JuvoPlayer/JuvoPlayer/FFmpeg/FFmpegDemuxer.cs:234-235 | C# integer division rounds toward zero: the remainder has the dividend's sign and is smaller than the divisor in magnitude |
| Text.Split | JuvoLogger.Tizen/TizenLogger.cs:72 | Splitting on a character gives one more piece than there are separators, and no piece contains the separator |
| Text.JoinSplit | JuvoLogger.Tizen/TizenLogger.cs:72 | Joining the pieces of a split with the separator gives the string back |
| Text.SplitJoin | IntegrationTests/video_analysis.py:64 | Splitting a join of separator-free pieces gives the pieces back |
| Text.ParseDecimal | JuvoPlayer/Demuxers/FFmpeg/AVFormatContextWrapper.cs:138 | A string parses as a decimal numeral exactly when it is non-empty and all digits |
| Text.ParseShowNat | IntegrationTests/video_analysis.py:109-113 | Parsing the decimal numeral of n gives n |
| Pssh.SwapValue | JuvoPlayer/Demuxers/FFmpeg/AVFormatContextWrapper.cs:266-275 | The swapped word is the shift-or expression of the source, and swapping twice is the identity |
| Pssh.WriteSwappedIsBigEndian | JuvoPlayer/Demuxers/FFmpeg/AVFormatContextWrapper.cs:266-275 | Writing a swapped value with the little-endian writer lays it out big-endian, and reading it back gives the value |
| Pssh.BuildPsshAtom | JuvoPlayer/Demuxers/FFmpeg/AVFormatContextWrapper.cs:277-326 | The bytes written one writer call at a time are the box of the init info, field by field |
| Pssh.PsshHeader | JuvoPlayer/Demuxers/FFmpeg/AVFormatContextWrapper.cs:288-297 | Bytes 0-3 are the declared length big-endian, 4-7 are `pssh`, 8-11 are `01 00 00 00` exactly when there are key ids (zero otherwise), and 12-27 are the system id |
| Pssh.PsshBody | JuvoPlayer/Demuxers/FFmpeg/AVFormatContextWrapper.cs:299-322 | After the system id come a big-endian key-id count and 16 bytes per key id (only with key ids), then the big-endian data size and the data, or four zero bytes |
| Pssh.KeyIdFieldLayout | JuvoPlayer/Demuxers/FFmpeg/AVFormatContextWrapper.cs:299-309 | With key ids, the key-id field is the big-endian count followed by key id i at offset 4 + 16 i; without them it is empty |
| Pssh.DataFieldLayout | JuvoPlayer/Demuxers/FFmpeg/AVFormatContextWrapper.cs:311-322 | The data field is the big-endian size and the data when there is data, and four zero bytes otherwise |
| Pssh.PsshLength | JuvoPlayer/Demuxers/FFmpeg/AVFormatContextWrapper.cs:285-325 | The box has 32 bytes, plus 4 + 16 per key id when there are key ids, plus the data size when there is data |
| Pssh.DeclaredLengthMatches | JuvoPlayer/Demuxers/FFmpeg/AVFormatContextWrapper.cs:279-283 | The declared length equals the bytes written exactly when the native data is non-null or the data size is 0; the first word then reads back as the box length |
| AvFormat.ParseULong | JuvoPlayer/Demuxers/FFmpeg/AVFormatContextWrapper.cs:138 | ulong.TryParse succeeds exactly for decimal numerals below 2^64, with their value |
| AvFormat.BestBandwidthUnique | JuvoPlayer/Demuxers/FFmpeg/AVFormatContextWrapper.cs:128-150 | At most one stream is the first with the strictly greatest positive bandwidth |
| AvFormat.AvFormatContextWrapper.FindBestBandwidthStream | JuvoPlayer/Demuxers/FFmpeg/AVFormatContextWrapper.cs:124-151 | Throws without a context; -1 as soon as a stream of the type lacks `variant_bitrate`; otherwise -1 exactly when no stream offers a positive bandwidth, and else the first stream with the strictly greatest one (other types and unparsable values are skipped) |
| AvFormat.AvFormatContextWrapper.EnableStreams | JuvoPlayer/Demuxers/FFmpeg/AVFormatContextWrapper.cs:153-167 | Throws without a context; otherwise stream i becomes DEFAULT exactly when i is listed and every other stream ALL, out-of-range indexes ignored, nothing else changed |
| AvFormat.SeekStreamUnique | JuvoPlayer/Demuxers/FFmpeg/AVFormatContextWrapper.cs:237-251 | The seek stream (first enabled video, else last enabled audio) is unique |
| AvFormat.SeekStreamExists | JuvoPlayer/Demuxers/FFmpeg/AVFormatContextWrapper.cs:237-253 | A seek stream exists whenever some audio or video stream is enabled |
| AvFormat.FirstEnabled | JuvoPlayer/Demuxers/FFmpeg/AVFormatContextWrapper.cs:243-246 | Some enabled stream of a type is the least one |
| AvFormat.LastEnabled | JuvoPlayer/Demuxers/FFmpeg/AVFormatContextWrapper.cs:249-250 | Some enabled stream of a type is the greatest one |
| AvFormat.CalculateTarget | JuvoPlayer/Demuxers/FFmpeg/AVFormatContextWrapper.cs:402-422 | A target below `first_dts` becomes `first_dts`; otherwise a target past the last index entry becomes that entry, else a target past a positive duration becomes the duration, else the target is kept; the result is never above a target at or past `first_dts` |
| AvFormat.CalculateTargetInRange | JuvoPlayer/Demuxers/FFmpeg/AVFormatContextWrapper.cs:402-422 | For a stream whose bounds are ordered, the clamped target lies within them; an in-range target is unchanged; a target past the range is lowered to the last index entry, or without index entries to the duration; clamping is idempotent |
| AvFormat.CalculateTargetMonotone | JuvoPlayer/Demuxers/FFmpeg/AVFormatContextWrapper.cs:402-422 | For a stream with ordered bounds, a later time never gives an earlier seek target |
| AvFormat.AvFormatContextWrapper.Seek | JuvoPlayer/Demuxers/FFmpeg/AVFormatContextWrapper.cs:230-255 | Throws without a context, with a wrong-index error when nothing is enabled, and when av_seek_frame fails; otherwise seeks the seek stream to the clamped rescaled target |
| AvFormat.EncryptionOf | JuvoPlayer/Demuxers/FFmpeg/AVFormatContextWrapper.cs:427-440 | Subsamples are set exactly when the 32-bit count, cast to `int`, is positive |
| AvFormat.CreateEncryptedPacket | JuvoPlayer/Demuxers/FFmpeg/AVFormatContextWrapper.cs:424-453 | The loop copies the key id, the IV and the subsample pairs in order, as EncryptionOf states |
| AvFormat.DemuxedPacket | JuvoPlayer/Demuxers/FFmpeg/AVFormatContextWrapper.cs:206-223 | Pts and dts are the rescaled times, or 0 where the rescaled time is negative; the duration is the rescaled duration and the bytes are the read bytes; the key-frame bit is the low bit of `flags`; audio streams give Audio and all others Video; the packet carries EncryptionOf its side data exactly when there is side data |
| AvFormat.WithExtraData | JuvoPlayer/Demuxers/FFmpeg/AVFormatContextWrapper.cs:363-375 | Only a video key frame with non-null extra data changes, and it gets the extra data in front of its bytes |
| AvFormat.AvFormatContextWrapper.NextPacket | JuvoPlayer/Demuxers/FFmpeg/AVFormatContextWrapper.cs:187-228 | Throws when disposed; null without a context or on AVERROR_EOF; throws for other negative codes; otherwise the demuxed packet with extra data; the cache only grows, at the packet's stream |
| AvFormat.AvFormatContextWrapper.PrependExtraDataIfNeeded | JuvoPlayer/Demuxers/FFmpeg/AVFormatContextWrapper.cs:361-376 | Parses a stream's extra data at most once per index (the parser log never repeats an index) and prepends it to video key frames |
| AvFormat.BoxesOfEmpty | JuvoPlayer/Demuxers/FFmpeg/AVFormatContextWrapper.cs:344-349 | An init-info list gives no bytes exactly when it is empty, and at least 32 bytes per entry |
| AvFormat.AllBoxesEmpty | JuvoPlayer/Demuxers/FFmpeg/AVFormatContextWrapper.cs:333-353 | All streams' boxes are empty exactly when no stream carries an init-info entry |
| AvFormat.AppendBoxes | JuvoPlayer/Demuxers/FFmpeg/AVFormatContextWrapper.cs:344-349 | The inner loop appends the boxes of the list in list order |
| AvFormat.AvFormatContextWrapper.GetDrmInitData | JuvoPlayer/Demuxers/FFmpeg/AVFormatContextWrapper.cs:328-359 | Throws NullReferenceException without a context; otherwise null when no stream carries init info, and else Cenc data holding every box in stream order and then list order |
| AvFormat.AvFormatContextWrapper.Duration | JuvoPlayer/Demuxers/FFmpeg/AVFormatContextWrapper.cs:82-84 | Throws NullReferenceException exactly when the context is gone; otherwise a positive duration in microseconds gives its whole milliseconds (truncated), and any other gives zero |
| AvFormat.AvFormatContextWrapper.Dispose | JuvoPlayer/Demuxers/FFmpeg/AVFormatContextWrapper.cs:257-264 | Afterwards the wrapper is disposed and has no context, while streams, duration and the extra-data cache are kept |
| FfmpegDemuxer.ConvertAudioCodec | JuvoPlayer/JuvoPlayer/FFmpeg/FFmpegDemuxer.cs:486-526 | Each listed id converts to the codec with that id; any other id throws Unsupported codec |
| FfmpegDemuxer.ConvertVideoCodec | JuvoPlayer/JuvoPlayer/FFmpeg/FFmpegDemuxer.cs:528-560 | Each listed id converts to the codec with that id; any other id throws |
| FfmpegDemuxer.CodecRoundTrips | JuvoPlayer/JuvoPlayer/FFmpeg/FFmpegDemuxer.cs:486-560 | Every player codec is reached from its own FFmpeg id |
| FfmpegDemuxer.CodecConversionFails | JuvoPlayer/JuvoPlayer/FFmpeg/FFmpegDemuxer.cs:486-560 | The conversions throw exactly for ids outside their lists, and no id converts both as audio and as video |
| FfmpegDemuxer.ExtraDataOf | JuvoPlayer/JuvoPlayer/FFmpeg/FFmpegDemuxer.cs:428-432 | Extra data is set exactly for a positive size, and then holds the bytes |
| FfmpegDemuxer.BitsPerChannel | JuvoPlayer/JuvoPlayer/FFmpeg/FFmpegDemuxer.cs:418-424 | `bits_per_coded_sample` when positive; otherwise bytes-per-sample times 8 divided by the channel count, which throws exactly for zero channels |
| FfmpegDemuxer.ReadAudioConfig | JuvoPlayer/JuvoPlayer/FFmpeg/FFmpegDemuxer.cs:406-450 | Nothing for an out-of-range index; for a stream, an unsupported codec throws Unsupported codec, a zero channel count (with no coded bits per sample) throws DivideByZeroException, and otherwise a config is emitted carrying the converted codec, bits per channel, channels, sample rate and extra data |
| FfmpegDemuxer.ReadVideoConfig | JuvoPlayer/JuvoPlayer/FFmpeg/FFmpegDemuxer.cs:452-484 | Nothing for an out-of-range index; otherwise it throws exactly for an unsupported codec and gives a config for a supported one, and the config carries codec, profile, size, frame rate and extra data |
| FfmpegDemuxer.InitConfigs | JuvoPlayer/JuvoPlayer/FFmpeg/FFmpegDemuxer.cs:203-212 | A failing audio config suppresses both events; otherwise there is exactly one audio event when an audio config was read, first, and one video event when a video config was read, last, and nothing else |
| FfmpegDemuxer.SuffixPes | JuvoPlayer/JuvoPlayer/FFmpeg/FFmpegDemuxer.cs:307-310 | The PES suffix has 14 bytes, and its first byte is 0xC0 exactly for audio and 0xE0 otherwise |
| FfmpegDemuxer.CopiedData | JuvoPlayer/JuvoPlayer/FFmpeg/FFmpegDemuxer.cs:305-330 | With stripping asked for and the suffix present, the data plus the suffix is the source; otherwise the data is the source |
| FfmpegDemuxer.SuffixesExclusive | JuvoPlayer/JuvoPlayer/FFmpeg/FFmpegDemuxer.cs:307-310 | No data ends with both the audio and the video suffix |
| FfmpegDemuxer.CopyPacketData | JuvoPlayer/JuvoPlayer/FFmpeg/FFmpegDemuxer.cs:305-330 | The byte-by-byte comparison loop keeps what CopiedData states |
| FfmpegDemuxer.Millis | JuvoPlayer/JuvoPlayer/FFmpeg/FFmpegDemuxer.cs:234-235 | A non-negative microsecond time gives its whole milliseconds; a negative one gives 0 |
| FfmpegDemuxer.EncryptionOf | JuvoPlayer/JuvoPlayer/FFmpeg/FFmpegDemuxer.cs:272-303 | The key id, the first `iv_size` IV bytes, and the first `subsample_count` pairs only when the count is positive |
| FfmpegDemuxer.CreateEncryptedPacket | JuvoPlayer/JuvoPlayer/FFmpeg/FFmpegDemuxer.cs:272-303 | The filling loop produces what EncryptionOf states |
| FfmpegDemuxer.StreamPacketOf | JuvoPlayer/JuvoPlayer/FFmpeg/FFmpegDemuxer.cs:234-252 | Audio exactly for the audio index, else Video; times are microseconds divided by 1000 and clamped at zero; key frame exactly when `flags == 1`; encrypted packets keep their bytes and all others have the suffix stripped |
| FfmpegDemuxer.FirstFailure | JuvoPlayer/JuvoPlayer/FFmpeg/FFmpegDemuxer.cs:214-263 | The number of successful reads before the first negative read code |
| FfmpegDemuxer.DemuxLoop | JuvoPlayer/JuvoPlayer/FFmpeg/FFmpegDemuxer.cs:214-263 | The loop raises the Demuxed events: a packet per selected successful read, then null only for end of stream; it stops after the first failing read |
| FfmpegDemuxer.PacketsOfAppend | JuvoPlayer/JuvoPlayer/FFmpeg/FFmpegDemuxer.cs:214-252 | Forwarding keeps read order across concatenated runs of reads |
| FfmpegDemuxer.PacketsOfShape | JuvoPlayer/JuvoPlayer/FFmpeg/FFmpegDemuxer.cs:226-249 | At most one packet per read; every packet is Audio or Video with non-negative times; no packets when no read is selected |
| FfmpegDemuxer.NullOnlyAtEnd | JuvoPlayer/JuvoPlayer/FFmpeg/FFmpegDemuxer.cs:256-262 | Only the last event can be null, and there is a null exactly when the first failing read is end of stream |
| TizenLogger.DlogFor | JuvoLogger.Tizen/TizenLogger.cs:40-46 | Each NLog level maps to the dlog level of the same severity, and any other level to Error |
| TizenLogger.ChunksFrom | JuvoLogger.Tizen/TizenLogger.cs:78-84 | At least one chunk, each at most 800 characters |
| TizenLogger.ChunkAll | JuvoLogger.Tizen/TizenLogger.cs:72-86 | Every part for a sequence of lines has at most 800 characters |
| TizenLogger.SplitMessage | JuvoLogger.Tizen/TizenLogger.cs:60-88 | A message of at most 800 characters is one part, itself; a longer one gives the chunks of its lines split at `\n`, every part at most 800 |
| TizenLogger.Write | JuvoLogger.Tizen/TizenLogger.cs:35-58 | Every dlog call uses the mapped level and the logger's channel; a short message is one call; a long one gives one call per part, in order |
| TizenLogger.ChunksConcat | JuvoLogger.Tizen/TizenLogger.cs:78-84 | The chunks of a line concatenate to the line |
| TizenLogger.ShortLineIsOnePart | JuvoLogger.Tizen/TizenLogger.cs:74-75 | A line of at most 800 characters, even an empty one, is one part |
| TizenLogger.LongLineShape | JuvoLogger.Tizen/TizenLogger.cs:76-85 | A longer line gives ceil(length / 800) non-empty chunks, all but the last of exactly 800, so there is no empty trailing chunk |
| TizenLogger.TwoThousandCharacters | JuvoLogger.Tizen/TizenLogger.cs:76-85 | Example: a 2000-character line gives 800, 800 and 400 |
| TizenLogger.ChunkAllIsFlattening | JuvoLogger.Tizen/TizenLogger.cs:72-86 | The parts are the per-line chunks, line after line |
| TizenLogger.SplitMessageRoundTrip | JuvoLogger.Tizen/TizenLogger.cs:72-86 | Concatenating each line's chunks and joining the lines with `\n` gives the message back |
| DashManifest.DashManifest.CancelReload | JuvoPlayer/DataProviders/Dash/DashManifest.cs:38-48 | Changes nothing when no attempt is in flight; otherwise it only requests cancellation: it may change no other field |
| DashManifest.DashManifest.StartReload | JuvoPlayer/DataProviders/Dash/DashManifest.cs:50-64 | Returns without any change when the lock is taken; otherwise takes it, installs a token source and stamps `lastReloadTime` before downloading |
| DashManifest.DashManifest.DownloadCompleted | JuvoPlayer/DataProviders/Dash/DashManifest.cs:64-72 | A failed download ends the attempt (cancelled if asked) and keeps document, period and stamp; a text goes on to the parse with the download time stamped; the request time is kept on both paths |
| DashManifest.DashManifest.ParseCompleted | JuvoPlayer/DataProviders/Dash/DashManifest.cs:74-99 | Commits exactly when the parse succeeded and no cancellation was asked; the stamped document and its update period (TimeSpan.MaxValue when absent) are stored; otherwise nothing changes; the lock is released on every path and the attempt's request and download times are kept |
| DashManifest.DashManifest.Finish | JuvoPlayer/DataProviders/Dash/DashManifest.cs:93-99 | The token source is cleared and the lock released |
| DashManifest.DueCases | JuvoPlayer/DataProviders/Dash/DashManifest.cs:32-36 | With no document a reload is due; a static document is never due; a dynamic one is due exactly once the period has elapsed since the last attempt. `Due` is the policy the predicate `DashManifest.DashManifest.NeedsReload` evaluates on the manifest's fields, so this row covers it |
| DashManifest.NoUpdatePeriodNeverDue | JuvoPlayer/DataProviders/Dash/DashManifest.cs:89 | A document without an update period is never due again |
| DashManifest.ReloadCycle | JuvoPlayer/DataProviders/Dash/DashManifest.cs:50-100 | After a successful reload of a dynamic document, the committed document carries the attempt's request, download and parse times, and a reload is next due exactly one period after the attempt started |
| DashManifest.CancelledAttemptKeepsDocument | JuvoPlayer/DataProviders/Dash/DashManifest.cs:38-99 | A cancellation during the download ends the attempt as cancelled even when download and parse succeed; document and period are kept, and the request time stamped at the start survives to the parse |
| DashManifest.FailedAttemptPostpones | JuvoPlayer/DataProviders/Dash/DashManifest.cs:61-72 | A failed download keeps document and period and still postpones the next reload by a full period |
| StreamRenderer.KeyWaitsSkipped | JuvoPlayer/Players/StreamRenderer.cs:134-149 | Key waits that end with a key-status change are retried, so the first other attempt decides |
| StreamRenderer.DecryptedOnlyAfterKeyWaits | JuvoPlayer/Players/StreamRenderer.cs:134-149 | A packet is decrypted only by a successful Decrypt call that follows nothing but key waits |
| StreamRenderer.DecryptPacket | JuvoPlayer/Players/StreamRenderer.cs:129-150 | The retry loop ends as DecryptOutcome states: decrypted, thrown (cancelled or not) or still waiting |
| StreamRenderer.SubmittedForm | JuvoPlayer/Players/StreamRenderer.cs:106-113 | The specification SubmitPacket is proved against: a plain packet is submitted unchanged, an encrypted one as DecryptOutcome of its attempts |
| StreamRenderer.StreamRenderer.SubmitPacket | JuvoPlayer/Players/StreamRenderer.cs:101-114 | A plain packet as it is, an encrypted one in its decrypted form |
| StreamRenderer.ObserverFollowsSubmits | JuvoPlayer/Players/StreamRenderer.cs:74-90 | The observer sees the taken packets in order, only those whose submit returned Success, and lags the submits only by the one packet whose submit failed, which ends the loop |
| StreamRenderer.FailedSubmitEndsLoop | JuvoPlayer/Players/StreamRenderer.cs:74-90 | After k accepted packets, a cleared packet the player does not accept ends the loop as failed: k + 1 packets submitted, exactly the first k observed, and later steps have no effect |
| StreamRenderer.SubmittedAreClear | JuvoPlayer/Players/StreamRenderer.cs:74-113 | Every submitted packet is the clear form of the packet taken at that turn, and the packet itself when it was plain |
| StreamRenderer.StreamRenderer.StartPushingPackets | JuvoPlayer/Players/StreamRenderer.cs:59-99 | Does nothing while already pushing; otherwise sets the flag, installs the segment and a fresh token, submits and reports as PushTrace states, and catches the ending exception with the flag left set |
| StreamRenderer.StreamRenderer.StopPushingPackets | JuvoPlayer/Players/StreamRenderer.cs:116-121 | Cancels the token if there is one and clears the flag |
| StreamRenderer.StreamRenderer.Flush | JuvoPlayer/Players/StreamRenderer.cs:123-127 | Only flushes the synchronizer |
| StreamRenderer.StreamRenderer.HandlePacket | JuvoPlayer/Players/StreamRenderer.cs:48-52 | Only adds the packet to the synchronizer |
| StreamRenderer.StreamRenderer.HandleDrmInitData | JuvoPlayer/Players/StreamRenderer.cs:54-57 | Only forwards the init data to the CDM context |
| StreamConfig.ArraysEqual | JuvoPlayer/Common/StreamConfig.cs:43 | object.Equals on two byte arrays is reference equality, with null equal only to null |
| StreamConfig.EqualsConfig | JuvoPlayer/Common/StreamConfig.cs:40-44 | False for null; otherwise true exactly when the extra-data arrays are the same reference |
| StreamConfig.EqualsObject | JuvoPlayer/Common/StreamConfig.cs:35-38 | False for anything that is not a stream configuration; otherwise as EqualsConfig |
| StreamConfig.GetHashCode | JuvoPlayer/Common/StreamConfig.cs:30-33 | Throws exactly for a null array; otherwise the array's identity hash |
| StreamConfig.EqualsIsEquivalence | JuvoPlayer/Common/StreamConfig.cs:35-44 | Equality is reflexive, symmetric and transitive, and ignores stream type and subclass fields |
| StreamConfig.EqualConfigsEqualHashes | JuvoPlayer/Common/StreamConfig.cs:30-44 | Equal configurations with a non-null array have equal hash codes |
| StreamConfig.SameBytesDifferentArrays | JuvoPlayer/Common/StreamConfig.cs:43 | Two distinct arrays holding the same bytes make configurations unequal, while a different type and different fields do not |
| PlayerService.ToStreamType | JuvoPlayer.OpenGL/Services/PlayerService.cs:123-136 | Converting back with `PlayerService.ToJuvoStreamType` (PlayerService.cs:108-121) gives the stream type, so this row also covers that function |
| PlayerService.StreamTypeRoundTrips | JuvoPlayer.OpenGL/Services/PlayerService.cs:108-136 | The two conversions are inverse bijections |
| PlayerService.SetSourceCalls | JuvoPlayer.OpenGL/Services/PlayerService.cs:144-157 | Disconnect, create, one DRM configuration per DRM entry in order, connect, start |
| PlayerService.PlayerService.constructor | JuvoPlayer.OpenGL/Services/PlayerService.cs:26 | The initial state is Idle, with no events and no calls |
| PlayerService.PlayerService.SetState | JuvoPlayer.OpenGL/Services/PlayerService.cs:37-45 | Every assignment stores the state and raises StateChanged with it |
| PlayerService.PlayerService.Start | JuvoPlayer.OpenGL/Services/PlayerService.cs:160-165 | Calls OnPlay, then sets Playing whatever the state was |
| PlayerService.PlayerService.Pause | JuvoPlayer.OpenGL/Services/PlayerService.cs:67-71 | Calls OnPause, then sets Paused whatever the state was |
| PlayerService.PlayerService.Stop | JuvoPlayer.OpenGL/Services/PlayerService.cs:167-172 | Calls OnStop, then sets Stopped whatever the state was |
| PlayerService.PlayerService.SeekTo | JuvoPlayer.OpenGL/Services/PlayerService.cs:73-76 | Forwards the seek and leaves the state and the events alone |
| PlayerService.PlayerService.OnPlaybackCompleted | JuvoPlayer.OpenGL/Services/PlayerService.cs:62 | PlaybackCompleted sets Completed |
| PlayerService.PlayerService.OnPlayerInitialized | JuvoPlayer.OpenGL/Services/PlayerService.cs:63 | PlayerInitialized sets Prepared |
| PlayerService.PlayerService.OnPlaybackError | JuvoPlayer.OpenGL/Services/PlayerService.cs:64 | PlaybackError sets Error |
| PlayerService.PlayerService.SetSource | JuvoPlayer.OpenGL/Services/PlayerService.cs:138-158 | Anything but a clip is ignored; a clip makes the SetSourceCalls in order and becomes the data provider |
| PlayerService.Session | JuvoPlayer.OpenGL/Services/PlayerService.cs:37-76 | Example: Start, SeekTo and an error give the events Playing and Error, with SeekTo raising none |
| TestUtils.Simple | IntegrationTests/juvo_test_utils.py:57-62 | An action with its defaults: no seek destination and no resolution |
| VideoAnalysis.RemoveChar | IntegrationTests/video_analysis.py:64 | The result contains no occurrence of the character and only characters of the input |
| VideoAnalysis.SplitPages | IntegrationTests/video_analysis.py:63-64 | No piece contains `*` |
| VideoAnalysis.SplitPagesRoundTrip | IntegrationTests/video_analysis.py:63-64 | For OCR output of plain pages, each followed by `\n` and a form feed, split gives the pages back |
| VideoAnalysis.ParseInt | IntegrationTests/video_analysis.py:111 | `int()` succeeds exactly for a decimal numeral with an optional sign, and gives its value, negated for `-` |
| VideoAnalysis.IntTryParse | IntegrationTests/video_analysis.py:109-113 | The value `int()` reads, or -1 for anything that does not parse |
| VideoAnalysis.IntTryParseShowInt | IntegrationTests/video_analysis.py:109-113 | Every integer's numeral parses back to it |
| VideoAnalysis.MinusOneIsAmbiguous | IntegrationTests/video_analysis.py:109-113 | "-1", "" and "1O" all give -1, so a read -1 cannot be told from a failed read |
| VideoAnalysis.LastActionIndex | IntegrationTests/video_analysis.py:146-150 | The greatest index of an action with that name, or -1 when there is none |
| VideoAnalysis.FindLastAction | IntegrationTests/video_analysis.py:146-150 | The reversed scan returns what LastActionIndex states |
| VideoAnalysis.Initial | IntegrationTests/video_analysis.py:116-119 | Play at the first time exactly when the first number is readable |
| VideoAnalysis.Step | IntegrationTests/video_analysis.py:122-141 | After a step whose new number is readable there is at least one action |
| VideoAnalysis.StepAdds | IntegrationTests/video_analysis.py:122-141 | A step keeps the earlier actions and adds only actions the pair explains: changeVideo, play, stop, seek to stamp/pace, resume, or pause at the earlier time |
| VideoAnalysis.StepKeepsPausesApart | IntegrationTests/video_analysis.py:140-141 | A step never puts a pause right after a pause |
| VideoAnalysis.StepResumesFollowPauses | IntegrationTests/video_analysis.py:134-138 | A step adds a resume only when the last pause is later than the last resume |
| VideoAnalysis.StepProduces | IntegrationTests/video_analysis.py:122-130 | A resolution change always yields changeVideo, a number becoming readable yields play, and a fall to unreadable yields stop |
| VideoAnalysis.StepProducesSeek | IntegrationTests/video_analysis.py:128-136 | A jump ahead always yields a seek to stamp/pace, and so does a jump back to a readable number unless a changeVideo at most a second old precedes it |
| VideoAnalysis.StepProducesPause | IntegrationTests/video_analysis.py:140-141 | A readable number standing still after anything but a pause yields a pause at the earlier time |
| VideoAnalysis.ChangeSuppressesBackwardSeek | IntegrationTests/video_analysis.py:122-132 | A resolution change while a readable number falls yields the changeVideo alone, with no seek |
| VideoAnalysis.PairsExplained | IntegrationTests/video_analysis.py:121-143 | The loop keeps the initial actions, and every later action is explained by some pair of consecutive timestamps |
| VideoAnalysis.DetectedAsWritten | IntegrationTests/video_analysis.py:115-144 | The classifier as written raises IndexError exactly for no timestamps |
| VideoAnalysis.Detected | IntegrationTests/video_analysis.py:115-144 | The corrected classifier raises IndexError exactly for no timestamps |
| VideoAnalysis.DetectedSound | IntegrationTests/video_analysis.py:115-144 | For timestamps, the corrected classifier never gives two pauses in a row, gives a resume only after an unmatched pause, and gives only the initial play plus actions explained by consecutive pairs |
| VideoAnalysis.FirstActionIsPlay | IntegrationTests/video_analysis.py:116-119 | With increasing times the actions start with play at the first time exactly when the first number is readable |
| VideoAnalysis.AsWrittenHasSelfPair | IntegrationTests/video_analysis.py:121 | The loop as written runs one extra step that pairs the first timestamp with itself |
| VideoAnalysis.FirstPassPauses | IntegrationTests/video_analysis.py:121-141 | As written, every recording whose first number is readable begins with play and then pause, both at the first time |
| VideoAnalysis.AsWrittenKeepsInvariants | IntegrationTests/video_analysis.py:115-144 | As written, the classifier also never gives two pauses in a row and gives a resume only after an unmatched pause |
| VideoAnalysis.SelfPairPausesAtStart | IntegrationTests/video_analysis.py:121 | Example: one readable sample gives play and a spurious pause as written, and only play when corrected |
| VideoAnalysis.SelfPairInventsPauseAndResume | IntegrationTests/video_analysis.py:121 | Example: steady playback gives play, pause and resume as written |
| VideoAnalysis.SteadyPlayIsOnePlay | IntegrationTests/video_analysis.py:115-144 | Example: steady playback gives only play when corrected |
| VideoAnalysis.DetectStep | IntegrationTests/video_analysis.py:122-143 | The loop body with its ifs computes Step |
| VideoAnalysis.DetectActions | IntegrationTests/video_analysis.py:115-144 | The loop computes the corrected classifier, Detected |
| TestDash.ExpectedAction | IntegrationTests/test_dash.py:119-124 | An order gives an action of its name at the offset, with the destination only for a seek; a missing entry raises KeyError |
| TestDash.ExpectedShape | IntegrationTests/test_dash.py:115-126 | Succeeds exactly when every order is well formed (else KeyError); one action per order, same name, time the sum of the earlier delays, destination only for seeks |
| TestDash.ExpectedFailureStays | IntegrationTests/test_dash.py:118-125 | The first failing order decides the outcome |
| TestDash.OrdersToActions | IntegrationTests/test_dash.py:115-126 | The loop computes Expected |
| TestDash.CompareAction | IntegrationTests/test_dash.py:145-165 | Never False; True exactly when the names agree, the gap is within tolerance, a seek's destinations are within the seek tolerance and a changeVideo's resolutions are equal |
| TestDash.CompareFromMeaning | IntegrationTests/test_dash.py:138-143 | The loop from index i never gives False, and gives True exactly when every later pair matches against the previous pair's offset |
| TestDash.CompareMeaning | IntegrationTests/test_dash.py:128-143 | Never False; two empty lists are True; unequal lengths raise ValueError; True exactly when the first pair matches with tolerance 15 and offset 0 and each later pair matches with the offset of the pair before it |
| TestDash.CompareActions | IntegrationTests/test_dash.py:128-143 | The loop computes the corrected comparison |
| TestDash.Shifted | IntegrationTests/test_dash.py:128-143 | The expected actions with every time moved by the shift |
| TestDash.ShiftedActionsMatch | IntegrationTests/test_dash.py:134-148 | Corrected, a detection shifted by up to 15 seconds in either direction matches |
| TestDash.LateShiftAccepted | IntegrationTests/test_dash.py:134-148 | As written, a detection shifted late by up to 15 seconds matches |
| TestDash.EarlyShiftRejected | IntegrationTests/test_dash.py:147-148 | As written, a detection 3 seconds early raises ValueError with mismatch 6 at the second action; corrected it matches |

## Left out

- Native FFmpeg calls (av_read_frame, av_seek_frame, av_rescale_q, av_dict_get, the side-data getters, av_get_bytes_per_sample), CodecExtraDataParser.Parse, Marshal.Copy and GCHandle are foreign code. Their results are parameters.
- Native memory lifetime (ReleaseUnmanagedResources, finalizers, DeallocFFmpeg), the FFmpeg log callbacks and GetErrorText are not modelled. Dispose only records that the context is gone.
- AvFormatContextWrapper's ReadConfig, ReadAudioConfig, ReadVideoConfig, GetCodecExtraData, GetBitsPerChannel, GetLanguage, GetMimeType, Open, FindStreamInfo and FindBestStream are outside the modelled core. The older demuxer's configuration readers are modelled instead.
- FFmpegDemuxer's UpdateContentProtectionConfig, FindStreamsInfo and DumpPacketToFile are left out: native copies and file I/O. Its init block is InitConfigs, and its loop starts from the reads.
- AvFormat.ParseULong: accepts only a plain decimal numeral. It does not model the leading and trailing blanks, the sign or the culture rules that ulong.TryParse allows, because none of these is tied to the tags FFmpeg writes.
- VideoAnalysis.ParseInt: it does not model Python `int()`'s surrounding whitespace, underscores between digits or non-ASCII digits. It accepts a sign and ASCII digits only.
- VideoAnalysis.IntTryParse: `int()` errors other than ValueError are not raised, since a string argument cannot raise them.
- TizenLogger.ChunksFrom: lengths count Dafny characters (Unicode scalar values), while `Length` and `Substring` count UTF-16 code units, so outside the Basic Multilingual Plane the chunk boundaries differ and the source can cut a surrogate pair that the model keeps whole; SplitMessage and Write inherit this.
- AvFormat.AvFormatContextWrapper.FindBestBandwidthStream: a stream has one media type, while the source reads `codecpar->codec_type` here and `codec->codec_type` in NextPacket and Seek; the model assumes the two agree.
- AvFormat.SideDataOk: the subsample count of the encryption side data is taken to be below 2^32 and to equal the number of subsamples present; the source reads both from FFmpeg's native side data and checks neither.
- FfmpegDemuxer.EncInfoOk: the IV size is taken to fit the IV array and the subsample count to fit the subsample array; the source trusts FFmpeg for these sizes and checks nothing.
- Pssh.WellFormed: the system id and every key id are taken to be 16 bytes, and the counts to fit in 32 bits and match the arrays, as the native structure lays them out; the source trusts FFmpeg for this and checks nothing.
- AvFormat.DemuxedPacket: rescaled times are unbounded integers. The TimeSpan overflow of an extreme rescale result is not modelled.
- FfmpegDemuxer.Millis: it does not model the long overflow of an extreme rescale result.
- AvFormat.AvFormatContextWrapper.Seek: the millisecond time is an integer, so the truncation of TimeSpan.TotalMilliseconds is assumed done by the caller.
- C# enums holding values outside their declared members are not modelled. ToJuvoStreamType and ToStreamType are total on the three members, so the IndexOutOfRangeException default branches do not exist in the model.
- DashManifest's constructor null check on the url is not modelled. Dafny strings are never null.
- The async and Rx plumbing of DashManifest and StreamRenderer is not modelled. DashManifest's task is split at its two awaits. StreamRenderer's cancellation appears as a TakeCancelled step or a cancelled key wait. A stop that lands between loop turns is not interleaved.
- PacketSynchronizer, CdmContext, BufferingObserver and IPlatformPlayer have no source here. Their answers are the steps of the push loop, and the renderer's calls on them are recorded.
- PlayerService's Duration, CurrentPosition, IsSeekingSupported, CurrentCueText, ChangeActiveStream, DeactivateStream, GetStreamsDescription and Dispose only forward to the data provider or controller. The factory registrations, DataProviderConnector and GC.Collect are wiring.
- VideoAnalyzer.run, the OpenCV and tesseract helpers and the video cache are image processing and file I/O. The OCR text and the timestamps are inputs.
- VideoAnalysis: the `pace` argument of the analyzer's constructor is ignored, as in the source: `Pace` is the constant 10.
- Python floats are not modelled. Sample times and tolerances are whole seconds (`int`), and seek destinations and the seek tolerance are `real`.
- VideoAnalysis.DetectActions and TestDash.CompareActions implement the corrected behaviour of the two findings below. The behaviour as written is kept in the functions DetectedAsWritten and Compare with DistanceMinusOffset, and lemmas exhibit it.
- The SSH, SCP and HTTP helpers of the test utilities, the pytest fixtures and the test scenarios are test wiring.

## Findings

| source | as written | input that shows it | evidently intended | confidence | as-written member | corrected member |
|---|---|---|---|---|---|---|
| IntegrationTests/video_analysis.py:121 | `for index, now in enumerate(timestamps, start=1)` still visits `timestamps[0]`, because `start` only renumbers; the first step pairs the first sample with itself | `[Timestamp(0, 42, "")]` gives play, pause; steady `[Timestamp(0, 0, "1280x720"), Timestamp(1, 10, "1280x720")]` gives play, pause, resume | the loop runs over the consecutive pairs only (`timestamps[1:]`) | not executed | VideoAnalysis.FirstPassPauses | VideoAnalysis.DetectedSound |
| IntegrationTests/test_dash.py:147 | `abs(abs(a1.time - a2.time) - offset)` takes the distance before subtracting a signed offset | actions play@0, pause@7 against expected play@3, pause@10, tolerance 5: the first match sets offset -3, then the mismatch is 6 and ValueError is raised | `abs((a1.time - a2.time) - offset)`, the drift from the previous offset | not executed | TestDash.EarlyShiftRejected | TestDash.ShiftedActionsMatch |
