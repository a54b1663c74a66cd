/** The Tizen log target (JuvoLogger.Tizen/TizenLogger.cs): maps an NLog level
    to a dlog level and cuts long messages into parts dlog accepts, first at
    newlines and then into fixed-size chunks. */
module TizenLogger {
  import opened Text

  /** Longest message part handed to dlog in one call. */
  const MaxLen: nat := 800

  /** The NLog levels, in NLog's ordinal order (Trace = 0 ... Off = 6). */
  datatype LogLevel = Trace | Debug | Info | Warn | Error | Fatal | Off

  /** The dlog entry points of Tizen.Log. */
  datatype DlogLevel = DlogVerbose | DlogDebug | DlogInfo | DlogWarn | DlogError | DlogFatal

  function Ordinal(l: LogLevel): nat {
    match l
    case Trace => 0 case Debug => 1 case Info => 2 case Warn => 3
    case Error => 4 case Fatal => 5 case Off => 6
  }

  /** dlog's priority numbers (DLOG_VERBOSE = 2 ... DLOG_FATAL = 7). */
  function Priority(d: DlogLevel): nat {
    match d
    case DlogVerbose => 2 case DlogDebug => 3 case DlogInfo => 4
    case DlogWarn => 5 case DlogError => 6 case DlogFatal => 7
  }

  /** The level dispatch of Write: each of the six NLog levels goes to the
      dlog function of the same severity, anything else to Error. */
  function DlogFor(lvl: LogLevel): (r: DlogLevel)
    ensures lvl != Off ==> Priority(r) == Ordinal(lvl) + 2
    ensures lvl == Off ==> r == DlogError
  {
    if lvl == Trace then DlogVerbose
    else if lvl == Debug then DlogDebug
    else if lvl == Info then DlogInfo
    else if lvl == Warn then DlogWarn
    else if lvl == Error then DlogError
    else if lvl == Fatal then DlogFatal
    else DlogError
  }

  function Concat(parts: seq<string>): string
    decreases |parts|
  {
    if |parts| == 0 then "" else parts[0] + Concat(parts[1..])
  }

  /** The chunks of `line` from position `start` on: MaxLen characters at a
      time, the last chunk holding what remains. */
  function ChunksFrom(line: string, start: nat): (r: seq<string>)
    requires start <= |line|
    ensures forall i :: 0 <= i < |r| ==> |r[i]| <= MaxLen
    ensures |r| >= 1
    decreases |line| - start
  {
    if |line| - start <= MaxLen then [line[start..]]
    else [line[start..start + MaxLen]] + ChunksFrom(line, start + MaxLen)
  }

  /** How one line of a long message is emitted. */
  function Chunks(line: string): seq<string> {
    ChunksFrom(line, 0)
  }

  /** The parts for a sequence of lines, line after line. */
  function ChunkAll(lines: seq<string>): (r: seq<string>)
    ensures forall i :: 0 <= i < |r| ==> |r[i]| <= MaxLen
    decreases |lines|
  {
    if |lines| == 0 then []
    else ChunkAll(lines[..|lines| - 1]) + Chunks(lines[|lines| - 1])
  }

  /** SplitMessage: a message of at most MaxLen characters is one part;
      a longer one is split on '\n', and each line longer than MaxLen is cut
      into MaxLen-character chunks plus a remainder. */
  method SplitMessage(message: string) returns (parts: seq<string>)
    ensures |message| <= MaxLen ==> parts == [message]
    ensures |message| > MaxLen ==> parts == ChunkAll(Split(message, '\n'))
    ensures forall i :: 0 <= i < |parts| ==> |parts[i]| <= MaxLen
  {
    if |message| <= MaxLen {
      return [message];
    }
    var lines := Split(message, '\n');
    parts := [];
    for k := 0 to |lines|
      invariant parts == ChunkAll(lines[..k])
    {
      var line := lines[k];
      assert lines[..k + 1][..k] == lines[..k];
      if |line| <= MaxLen {
        parts := parts + [line];
      } else {
        ghost var before := parts;
        var start := 0;
        var end := MaxLen;
        while end < |line|
          invariant end == start + MaxLen && start <= |line|
          invariant parts + ChunksFrom(line, start) == before + Chunks(line)
          decreases |line| - start
        {
          parts := parts + [line[start..start + MaxLen]];
          start := end;
          end := end + MaxLen;
        }
        parts := parts + [line[start..]];
      }
    }
    assert lines[..|lines|] == lines;
  }

  /** One dlog call of Write. */
  datatype LogCall = LogCall(level: DlogLevel, channel: string, message: string)

  /** Write: the calls made to dlog for one log event. */
  method Write(lvl: LogLevel, channel: string, message: string) returns (calls: seq<LogCall>)
    ensures forall i :: 0 <= i < |calls| ==> calls[i].level == DlogFor(lvl) && calls[i].channel == channel
    ensures forall i :: 0 <= i < |calls| ==> |calls[i].message| <= MaxLen
    ensures |message| <= MaxLen ==> calls == [LogCall(DlogFor(lvl), channel, message)]
    ensures |message| > MaxLen ==>
      |calls| == |ChunkAll(Split(message, '\n'))| &&
      forall i :: 0 <= i < |calls| ==> calls[i].message == ChunkAll(Split(message, '\n'))[i]
  {
    var tizenLog := DlogFor(lvl);
    if |message| <= MaxLen {
      calls := [LogCall(tizenLog, channel, message)];
    } else {
      var parts := SplitMessage(message);
      calls := [];
      for k := 0 to |parts|
        invariant |calls| == k
        invariant forall i :: 0 <= i < k ==> calls[i] == LogCall(tizenLog, channel, parts[i])
      {
        calls := calls + [LogCall(tizenLog, channel, parts[k])];
      }
    }
  }

  // ---- properties of the chunking ----

  /** Concatenating the chunks of a line gives the line back. */
  lemma {:induction false} ChunksFromConcat(line: string, start: nat)
    requires start <= |line|
    ensures Concat(ChunksFrom(line, start)) == line[start..]
    decreases |line| - start
  {
    if |line| - start > MaxLen {
      ChunksFromConcat(line, start + MaxLen);
      var c := ChunksFrom(line, start);
      assert c[1..] == ChunksFrom(line, start + MaxLen);
      assert line[start..] == line[start..start + MaxLen] + line[start + MaxLen..];
    } else {
      assert Concat([line[start..]]) == line[start..] + Concat([]);
    }
  }

  lemma ChunksConcat(line: string)
    ensures Concat(Chunks(line)) == line
  {
    ChunksFromConcat(line, 0);
    assert line[0..] == line;
  }

  /** A line of at most MaxLen characters is one part, unchanged (this
      includes the empty line). */
  lemma ShortLineIsOnePart(line: string)
    requires |line| <= MaxLen
    ensures Chunks(line) == [line]
  {
    assert line[0..] == line;
  }

  /** A line longer than MaxLen: every chunk but the last has exactly MaxLen
      characters, no chunk is empty, and there are ceil(|line| / MaxLen) of
      them, so an exact multiple of MaxLen leaves no empty trailing chunk. */
  lemma {:induction false} ChunksFromShape(line: string, start: nat)
    requires start < |line|
    ensures |ChunksFrom(line, start)| == (|line| - start + MaxLen - 1) / MaxLen
    ensures forall i :: 0 <= i < |ChunksFrom(line, start)| ==> |ChunksFrom(line, start)[i]| > 0
    ensures forall i :: 0 <= i < |ChunksFrom(line, start)| - 1 ==> |ChunksFrom(line, start)[i]| == MaxLen
    decreases |line| - start
  {
    if |line| - start > MaxLen {
      ChunksFromShape(line, start + MaxLen);
      var c := ChunksFrom(line, start);
      assert c[1..] == ChunksFrom(line, start + MaxLen);
      assert (|line| - start + MaxLen - 1) / MaxLen == (|line| - (start + MaxLen) + MaxLen - 1) / MaxLen + 1;
    }
  }

  lemma LongLineShape(line: string)
    requires |line| > MaxLen
    ensures |Chunks(line)| == (|line| + MaxLen - 1) / MaxLen
    ensures forall i :: 0 <= i < |Chunks(line)| ==> 0 < |Chunks(line)[i]| <= MaxLen
    ensures forall i :: 0 <= i < |Chunks(line)| - 1 ==> |Chunks(line)[i]| == MaxLen
  {
    ChunksFromShape(line, 0);
  }

  /** Example: a 2000-character line gives parts of 800, 800 and 400
      characters. */
  lemma TwoThousandCharacters(line: string)
    requires |line| == 2000
    ensures |Chunks(line)| == 3
    ensures |Chunks(line)[0]| == 800 && |Chunks(line)[1]| == 800 && |Chunks(line)[2]| == 400
  {
    var c := ChunksFrom(line, 0);
    assert c == [line[0..800]] + ChunksFrom(line, 800);
    assert ChunksFrom(line, 800) == [line[800..1600]] + ChunksFrom(line, 1600);
    assert ChunksFrom(line, 1600) == [line[1600..]];
  }

  /** The chunks of each line, line by line. */
  function LineChunks(lines: seq<string>): (r: seq<seq<string>>)
    ensures |r| == |lines|
  {
    seq(|lines|, i requires 0 <= i < |lines| => Chunks(lines[i]))
  }

  /** ChunkAll is the flattening of the per-line chunks. */
  lemma {:induction false} ChunkAllIsFlattening(lines: seq<string>)
    ensures ChunkAll(lines) == Flatten(LineChunks(lines))
    decreases |lines|
  {
    if |lines| > 0 {
      var init := lines[..|lines| - 1];
      ChunkAllIsFlattening(init);
      assert LineChunks(lines) == LineChunks(init) + [Chunks(lines[|lines| - 1])];
      FlattenAppend(LineChunks(init), Chunks(lines[|lines| - 1]));
    }
  }

  function Flatten(xss: seq<seq<string>>): seq<string>
    decreases |xss|
  {
    if |xss| == 0 then [] else xss[0] + Flatten(xss[1..])
  }

  lemma {:induction false} FlattenAppend(xss: seq<seq<string>>, ys: seq<string>)
    ensures Flatten(xss + [ys]) == Flatten(xss) + ys
    decreases |xss|
  {
    if |xss| == 0 {
      assert xss + [ys] == [ys];
    } else {
      assert (xss + [ys])[1..] == xss[1..] + [ys];
      FlattenAppend(xss[1..], ys);
    }
  }

  /** The round trip: for a long message, concatenating each line's chunks
      and joining the lines with '\n' reproduces the message. */
  lemma SplitMessageRoundTrip(message: string)
    ensures var lines := Split(message, '\n');
            Join(seq(|lines|, i requires 0 <= i < |lines| => Concat(LineChunks(lines)[i])), '\n') == message
  {
    var lines := Split(message, '\n');
    var rejoined := seq(|lines|, i requires 0 <= i < |lines| => Concat(LineChunks(lines)[i]));
    forall i | 0 <= i < |lines| ensures rejoined[i] == lines[i] {
      ChunksConcat(lines[i]);
    }
    assert rejoined == lines;
    JoinSplit(message, '\n');
  }
}
