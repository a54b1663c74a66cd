/** The action detector of the integration tests
    (IntegrationTests/video_analysis.py): from the timestamps read off a
    recorded playback, one per second, it infers the player actions that
    must have happened: play, pause, resume, seek, stop and changeVideo.
    Frame capture and OCR are not part of this model; their output, the
    OCR text and the timestamps, are inputs. */
module VideoAnalysis {
  import opened Common
  import opened Text
  import opened TestUtils

  // ---- splitting the OCR output ----

  /** The form feed that ends each page of OCR output. */
  const FormFeed: char := 12 as char

  /** `s.replace(c, "")`. */
  function RemoveChar(s: string, c: char): (r: string)
    ensures c !in r
    ensures forall x :: x in r ==> x in s
    decreases |s|
  {
    if |s| == 0 then "" else (if s[0] == c then "" else [s[0]]) + RemoveChar(s[1..], c)
  }

  /** `s.replace(c, d)` for single characters. */
  function ReplaceChar(s: string, c: char, d: char): (r: string)
    ensures |r| == |s|
    decreases |s|
  {
    if |s| == 0 then "" else [if s[0] == c then d else s[0]] + ReplaceChar(s[1..], c, d)
  }

  /** `split`: drops the line breaks, turns the form feeds that end the OCR
      pages into '*', splits on '*' and drops the last piece, which is what
      follows the last page. */
  function SplitPages(text: string): (pieces: seq<string>)
    ensures forall i :: 0 <= i < |pieces| ==> '*' !in pieces[i]
  {
    var parts := Split(ReplaceChar(RemoveChar(text, '\n'), FormFeed, '*'), '*');
    parts[..|parts| - 1]
  }

  /** The OCR text of a sequence of pages: each page's text, a line break and a
      form feed. */
  function OcrText(pages: seq<string>): string
    decreases |pages|
  {
    if |pages| == 0 then "" else pages[0] + ['\n', FormFeed] + OcrText(pages[1..])
  }

  /** Each piece followed by the character `c`. */
  function Terminated(pieces: seq<string>, c: char): string
    decreases |pieces|
  {
    if |pieces| == 0 then "" else pieces[0] + [c] + Terminated(pieces[1..], c)
  }

  predicate PlainPage(p: string) {
    '\n' !in p && FormFeed !in p && '*' !in p
  }

  lemma {:induction false} RemoveCharConcat(a: string, b: string, c: char)
    ensures RemoveChar(a + b, c) == RemoveChar(a, c) + RemoveChar(b, c)
    decreases |a|
  {
    if |a| > 0 {
      assert (a + b)[1..] == a[1..] + b;
      RemoveCharConcat(a[1..], b, c);
    } else {
      assert a + b == b;
    }
  }

  lemma {:induction false} RemoveAbsentChar(a: string, c: char)
    requires c !in a
    ensures RemoveChar(a, c) == a
    decreases |a|
  {
    if |a| > 0 {
      RemoveAbsentChar(a[1..], c);
      assert [a[0]] + a[1..] == a;
    }
  }

  lemma {:induction false} ReplaceCharConcat(a: string, b: string, c: char, d: char)
    ensures ReplaceChar(a + b, c, d) == ReplaceChar(a, c, d) + ReplaceChar(b, c, d)
    decreases |a|
  {
    if |a| > 0 {
      assert (a + b)[1..] == a[1..] + b;
      ReplaceCharConcat(a[1..], b, c, d);
    } else {
      assert a + b == b;
    }
  }

  lemma {:induction false} ReplaceAbsentChar(a: string, c: char, d: char)
    requires c !in a
    ensures ReplaceChar(a, c, d) == a
    decreases |a|
  {
    if |a| > 0 {
      ReplaceAbsentChar(a[1..], c, d);
      assert [a[0]] + a[1..] == a;
    }
  }

  lemma {:induction false} RemoveLineBreaks(pages: seq<string>)
    requires forall i :: 0 <= i < |pages| ==> PlainPage(pages[i])
    ensures RemoveChar(OcrText(pages), '\n') == Terminated(pages, FormFeed)
    decreases |pages|
  {
    if |pages| > 0 {
      var p := pages[0];
      var pageEnd := ['\n', FormFeed];
      RemoveLineBreaks(pages[1..]);
      RemoveCharConcat(p + pageEnd, OcrText(pages[1..]), '\n');
      RemoveCharConcat(p, pageEnd, '\n');
      RemoveAbsentChar(p, '\n');
      assert pageEnd[1..] == [FormFeed] && [FormFeed][1..] == [] && FormFeed != '\n';
      assert RemoveChar([FormFeed], '\n') == [FormFeed] + RemoveChar([], '\n');
      assert RemoveChar(pageEnd, '\n') == "" + RemoveChar([FormFeed], '\n');
    }
  }

  lemma {:induction false} ReplaceFormFeeds(pages: seq<string>)
    requires forall i :: 0 <= i < |pages| ==> PlainPage(pages[i])
    ensures ReplaceChar(Terminated(pages, FormFeed), FormFeed, '*') == Terminated(pages, '*')
    decreases |pages|
  {
    if |pages| > 0 {
      var p := pages[0];
      ReplaceFormFeeds(pages[1..]);
      ReplaceCharConcat(p + [FormFeed], Terminated(pages[1..], FormFeed), FormFeed, '*');
      ReplaceCharConcat(p, [FormFeed], FormFeed, '*');
      ReplaceAbsentChar(p, FormFeed, '*');
    }
  }

  lemma {:induction false} TerminatedIsJoin(pieces: seq<string>, c: char)
    ensures Terminated(pieces, c) == Join(pieces + [""], c)
    decreases |pieces|
  {
    if |pieces| > 0 {
      TerminatedIsJoin(pieces[1..], c);
      assert (pieces + [""])[1..] == pieces[1..] + [""];
    }
  }

  /** Splitting the OCR text of plain pages gives back the pages, one piece
      per image, in order. */
  lemma SplitPagesRoundTrip(pages: seq<string>)
    requires forall i :: 0 <= i < |pages| ==> PlainPage(pages[i])
    ensures SplitPages(OcrText(pages)) == pages
  {
    var cleaned := ReplaceChar(RemoveChar(OcrText(pages), '\n'), FormFeed, '*');
    RemoveLineBreaks(pages);
    ReplaceFormFeeds(pages);
    TerminatedIsJoin(pages, '*');
    var parts := pages + [""];
    assert cleaned == Join(parts, '*');
    forall i | 0 <= i < |parts|
      ensures '*' !in parts[i]
    {
      if i < |pages| {
        assert parts[i] == pages[i] && PlainPage(pages[i]);
      }
    }
    SplitJoin(parts, '*');
    assert Split(cleaned, '*') == parts;
    assert parts[..|parts| - 1] == pages;
  }

  // ---- reading a number ----

  /** Python's `int(s)` on a string: an optional sign and decimal digits.
      None stands for the ValueError it raises otherwise. */
  function ParseInt(s: string): (r: Option<int>)
    ensures r.Some? <==> ParseDecimal(s).Some? || (|s| > 0 && (s[0] == '-' || s[0] == '+') && ParseDecimal(s[1..]).Some?)
    ensures ParseDecimal(s).Some? ==> r == Some(ParseDecimal(s).value as int)
    ensures |s| > 0 && s[0] == '-' && ParseDecimal(s[1..]).Some? ==> r == Some(-(ParseDecimal(s[1..]).value as int))
    ensures |s| > 0 && s[0] == '+' && ParseDecimal(s[1..]).Some? ==> r == Some(ParseDecimal(s[1..]).value as int)
  {
    if |s| > 0 && (s[0] == '-' || s[0] == '+') then
      match ParseDecimal(s[1..])
      case Some(v) => var n: int := if s[0] == '-' then -(v as int) else v; Some(n)
      case None => None
    else
      match ParseDecimal(s)
      case Some(v) => var n: int := v; Some(n)
      case None => None
  }

  /** `intTryParse`: the number, or -1 when the text is not one. */
  function IntTryParse(value: string): (n: int)
    ensures ParseInt(value).None? ==> n == -1
    ensures ParseInt(value).Some? ==> n == ParseInt(value).value
  {
    match ParseInt(value)
    case Some(v) => v
    case None => -1
  }

  /** The decimal numeral of an integer, with a minus sign when negative. */
  function ShowInt(n: int): (s: string)
    ensures |s| > 0
  {
    if n < 0 then "-" + ShowNat(-n) else ShowNat(n)
  }

  /** Every integer's numeral reads back as that integer. */
  lemma IntTryParseShowInt(n: int)
    ensures IntTryParse(ShowInt(n)) == n
  {
    if n < 0 {
      ParseShowNat(-n);
      assert ShowInt(n)[1..] == ShowNat(-n);
    } else {
      ParseShowNat(n);
      assert IsDigit(ShowNat(n)[0]);
    }
  }

  /** -1 is both the "unreadable" answer and the reading of "-1". */
  lemma MinusOneIsAmbiguous()
    ensures IntTryParse("-1") == -1 && IntTryParse("") == -1 && IntTryParse("1O") == -1
  {
    assert ParseDecimal("1") == Some(1) by {
      assert DigitsValue("1") == 10 * DigitsValue("1"[..0]) + DigitValue('1');
    }
    assert "-1"[1..] == "1";
    assert !IsDigit("1O"[1]);
  }

  // ---- last_action_index ----

  /** The greatest index of an action named `name`, or -1 when there is none. */
  function LastActionIndex(actions: seq<Action>, name: string): (i: int)
    ensures -1 <= i < |actions|
    ensures i >= 0 ==> actions[i].name == name
    ensures forall j :: i < j < |actions| ==> actions[j].name != name
    decreases |actions|
  {
    if |actions| == 0 then -1
    else if actions[|actions| - 1].name == name then |actions| - 1
    else LastActionIndex(actions[..|actions| - 1], name)
  }

  /** `last_action_index`: scans the actions from the last to the first. */
  method FindLastAction(actions: seq<Action>, name: string) returns (index: int)
    ensures index == LastActionIndex(actions, name)
  {
    var i := |actions|;
    while i > 0
      invariant 0 <= i <= |actions|
      invariant forall j :: i <= j < |actions| ==> actions[j].name != name
      invariant LastActionIndex(actions, name) == LastActionIndex(actions[..i], name)
    {
      assert actions[..i][..i - 1] == actions[..i - 1];
      if actions[i - 1].name == name {
        return i - 1;
      }
      i := i - 1;
    }
    return -1;
  }

  // ---- detect_actions ----

  /** `self.pace`: the constructor sets 10 whatever pace it is given. */
  const Pace: int := 10

  /** One sample of the recording: the second it was taken at, the number
      read off the frame (-1 when unreadable) and the resolution text. */
  datatype Timestamp = Timestamp(time: int, stamp: int, resolution: string)

  predicate ChangesVideo(previous: Timestamp, now: Timestamp) {
    |previous.resolution| > 3 && |now.resolution| > 3 && previous.resolution != now.resolution
  }

  /** The number becomes readable. */
  predicate Starts(previous: Timestamp, now: Timestamp) {
    previous.stamp == -1 && now.stamp != -1
  }

  /** The number falls by more than twice the pace over the elapsed time. */
  predicate JumpsBack(previous: Timestamp, now: Timestamp) {
    previous.stamp - now.stamp > 2 * Pace * (now.time - previous.time)
  }

  /** The number grows from a readable value. */
  predicate Advances(previous: Timestamp, now: Timestamp) {
    now.stamp - previous.stamp > 0 && previous.stamp != -1
  }

  predicate JumpsAhead(previous: Timestamp, now: Timestamp) {
    Advances(previous, now) && now.stamp - previous.stamp > 2 * Pace * (now.time - previous.time)
  }

  /** The number stands still at a readable value. */
  predicate Still(previous: Timestamp, now: Timestamp) {
    now.stamp == previous.stamp && now.stamp != -1
  }

  function ChangeVideoAt(now: Timestamp): Action {
    Action("changeVideo", now.time, None, Some(now.resolution))
  }

  /** A seek to the position the number shows, in seconds. */
  function SeekAt(now: Timestamp): Action {
    Action("seek", now.time, Some(now.stamp as real / Pace as real), None)
  }

  /** The actions a pair of consecutive samples can account for. */
  predicate Explained(a: Action, previous: Timestamp, now: Timestamp) {
    || (ChangesVideo(previous, now) && a == ChangeVideoAt(now))
    || (Starts(previous, now) && a == Simple("play", now.time))
    || (JumpsBack(previous, now) && now.stamp == -1 && a == Simple("stop", now.time))
    || (((JumpsBack(previous, now) && now.stamp != -1) || JumpsAhead(previous, now)) && a == SeekAt(now))
    || (Advances(previous, now) && !JumpsAhead(previous, now) && a == Simple("resume", now.time))
    || (Still(previous, now) && a == Simple("pause", previous.time))
  }

  /** No two pauses follow each other. */
  predicate NoAdjacentPauses(actions: seq<Action>) {
    forall k :: 0 <= k < |actions| - 1 ==> !(actions[k].name == "pause" && actions[k + 1].name == "pause")
  }

  /** Every resume comes when the last pause before it is later than the
      last resume before it. */
  predicate ResumesFollowPauses(actions: seq<Action>) {
    forall k :: 0 <= k < |actions| && actions[k].name == "resume" ==>
      LastActionIndex(actions[..k], "pause") > LastActionIndex(actions[..k], "resume")
  }

  /** The actions before the loop: play at the first time when the first
      number is readable. */
  function Initial(first: Timestamp): (actions: seq<Action>)
    ensures first.stamp != -1 <==> |actions| > 0
    ensures |actions| > 0 ==> actions == [Simple("play", first.time)]
  {
    if first.stamp != -1 then [Simple("play", first.time)] else []
  }

  /** The first test of the loop body: a changeVideo when both
      resolutions are readable and differ. */
  function WithChange(previous: Timestamp, now: Timestamp, actions: seq<Action>): (r: seq<Action>)
    ensures |actions| <= |r|
  {
    if ChangesVideo(previous, now) then actions + [ChangeVideoAt(now)] else actions
  }

  /** The second: play when the number becomes readable. */
  function WithPlay(previous: Timestamp, now: Timestamp, actions: seq<Action>): (r: seq<Action>)
    ensures |actions| <= |r|
    ensures Starts(previous, now) ==> |r| > 0
  {
    if Starts(previous, now) then actions + [Simple("play", now.time)] else actions
  }

  /** The third: on a fall, stop when the number became unreadable, and
      otherwise a seek unless the last action is a changeVideo less than a
      second away. `actions[-1]` is read only for a readable number. */
  function WithFall(previous: Timestamp, now: Timestamp, actions: seq<Action>): (r: seq<Action>)
    requires now.stamp != -1 ==> |actions| > 0
    ensures |actions| <= |r|
  {
    if !JumpsBack(previous, now) then actions
    else if now.stamp == -1 then actions + [Simple("stop", now.time)]
    else if !(actions[|actions| - 1].name == "changeVideo" && Abs(actions[|actions| - 1].time - now.time) <= 1) then
      actions + [SeekAt(now)]
    else actions
  }

  /** The fourth: on a rise from a readable number, a seek when it jumps,
      and otherwise resume when a pause is later than the last resume. */
  function WithRise(previous: Timestamp, now: Timestamp, actions: seq<Action>): (r: seq<Action>)
    ensures |actions| <= |r|
  {
    if !Advances(previous, now) then actions
    else if JumpsAhead(previous, now) then actions + [SeekAt(now)]
    else if LastActionIndex(actions, "pause") > LastActionIndex(actions, "resume") then actions + [Simple("resume", now.time)]
    else actions
  }

  /** The last: pause, at the earlier time, when a readable number stands
      still and the last action is not already a pause. */
  function WithPause(previous: Timestamp, now: Timestamp, actions: seq<Action>): (r: seq<Action>)
    ensures |actions| <= |r|
  {
    if Still(previous, now) && (|actions| == 0 || actions[|actions| - 1].name != "pause") then
      actions + [Simple("pause", previous.time)]
    else actions
  }

  /** One pass of the loop body on the pair (previous, now). The
      precondition, which the loop keeps, makes the list non-empty whenever
      `actions[-1]` is read, so the IndexError cannot happen there. */
  function Step(previous: Timestamp, now: Timestamp, actions: seq<Action>): (r: seq<Action>)
    requires previous.stamp != -1 ==> |actions| > 0
    ensures now.stamp != -1 ==> |r| > 0
  {
    var a2 := WithPlay(previous, now, WithChange(previous, now, actions));
    WithPause(previous, now, WithRise(previous, now, WithFall(previous, now, a2)))
  }

  /** `r` is `actions` followed by actions the pair accounts for. */
  predicate Adds(actions: seq<Action>, r: seq<Action>, previous: Timestamp, now: Timestamp) {
    && |actions| <= |r|
    && r[..|actions|] == actions
    && forall k :: |actions| <= k < |r| ==> Explained(r[k], previous, now)
  }

  lemma AddsTrans(a: seq<Action>, b: seq<Action>, c: seq<Action>, previous: Timestamp, now: Timestamp)
    requires Adds(a, b, previous, now) && Adds(b, c, previous, now)
    ensures Adds(a, c, previous, now)
  {
    assert c[..|a|] == c[..|b|][..|a|];
    forall k | |a| <= k < |b|
      ensures c[k] == b[k]
    {
      assert c[k] == c[..|b|][k];
    }
  }

  /** Appending an action the pair accounts for. */
  lemma SnocAdds(a: seq<Action>, x: Action, previous: Timestamp, now: Timestamp)
    requires Explained(x, previous, now)
    ensures Adds(a, a + [x], previous, now)
  {
  }

  lemma ChangeAdds(previous: Timestamp, now: Timestamp, actions: seq<Action>)
    ensures Adds(actions, WithChange(previous, now, actions), previous, now)
  {
    if ChangesVideo(previous, now) {
      SnocAdds(actions, ChangeVideoAt(now), previous, now);
    }
  }

  lemma PlayAdds(previous: Timestamp, now: Timestamp, actions: seq<Action>)
    ensures Adds(actions, WithPlay(previous, now, actions), previous, now)
  {
    if Starts(previous, now) {
      SnocAdds(actions, Simple("play", now.time), previous, now);
    }
  }

  lemma FallAdds(previous: Timestamp, now: Timestamp, actions: seq<Action>)
    requires now.stamp != -1 ==> |actions| > 0
    ensures Adds(actions, WithFall(previous, now, actions), previous, now)
  {
    if JumpsBack(previous, now) {
      if now.stamp == -1 {
        SnocAdds(actions, Simple("stop", now.time), previous, now);
      } else {
        SnocAdds(actions, SeekAt(now), previous, now);
      }
    }
  }

  lemma RiseAdds(previous: Timestamp, now: Timestamp, actions: seq<Action>)
    ensures Adds(actions, WithRise(previous, now, actions), previous, now)
  {
    if Advances(previous, now) {
      if JumpsAhead(previous, now) {
        SnocAdds(actions, SeekAt(now), previous, now);
      } else {
        SnocAdds(actions, Simple("resume", now.time), previous, now);
      }
    }
  }

  lemma PauseAdds(previous: Timestamp, now: Timestamp, actions: seq<Action>)
    ensures Adds(actions, WithPause(previous, now, actions), previous, now)
  {
    if Still(previous, now) {
      SnocAdds(actions, Simple("pause", previous.time), previous, now);
    }
  }

  /** Each pass only appends, and only actions the pair accounts for. */
  lemma StepAdds(previous: Timestamp, now: Timestamp, actions: seq<Action>)
    requires previous.stamp != -1 ==> |actions| > 0
    ensures Adds(actions, Step(previous, now, actions), previous, now)
  {
    var a1 := WithChange(previous, now, actions);
    var a2 := WithPlay(previous, now, a1);
    var a3 := WithFall(previous, now, a2);
    var a4 := WithRise(previous, now, a3);
    ChangeAdds(previous, now, actions);
    PlayAdds(previous, now, a1);
    FallAdds(previous, now, a2);
    RiseAdds(previous, now, a3);
    PauseAdds(previous, now, a4);
    AddsTrans(actions, a1, a2, previous, now);
    AddsTrans(actions, a2, a3, previous, now);
    AddsTrans(actions, a3, a4, previous, now);
    AddsTrans(actions, a4, Step(previous, now, actions), previous, now);
  }

  /** Appending anything but a pause, or a pause after something else,
      keeps pauses apart. */
  lemma SnocKeepsPausesApart(a: seq<Action>, x: Action)
    requires NoAdjacentPauses(a)
    requires x.name == "pause" ==> |a| == 0 || a[|a| - 1].name != "pause"
    ensures NoAdjacentPauses(a + [x])
  {
  }

  /** Each pass keeps pauses apart: only the last test adds a pause, and
      only after something else. */
  lemma StepKeepsPausesApart(previous: Timestamp, now: Timestamp, actions: seq<Action>)
    requires previous.stamp != -1 ==> |actions| > 0
    requires NoAdjacentPauses(actions)
    ensures NoAdjacentPauses(Step(previous, now, actions))
  {
    var a1 := WithChange(previous, now, actions);
    var a2 := WithPlay(previous, now, a1);
    var a3 := WithFall(previous, now, a2);
    var a4 := WithRise(previous, now, a3);
    SnocKeepsPausesApart(actions, ChangeVideoAt(now));
    SnocKeepsPausesApart(a1, Simple("play", now.time));
    SnocKeepsPausesApart(a2, Simple("stop", now.time));
    SnocKeepsPausesApart(a2, SeekAt(now));
    SnocKeepsPausesApart(a3, SeekAt(now));
    SnocKeepsPausesApart(a3, Simple("resume", now.time));
    if |a4| == 0 || a4[|a4| - 1].name != "pause" {
      SnocKeepsPausesApart(a4, Simple("pause", previous.time));
    }
  }

  /** The loop over consecutive pairs of `timestamps`, starting from the
      actions `first`; the result after the last sample. */
  function Pairs(timestamps: seq<Timestamp>, first: seq<Action>): (r: seq<Action>)
    requires |timestamps| > 0
    requires timestamps[0].stamp != -1 ==> |first| > 0
    ensures timestamps[|timestamps| - 1].stamp != -1 ==> |r| > 0
    decreases |timestamps|
  {
    if |timestamps| == 1 then first
    else
      var n := |timestamps|;
      Step(timestamps[n - 2], timestamps[n - 1], Pairs(timestamps[..n - 1], first))
  }

  /** `detect_actions` as written: the loop runs over every sample, so its
      first pass pairs the first sample with itself. */
  function DetectedAsWritten(timestamps: seq<Timestamp>): (r: Result<seq<Action>, PyError>)
    ensures r.Failure? <==> |timestamps| == 0
  {
    if |timestamps| == 0 then Failure(IndexError)
    else
      var first := timestamps[0];
      Success(Pairs(timestamps, Step(first, first, Initial(first))))
  }

  /** `detect_actions` with the loop starting at the second sample, so that
      each pass compares two distinct samples. */
  function Detected(timestamps: seq<Timestamp>): (r: Result<seq<Action>, PyError>)
    ensures r.Failure? <==> |timestamps| == 0
  {
    if |timestamps| == 0 then Failure(IndexError)
    else Success(Pairs(timestamps, Initial(timestamps[0])))
  }

  /** The loop keeps the actions it started from, and every action it adds
      is accounted for by a pair of consecutive samples. */
  lemma {:induction false} PairsExplained(timestamps: seq<Timestamp>, first: seq<Action>)
    requires |timestamps| > 0
    requires timestamps[0].stamp != -1 ==> |first| > 0
    ensures |first| <= |Pairs(timestamps, first)| && Pairs(timestamps, first)[..|first|] == first
    ensures forall k :: |first| <= k < |Pairs(timestamps, first)| ==>
      exists i :: 0 <= i < |timestamps| - 1 && Explained(Pairs(timestamps, first)[k], timestamps[i], timestamps[i + 1])
    decreases |timestamps|
  {
    if |timestamps| > 1 {
      var n := |timestamps|;
      var prefix := timestamps[..n - 1];
      var before := Pairs(prefix, first);
      PairsExplained(prefix, first);
      StepAdds(timestamps[n - 2], timestamps[n - 1], before);
      var r := Pairs(timestamps, first);
      assert r[..|first|] == r[..|before|][..|first|];
      forall k | |first| <= k < |r|
        ensures exists i :: 0 <= i < n - 1 && Explained(r[k], timestamps[i], timestamps[i + 1])
      {
        if k < |before| {
          assert r[k] == r[..|before|][k] == before[k];
          var i :| 0 <= i < |prefix| - 1 && Explained(before[k], prefix[i], prefix[i + 1]);
          assert prefix[i] == timestamps[i] && prefix[i + 1] == timestamps[i + 1];
        } else {
          assert Explained(r[k], timestamps[n - 2], timestamps[n - 1]);
        }
      }
    }
  }

  /** No two pauses follow each other in the loop's result. */
  lemma {:induction false} PairsKeepPausesApart(timestamps: seq<Timestamp>, first: seq<Action>)
    requires |timestamps| > 0
    requires timestamps[0].stamp != -1 ==> |first| > 0
    requires NoAdjacentPauses(first)
    ensures NoAdjacentPauses(Pairs(timestamps, first))
    decreases |timestamps|
  {
    if |timestamps| > 1 {
      var n := |timestamps|;
      PairsKeepPausesApart(timestamps[..n - 1], first);
      StepKeepsPausesApart(timestamps[n - 2], timestamps[n - 1], Pairs(timestamps[..n - 1], first));
    }
  }

  /** Appending anything but a resume keeps every resume justified. */
  lemma SnocKeepsResumes(a: seq<Action>, x: Action)
    requires ResumesFollowPauses(a)
    requires x.name != "resume"
    ensures ResumesFollowPauses(a + [x])
  {
    forall k | 0 <= k < |a| + 1 && (a + [x])[k].name == "resume"
      ensures LastActionIndex((a + [x])[..k], "pause") > LastActionIndex((a + [x])[..k], "resume")
    {
      assert (a + [x])[..k] == a[..k];
    }
  }

  /** Appending a resume right after a pause later than the last resume
      keeps every resume justified. */
  lemma ResumeAfterPause(a: seq<Action>, time: int)
    requires ResumesFollowPauses(a)
    requires LastActionIndex(a, "pause") > LastActionIndex(a, "resume")
    ensures ResumesFollowPauses(a + [Simple("resume", time)])
  {
    var b := a + [Simple("resume", time)];
    forall k | 0 <= k < |b| && b[k].name == "resume"
      ensures LastActionIndex(b[..k], "pause") > LastActionIndex(b[..k], "resume")
    {
      if k < |a| {
        assert b[..k] == a[..k];
      } else {
        assert b[..k] == a;
      }
    }
  }

  /** Each pass keeps every resume justified: the fourth test adds a resume
      only under that very condition. */
  lemma StepResumesFollowPauses(previous: Timestamp, now: Timestamp, actions: seq<Action>)
    requires previous.stamp != -1 ==> |actions| > 0
    requires ResumesFollowPauses(actions)
    ensures ResumesFollowPauses(Step(previous, now, actions))
  {
    var a1 := WithChange(previous, now, actions);
    var a2 := WithPlay(previous, now, a1);
    var a3 := WithFall(previous, now, a2);
    var a4 := WithRise(previous, now, a3);
    SnocKeepsResumes(actions, ChangeVideoAt(now));
    SnocKeepsResumes(a1, Simple("play", now.time));
    SnocKeepsResumes(a2, Simple("stop", now.time));
    SnocKeepsResumes(a2, SeekAt(now));
    SnocKeepsResumes(a3, SeekAt(now));
    if Advances(previous, now) && !JumpsAhead(previous, now) && LastActionIndex(a3, "pause") > LastActionIndex(a3, "resume") {
      ResumeAfterPause(a3, now.time);
    }
    SnocKeepsResumes(a4, Simple("pause", previous.time));
  }

  lemma {:induction false} PairsResumesFollowPauses(timestamps: seq<Timestamp>, first: seq<Action>)
    requires |timestamps| > 0
    requires timestamps[0].stamp != -1 ==> |first| > 0
    requires ResumesFollowPauses(first)
    ensures ResumesFollowPauses(Pairs(timestamps, first))
    decreases |timestamps|
  {
    if |timestamps| > 1 {
      var n := |timestamps|;
      PairsResumesFollowPauses(timestamps[..n - 1], first);
      StepResumesFollowPauses(timestamps[n - 2], timestamps[n - 1], Pairs(timestamps[..n - 1], first));
    }
  }

  /** What the detector promises: it fails only on an empty recording; two
      pauses never follow each other; each resume comes when the last pause
      before it is later than the last resume before it; and every action
      but the opening play is accounted for by two consecutive samples: a
      resolution change, the number becoming readable (play), a fall to
      unreadable (stop), a jump of more than twice the pace per second
      (seek), a steady rise (resume), or a readable number standing still
      (pause, at the earlier time). */
  lemma DetectedSound(timestamps: seq<Timestamp>)
    requires |timestamps| > 0
    ensures Detected(timestamps).Success?
    ensures NoAdjacentPauses(Detected(timestamps).value)
    ensures ResumesFollowPauses(Detected(timestamps).value)
    ensures forall k :: |Initial(timestamps[0])| <= k < |Detected(timestamps).value| ==>
      exists i :: 0 <= i < |timestamps| - 1 && Explained(Detected(timestamps).value[k], timestamps[i], timestamps[i + 1])
  {
    var first := Initial(timestamps[0]);
    PairsKeepPausesApart(timestamps, first);
    PairsResumesFollowPauses(timestamps, first);
    PairsExplained(timestamps, first);
  }

  /** Sample times strictly increase, as `numpy.arange` gives them. */
  predicate Increasing(timestamps: seq<Timestamp>) {
    forall i, j :: 0 <= i < j < |timestamps| ==> timestamps[i].time < timestamps[j].time
  }

  /** With increasing times, the actions start with play at the first time
      exactly when the first number is readable. */
  lemma FirstActionIsPlay(timestamps: seq<Timestamp>)
    requires |timestamps| > 0 && Increasing(timestamps)
    ensures Detected(timestamps).Success?
    ensures var r := Detected(timestamps).value;
      timestamps[0].stamp != -1 <==> |r| > 0 && r[0] == Simple("play", timestamps[0].time)
  {
    var first := Initial(timestamps[0]);
    var r := Pairs(timestamps, first);
    assert Detected(timestamps).value == r;
    PairsExplained(timestamps, first);
    if timestamps[0].stamp != -1 {
      assert r[0] == r[..|first|][0] == first[0];
    } else if |r| > 0 {
      var i :| 0 <= i < |timestamps| - 1 && Explained(r[0], timestamps[i], timestamps[i + 1]);
      if i == 0 {
        assert r[0].time == timestamps[1].time;
      } else {
        assert timestamps[0].time < timestamps[i].time < timestamps[i + 1].time;
      }
      assert r[0].time != timestamps[0].time;
    }
  }

  /** A resolution change while the number falls from a readable value
      gives the changeVideo alone: the seek the fall would suggest is
      dropped. */
  lemma ChangeSuppressesBackwardSeek(previous: Timestamp, now: Timestamp, actions: seq<Action>)
    requires |actions| > 0
    requires ChangesVideo(previous, now)
    requires previous.stamp != -1 && now.stamp != -1 && now.stamp < previous.stamp
    ensures Step(previous, now, actions) == actions + [ChangeVideoAt(now)]
  {
    var a2 := WithPlay(previous, now, WithChange(previous, now, actions));
    assert a2 == actions + [ChangeVideoAt(now)];
    assert WithFall(previous, now, a2) == a2;
  }

  /** `b` starts with `a`. */
  predicate IsPrefix(a: seq<Action>, b: seq<Action>) {
    |a| <= |b| && b[..|a|] == a
  }

  lemma PrefixTrans(a: seq<Action>, b: seq<Action>, c: seq<Action>)
    requires IsPrefix(a, b) && IsPrefix(b, c)
    ensures IsPrefix(a, c)
  {
    assert c[..|a|] == c[..|b|][..|a|];
  }

  /** The action appended at `a`'s end survives into every extension. */
  lemma KeptInExtension(a: seq<Action>, x: Action, c: seq<Action>, start: nat)
    requires start <= |a| && IsPrefix(a + [x], c)
    ensures x in c[start..]
  {
    assert c[|a|] == c[..|a| + 1][|a|] == x;
    assert c[start..][|a| - start] == x;
  }

  /** A resolution change, the number becoming readable, and a fall to
      unreadable each always produce their action in that pass. */
  lemma StepProduces(previous: Timestamp, now: Timestamp, actions: seq<Action>)
    requires previous.stamp != -1 ==> |actions| > 0
    ensures ChangesVideo(previous, now) ==> ChangeVideoAt(now) in Step(previous, now, actions)[|actions|..]
    ensures Starts(previous, now) ==> Simple("play", now.time) in Step(previous, now, actions)[|actions|..]
    ensures JumpsBack(previous, now) && now.stamp == -1 ==> Simple("stop", now.time) in Step(previous, now, actions)[|actions|..]
  {
    var a1 := WithChange(previous, now, actions);
    var a2 := WithPlay(previous, now, a1);
    var a3 := WithFall(previous, now, a2);
    var a4 := WithRise(previous, now, a3);
    var r := WithPause(previous, now, a4);
    assert IsPrefix(actions, a1) && IsPrefix(a1, a2) && IsPrefix(a2, a3) && IsPrefix(a3, a4) && IsPrefix(a4, r);
    PrefixTrans(a3, a4, r);
    PrefixTrans(a2, a3, r);
    PrefixTrans(a1, a2, r);
    if ChangesVideo(previous, now) {
      KeptInExtension(actions, ChangeVideoAt(now), r, |actions|);
    }
    if Starts(previous, now) {
      KeptInExtension(a1, Simple("play", now.time), r, |actions|);
    }
    if JumpsBack(previous, now) && now.stamp == -1 {
      KeptInExtension(a2, Simple("stop", now.time), r, |actions|);
    }
  }

  /** A jump ahead always produces a seek, and so does a jump back to a
      readable number unless a changeVideo at most a second old precedes
      it. */
  lemma StepProducesSeek(previous: Timestamp, now: Timestamp, actions: seq<Action>)
    requires previous.stamp != -1 ==> |actions| > 0
    ensures JumpsAhead(previous, now) ==> SeekAt(now) in Step(previous, now, actions)[|actions|..]
    ensures (&& JumpsBack(previous, now) && now.stamp != -1 && previous.stamp != -1
             && !ChangesVideo(previous, now)
             && !(actions[|actions| - 1].name == "changeVideo" && Abs(actions[|actions| - 1].time - now.time) <= 1))
            ==> SeekAt(now) in Step(previous, now, actions)[|actions|..]
  {
    var a1 := WithChange(previous, now, actions);
    var a2 := WithPlay(previous, now, a1);
    var a3 := WithFall(previous, now, a2);
    var a4 := WithRise(previous, now, a3);
    var r := WithPause(previous, now, a4);
    assert IsPrefix(a3, a4) && IsPrefix(a4, r);
    PrefixTrans(a3, a4, r);
    if JumpsAhead(previous, now) {
      KeptInExtension(a3, SeekAt(now), r, |actions|);
    }
    if && JumpsBack(previous, now) && now.stamp != -1 && previous.stamp != -1
       && !ChangesVideo(previous, now)
       && !(actions[|actions| - 1].name == "changeVideo" && Abs(actions[|actions| - 1].time - now.time) <= 1)
    {
      assert a2 == actions;
      KeptInExtension(a2, SeekAt(now), r, |actions|);
    }
  }

  /** A readable number standing still after anything but a pause produces
      a pause at the earlier time. */
  lemma StepProducesPause(previous: Timestamp, now: Timestamp, actions: seq<Action>)
    requires previous.stamp != -1 ==> |actions| > 0
    ensures Still(previous, now) && actions[|actions| - 1].name != "pause" ==>
      Simple("pause", previous.time) in Step(previous, now, actions)[|actions|..]
  {
    if Still(previous, now) && actions[|actions| - 1].name != "pause" {
      var a1 := WithChange(previous, now, actions);
      var a2 := WithPlay(previous, now, a1);
      var a3 := WithFall(previous, now, a2);
      var a4 := WithRise(previous, now, a3);
      assert a2 == a1 && a4 == a3;
      assert a1[|a1| - 1].name != "pause";
      assert a3[|a3| - 1].name != "pause";
      KeptInExtension(a4, Simple("pause", previous.time), WithPause(previous, now, a4), |actions|);
    }
  }

  /** The two versions differ only in the extra first pass. */
  lemma AsWrittenHasSelfPair(timestamps: seq<Timestamp>)
    requires |timestamps| > 0
    ensures var first := timestamps[0];
      DetectedAsWritten(timestamps) == Success(Pairs(timestamps, Step(first, first, Initial(first))))
      && Detected(timestamps) == Success(Pairs(timestamps, Initial(first)))
  {
  }

  /** The first pass of the loop as written reports a pause at the start of
      every recording whose first number is readable: its actions begin
      with play and then pause, both at the first time. */
  lemma FirstPassPauses(timestamps: seq<Timestamp>)
    requires |timestamps| > 0 && timestamps[0].stamp != -1
    ensures DetectedAsWritten(timestamps).Success?
    ensures |DetectedAsWritten(timestamps).value| >= 2
    ensures DetectedAsWritten(timestamps).value[..2] == [Simple("play", timestamps[0].time), Simple("pause", timestamps[0].time)]
  {
    var t := timestamps[0];
    assert Step(t, t, Initial(t)) == [Simple("play", t.time), Simple("pause", t.time)];
    PairsExplained(timestamps, Step(t, t, Initial(t)));
  }

  /** The loop as written keeps the same invariants as the corrected one:
      its extra first pass adds at most a play and a pause, so two pauses
      still never follow each other and every resume still follows a
      pause. */
  lemma AsWrittenKeepsInvariants(timestamps: seq<Timestamp>)
    requires |timestamps| > 0
    ensures DetectedAsWritten(timestamps).Success?
    ensures NoAdjacentPauses(DetectedAsWritten(timestamps).value)
    ensures ResumesFollowPauses(DetectedAsWritten(timestamps).value)
  {
    var t := timestamps[0];
    var first := Step(t, t, Initial(t));
    StepAdds(t, t, Initial(t));
    StepKeepsPausesApart(t, t, Initial(t));
    StepResumesFollowPauses(t, t, Initial(t));
    PairsKeepPausesApart(timestamps, first);
    PairsResumesFollowPauses(timestamps, first);
  }

  /** Example: for a single sample the loop as written reports a pause that
      no pair of samples accounts for. */
  lemma SelfPairPausesAtStart()
    ensures DetectedAsWritten([Timestamp(0, 42, "")]) == Success([Simple("play", 0), Simple("pause", 0)])
    ensures Detected([Timestamp(0, 42, "")]) == Success([Simple("play", 0)])
  {
    var t := Timestamp(0, 42, "");
    assert Step(t, t, Initial(t)) == [Simple("play", 0), Simple("pause", 0)];
  }

  /** Example: for a steadily playing two-second recording, the loop as
      written reports a pause and a resume that never happened. */
  lemma SelfPairInventsPauseAndResume()
    ensures DetectedAsWritten([Timestamp(0, 0, "1280x720"), Timestamp(1, 10, "1280x720")])
      == Success([Simple("play", 0), Simple("pause", 0), Simple("resume", 1)])
  {
    var t0 := Timestamp(0, 0, "1280x720");
    var t1 := Timestamp(1, 10, "1280x720");
    var ts := [t0, t1];
    var start := Step(t0, t0, Initial(t0));
    assert start == [Simple("play", 0), Simple("pause", 0)];
    assert ts[..1] == [t0];
    assert LastActionIndex(start, "pause") == 1;
    assert LastActionIndex(start, "resume") == -1 by {
      assert start[..1] == [Simple("play", 0)];
      assert start[..1][..0] == [];
    }
    var after := start + [Simple("resume", 1)];
    assert WithFall(t0, t1, WithPlay(t0, t1, WithChange(t0, t1, start))) == start;
    assert WithRise(t0, t1, start) == after;
    assert WithPause(t0, t1, after) == after;
    assert Pairs(ts, start) == after;
    assert DetectedAsWritten(ts) == Success(after);
    assert after == [Simple("play", 0), Simple("pause", 0), Simple("resume", 1)];
  }

  /** Example: with the loop starting at the second sample, the same
      recording is a single play. */
  lemma SteadyPlayIsOnePlay()
    ensures Detected([Timestamp(0, 0, "1280x720"), Timestamp(1, 10, "1280x720")]) == Success([Simple("play", 0)])
  {
    var t0 := Timestamp(0, 0, "1280x720");
    var t1 := Timestamp(1, 10, "1280x720");
    var ts := [t0, t1];
    assert ts[..1] == [t0];
    assert LastActionIndex(Initial(t0), "pause") == -1 by {
      assert Initial(t0)[..0] == [];
    }
    assert WithRise(t0, t1, Initial(t0)) == Initial(t0);
    assert Pairs(ts, Initial(t0)) == Step(t0, t1, Initial(t0));
  }

  /** The loop body of `detect_actions` on the pair (previous, now). */
  method DetectStep(previous: Timestamp, now: Timestamp, actions: seq<Action>) returns (r: seq<Action>)
    requires previous.stamp != -1 ==> |actions| > 0
    ensures r == Step(previous, now, actions)
  {
    r := actions;
    if |previous.resolution| > 3 && |now.resolution| > 3 && previous.resolution != now.resolution {
      r := r + [Action("changeVideo", now.time, None, Some(now.resolution))];
    }
    if previous.stamp == -1 && now.stamp != -1 {
      r := r + [Simple("play", now.time)];
    }
    assert r == WithPlay(previous, now, WithChange(previous, now, actions));
    ghost var a2 := r;
    if previous.stamp - now.stamp > 2 * Pace * (now.time - previous.time) {
      if now.stamp == -1 {
        r := r + [Simple("stop", now.time)];
      } else if !(r[|r| - 1].name == "changeVideo" && Abs(r[|r| - 1].time - now.time) <= 1) {
        r := r + [Action("seek", now.time, Some(now.stamp as real / Pace as real), None)];
      }
    }
    assert r == WithFall(previous, now, a2);
    ghost var a3 := r;
    if now.stamp - previous.stamp > 0 && previous.stamp != -1 {
      if now.stamp - previous.stamp > 2 * Pace * (now.time - previous.time) {
        r := r + [Action("seek", now.time, Some(now.stamp as real / Pace as real), None)];
      } else {
        var lastPause := FindLastAction(r, "pause");
        var lastResume := FindLastAction(r, "resume");
        if lastPause > lastResume {
          r := r + [Simple("resume", now.time)];
        }
      }
    }
    assert r == WithRise(previous, now, a3);
    if now.stamp == previous.stamp && (|r| == 0 || r[|r| - 1].name != "pause") && now.stamp != -1 {
      r := r + [Simple("pause", previous.time)];
    }
  }

  /** `detect_actions`, with the loop starting at the second sample. */
  method DetectActions(timestamps: seq<Timestamp>) returns (r: Result<seq<Action>, PyError>)
    ensures r == Detected(timestamps)
  {
    if |timestamps| == 0 {
      return Failure(IndexError);
    }
    var previous := timestamps[0];
    var actions: seq<Action> := [];
    if previous.stamp != -1 {
      actions := actions + [Simple("play", previous.time)];
    }
    var i := 1;
    while i < |timestamps|
      invariant 1 <= i <= |timestamps|
      invariant previous == timestamps[i - 1]
      invariant actions == Pairs(timestamps[..i], Initial(timestamps[0]))
    {
      var now := timestamps[i];
      actions := DetectStep(previous, now, actions);
      assert timestamps[..i + 1][..i] == timestamps[..i];
      previous := now;
      i := i + 1;
    }
    assert timestamps[..i] == timestamps;
    return Success(actions);
  }
}
