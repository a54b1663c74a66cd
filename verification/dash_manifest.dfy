/** The reload policy of a DASH manifest (JuvoPlayer/DataProviders/Dash/
    DashManifest.cs). ReloadManifestTask is an async method; its three
    synchronous stretches, split at its two awaits, are the methods
    StartReload, DownloadCompleted and ParseCompleted, so that a second
    attempt or a CancelReload can come in between. The wall clock and the
    outcomes of the download and the parse are parameters. */
module DashManifest {
  import opened Common

  /** DateTime.MaxValue in ticks (100 ns units since 0001-01-01);
      DateTime.MinValue is tick 0. */
  const MaxDateTimeTicks: int := 3155378975999999999

  /** A DateTime, as its tick count. */
  type DateTime = t: int | 0 <= t <= MaxDateTimeTicks

  /** TimeSpan.MaxValue in ticks: 2^63 - 1. */
  const TimeSpanMax: int := 0x7FFF_FFFF_FFFF_FFFF

  /** The parts of an MPD Document the manifest uses: `MPD@type` is
      "dynamic", `MPD@minimumUpdatePeriod` (ticks, None when absent), and
      the three timestamps the reload stamps on it. */
  datatype Document = Document(
    isDynamic: bool,
    minimumUpdatePeriod: Option<int>,
    downloadRequestTime: DateTime,
    downloadCompleteTime: DateTime,
    parseCompleteTime: DateTime)

  /** Where ReloadManifestTask is suspended, if an attempt is in flight. */
  datatype Phase = Idle | Downloading | Parsing(xml: string)

  /** How one step of a reload attempt ended. `Skipped`: the lock was
      taken; `Pending`: the attempt awaits its next step; `Cancelled`: an
      OperationCanceledException ended the reload. */
  datatype Outcome = Skipped | Pending | DownloadFailed | ParseFailed | Cancelled | Committed

  class DashManifest {
    const uri: string
    var currentDocument: Option<Document>
    var lastReloadTime: DateTime
    var minimumReloadPeriod: int
    /** `updateInProgressLock` has count 0. */
    var lockTaken: bool
    /** `cancellationTokenSource` is not null. */
    var hasTokenSource: bool
    /** Cancel was called on the current token source. */
    var cancelRequested: bool
    var phase: Phase
    /** The locals `requestTime` and `downloadTime` of the suspended task. */
    var requestTime: DateTime
    var downloadTime: DateTime

    /** The lock is held, and the token source exists, exactly while an
      attempt is in flight; a cancellation belongs to a live token source. */
    ghost predicate Valid()
      reads this
    {
      && (lockTaken <==> phase != Idle)
      && (hasTokenSource <==> phase != Idle)
      && (cancelRequested ==> hasTokenSource)
    }

    constructor (url: string)
      ensures Valid()
      ensures uri == url && currentDocument == None
      ensures lastReloadTime == 0 && minimumReloadPeriod == 0 && phase == Idle
    {
      uri := url;
      currentDocument := None;
      lastReloadTime := 0;
      minimumReloadPeriod := 0;
      lockTaken := false;
      hasTokenSource := false;
      cancelRequested := false;
      phase := Idle;
      requestTime := 0;
      downloadTime := 0;
    }

    /** NeedsReload at wall-clock time `now`. */
    predicate NeedsReload(now: DateTime)
      reads this
    {
      Due(currentDocument, lastReloadTime, minimumReloadPeriod, now)
    }

    /** CancelReload: cancels the in-flight attempt's token, if there is one;
      it never throws. */
    method CancelReload()
      modifies this`cancelRequested
      requires Valid()
      ensures Valid()
      ensures !old(hasTokenSource) ==> unchanged(this)
      ensures old(hasTokenSource) ==> cancelRequested && unchanged(this`currentDocument, this`phase, this`lockTaken)
      ensures unchanged(this`lastReloadTime, this`minimumReloadPeriod, this`hasTokenSource)
      ensures unchanged(this`requestTime, this`downloadTime)
    {
      if hasTokenSource {
        cancelRequested := true;
      }
    }

    /** The finally block: disposes the token source and releases the lock. */
    method Finish()
      modifies this`hasTokenSource, this`cancelRequested, this`lockTaken, this`phase
      ensures Valid()
      ensures !hasTokenSource && !lockTaken && phase == Idle && !cancelRequested
    {
      hasTokenSource := false;
      cancelRequested := false;
      lockTaken := false;
      phase := Idle;
    }

    /** ReloadManifestTask up to the download's await: returns at once if the
      lock is taken; otherwise installs a new token source (which cannot be
      cancelled yet, so the first cancellation check passes) and stamps
      `lastReloadTime` before anything can fail. */
    method StartReload(now: DateTime, requestNow: DateTime) returns (outcome: Outcome)
      modifies this
      requires Valid()
      ensures Valid()
      ensures old(lockTaken) ==> outcome == Skipped && unchanged(this)
      ensures !old(lockTaken) ==>
        && outcome == Pending && phase == Downloading && lockTaken && !cancelRequested
        && lastReloadTime == now && requestTime == requestNow
      ensures unchanged(this`currentDocument, this`minimumReloadPeriod)
    {
      if lockTaken {
        return Skipped;
      }
      lockTaken := true;
      hasTokenSource := true;
      cancelRequested := false;
      lastReloadTime := now;
      requestTime := requestNow;
      phase := Downloading;
      outcome := Pending;
    }

    /** ReloadManifestTask after the download: a failed download (null
      text) ends the attempt, as a cancellation if one was requested; a
      text goes on to the parse. */
    method DownloadCompleted(xml: Option<string>, now: DateTime) returns (outcome: Outcome)
      modifies this
      requires Valid() && phase == Downloading
      ensures Valid()
      ensures xml.None? ==> outcome == (if old(cancelRequested) then Cancelled else DownloadFailed) && phase == Idle
      ensures xml.Some? ==> outcome == Pending && phase == Parsing(xml.value) && downloadTime == now
      ensures xml.Some? ==> unchanged(this`cancelRequested, this`lockTaken)
      ensures unchanged(this`currentDocument, this`minimumReloadPeriod, this`lastReloadTime, this`requestTime)
      ensures xml.None? ==> unchanged(this`downloadTime)
    {
      if xml.None? {
        outcome := if cancelRequested then Cancelled else DownloadFailed;
        Finish();
        return;
      }
      downloadTime := now;
      phase := Parsing(xml.value);
      outcome := Pending;
    }

    /** ReloadManifestTask after the parse: a failed parse or a requested
      cancellation ends the attempt without touching the document; otherwise
      the stamped document is committed and its update period (or
      TimeSpan.MaxValue when it has none) becomes the reload period. The
      lock is released on every path. */
    method ParseCompleted(doc: Option<Document>, now: DateTime) returns (outcome: Outcome)
      modifies this
      requires Valid() && phase.Parsing?
      ensures Valid() && phase == Idle && !lockTaken && !hasTokenSource
      ensures doc.None? ==> outcome == (if old(cancelRequested) then Cancelled else ParseFailed)
      ensures doc.Some? && old(cancelRequested) ==> outcome == Cancelled
      ensures outcome != Committed ==> unchanged(this`currentDocument, this`minimumReloadPeriod)
      ensures outcome == Committed <==> doc.Some? && !old(cancelRequested)
      ensures outcome == Committed ==>
        && currentDocument == Some(doc.value.(downloadRequestTime := old(requestTime),
                                              downloadCompleteTime := old(downloadTime),
                                              parseCompleteTime := now))
        && minimumReloadPeriod == doc.value.minimumUpdatePeriod.GetOr(TimeSpanMax)
      ensures unchanged(this`lastReloadTime, this`requestTime, this`downloadTime)
    {
      if doc.None? {
        outcome := if cancelRequested then Cancelled else ParseFailed;
        Finish();
        return;
      }
      if cancelRequested {
        outcome := Cancelled;
        Finish();
        return;
      }
      var newDoc := doc.value.(downloadRequestTime := requestTime, downloadCompleteTime := downloadTime,
                               parseCompleteTime := now);
      minimumReloadPeriod := newDoc.minimumUpdatePeriod.GetOr(TimeSpanMax);
      currentDocument := Some(newDoc);
      outcome := Committed;
      Finish();
    }
  }

  // ---- the reload policy ----

  /** The policy NeedsReload evaluates, on the manifest's state. */
  predicate Due(doc: Option<Document>, lastReloadTime: DateTime, period: int, now: DateTime) {
    doc.None? || (doc.value.isDynamic && now - lastReloadTime >= period)
  }

  /** With no document a reload is always due; a static document is never
      reloaded again; a dynamic one is due once the period has elapsed since
      the last attempt started. */
  lemma DueCases(doc: Option<Document>, lastReloadTime: DateTime, period: int, now: DateTime)
    ensures doc.None? ==> Due(doc, lastReloadTime, period, now)
    ensures doc.Some? && !doc.value.isDynamic ==> !Due(doc, lastReloadTime, period, now)
    ensures doc.Some? && doc.value.isDynamic ==>
      (Due(doc, lastReloadTime, period, now) <==> now >= lastReloadTime + period)
  {
  }

  /** A document without an update period is never due: the period is
      TimeSpan.MaxValue, longer than any two DateTimes are apart. */
  lemma {:induction false} NoUpdatePeriodNeverDue(doc: Document, lastReloadTime: DateTime, now: DateTime)
    requires doc.minimumUpdatePeriod.None?
    ensures !Due(Some(doc), lastReloadTime, doc.minimumUpdatePeriod.GetOr(TimeSpanMax), now)
  {
    assert now - lastReloadTime <= MaxDateTimeTicks < TimeSpanMax;
  }

  /** A whole attempt on a fresh manifest: a reload is due, the download and
      parse of a dynamic document with update period `period` succeed, and
      from then on the next reload is due exactly `period` ticks after the
      attempt started. The committed document carries the request,
      download and parse times of the attempt. */
  method ReloadCycle(start: DateTime, fetched: DateTime, parsed: DateTime, xml: string,
                     doc: Document, period: int, later: DateTime)
    returns (m: DashManifest)
    requires doc.isDynamic && doc.minimumUpdatePeriod == Some(period)
    ensures fresh(m) && m.Valid() && m.phase == Idle
    ensures m.currentDocument.Some? && m.currentDocument.value.isDynamic
    ensures m.currentDocument.value.downloadRequestTime == start
    ensures m.currentDocument.value.downloadCompleteTime == fetched
    ensures m.currentDocument.value.parseCompleteTime == parsed
    ensures m.NeedsReload(later) <==> later >= start + period
  {
    m := new DashManifest("manifest.mpd");
    assert m.NeedsReload(start);
    var o := m.StartReload(start, start);
    o := m.DownloadCompleted(Some(xml), fetched);
    o := m.ParseCompleted(Some(doc), parsed);
    assert o == Committed;
  }

  /** A cancellation during the download wins over a successful download
      and parse: the attempt ends as cancelled, the request time stamped at
      its start is still held when the parse completes, and the document and
      period are kept. */
  method CancelledAttemptKeepsDocument(m: DashManifest, start: DateTime, requested: DateTime,
                                       fetched: DateTime, parsed: DateTime, xml: string, doc: Document)
    returns (o: Outcome)
    modifies m
    requires m.Valid() && m.phase == Idle
    ensures m.Valid() && m.phase == Idle && o == Cancelled
    ensures m.currentDocument == old(m.currentDocument) && m.minimumReloadPeriod == old(m.minimumReloadPeriod)
    ensures m.lastReloadTime == start && m.requestTime == requested && m.downloadTime == fetched
  {
    o := m.StartReload(start, requested);
    m.CancelReload();
    assert m.requestTime == requested;
    o := m.DownloadCompleted(Some(xml), fetched);
    o := m.ParseCompleted(Some(doc), parsed);
  }

  /** A failed download still counts as an attempt: with a dynamic document
      loaded, the next reload is not due before a full period after the
      failed attempt started, and the document and period are kept. */
  method FailedAttemptPostpones(m: DashManifest, start: DateTime, fetched: DateTime, later: DateTime)
    returns (o: Outcome)
    modifies m
    requires m.Valid() && m.phase == Idle
    requires m.currentDocument.Some? && m.currentDocument.value.isDynamic
    ensures m.Valid() && m.phase == Idle && o == DownloadFailed
    ensures m.currentDocument == old(m.currentDocument) && m.minimumReloadPeriod == old(m.minimumReloadPeriod)
    ensures m.NeedsReload(later) <==> later >= start + m.minimumReloadPeriod
  {
    o := m.StartReload(start, start);
    o := m.DownloadCompleted(None, fetched);
  }
}
