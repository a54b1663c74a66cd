/** The per-stream push loop of the player (JuvoPlayer/Players/
    StreamRenderer.cs): takes packets from the packet synchronizer one at a
    time, decrypts the encrypted ones through the CDM, submits them to the
    platform player and reports each accepted packet to the buffering
    observer. The synchronizer, the CDM and the platform player are not
    part of this model: what they answer comes in as a sequence of steps. */
module StreamRenderer {
  import opened Common

  /** The segment handed to the synchronizer; it is passed on unchanged. */
  datatype Segment = Segment(id: nat)

  /** The calls the renderer makes on the packet synchronizer. */
  datatype SyncCall = AddPacket(packet: Packet) | SetSegment(segment: Segment) | FlushSync

  /** SubmitResult of IPlatformPlayer.SubmitPacket: Success, or any other
      value. */
  datatype SubmitResult = SubmitSuccess | SubmitOther(code: int)

  /** One `cdmInstance.Decrypt` attempt: it returns the clear packet, throws
      NoKeyException (and the wait for a key-status change then ends with a
      change or with cancellation), or throws anything else. */
  datatype WaitEnd = KeyStatusChanged | WaitCancelled
  datatype Attempt = Decrypts(clear: Packet) | NoKey(wait: WaitEnd) | DecryptError

  /** How DecryptPacket ends: with a clear packet, with an exception
      (`cancelled` for OperationCanceledException), or still waiting for a
      key once the known attempts are used up. */
  datatype DecryptResult = Decrypted(packet: Packet) | DecryptThrows(cancelled: bool) | StillWaiting

  /** What one turn of the push loop meets: TakeAsync yields a packet,
      together with the CDM's answers for it and the platform player's
      submit result, or TakeAsync is cancelled. */
  datatype Step = Taken(packet: Packet, attempts: seq<Attempt>, result: SubmitResult) | TakeCancelled

  /** How the push loop ends: cancelled, by another exception (a
      non-Success submit or a failed decryption), or not at all within the
      known steps. */
  datatype PushEnd = EndCancelled | EndFailed | StillRunning

  datatype Trace = Trace(submitted: seq<Packet>, observed: seq<Packet>, end: PushEnd)

  // ---- decryption ----

  /** The retry rule of DecryptPacket: a missing key waits for a key-status
      change and tries again; any other outcome is final. */
  function DecryptOutcome(attempts: seq<Attempt>): DecryptResult
    decreases |attempts|
  {
    if |attempts| == 0 then StillWaiting
    else
      match attempts[0]
      case Decrypts(clear) => Decrypted(clear)
      case DecryptError => DecryptThrows(false)
      case NoKey(WaitCancelled) => DecryptThrows(true)
      case NoKey(KeyStatusChanged) => DecryptOutcome(attempts[1..])
  }

  /** Key waits that end with a key-status change are skipped: the outcome
      is decided by the first attempt after them. */
  lemma {:induction false} KeyWaitsSkipped(attempts: seq<Attempt>, k: nat)
    requires k <= |attempts|
    requires forall j :: 0 <= j < k ==> attempts[j] == NoKey(KeyStatusChanged)
    ensures DecryptOutcome(attempts) == DecryptOutcome(attempts[k..])
    decreases k
  {
    if k > 0 {
      assert attempts[1..][k - 1..] == attempts[k..];
      KeyWaitsSkipped(attempts[1..], k - 1);
    }
  }

  /** Decryption gives a packet only through a successful Decrypt call, after
      nothing but key waits. */
  lemma {:induction false} DecryptedOnlyAfterKeyWaits(attempts: seq<Attempt>)
    ensures DecryptOutcome(attempts).Decrypted? ==>
      exists k :: 0 <= k < |attempts| && attempts[k] == Decrypts(DecryptOutcome(attempts).packet)
        && forall j :: 0 <= j < k ==> attempts[j] == NoKey(KeyStatusChanged)
    decreases |attempts|
  {
    if |attempts| > 0 && attempts[0] == NoKey(KeyStatusChanged) {
      DecryptedOnlyAfterKeyWaits(attempts[1..]);
      if DecryptOutcome(attempts).Decrypted? {
        var k :| 0 <= k < |attempts[1..]| && attempts[1..][k] == Decrypts(DecryptOutcome(attempts).packet)
          && forall j :: 0 <= j < k ==> attempts[1..][j] == NoKey(KeyStatusChanged);
        assert attempts[k + 1] == Decrypts(DecryptOutcome(attempts).packet);
        assert forall j :: 0 <= j < k + 1 ==> attempts[j] == NoKey(KeyStatusChanged) by {
          forall j | 0 <= j < k + 1 ensures attempts[j] == NoKey(KeyStatusChanged) {
            if j > 0 {
              assert attempts[j] == attempts[1..][j - 1];
            }
          }
        }
      }
    } else if |attempts| > 0 && attempts[0].Decrypts? {
      assert attempts[0] == Decrypts(DecryptOutcome(attempts).packet);
    }
  }

  /** DecryptPacket: the do-while loop around Decrypt. */
  method DecryptPacket(attempts: seq<Attempt>) returns (r: DecryptResult)
    ensures r == DecryptOutcome(attempts)
  {
    var i := 0;
    while i < |attempts|
      invariant 0 <= i <= |attempts|
      invariant DecryptOutcome(attempts[i..]) == DecryptOutcome(attempts)
      decreases |attempts| - i
    {
      match attempts[i] {
        case Decrypts(clear) =>
          return Decrypted(clear);
        case DecryptError =>
          return DecryptThrows(false);
        case NoKey(wait) =>
          if wait == WaitCancelled {
            return DecryptThrows(true);
          }
      }
      assert attempts[i..][1..] == attempts[i + 1..];
      i := i + 1;
    }
    return StillWaiting;
  }

  /** What SubmitPacket hands to the platform player: a plain packet as it
      is, an encrypted one as its decrypted counterpart. */
  function SubmittedForm(p: Packet, attempts: seq<Attempt>): (r: DecryptResult)
    ensures !p.IsEncrypted() ==> r == Decrypted(p)
  {
    if !p.IsEncrypted() then Decrypted(p) else DecryptOutcome(attempts)
  }

  // ---- the push loop ----

  /** The effect of the push loop on a run of steps: every taken packet is
      submitted in order; the observer sees a packet after its submit
      returned Success; the first non-Success result, failed decryption or
      cancellation ends the loop. */
  function PushTrace(steps: seq<Step>): Trace
    decreases |steps|
  {
    if |steps| == 0 then Trace([], [], StillRunning)
    else
      match steps[0]
      case TakeCancelled => Trace([], [], EndCancelled)
      case Taken(p, attempts, result) =>
        match SubmittedForm(p, attempts)
        case StillWaiting => Trace([], [], StillRunning)
        case DecryptThrows(cancelled) => Trace([], [], if cancelled then EndCancelled else EndFailed)
        case Decrypted(clear) =>
          if result != SubmitSuccess then Trace([clear], [], EndFailed)
          else
            var rest := PushTrace(steps[1..]);
            Trace([clear] + rest.submitted, [p] + rest.observed, rest.end)
  }

  /** The observer lags the player by at most the one packet whose submit
      failed, it sees the packets in the order they were taken, and only
      packets whose submit returned Success. */
  lemma {:induction false} ObserverFollowsSubmits(steps: seq<Step>)
    ensures var t := PushTrace(steps);
      && |t.observed| <= |t.submitted| <= |t.observed| + 1
      && (|t.submitted| == |t.observed| + 1 ==> t.end == EndFailed)
      && |t.observed| <= |steps|
      && forall i :: 0 <= i < |t.observed| ==>
           steps[i].Taken? && t.observed[i] == steps[i].packet && steps[i].result == SubmitSuccess
    decreases |steps|
  {
    if |steps| > 0 && steps[0].Taken? {
      ObserverFollowsSubmits(steps[1..]);
      var t := PushTrace(steps);
      var rest := PushTrace(steps[1..]);
      if SubmittedForm(steps[0].packet, steps[0].attempts).Decrypted? && steps[0].result == SubmitSuccess {
        forall i | 0 < i < |t.observed|
          ensures steps[i].Taken? && t.observed[i] == steps[i].packet && steps[i].result == SubmitSuccess
        {
          assert t.observed[i] == rest.observed[i - 1];
          assert steps[i] == steps[1..][i - 1];
        }
      }
    }
  }

  /** Accepted(steps, k): the first k steps took a packet, cleared it and
      had it accepted by the player. */
  predicate Accepted(steps: seq<Step>, k: nat)
    requires k <= |steps|
  {
    forall j :: 0 <= j < k ==>
      steps[j].Taken? && SubmittedForm(steps[j].packet, steps[j].attempts).Decrypted?
      && steps[j].result == SubmitSuccess
  }

  /** The first submit the player does not accept ends the loop: that
      packet is the last one submitted, the observer has seen exactly the
      packets before it, and no later step has any effect. */
  lemma {:induction false} FailedSubmitEndsLoop(steps: seq<Step>, k: nat)
    requires k < |steps| && Accepted(steps, k)
    requires steps[k].Taken? && SubmittedForm(steps[k].packet, steps[k].attempts).Decrypted?
    requires steps[k].result != SubmitSuccess
    ensures var t := PushTrace(steps);
      && t.end == EndFailed
      && |t.submitted| == k + 1
      && |t.observed| == k
      && (forall j :: 0 <= j < k ==> t.observed[j] == steps[j].packet)
      && t == PushTrace(steps[..k + 1])
    decreases k
  {
    if k > 0 {
      var tail := steps[1..];
      assert Accepted(tail, k - 1) by {
        forall j | 0 <= j < k - 1
          ensures tail[j].Taken? && SubmittedForm(tail[j].packet, tail[j].attempts).Decrypted?
                  && tail[j].result == SubmitSuccess
        {
          assert tail[j] == steps[j + 1];
        }
      }
      assert tail[k - 1] == steps[k];
      FailedSubmitEndsLoop(tail, k - 1);
      assert steps[..k + 1][1..] == tail[..k];
      var rest := PushTrace(tail);
      forall j | 0 < j < k ensures PushTrace(steps).observed[j] == steps[j].packet {
        assert PushTrace(steps).observed[j] == rest.observed[j - 1];
        assert tail[j - 1] == steps[j];
      }
    }
  }

  /** Every packet handed to the player is a taken packet in clear form:
      the packet itself when it was not encrypted. */
  lemma {:induction false} SubmittedAreClear(steps: seq<Step>)
    ensures var t := PushTrace(steps);
      && |t.submitted| <= |steps|
      && forall i :: 0 <= i < |t.submitted| ==>
           steps[i].Taken? && SubmittedForm(steps[i].packet, steps[i].attempts) == Decrypted(t.submitted[i])
           && (!steps[i].packet.IsEncrypted() ==> t.submitted[i] == steps[i].packet)
    decreases |steps|
  {
    if |steps| > 0 && steps[0].Taken? {
      SubmittedAreClear(steps[1..]);
      var t := PushTrace(steps);
      var rest := PushTrace(steps[1..]);
      if SubmittedForm(steps[0].packet, steps[0].attempts).Decrypted? && steps[0].result == SubmitSuccess {
        forall i | 0 < i < |t.submitted|
          ensures steps[i].Taken? && SubmittedForm(steps[i].packet, steps[i].attempts) == Decrypted(t.submitted[i])
        {
          assert t.submitted[i] == rest.submitted[i - 1];
          assert steps[i] == steps[1..][i - 1];
        }
      }
    }
  }

  class StreamRenderer {
    var isPushingPackets: bool
    /** `_cancellationTokenSource` is not null, and whether it was cancelled. */
    var hasTokenSource: bool
    var cancellationRequested: bool
    /** The calls made on the packet synchronizer, oldest first. */
    var syncCalls: seq<SyncCall>
    /** The DRM init data handed to the CDM context. */
    var drmInitData: seq<seq<byte>>
    /** The packets handed to the platform player, and those reported to the
        buffering observer. */
    var submitted: seq<Packet>
    var observed: seq<Packet>

    constructor ()
      ensures !isPushingPackets && !hasTokenSource && !cancellationRequested
      ensures syncCalls == [] && drmInitData == [] && submitted == [] && observed == []
    {
      isPushingPackets := false;
      hasTokenSource := false;
      cancellationRequested := false;
      syncCalls := [];
      drmInitData := [];
      submitted := [];
      observed := [];
    }

    /** HandlePacket: only adds the packet to the synchronizer. */
    method HandlePacket(packet: Packet)
      modifies this`syncCalls
      ensures syncCalls == old(syncCalls) + [AddPacket(packet)]
    {
      syncCalls := syncCalls + [AddPacket(packet)];
    }

    /** HandleDrmInitData: only forwards the init data to the CDM context. */
    method HandleDrmInitData(data: seq<byte>)
      modifies this`drmInitData
      ensures drmInitData == old(drmInitData) + [data]
    {
      drmInitData := drmInitData + [data];
    }

    /** Flush: only flushes the synchronizer. */
    method Flush()
      modifies this`syncCalls
      ensures syncCalls == old(syncCalls) + [FlushSync]
    {
      syncCalls := syncCalls + [FlushSync];
    }

    /** StopPushingPackets: cancels the token source, if there is one, and
        clears the flag. */
    method StopPushingPackets()
      modifies this`cancellationRequested, this`isPushingPackets
      ensures !isPushingPackets
      ensures cancellationRequested == (old(cancellationRequested) || hasTokenSource)
    {
      if hasTokenSource {
        cancellationRequested := true;
      }
      isPushingPackets := false;
    }

    /** SubmitPacket: submits a plain packet as it is, and an encrypted one
        once DecryptPacket has produced its clear form. */
    method SubmitPacket(p: Packet, attempts: seq<Attempt>) returns (form: DecryptResult)
      ensures form == SubmittedForm(p, attempts)
    {
      if !p.IsEncrypted() {
        return Decrypted(p);
      }
      form := DecryptPacket(attempts);
    }

    /** StartPushingPackets: does nothing while already pushing; otherwise
        sets the flag, installs the segment and a fresh token source, and
        runs the push loop over the steps. The exception that ends the loop
        is caught and logged, so the flag stays set. */
    method StartPushingPackets(segment: Segment, steps: seq<Step>) returns (end: Option<PushEnd>)
      modifies this
      ensures old(isPushingPackets) ==> end == None && unchanged(this)
      ensures !old(isPushingPackets) ==>
        && isPushingPackets && hasTokenSource && !cancellationRequested
        && syncCalls == old(syncCalls) + [SetSegment(segment)]
        && submitted == old(submitted) + PushTrace(steps).submitted
        && observed == old(observed) + PushTrace(steps).observed
        && end == Some(PushTrace(steps).end)
      ensures drmInitData == old(drmInitData)
    {
      if isPushingPackets {
        return None;
      }
      isPushingPackets := true;
      syncCalls := syncCalls + [SetSegment(segment)];
      hasTokenSource := true;
      cancellationRequested := false;
      ghost var submitted0 := submitted;
      ghost var observed0 := observed;
      var i := 0;
      while !cancellationRequested && i < |steps|
        invariant 0 <= i <= |steps| && !cancellationRequested
        invariant isPushingPackets && hasTokenSource
        invariant syncCalls == old(syncCalls) + [SetSegment(segment)] && drmInitData == old(drmInitData)
        invariant submitted + PushTrace(steps[i..]).submitted == submitted0 + PushTrace(steps).submitted
        invariant observed + PushTrace(steps[i..]).observed == observed0 + PushTrace(steps).observed
        invariant PushTrace(steps[i..]).end == PushTrace(steps).end
        decreases |steps| - i
      {
        match steps[i] {
          case TakeCancelled =>
            return Some(EndCancelled);
          case Taken(packet, attempts, result) =>
            var form := SubmitPacket(packet, attempts);
            match form {
              case StillWaiting =>
                return Some(StillRunning);
              case DecryptThrows(cancelled) =>
                return Some(if cancelled then EndCancelled else EndFailed);
              case Decrypted(clear) =>
                submitted := submitted + [clear];
                if result != SubmitSuccess {
                  return Some(EndFailed);
                }
                observed := observed + [packet];
            }
        }
        assert steps[i..][1..] == steps[i + 1..];
        i := i + 1;
      }
      return Some(StillRunning);
    }
  }
}
