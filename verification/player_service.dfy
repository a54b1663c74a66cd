/** The player facade of the OpenGL front end (JuvoPlayer.OpenGL/Services/
    PlayerService.cs): it keeps the externally visible player state, raises
    StateChanged on every change, and forwards commands to the player
    controller and the data provider. Controller, provider and connector
    are not part of this model; their calls are recorded in order. */
module PlayerService {
  import opened Common

  datatype PlayerState = Idle | Prepared | Playing | Paused | Stopped | Completed | Error

  /** StreamDescription.StreamType of the front end. */
  datatype UiStreamType = UiAudio | UiVideo | UiSubtitle

  /** A DRM description of a clip; its contents are passed on unchanged. */
  datatype DrmDescription = DrmDescription(scheme: string, licenceUrl: string)

  datatype ClipDefinition = ClipDefinition(url: string, drmDatas: Option<seq<DrmDescription>>)

  /** The argument of SetSource: a clip definition or any other object. */
  datatype Source = ClipSource(clip: ClipDefinition) | OtherSource

  /** The calls made on the collaborators: the player controller, the
      data-provider factory and DataProviderConnector. A provider is named by the
      clip it was created for (None while there is none). */
  datatype Call =
    | OnPlay | OnPause | OnStop | OnSeek(to: int)
    | OnSetDrmConfiguration(drm: DrmDescription)
    | Disconnect(current: Option<ClipDefinition>)
    | CreateDataProvider(clip: ClipDefinition)
    | Connect(provider: ClipDefinition)
    | StartProvider(provider: ClipDefinition)

  // ---- stream types ----

  function ToJuvoStreamType(t: UiStreamType): (r: StreamType) {
    match t
    case UiAudio => Audio
    case UiVideo => Video
    case UiSubtitle => Subtitle
  }

  /** ToStreamType undoes ToJuvoStreamType. */
  function ToStreamType(t: StreamType): (r: UiStreamType)
    ensures ToJuvoStreamType(r) == t
  {
    match t
    case Audio => UiAudio
    case Video => UiVideo
    case Subtitle => UiSubtitle
  }

  /** The two conversions are inverse bijections. */
  lemma StreamTypeRoundTrips(t: UiStreamType, s: StreamType)
    ensures ToStreamType(ToJuvoStreamType(t)) == t
    ensures ToJuvoStreamType(ToStreamType(s)) == s
  {
  }

  // ---- SetSource ----

  function DrmCalls(drms: seq<DrmDescription>): (r: seq<Call>)
    ensures |r| == |drms|
    ensures forall i :: 0 <= i < |drms| ==> r[i] == OnSetDrmConfiguration(drms[i])
  {
    seq(|drms|, i requires 0 <= i < |drms| => OnSetDrmConfiguration(drms[i]))
  }

  /** The calls SetSource makes for a clip, in order: disconnect the old
      provider, create the new one, apply each DRM configuration, connect,
      start. */
  function SetSourceCalls(previous: Option<ClipDefinition>, clip: ClipDefinition): (r: seq<Call>)
    ensures |r| == 4 + (if clip.drmDatas.Some? then |clip.drmDatas.value| else 0)
    ensures r[0] == Disconnect(previous) && r[1] == CreateDataProvider(clip)
    ensures r[|r| - 2] == Connect(clip) && r[|r| - 1] == StartProvider(clip)
    ensures forall i :: 2 <= i < |r| - 2 ==> r[i] == OnSetDrmConfiguration(clip.drmDatas.value[i - 2])
  {
    [Disconnect(previous), CreateDataProvider(clip)]
      + (if clip.drmDatas.Some? then DrmCalls(clip.drmDatas.value) else [])
      + [Connect(clip), StartProvider(clip)]
  }

  class PlayerService {
    var playerState: PlayerState
    /** The states carried by the StateChanged events raised so far. */
    var stateChanges: seq<PlayerState>
    var calls: seq<Call>
    var dataProvider: Option<ClipDefinition>

    /** The state is the one carried by the last StateChanged event, or Idle
        before the first. */
    ghost predicate Valid()
      reads this
    {
      playerState == if |stateChanges| == 0 then Idle else stateChanges[|stateChanges| - 1]
    }

    constructor ()
      ensures Valid() && playerState == Idle
      ensures stateChanges == [] && calls == [] && dataProvider == None
    {
      playerState := Idle;
      stateChanges := [];
      calls := [];
      dataProvider := None;
    }

    /** The State setter: stores the state and raises StateChanged with it. */
    method SetState(s: PlayerState)
      modifies this`playerState, this`stateChanges
      ensures Valid()
      ensures playerState == s && stateChanges == old(stateChanges) + [s]
    {
      playerState := s;
      stateChanges := stateChanges + [s];
    }

    /** Start, Pause and Stop call the controller, then set the state
        whatever it was before. */
    method Start()
      modifies this`playerState, this`stateChanges, this`calls
      ensures Valid() && playerState == Playing
      ensures calls == old(calls) + [OnPlay] && stateChanges == old(stateChanges) + [Playing]
    {
      calls := calls + [OnPlay];
      SetState(Playing);
    }

    method Pause()
      modifies this`playerState, this`stateChanges, this`calls
      ensures Valid() && playerState == Paused
      ensures calls == old(calls) + [OnPause] && stateChanges == old(stateChanges) + [Paused]
    {
      calls := calls + [OnPause];
      SetState(Paused);
    }

    method Stop()
      modifies this`playerState, this`stateChanges, this`calls
      ensures Valid() && playerState == Stopped
      ensures calls == old(calls) + [OnStop] && stateChanges == old(stateChanges) + [Stopped]
    {
      calls := calls + [OnStop];
      SetState(Stopped);
    }

    /** SeekTo only forwards the seek; the state is left alone. */
    method SeekTo(to: int)
      modifies this`calls
      ensures calls == old(calls) + [OnSeek(to)]
    {
      calls := calls + [OnSeek(to)];
    }

    /** The controller's events: PlaybackCompleted, PlayerInitialized and
        PlaybackError. */
    method OnPlaybackCompleted()
      modifies this`playerState, this`stateChanges
      ensures Valid() && playerState == Completed && stateChanges == old(stateChanges) + [Completed]
    {
      SetState(Completed);
    }

    method OnPlayerInitialized()
      modifies this`playerState, this`stateChanges
      ensures Valid() && playerState == Prepared && stateChanges == old(stateChanges) + [Prepared]
    {
      SetState(Prepared);
    }

    method OnPlaybackError(message: string)
      modifies this`playerState, this`stateChanges
      ensures Valid() && playerState == Error && stateChanges == old(stateChanges) + [Error]
    {
      SetState(Error);
    }

    /** SetSource: ignores anything but a clip definition; for a clip it
        replaces the data provider, making its calls in order. */
    method SetSource(o: Source)
      modifies this`calls, this`dataProvider
      ensures o.OtherSource? ==> calls == old(calls) && dataProvider == old(dataProvider)
      ensures o.ClipSource? ==>
        calls == old(calls) + SetSourceCalls(old(dataProvider), o.clip) && dataProvider == Some(o.clip)
    {
      if !o.ClipSource? {
        return;
      }
      var clip := o.clip;
      calls := calls + [Disconnect(dataProvider)];
      dataProvider := Some(clip);
      calls := calls + [CreateDataProvider(clip)];
      ghost var before := calls;
      if clip.drmDatas.Some? {
        var drms := clip.drmDatas.value;
        for i := 0 to |drms|
          invariant calls == before + DrmCalls(drms[..i]) && dataProvider == Some(clip)
        {
          assert DrmCalls(drms[..i + 1]) == DrmCalls(drms[..i]) + [OnSetDrmConfiguration(drms[i])];
          calls := calls + [OnSetDrmConfiguration(drms[i])];
        }
        assert drms[..|drms|] == drms;
      }
      calls := calls + [Connect(clip), StartProvider(clip)];
    }
  }

  /** Example: a session of Start, then SeekTo, then a playback error; the
      state follows the last event and SeekTo raises none. */
  method Session() returns (p: PlayerService)
    ensures fresh(p) && p.Valid()
    ensures p.stateChanges == [Playing, Error] && p.playerState == Error
    ensures p.calls == [OnPlay, OnSeek(5)]
  {
    p := new PlayerService();
    p.Start();
    p.SeekTo(5);
    p.OnPlaybackError("decoder");
  }
}
