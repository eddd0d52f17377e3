// Whole runs of frames, edits and toggles: which frames trust old samples, and whose they are.
module HistoryRuns {
  import opened Grid
  import opened Reprojection
  import opened TemporalHistory

  datatype Switch = DenoiseSwitch | ReprojectSwitch | SkipSwitch | DebugSwitch

  // What can happen to the renderer between two moments.
  datatype Event = Edited | Toggled(switch: Switch, on: bool) | Drawn(shot: Shot)

  function Position(s: Switches, w: Switch): bool {
    match w
    case DenoiseSwitch => s.denoise
    case ReprojectSwitch => s.reproject
    case SkipSwitch => s.skip
    case DebugSwitch => s.debug
  }

  function Turned(s: Switches, w: Switch, on: bool): Switches {
    match w
    case DenoiseSwitch => s.(denoise := on)
    case ReprojectSwitch => s.(reproject := on)
    case SkipSwitch => s.(skip := on)
    case DebugSwitch => s.(debug := on)
  }

  // The switches after some events.
  function After(s: Switches, events: seq<Event>): Switches {
    if events == [] then s
    else
      var before, last := After(s, events[..|events| - 1]), events[|events| - 1];
      if last.Toggled? then Turned(before, last.switch, last.on) else before
  }

  // The event is a toggle to where the switch stands already.
  predicate Idle(s: Switches, events: seq<Event>, k: nat)
    requires k < |events|
  {
    events[k].Toggled? && Position(After(s, events[..k]), events[k].switch) == events[k].on
  }

  // What a frame found and left: its counter, the buffers it read and the ones it wrote, and the
  // view it projected into.
  datatype Record = Record(counter: nat, read: Contents, wrote: Contents, view: View)

  // Frame j is the frame right before frame i, under the same scene key, and nothing that matters
  // happened in between.
  ghost predicate Follows(s: Switches, events: seq<Event>, j: nat, i: nat) {
    && j < i < |events| && events[j].Drawn? && events[i].Drawn? && events[j].shot.scene == events[i].shot.scene
    && forall k :: j < k < i ==> Idle(s, events, k)
  }

  predicate Quality(e: Event) {
    e.Drawn? && e.shot.scene.lightingMode == 1
  }

  // Frame i goes on where frame j stopped: it reads what j wrote and projects into j's view.
  ghost predicate GoesOn(events: seq<Event>, log: seq<Record>, j: nat, i: nat)
    requires j < i < |log| <= |events| && events[j].Drawn?
  {
    && log[i].read == log[j].wrote && log[i].view == ViewOf(events[j].shot.camera)
    && log[i].counter == (log[j].counter + 1) % UINT_RANGE
  }

  // The samples of a still camera are kept; those of a moving one if reprojection or denoising is on.
  predicate KeepsInMotion(s: Switches, events: seq<Event>, j: nat, i: nat)
    requires j < i < |events| && events[j].Drawn? && events[i].Drawn?
  {
    var now := After(s, events[..i]);
    events[j].shot.cam == events[i].shot.cam || now.reproject || now.denoise
  }

  // A QUALITY frame goes on from the frame it follows, if there is one and its samples are kept;
  // otherwise it starts afresh with counter 0.
  ghost predicate Trustworthy(s: Switches, events: seq<Event>, log: seq<Record>, i: nat)
    requires i < |log| <= |events|
  {
    Quality(events[i]) ==>
      if exists j: nat :: Follows(s, events, j, i) && KeepsInMotion(s, events, j, i)
      then exists j: nat :: Follows(s, events, j, i) && GoesOn(events, log, j, i)
      else log[i].counter == 0
  }

  // A longer log says the same about earlier frames.
  lemma TrustStays(s: Switches, events: seq<Event>, log: seq<Record>, log': seq<Record>, i: nat)
    requires i < |log| <= |log'| <= |events| && log <= log' && Trustworthy(s, events, log, i)
    ensures Trustworthy(s, events, log', i)
  {
    hide Idle;
    if Quality(events[i]) && exists j: nat :: Follows(s, events, j, i) && KeepsInMotion(s, events, j, i) {
      var j: nat :| Follows(s, events, j, i) && GoesOn(events, log, j, i);
      assert GoesOn(events, log', j, i);
    }
  }

  // ------------------------------------------------------------------------------------------
  // What the run keeps
  // ------------------------------------------------------------------------------------------

  // The last frame before moment i, if nothing that matters happened since.
  ghost predicate Fresh(s: Switches, events: seq<Event>, j: nat, i: nat) {
    j < i <= |events| && events[j].Drawn? && forall k :: j < k < i ==> Idle(s, events, k)
  }

  lemma OnlyOne(s: Switches, events: seq<Event>, j: nat, j': nat, i: nat)
    requires Fresh(s, events, j, i) && j != j'
    ensures !Fresh(s, events, j', i)
  {
    if j < j' < i {
      assert Idle(s, events, j');
    } else if j' < j {
      assert !Idle(s, events, j);
    }
  }

  lemma FollowsIsFresh(s: Switches, events: seq<Event>, j: nat, i: nat)
    requires i < |events|
    ensures Follows(s, events, j, i) <==>
      Fresh(s, events, j, i) && events[i].Drawn? && events[j].shot.scene == events[i].shot.scene
  {
    hide Idle;
  }

  lemma StaysFresh(s: Switches, events: seq<Event>, j: nat, i: nat)
    requires i < |events|
    ensures Fresh(s, events, j, i + 1) <==>
      if j == i then events[i].Drawn? else Fresh(s, events, j, i) && Idle(s, events, i)
  {
    hide Idle;
  }

  // The state of the history after the first i events.
  ghost predicate Tracks(s: Switches, events: seq<Event>, log: seq<Record>, i: nat, have: bool, counter: nat,
                         scene: SceneKey, cam: CameraKey, view: Option<View>, readable: Contents) {
    && |log| == i <= |events|
    && if have then
         exists j: nat ::
           && Fresh(s, events, j, i)
           && events[j].shot.scene == scene && events[j].shot.cam == cam && view == Some(ViewOf(events[j].shot.camera))
           && log[j].counter == counter && log[j].wrote == readable
       else forall j: nat :: !Fresh(s, events, j, i)
  }

  // A frame extends the log truthfully.
  lemma FrameTracks(s: Switches, events: seq<Event>, log: seq<Record>, i: nat, have: bool, counter: nat,
                    scene: SceneKey, cam: CameraKey, view: Option<View>, readable: Contents, counter': nat,
                    wrote: Contents)
    requires Tracks(s, events, log, i, have, counter, scene, cam, view, readable) && i < |events| && events[i].Drawn?
    requires var shot, now := events[i].shot, After(s, events[..i]);
      counter' == if shot.scene.lightingMode == 1 && have && shot.scene == scene
                     && (shot.cam == cam || now.reproject || now.denoise)
                  then (counter + 1) % UINT_RANGE else 0
    ensures var shot := events[i].shot; var own := ViewOf(shot.camera);
      var log' := log + [Record(counter', readable, wrote, if view.Some? then view.value else own)];
      && Tracks(s, events, log', i + 1, true, counter', shot.scene, shot.cam, Some(own), wrote)
      && Trustworthy(s, events, log', i)
  {
    var shot := events[i].shot;
    var log' := log + [Record(counter', readable, wrote, if view.Some? then view.value else ViewOf(shot.camera))];
    StaysFresh(s, events, i, i);
    hide Idle, ViewOf;
    assert Fresh(s, events, i, i + 1) && log'[i].wrote == wrote;
    if have {
      var j: nat :| Fresh(s, events, j, i)
           && events[j].shot.scene == scene && events[j].shot.cam == cam && view == Some(ViewOf(events[j].shot.camera))
           && log[j].counter == counter && log[j].wrote == readable;
      FollowsIsFresh(s, events, j, i);
      forall j': nat | Follows(s, events, j', i)
        ensures j' == j
      {
        FollowsIsFresh(s, events, j', i);
        if j' != j {
          OnlyOne(s, events, j, j', i);
        }
      }
      assert log'[j] == log[j];
    } else {
      forall j: nat
        ensures !Follows(s, events, j, i)
      {
        FollowsIsFresh(s, events, j, i);
      }
    }
  }

  // An edit or a toggle that changes something ends the history, an idle toggle leaves it alone.
  lemma OtherTracks(s: Switches, events: seq<Event>, log: seq<Record>, i: nat, have: bool, counter: nat,
                    scene: SceneKey, cam: CameraKey, view: Option<View>, readable: Contents, counter': nat, r: Record)
    requires Tracks(s, events, log, i, have, counter, scene, cam, view, readable) && i < |events| && !events[i].Drawn?
    requires have && Idle(s, events, i) ==> counter' == counter
    ensures Tracks(s, events, log + [r], i + 1, have && Idle(s, events, i), counter', scene, cam, view, readable)
  {
    var log', next := log + [r], i + 1;
    hide Idle, ViewOf;
    forall j: nat
      ensures Fresh(s, events, j, next) <==> Fresh(s, events, j, i) && Idle(s, events, i)
    {
      StaysFresh(s, events, j, i);
    }
    if have && Idle(s, events, i) {
      var j: nat :|
        && Fresh(s, events, j, i)
        && events[j].shot.scene == scene && events[j].shot.cam == cam && view == Some(ViewOf(events[j].shot.camera))
        && log[j].counter == counter && log[j].wrote == readable;
      assert Fresh(s, events, j, next) && log'[j] == log[j];
    }
  }

  lemma AfterStep(s: Switches, events: seq<Event>, i: nat)
    requires i < |events|
    ensures After(s, events[..i + 1]) ==
      if events[i].Toggled? then Turned(After(s, events[..i]), events[i].switch, events[i].on)
      else After(s, events[..i])
  {
    assert events[..i + 1][..i] == events[..i];
  }

  lemma TrustAll(s: Switches, events: seq<Event>, log: seq<Record>, r: Record)
    requires |log| < |events| && forall k :: 0 <= k < |log| ==> Trustworthy(s, events, log, k)
    requires Quality(events[|log|]) ==> Trustworthy(s, events, log + [r], |log|)
    ensures forall k :: 0 <= k <= |log| ==> Trustworthy(s, events, log + [r], k)
  {
    forall k | 0 <= k < |log|
      ensures Trustworthy(s, events, log + [r], k)
    {
      TrustStays(s, events, log, log + [r], k);
    }
  }

  // Turns one of the renderer's switches.
  method Toggle(h: History, w: Switch, on: bool)
    requires h.Valid()
    modifies h`giDenoise, h`giReproject, h`emptySkip, h`giDebug, h`accumFrame, h`accHave, h`epoch
    ensures h.Valid() && h.SwitchesNow() == Turned(old(h.SwitchesNow()), w, on)
    ensures if Position(old(h.SwitchesNow()), w) == on
            then h.accHave == old(h.accHave) && h.accumFrame == old(h.accumFrame)
            else !h.accHave
  {
    match w
    case DenoiseSwitch => h.SetGiDenoise(on);
    case ReprojectSwitch => h.SetGiReproject(on);
    case SkipSwitch => h.SetEmptySpaceSkip(on);
    case DebugSwitch => h.SetGiDebug(on);
  }

  // Edits and toggles neither read nor write.
  const NO_RECORD := Record(0, Contents([], []), Contents([], []), ViewOf(NO_CAMERA))

  // Any run of frames, edits and toggles: every QUALITY frame is trustworthy.
  method RunEvents(h: History, events: seq<Event>, root: real -> real) returns (ghost log: seq<Record>)
    requires h.Valid() && !h.accHave && IsRoot(root)
    requires forall e <- events :: e.Drawn? ==> ShotFits(e.shot, h.screen)
    modifies h, h.Buffers()
    ensures h.Valid() && |log| == |events|
    ensures forall i :: 0 <= i < |events| ==> Trustworthy(old(h.SwitchesNow()), events, log, i)
  {
    hide ShotFits, IsRoot, ViewOf, Trustworthy, Tracks, History.Valid, After, Idle, SinglePass;
    ghost var s := h.SwitchesNow();
    log := [];
    RunStarts(s, events, h);
    for i := 0 to |events|
      invariant h.Valid() && h.SwitchesNow() == After(s, events[..i])
      invariant Tracks(s, events, log, i, h.accHave, h.accumFrame, h.accSceneKey, h.accCamKey, h.prevVP, h.Readable())
      invariant |log| == i && forall k :: 0 <= k < i ==> Trustworthy(s, events, log, k)
    {
      ghost var r := Step(h, events, i, root, s, log);
      AfterStep(s, events, i);
      TrustAll(s, events, log, r);
      log := log + [r];
    }
  }

  lemma RunStarts(s: Switches, events: seq<Event>, h: History)
    requires !h.accHave
    ensures After(s, events[..0]) == s
    ensures Tracks(s, events, [], 0, h.accHave, h.accumFrame, h.accSceneKey, h.accCamKey, h.prevVP, h.Readable())
  {
  }

  // One event.
  method Step(h: History, events: seq<Event>, i: nat, root: real -> real, ghost s: Switches, ghost log: seq<Record>)
    returns (ghost r: Record)
    requires h.Valid() && IsRoot(root) && i < |events| && h.SwitchesNow() == After(s, events[..i])
    requires events[i].Drawn? ==> ShotFits(events[i].shot, h.screen)
    requires Tracks(s, events, log, i, h.accHave, h.accumFrame, h.accSceneKey, h.accCamKey, h.prevVP, h.Readable())
    requires |log| == i
    modifies h, h.Buffers()
    ensures h.Valid()
    ensures h.SwitchesNow() ==
      if events[i].Toggled? then Turned(After(s, events[..i]), events[i].switch, events[i].on)
      else After(s, events[..i])
    ensures Tracks(s, events, log + [r], i + 1, h.accHave, h.accumFrame, h.accSceneKey, h.accCamKey, h.prevVP,
                   h.Readable())
    ensures Quality(events[i]) ==> Trustworthy(s, events, log + [r], i)
  {
    hide ShotFits, IsRoot, ViewOf, Trustworthy, Tracks, History.Valid, After, SinglePass;
    ghost var have, counter, scene, cam := h.accHave, h.accumFrame, h.accSceneKey, h.accCamKey;
    ghost var view, readable := h.prevVP, h.Readable();
    match events[i]
    case Edited =>
      r := NO_RECORD;
      h.Restart();
      OtherTracks(s, events, log, i, have, counter, scene, cam, view, readable, h.accumFrame, r);
    case Toggled(w, on) =>
      r := NO_RECORD;
      Toggle(h, w, on);
      OtherTracks(s, events, log, i, have, counter, scene, cam, view, readable, h.accumFrame, r);
    case Drawn(shot) =>
      ghost var cur, hits, own := h.Current(), h.CurrentHits(), ViewOf(shot.camera);
      var histMax, multipass := h.RenderFrame(shot, root);
      ghost var wrote := Contents(cur[..], hits[..]);
      FrameTracks(s, events, log, i, have, counter, scene, cam, view, readable, h.accumFrame, wrote);
      r := Record(h.accumFrame, readable, wrote, if view.Some? then view.value else own);
  }
}
