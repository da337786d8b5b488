/** The decision core of `update_bridge`: whether a "Circadian" scene is
    currently shown by its lights, whether the user changed the brightness by
    hand, and the requests that follow for one scene, for all scenes of a
    bridge and for the bridge as a whole. */
module SceneJudgement {
  import opened HueTypes
  import opened LightStatePatch

  /** Brightness difference above which the user is taken to have changed it. */
  const BrightnessTolerance: int := 5
  /** Colour coordinate difference above which the scene is not shown. */
  const XyTolerance: real := 0.02

  function AbsInt(n: int): nat { if n < 0 then -n else n }
  function AbsReal(r: real): real { if r < 0.0 then -r else r }

  /** The two flags the loop over a scene's stored light states computes. */
  datatype Flags = Flags(isCurrentScene: bool, brightnessChanged: bool)

  /** How one call of `update_bridge` ended. */
  datatype Outcome =
    | Skipped      // the switch is not on: nothing is asked of the bridge
    | Unavailable  // refreshing the light cache failed
    | Completed    // every scene was handled
    | Raised       // a key lookup failed and the exception ended the call

  /** The requests issued, in order, and how the call ended. */
  datatype Plan = Plan(requests: seq<Request>, outcome: Outcome)

  /** What the bridge holds after the refreshes: the light cache, the scene
      cache in iteration order, and the `lightstates` of each scene's detail
      response (a scene absent here answered without `lightstates`). */
  datatype BridgeView = BridgeView(
    lights: map<LightId, LightState>,
    scenes: seq<Scene>,
    details: map<SceneId, map<LightId, LightState>>)

  /** The colour check of the source as written: BOTH live coordinates are
      compared with the STORED x coordinate. */
  predicate XyDiverges(live: LightState, stored: LightState)
    requires live.xy.Some? ==> stored.xy.Some?
  {
    live.xy.Some? &&
    (AbsReal(live.xy.value.x - stored.xy.value.x) > XyTolerance ||
     AbsReal(live.xy.value.y - stored.xy.value.x) > XyTolerance)
  }

  /** A stored entry whose lookups raise: its light is not in the light
      cache, or the light reports xy and the stored state has none. */
  predicate Faulty(live: map<LightId, LightState>, stored: map<LightId, LightState>, id: LightId)
    requires id in stored
  {
    id !in live || (live[id].xy.Some? && stored[id].xy.None?)
  }

  /** A live light that shows its stored state: same on/off, no colour divergence. */
  predicate Shows(live: LightState, stored: LightState)
    requires live.xy.Some? ==> stored.xy.Some?
  {
    live.on == stored.on && !XyDiverges(live, stored)
  }

  predicate BrightnessDiffers(live: LightState, stored: LightState)
  {
    AbsInt(live.bri - stored.bri) > BrightnessTolerance
  }

  /** The judgement of a scene: `None` when a lookup raises; otherwise the
      scene is current iff every member light shows its stored state, and
      the brightness changed iff some member light differs by more than 5. */
  function Judge(live: map<LightId, LightState>, stored: map<LightId, LightState>): Option<Flags>
  {
    if exists id :: id in stored && Faulty(live, stored, id) then None
    else Some(Flags(
      isCurrentScene := forall id :: id in stored ==> Shows(live[id], stored[id]),
      brightnessChanged := exists id :: id in stored && BrightnessDiffers(live[id], stored[id])))
  }

  /** The loop over the stored `lightstates`, updating the two flags one
      light at a time; a failed lookup ends it with `None`. */
  method JudgeScene(live: map<LightId, LightState>, stored: map<LightId, LightState>) returns (flags: Option<Flags>)
    ensures flags == Judge(live, stored)
  {
    var isCurrentScene := true;
    var brightnessChanged := false;
    var remaining := stored.Keys;
    while remaining != {}
      invariant remaining <= stored.Keys
      invariant forall id :: id in stored && id !in remaining ==> !Faulty(live, stored, id)
      invariant isCurrentScene <==>
        forall id :: id in stored && id !in remaining ==> Shows(live[id], stored[id])
      invariant brightnessChanged <==>
        exists id :: id in stored && id !in remaining && BrightnessDiffers(live[id], stored[id])
      decreases remaining
    {
      var id :| id in remaining;
      if id !in live {
        assert Faulty(live, stored, id);
        return None;
      }
      var current, state := live[id], stored[id];
      if current.on != state.on {
        isCurrentScene := false;
      }
      if AbsInt(current.bri - state.bri) > BrightnessTolerance {
        brightnessChanged := true;
      }
      if current.xy.Some? {
        if state.xy.None? {
          assert Faulty(live, stored, id);
          return None;
        }
        if AbsReal(current.xy.value.x - state.xy.value.x) > XyTolerance ||
           AbsReal(current.xy.value.y - state.xy.value.x) > XyTolerance {
          isCurrentScene := false;
        }
      }
      remaining := remaining - {id};
    }
    flags := Some(Flags(isCurrentScene, brightnessChanged));
  }

  /** The light objects of a scene, looked up in the light cache; `None`
      when one of them is missing (the lookup raises). */
  function LookupLights(ids: seq<LightId>, live: map<LightId, LightState>): (r: Option<seq<Light>>)
    ensures r.Some? <==> forall id :: id in ids ==> id in live
    ensures r.Some? ==>
      |r.value| == |ids| && forall i :: 0 <= i < |ids| ==> r.value[i] == Light(ids[i], live[ids[i]])
  {
    if forall id :: id in ids ==> id in live then
      Some(seq(|ids|, i requires 0 <= i < |ids| => Light(ids[i], live[ids[i]])))
    else None
  }

  /** The requests for one scene of the scene cache. A scene named other than
      "Circadian" asks for nothing. Otherwise: fetch its detail, judge it,
      rewrite it with patches carrying the computed brightness for its member
      lights, and if it is current, push patches to the lights, without
      brightness when the user changed it. */
  function ScenePlan(reading: Reading, view: BridgeView, scene: Scene): (p: Plan)
    ensures p.outcome in {Completed, Raised}
    ensures scene.name == CircadianName <==> p.requests != []
    ensures |p.requests| <= 3
  {
    if scene.name != CircadianName then Plan([], Completed)
    else
      var get := GetScene(scene.id);
      if scene.id !in view.details then Plan([get], Raised)
      else
        match Judge(view.lights, view.details[scene.id])
        case None => Plan([get], Raised)
        case Some(flags) =>
          match LookupLights(scene.lights, view.lights)
          case None => Plan([get], Raised)
          case Some(lights) =>
            var put := PutScene(scene.id, Lightstates(reading, lights, true));
            if flags.isCurrentScene then
              Plan([get, put, SetLights(Lightstates(reading, lights, !flags.brightnessChanged))], Completed)
            else Plan([get, put], Completed)
  }

  /** The scenes in cache order; the first exception ends the walk. */
  function ScenesPlan(reading: Reading, view: BridgeView, scenes: seq<Scene>): (p: Plan)
    ensures p.outcome in {Completed, Raised}
    ensures p.outcome == Raised ==> p.requests != []
    decreases |scenes|
  {
    if scenes == [] then Plan([], Completed)
    else
      var first := ScenePlan(reading, view, scenes[0]);
      if first.outcome == Raised then first
      else
        var rest := ScenesPlan(reading, view, scenes[1..]);
        Plan(first.requests + rest.requests, rest.outcome)
  }

  /** The whole of `update_bridge`: nothing unless the switch is on; then the
      two refreshes; a failed light refresh ends the call. */
  function BridgePlan(on: bool, lightsRefreshed: bool, reading: Reading, view: BridgeView): (p: Plan)
    ensures p.outcome == Skipped <==> !on
    ensures p.outcome == Unavailable <==> on && !lightsRefreshed
    ensures on ==> |p.requests| >= 2 && p.requests[..2] == [RefreshScenes, RefreshLights]
  {
    if !on then Plan([], Skipped)
    else if !lightsRefreshed then Plan([RefreshScenes, RefreshLights], Unavailable)
    else
      var scenes := ScenesPlan(reading, view, view.scenes);
      Plan([RefreshScenes, RefreshLights] + scenes.requests, scenes.outcome)
  }

  // ---------------------------------------------------------------------
  // Properties of the judgement

  /** A brightness difference alone never makes a scene stop being current:
      two stored states that differ only in brightness get the same
      verdict on whether the scene is current. */
  lemma BrightnessNeverDeactivates(live: map<LightId, LightState>, s: map<LightId, LightState>, t: map<LightId, LightState>)
    requires s.Keys == t.Keys
    requires forall id :: id in s ==> s[id].on == t[id].on && s[id].xy == t[id].xy
    ensures Judge(live, s).None? <==> Judge(live, t).None?
    ensures Judge(live, s).Some? ==> Judge(live, s).value.isCurrentScene == Judge(live, t).value.isCurrentScene
  {
  }

  /** A light whose on/off differs from the stored one makes the scene not
      current, whatever its brightness. */
  lemma OnMismatchDeactivates(live: map<LightId, LightState>, stored: map<LightId, LightState>, id: LightId)
    requires id in stored && id in live
    requires live[id].on != stored[id].on
    requires Judge(live, stored).Some?
    ensures !Judge(live, stored).value.isCurrentScene
  {
  }

  /** The colour check compares the live y coordinate with the stored x
      coordinate: a light showing exactly its stored colour diverges as soon
      as that colour's x and y are more than 0.02 apart... */
  lemma XyComparesLiveYWithStoredX(on: bool, bri: int, c: XY)
    requires AbsReal(c.y - c.x) > XyTolerance
    ensures XyDiverges(LightState(on, bri, Some(c)), LightState(on, bri, Some(c)))
  {
  }

  /** ...and does not diverge when they are within 0.02. */
  lemma XyMatchesWhenCoordinatesClose(on: bool, bri: int, c: XY)
    requires AbsReal(c.y - c.x) <= XyTolerance
    ensures !XyDiverges(LightState(on, bri, Some(c)), LightState(on, bri, Some(c)))
  {
  }

  // ---------------------------------------------------------------------
  // Properties of the request plans

  /** The ids of the scene detail fetches among the requests, in order. */
  function GetIds(requests: seq<Request>): seq<SceneId>
  {
    if requests == [] then []
    else GetId(requests[0]) + GetIds(requests[1..])
  }

  function GetId(r: Request): seq<SceneId>
  {
    if r.GetScene? then [r.sceneId] else []
  }

  /** The ids of the scene rewrites among the requests, in order. */
  function PutIds(requests: seq<Request>): seq<SceneId>
  {
    if requests == [] then []
    else PutId(requests[0]) + PutIds(requests[1..])
  }

  function PutId(r: Request): seq<SceneId>
  {
    if r.PutScene? then [r.sceneId] else []
  }

  /** The ids of the scenes named "Circadian", in cache order. */
  function CircadianIds(scenes: seq<Scene>): seq<SceneId>
  {
    if scenes == [] then []
    else (if scenes[0].name == CircadianName then [scenes[0].id] else []) + CircadianIds(scenes[1..])
  }

  lemma {:induction false} GetIdsAppend(a: seq<Request>, b: seq<Request>)
    ensures GetIds(a + b) == GetIds(a) + GetIds(b)
    decreases |a|
  {
    if a == [] {
      assert a + b == b;
    } else {
      calc {
        GetIds(a + b);
        GetId((a + b)[0]) + GetIds((a + b)[1..]);
        { assert (a + b)[0] == a[0]; assert (a + b)[1..] == a[1..] + b; }
        GetId(a[0]) + GetIds(a[1..] + b);
        { GetIdsAppend(a[1..], b); }
        GetId(a[0]) + (GetIds(a[1..]) + GetIds(b));
        GetIds(a) + GetIds(b);
      }
    }
  }

  lemma {:induction false} PutIdsAppend(a: seq<Request>, b: seq<Request>)
    ensures PutIds(a + b) == PutIds(a) + PutIds(b)
    decreases |a|
  {
    if a == [] {
      assert a + b == b;
    } else {
      calc {
        PutIds(a + b);
        PutId((a + b)[0]) + PutIds((a + b)[1..]);
        { assert (a + b)[0] == a[0]; assert (a + b)[1..] == a[1..] + b; }
        PutId(a[0]) + PutIds(a[1..] + b);
        { PutIdsAppend(a[1..], b); }
        PutId(a[0]) + (PutIds(a[1..]) + PutIds(b));
        PutIds(a) + PutIds(b);
      }
    }
  }

  /** One scene: nothing unless it is named "Circadian"; then the detail
      fetch first; the walk completes exactly when the detail has
      `lightstates`, no stored entry makes a lookup raise and every member
      light is cached; it then rewrites the scene with patches carrying the
      computed brightness for exactly its member lights, and pushes to the
      lights exactly when the scene is current, the push omitting brightness
      exactly when the user changed it. */
  lemma ScenePlanRequests(reading: Reading, view: BridgeView, scene: Scene)
    ensures scene.name == CircadianName ==>
      (ScenePlan(reading, view, scene).outcome == Completed <==>
        && scene.id in view.details
        && (forall id :: id in view.details[scene.id] ==> !Faulty(view.lights, view.details[scene.id], id))
        && (forall id :: id in scene.lights ==> id in view.lights))
    ensures var p := ScenePlan(reading, view, scene);
      && p.outcome in {Completed, Raised}
      && (scene.name != CircadianName ==> p == Plan([], Completed))
      && (scene.name == CircadianName ==> 1 <= |p.requests| && p.requests[0] == GetScene(scene.id))
      && (p.outcome == Raised ==> p.requests == [GetScene(scene.id)])
    ensures var p := ScenePlan(reading, view, scene);
      scene.name == CircadianName && p.outcome == Completed ==>
        && scene.id in view.details
        && Judge(view.lights, view.details[scene.id]).Some?
        && var flags := Judge(view.lights, view.details[scene.id]).value;
        && |p.requests| == (if flags.isCurrentScene then 3 else 2)
        && p.requests[1].PutScene? && p.requests[1].sceneId == scene.id
        && p.requests[1].lightstates.Keys == (set id | id in scene.lights)
        && (forall id :: id in p.requests[1].lightstates ==>
              p.requests[1].lightstates[id].bri == Some(Brightness(reading.percent)))
        && (flags.isCurrentScene ==>
              && p.requests[2].SetLights?
              && p.requests[2].states.Keys == (set id | id in scene.lights)
              && forall id :: id in p.requests[2].states ==>
                   (p.requests[2].states[id].bri.None? <==> flags.brightnessChanged))
  {
    if scene.name == CircadianName && scene.id in view.details
       && Judge(view.lights, view.details[scene.id]).Some?
       && LookupLights(scene.lights, view.lights).Some? {
      var lights := LookupLights(scene.lights, view.lights).value;
      var flags := Judge(view.lights, view.details[scene.id]).value;
      assert Ids(lights) == set id | id in scene.lights by {
        forall id | id in scene.lights ensures id in Ids(lights) {
          var i :| 0 <= i < |scene.lights| && scene.lights[i] == id;
          assert lights[i].id == id;
        }
      }
      LightstatesWellFormed(reading, lights, true);
      LightstatesWellFormed(reading, lights, !flags.brightnessChanged);
    }
  }

  /** The patches of a completed "Circadian" scene are the reading's
      desired state for each member light: the rewrite's and the push's
      patches are on, have transition time 20, carry the computed brightness
      when they carry one, and carry the reading's xy exactly when that
      light reports xy. */
  lemma ScenePlanPatches(reading: Reading, view: BridgeView, scene: Scene)
    ensures var p := ScenePlan(reading, view, scene);
      scene.name == CircadianName && p.outcome == Completed ==>
        && |p.requests| >= 2
        && p.requests[1].PutScene?
        && forall id :: id in p.requests[1].lightstates ==>
             && WellFormed(p.requests[1].lightstates[id], reading, true)
             && id in view.lights
             && (p.requests[1].lightstates[id].xy.Some? <==> view.lights[id].xy.Some?)
    ensures var p := ScenePlan(reading, view, scene);
      scene.name == CircadianName && p.outcome == Completed && |p.requests| == 3 ==>
        && p.requests[2].SetLights?
        && scene.id in view.details
        && Judge(view.lights, view.details[scene.id]).Some?
        && var flags := Judge(view.lights, view.details[scene.id]).value;
        && forall id :: id in p.requests[2].states ==>
             && WellFormed(p.requests[2].states[id], reading, !flags.brightnessChanged)
             && id in view.lights
             && (p.requests[2].states[id].xy.Some? <==> view.lights[id].xy.Some?)
  {
    if scene.name == CircadianName && scene.id in view.details
       && Judge(view.lights, view.details[scene.id]).Some?
       && LookupLights(scene.lights, view.lights).Some? {
      var lights := LookupLights(scene.lights, view.lights).value;
      var flags := Judge(view.lights, view.details[scene.id]).value;
      LightstatesWellFormed(reading, lights, true);
      LightstatesWellFormed(reading, lights, !flags.brightnessChanged);
      assert Ids(lights) == set id | id in scene.lights by {
        forall id | id in scene.lights ensures id in Ids(lights) {
          var i :| 0 <= i < |scene.lights| && scene.lights[i] == id;
          assert lights[i].id == id;
        }
      }
      forall id | id in scene.lights
        ensures id in view.lights
        ensures Lightstates(reading, lights, true)[id].xy.Some? <==> view.lights[id].xy.Some?
        ensures Lightstates(reading, lights, !flags.brightnessChanged)[id].xy.Some? <==> view.lights[id].xy.Some?
      {
        var i :| 0 <= i < |scene.lights| && scene.lights[i] == id;
        LightstatesPatch(reading, lights, true, i);
        LightstatesPatch(reading, lights, !flags.brightnessChanged, i);
      }
    }
  }

  /** One scene fetches its own detail once if it is named "Circadian", and
      rewrites itself once if moreover no lookup raised. */
  lemma ScenePlanIds(reading: Reading, view: BridgeView, scene: Scene)
    ensures var p := ScenePlan(reading, view, scene);
      && GetIds(p.requests) == (if scene.name == CircadianName then [scene.id] else [])
      && PutIds(p.requests) == (if scene.name == CircadianName && p.outcome == Completed then [scene.id] else [])
  {
    var r := ScenePlan(reading, view, scene).requests;
    ScenePlanRequests(reading, view, scene);
    if |r| >= 1 {
      var tail := r[1..];
      if |r| >= 2 {
        var tail2 := r[2..];
        assert tail[1..] == tail2;
        if |r| == 3 {
          assert tail2[1..] == [];
          assert GetIds(tail2) == [] && PutIds(tail2) == [];
        } else {
          assert tail2 == [];
        }
        assert GetIds(tail) == GetId(tail[0]) + GetIds(tail2);
        assert PutIds(tail) == PutId(tail[0]) + PutIds(tail2);
      } else {
        assert tail == [];
      }
      assert GetIds(r) == GetId(r[0]) + GetIds(tail);
      assert PutIds(r) == PutId(r[0]) + PutIds(tail);
    }
  }

  /** A walk over scenes whose "Circadian" ids are `circadian`: its
      detail fetches are a prefix of those ids, all of them when it
      completed, a non-empty prefix when it raised; every fetched scene is
      rewritten, except the last one of a walk that raised. */
  predicate Targets(p: Plan, circadian: seq<SceneId>)
  {
    && p.outcome in {Completed, Raised}
    && GetIds(p.requests) <= circadian
    && (p.outcome == Completed ==>
          GetIds(p.requests) == circadian && PutIds(p.requests) == circadian)
    && (p.outcome == Raised ==>
          |GetIds(p.requests)| >= 1 && PutIds(p.requests) == GetIds(p.requests)[..|GetIds(p.requests)| - 1])
  }

  /** A completed scene that fetched and rewrote exactly `head`, followed
      by a walk meeting `Targets` for `tail`, meets `Targets` for both. */
  lemma JoinTargets(first: Plan, rest: Plan, head: seq<SceneId>, tail: seq<SceneId>)
    requires first.outcome == Completed
    requires GetIds(first.requests) == head && PutIds(first.requests) == head
    requires Targets(rest, tail)
    ensures Targets(Plan(first.requests + rest.requests, rest.outcome), head + tail)
  {
    GetIdsAppend(first.requests, rest.requests);
    PutIdsAppend(first.requests, rest.requests);
    var h := GetIds(rest.requests);
    if rest.outcome == Raised {
      assert (head + h)[..|head + h| - 1] == head + h[..|h| - 1];
    }
  }

  /** All scenes: the detail fetches go, in cache order, to the scenes named
      "Circadian" -- to all of them when the walk completes, to a non-empty
      prefix of them when a lookup raised -- and each fetched scene is
      rewritten, except the last one of a walk that raised. */
  lemma {:induction false} ScenesPlanTargets(reading: Reading, view: BridgeView, scenes: seq<Scene>)
    ensures Targets(ScenesPlan(reading, view, scenes), CircadianIds(scenes))
    decreases |scenes|
  {
    if scenes != [] {
      var first := ScenePlan(reading, view, scenes[0]);
      ScenePlanIds(reading, view, scenes[0]);
      if first.outcome != Raised {
        ScenesPlanTargets(reading, view, scenes[1..]);
        JoinTargets(first, ScenesPlan(reading, view, scenes[1..]), GetIds(first.requests), CircadianIds(scenes[1..]));
      }
    }
  }

  /** The switch off (or never restored) asks nothing of the bridge. */
  lemma GateOffIssuesNothing(lightsRefreshed: bool, reading: Reading, view: BridgeView)
    ensures BridgePlan(false, lightsRefreshed, reading, view) == Plan([], Skipped)
  {
  }

  /** A failed light refresh ends the call right after the two refreshes,
      before any scene is fetched. */
  lemma FailedRefreshStopsAfterRefreshes(reading: Reading, view: BridgeView)
    ensures BridgePlan(true, false, reading, view).requests == [RefreshScenes, RefreshLights]
    ensures GetIds(BridgePlan(true, false, reading, view).requests) == []
  {
  }

  /** The worked case: one "Circadian" scene over lights A and B, both
      stored on at brightness 200 without xy; live A is on at 150, B is as
      stored. */
  const ExampleStored: map<LightId, LightState> :=
    map["A" := LightState(true, 200, None), "B" := LightState(true, 200, None)]
  const ExampleLive: map<LightId, LightState> :=
    map["A" := LightState(true, 150, None), "B" := LightState(true, 200, None)]
  const ExampleScene: Scene := Scene("s1", CircadianName, ["A", "B"])
  const ExampleView: BridgeView := BridgeView(ExampleLive, [ExampleScene], map["s1" := ExampleStored])

  /** In the worked case the scene is current and the brightness changed, so
      the scene is rewritten and the lights get patches without brightness. */
  lemma ManualBrightnessOverrideExample(reading: Reading)
    ensures Judge(ExampleLive, ExampleStored) == Some(Flags(true, true))
    ensures var p := BridgePlan(true, true, reading, ExampleView);
      && p.outcome == Completed
      && |p.requests| == 5
      && p.requests[2] == GetScene("s1")
      && p.requests[3].PutScene?
      && p.requests[4].SetLights?
      && p.requests[4].states.Keys == {"A", "B"}
      && forall id :: id in p.requests[4].states ==> p.requests[4].states[id].bri.None?
  {
    assert BrightnessDiffers(ExampleLive["A"], ExampleStored["A"]);
    assert !exists id :: id in ExampleStored && Faulty(ExampleLive, ExampleStored, id);
    assert LookupLights(ExampleScene.lights, ExampleLive).Some?;
    ScenePlanRequests(reading, ExampleView, ExampleScene);
    var first := ScenePlan(reading, ExampleView, ExampleScene);
    assert first.outcome == Completed;
    assert [ExampleScene][1..] == [];
    assert ScenesPlan(reading, ExampleView, ExampleView.scenes) == Plan(first.requests + [], Completed);
    assert (set id | id in ExampleScene.lights) == {"A", "B"};
  }
}
