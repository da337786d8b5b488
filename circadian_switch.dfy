/** The switch entity: its tri-state on/off field, the toggle and restore
    operations that overwrite it, and the per-bridge update it gates. */
module CircadianSwitch {
  import opened HueTypes
  import opened LightStatePatch
  import opened SceneJudgement

  /** The string the host platform persists for an entity that is on. */
  const StateOn: string := "on"

  /** The managed-scene test: the scene covers exactly the group's lights and
      carries the sentinel name. (Nothing in the update calls it.) */
  function IsCircadianScene(group: Group, scene: Scene): (r: bool)
    ensures r <==> (forall id :: id in group.lights <==> id in scene.lights) && scene.name == CircadianName
  {
    var groupLights, sceneLights := set id | id in group.lights, set id | id in scene.lights;
    assert forall id :: id in groupLights <==> id in group.lights;
    assert forall id :: id in sceneLights <==> id in scene.lights;
    groupLights == sceneLights && scene.name == CircadianName
  }

  /** The update selects scenes by name alone: a "Circadian" scene whose
      lights are not the group's still has its detail fetched, although the
      managed-scene test rejects it. */
  lemma NameFilterIgnoresGroup(reading: Reading, view: BridgeView, group: Group, scene: Scene)
    requires scene.name == CircadianName
    requires (set id | id in group.lights) != (set id | id in scene.lights)
    ensures !IsCircadianScene(group, scene)
    ensures ScenePlan(reading, view, scene).requests[0] == GetScene(scene.id)
  {
    ScenePlanRequests(reading, view, scene);
  }

  class CircadianHueSwitch {
    const name: string
    /** `None` until the first restore or toggle; `Some(b)` afterwards. */
    var state: Option<bool>

    constructor (name: string)
      ensures this.name == name && state == None
    {
      this.name := name;
      state := None;
    }

    /** `is_on`: the raw tri-state value, `True` exactly when the update's
        gate is open. */
    function IsOn(): (r: Option<bool>)
      reads this
      ensures r == Some(true) <==> Enabled()
    {
      state
    }

    /** The gate of the update: only an explicit `True` lets traffic through. */
    predicate Enabled()
      reads this
    {
      state == Some(true)
    }

    method TurnOn()
      modifies this
      ensures IsOn() == Some(true) && Enabled()
    {
      state := Some(true);
    }

    method TurnOff()
      modifies this
      ensures IsOn() == Some(false) && !Enabled()
    {
      state := Some(false);
    }

    /** `async_added_to_hass`: a state already set is kept; otherwise the
        persisted state is adopted, on exactly when its value is "on", and
        with nothing persisted the state stays unset. */
    method Restore(lastState: Option<string>)
      modifies this
      ensures old(state).Some? ==> state == old(state)
      ensures old(state).None? && lastState.None? ==> state == None && !Enabled()
      ensures old(state).None? && lastState.Some? ==> state == Some(lastState.value == StateOn)
    {
      if state.Some? {
        return;
      }
      state := if lastState.None? then None else Some(lastState.value == StateOn);
    }

    /** `get_lightstate`: fills the output dictionary one light at a time. */
    method GetLightstate(reading: Reading, lights: seq<Light>, setBrightness: bool) returns (out: map<LightId, Patch>)
      ensures out == Lightstates(reading, lights, setBrightness)
    {
      out := map[];
      var i := 0;
      while i < |lights|
        invariant 0 <= i <= |lights|
        invariant out == Lightstates(reading, lights[..i], setBrightness)
      {
        var light := lights[i];
        out := out[light.id := PatchFor(reading, light, setBrightness)];
        assert lights[..i + 1][..i] == lights[..i];
        i := i + 1;
      }
      assert lights[..i] == lights;
    }

    /** The body of the loop over the scene cache in `update_bridge`: a scene
        named "Circadian" has its detail fetched and judged, is rewritten with
        patches carrying the computed brightness, and if current has its patches pushed to
        the lights; a failed lookup raises after the detail fetch. */
    method UpdateScene(reading: Reading, view: BridgeView, scene: Scene) returns (issued: seq<Request>, raised: bool)
      ensures Plan(issued, if raised then Raised else Completed) == ScenePlan(reading, view, scene)
    {
      issued, raised := [], false;
      if scene.name != CircadianName {
        return;
      }
      issued := issued + [GetScene(scene.id)];
      if scene.id !in view.details {
        return issued, true;
      }
      var flags := JudgeScene(view.lights, view.details[scene.id]);
      if flags.None? {
        return issued, true;
      }
      var lights := LookupLights(scene.lights, view.lights);
      if lights.None? {
        return issued, true;
      }
      var patches := GetLightstate(reading, lights.value, true);
      issued := issued + [PutScene(scene.id, patches)];
      if flags.value.isCurrentScene {
        patches := GetLightstate(reading, lights.value, !flags.value.brightnessChanged);
        issued := issued + [SetLights(patches)];
      }
    }

    /** `update_bridge`: nothing unless the switch is on; then the two cache
        refreshes, and unless the light refresh failed, every scene of the
        cache in order, until a lookup raises. */
    method UpdateBridge(lightsRefreshed: bool, reading: Reading, view: BridgeView)
      returns (requests: seq<Request>, outcome: Outcome)
      ensures !Enabled() ==> requests == [] && outcome == Skipped
      ensures Plan(requests, outcome) == BridgePlan(Enabled(), lightsRefreshed, reading, view)
    {
      if state != Some(true) {
        return [], Skipped;
      }
      requests := [RefreshScenes, RefreshLights];
      if !lightsRefreshed {
        return requests, Unavailable;
      }
      ghost var whole := ScenesPlan(reading, view, view.scenes);
      var issued: seq<Request> := [];
      var i := 0;
      while i < |view.scenes|
        invariant 0 <= i <= |view.scenes|
        invariant whole.requests == issued + ScenesPlan(reading, view, view.scenes[i..]).requests
        invariant whole.outcome == ScenesPlan(reading, view, view.scenes[i..]).outcome
      {
        assert view.scenes[i..][0] == view.scenes[i] && view.scenes[i..][1..] == view.scenes[i + 1..];
        var sceneRequests, raised := UpdateScene(reading, view, view.scenes[i]);
        if raised {
          return requests + (issued + sceneRequests), Raised;
        }
        assert issued + ScenesPlan(reading, view, view.scenes[i..]).requests
            == (issued + sceneRequests) + ScenesPlan(reading, view, view.scenes[i + 1..]).requests;
        issued := issued + sceneRequests;
        i := i + 1;
      }
      assert view.scenes[i..] == [];
      requests := requests + issued;
      outcome := Completed;
    }
  }
}
