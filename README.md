# Circadian Hue switch — Dafny model

This project models the decision core of the `circadian_hue` switch for Home
Assistant. On every poll, the switch rewrites each Hue bridge scene named
"Circadian" with a light state that follows a circadian colour/brightness
curve. If the scene is currently shown by its lights, the switch also pushes
that state to the lights directly. It leaves the brightness alone when the user
has changed it by hand.

The model has four modules:

- `HueTypes` (`hue_types.dfy`) holds the values involved. It has light states as
  the bridge reports them (`on`, `bri`, optional `xy`), light objects, scenes,
  groups, the colour-source reading (percent and xy) and the per-light patch.
  A patch field that is `None` is a key the patch does not carry. The last
  type is the abstract request the switch sends to a bridge: the two cache
  refreshes, the scene detail fetch, the scene rewrite, and one batch of
  concurrent per-light `set_state` calls.
- `LightStatePatch` (`light_state_patch.dfy`) models `get_lightstate`. It has
  the brightness curve with Python's `int()` truncation toward zero, and the
  pure per-light patch (`PatchFor`). `Lightstates` is the dictionary the loop
  over the lights builds, with a later light overwriting an earlier one that
  has the same id. Lemmas cover the keys and the contents of every patch.
- `SceneJudgement` (`scene_judgement.dfy`) holds the flag loop of
  `update_bridge`. `JudgeScene` is a `while` loop over the stored
  `lightstates`, proved against the declarative judgement `Judge`. This module
  also holds the request plan for one scene (`ScenePlan`), for the scene cache
  (`ScenesPlan`) and for one bridge (`BridgePlan`), with lemmas about them.
- `CircadianSwitch` (`circadian_switch.dfy`) holds `is_circadian_scene` and
  the class `CircadianHueSwitch`. Its `state` field is the tri-state `_state`:
  `None`, `Some(true)` or `Some(false)`. `TurnOn`, `TurnOff` and `Restore`
  overwrite it. `GetLightstate` and `UpdateBridge` are the source's loops,
  each proved equal to the specification function of the same step.

Host lookups and network results are parameters:

- the colour-source reading;
- whether the light-cache refresh succeeded;
- the refreshed light cache, scene cache and scene detail responses (`BridgeView`);
- the last persisted entity state.

A `KeyError` in the source ends the update for that bridge. The model gives it
the outcome `Raised`, and the requests already issued stay issued. These
lookups can fail:

- a stored light missing from the light cache;
- a light that reports xy while its stored state has none;
- a detail response without `lightstates`;
- a scene light missing from the light cache.

Two points of the source's behaviour are worth noting:

- With no persisted state, restore computes `state and ...` on `None`, which
  leaves the state unset (`None`). The update's gate (`is not True`) treats
  `None` like off, so an unset switch issues no request.
- The colour check compares both live coordinates with the stored x
  coordinate. The model keeps this as written, in `SceneJudgement.XyDiverges`.
  `XyComparesLiveYWithStoredX` shows its effect: a light that shows exactly its
  stored colour counts as diverging as soon as that colour's x and y are more
  than 0.02 apart.

## Model

| member | source | states |
|---|---|---|
| `LightStatePatch.Trunc` | custom_components/circadian_hue/switch.py:127 | `int()` of a float: the integer between zero and the value that is less than 1 away from it |
| `LightStatePatch.TruncMonotone` | custom_components/circadian_hue/switch.py:127 | truncation toward zero never decreases when its argument grows |
| `LightStatePatch.Brightness` | custom_components/circadian_hue/switch.py:116-119 | 255 for percent > 0; for percent in [-100, 0] a value in 0..255 that is the integer part of 255·(100+percent)/100; at most 0 below -100 |
| `LightStatePatch.BrightnessMonotone` | custom_components/circadian_hue/switch.py:116-119 | the brightness is non-decreasing in the percentage |
| `LightStatePatch.PatchFor` | custom_components/circadian_hue/switch.py:123-130 | one light's patch is on, has transition time 20, carries `bri` iff brightness is asked for (then the computed brightness), and carries xy iff the light reports xy (then the reading's xy) |
| `LightStatePatch.Lightstates` | custom_components/circadian_hue/switch.py:121-131 | the keys of the output dictionary are exactly the ids of the input lights |
| `LightStatePatch.LightstatesWellFormed` | custom_components/circadian_hue/switch.py:123-130 | every patch has on = true and transition time 20, carries `bri` iff brightness is asked for (and then the computed brightness), and carries only the reading's xy |
| `LightStatePatch.LightstatesLast` | custom_components/circadian_hue/switch.py:122-131 | the entry for an id is the patch of the last light with that id |
| `LightStatePatch.LightstatesPatch` | custom_components/circadian_hue/switch.py:125-129 | for lights from one cache, each light's patch carries xy iff that light reports xy (then the reading's xy) and `bri` iff asked for |
| `CircadianSwitch.CircadianHueSwitch.GetLightstate` | custom_components/circadian_hue/switch.py:113-132 | the loop filling `out` yields the dictionary `Lightstates` of the lights, reading and flag |
| `SceneJudgement.JudgeScene` | custom_components/circadian_hue/switch.py:160-171 | the flag loop fails iff some stored light is missing from the cache or reports xy without stored xy; otherwise the scene is current iff every light matches on/off and passes the xy check, and the brightness changed iff some light differs by more than 5 |
| `SceneJudgement.LookupLights` | custom_components/circadian_hue/switch.py:172 | the scene's light objects in order, present iff every scene light is in the light cache |
| `SceneJudgement.BrightnessNeverDeactivates` | custom_components/circadian_hue/switch.py:164-171 | stored states that differ only in brightness get the same failure and the same "current" verdict |
| `SceneJudgement.OnMismatchDeactivates` | custom_components/circadian_hue/switch.py:164-165 | one light whose on/off differs from its stored state makes the scene not current |
| `SceneJudgement.XyComparesLiveYWithStoredX` | custom_components/circadian_hue/switch.py:170 | identical live and stored colours diverge when the colour's y is more than 0.02 from its x |
| `SceneJudgement.XyMatchesWhenCoordinatesClose` | custom_components/circadian_hue/switch.py:170 | identical live and stored colours do not diverge when x and y are within 0.02 |
| `SceneJudgement.ScenePlan` | custom_components/circadian_hue/switch.py:155-188 | one scene ends completed or raised, issues a request iff it is named "Circadian", and issues at most three |
| `SceneJudgement.ScenesPlan` | custom_components/circadian_hue/switch.py:152-188 | the walk over the scene cache ends completed or raised, and a raised walk has issued at least one request |
| `SceneJudgement.BridgePlan` | custom_components/circadian_hue/switch.py:144-151 | the update is skipped iff the switch is not on, stops unavailable iff it is on and the light refresh failed, and when on always starts with the two refreshes |
| `SceneJudgement.ScenePlanRequests` | custom_components/circadian_hue/switch.py:155-188 | a non-"Circadian" scene asks nothing; a "Circadian" one completes iff its detail has `lightstates`, no stored light makes a lookup raise and every member light is cached; the detail fetch comes first and a failed lookup stops right after it; if nothing fails, a rewrite of the scene follows with `bri` = computed brightness for exactly the scene's lights, then a push to the same lights iff the scene is current, omitting `bri` exactly when the brightness changed |
| `SceneJudgement.ScenePlanPatches` | custom_components/circadian_hue/switch.py:172-188 | in a completed "Circadian" scene, every patch of the rewrite and of the push is the reading's desired state for a cached member light: on, transition time 20, `bri` exactly as asked for and then the computed brightness, and the reading's xy exactly when that light reports xy |
| `SceneJudgement.ScenePlanIds` | custom_components/circadian_hue/switch.py:155-180 | a scene fetches its detail once iff it is named "Circadian", and rewrites itself once iff moreover nothing failed |
| `SceneJudgement.JoinTargets` | custom_components/circadian_hue/switch.py:153-188 | a completed scene followed by the rest of the walk fetches and rewrites the concatenation of their scene ids, with the rest's outcome |
| `SceneJudgement.ScenesPlanTargets` | custom_components/circadian_hue/switch.py:153-188 | over the scene cache, the detail fetches and rewrites go in order to exactly the "Circadian" scenes when the walk completes; when a lookup fails, fetches go to a non-empty prefix of them and every fetched scene but the last is rewritten |
| `SceneJudgement.GateOffIssuesNothing` | custom_components/circadian_hue/switch.py:145-147 | with the switch not on, the bridge update issues no request |
| `SceneJudgement.FailedRefreshStopsAfterRefreshes` | custom_components/circadian_hue/switch.py:148-151 | a failed light refresh ends the update after the two refreshes, before any scene request |
| `SceneJudgement.ManualBrightnessOverrideExample` | custom_components/circadian_hue/switch.py:160-188 | scene over A, B stored on at 200; live A at 150: current, brightness changed, scene rewritten, lights pushed without `bri` |
| `CircadianSwitch.CircadianHueSwitch.UpdateScene` | custom_components/circadian_hue/switch.py:153-188 | one pass of the scene loop issues exactly the requests of `ScenePlan` and raises exactly when it does |
| `CircadianSwitch.CircadianHueSwitch.UpdateBridge` | custom_components/circadian_hue/switch.py:144-188 | no request unless the state is exactly `True`; otherwise the requests and outcome are those of `BridgePlan` |
| `CircadianSwitch.IsCircadianScene` | custom_components/circadian_hue/switch.py:37-38 | holds iff the group's and the scene's lights are the same set and the scene is named "Circadian" |
| `CircadianSwitch.NameFilterIgnoresGroup` | custom_components/circadian_hue/switch.py:155 | a "Circadian" scene whose set of lights differs from the group's fails `IsCircadianScene`, yet the update still fetches its detail |
| `CircadianSwitch.CircadianHueSwitch.constructor` | custom_components/circadian_hue/switch.py:63-69 | a new switch has its name and an unset state |
| `CircadianSwitch.CircadianHueSwitch.IsOn` | custom_components/circadian_hue/switch.py:81-84 | `is_on` returns the tri-state field, and is `True` exactly when the update's gate is open |
| `CircadianSwitch.CircadianHueSwitch.TurnOn` | custom_components/circadian_hue/switch.py:86-88 | afterwards `is_on` is `True` and the gate is open |
| `CircadianSwitch.CircadianHueSwitch.TurnOff` | custom_components/circadian_hue/switch.py:90-93 | afterwards `is_on` is `False` and the gate is closed |
| `CircadianSwitch.CircadianHueSwitch.Restore` | custom_components/circadian_hue/switch.py:134-142 | a set state is kept; an unset one becomes on iff the persisted state is "on", and stays unset when nothing was persisted |

## Left out

- `async_update_info` (switch.py:95-111) is left out because it is concurrency and scheduling: the non-blocking lock, `asyncio.wait` across bridges, and the 5-second pause when no bridge is known. While the lock is held, a call returns at once and issues nothing.
- `update_api` is left out because it is network I/O with a 10-second timeout. The model records its two calls as the `RefreshScenes` and `RefreshLights` requests. Only the light refresh's result is an input (`lightsRefreshed`), since the source ignores the scene refresh's result.
- The responses of the scene PUT and of `set_state` are ignored, as in the source.
- The scene detail GET, the scene PUT and the per-light `set_state` calls (switch.py:159, 180, 188) are taken to return. A call that raises would end the walk over the bridge's remaining scenes, and a call that hangs would stall it. Neither case is modelled: `ScenePlan` always goes on after each of these requests.
- The reading's xy is always present. The source drops the `xy` key from every patch when the colour sensor publishes no colour (switch.py:126, 129), and the model does not capture that.
- The per-light `set_state` calls run concurrently under `asyncio.gather`. The model gives them as one `SetLights` batch keyed by light id, with no order among them.
- `get_bridges` and the `sensor.circadian_values` lookups are left out because they are host state. The reading and the bridge view are parameters. The model does not capture a sensor state that `float()` cannot parse, or the two reads in one scene seeing different readings.
- `schedule_update_ha_state` in `turn_off` is left out because publishing state is host plumbing.
- The following are host or library plumbing and are left out: the `slugify` entity id, the `entity_id` and `name` properties, `PLATFORM_SCHEMA`, `async_setup_platform`, `super().async_added_to_hass()` and logging.
- Percent and xy are reals, so floating-point rounding is not modelled. Only the truncation toward zero of `int()` is kept.
- Lights or stored states without a `bri` key (on/off plugs) are not modelled: the source raises `KeyError` on them, and the model gives every light state a brightness.
- The scene cache is a sequence in the dictionary's iteration order, and scene ids are taken to be unique, as dictionary keys are.
