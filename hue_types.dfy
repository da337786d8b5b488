/** Values exchanged between the circadian switch, the Hue bridge and the
    colour source: light states as the bridge reports them, scenes, the
    colour-source reading, the patches sent back and the abstract bridge
    requests the switch issues. */
module HueTypes {

  datatype Option<+T> = None | Some(value: T)

  type LightId = string
  type SceneId = string

  /** The scene name the switch manages. */
  const CircadianName: string := "Circadian"

  /** A CIE xy chromaticity pair. */
  datatype XY = XY(x: real, y: real)

  /** A light state as the bridge reports it, both live (the light cache)
      and stored (a scene's `lightstates` entry): `xy` is absent for lights
      without colour capability. */
  datatype LightState = LightState(on: bool, bri: int, xy: Option<XY>)

  /** A light object of the bridge's light cache. */
  datatype Light = Light(id: LightId, state: LightState)

  /** An entry of the bridge's scene cache: its id, name and member lights. */
  datatype Scene = Scene(id: SceneId, name: string, lights: seq<LightId>)

  /** A light group of the bridge. */
  datatype Group = Group(lights: seq<LightId>)

  /** The colour source's published reading: a percentage (nominally in
      -100..100) and the xy colour to show. */
  datatype Reading = Reading(percent: real, xy: XY)

  /** A partial light state sent to the bridge; a `None` field is a key the
      patch does not carry. */
  datatype Patch = Patch(on: bool, xy: Option<XY>, bri: Option<int>, transitiontime: int)

  /** Everything `update_bridge` asks of the bridge, in the order it asks:
      the two cache refreshes, the scene detail fetch, the scene rewrite, and
      one batch of concurrent per-light `set_state` calls (one per key). */
  datatype Request =
    | RefreshScenes
    | RefreshLights
    | GetScene(sceneId: SceneId)
    | PutScene(sceneId: SceneId, lightstates: map<LightId, Patch>)
    | SetLights(states: map<LightId, Patch>)
}
