/** The desired light state computed from the colour-source reading
    (`get_lightstate`): the brightness curve, the per-light patch, and the
    map from light id to patch that the loop over the lights builds. */
module LightStatePatch {
  import opened HueTypes

  const FullBrightness: int := 255
  /** Transition time in the bridge's unit of 100 ms. */
  const TransitionTime: int := 20

  /** Python's `int()` on a float: truncation toward zero. */
  function Trunc(x: real): (t: int)
    ensures 0.0 <= x ==> 0 <= t && t as real <= x < t as real + 1.0
    ensures x < 0.0 ==> t <= 0 && t as real - 1.0 < x <= t as real
  {
    if x >= 0.0 then x.Floor else -((-x).Floor)
  }

  lemma TruncMonotone(x: real, y: real)
    requires x <= y
    ensures Trunc(x) <= Trunc(y)
  {
  }

  /** The brightness the patches carry: full above zero percent, otherwise
      255 scaled linearly by (100 + percent) / 100 and truncated. */
  function Brightness(percent: real): (b: int)
    ensures 0.0 < percent ==> b == FullBrightness
    ensures -100.0 <= percent <= 0.0 ==>
      0 <= b <= FullBrightness &&
      b as real <= 255.0 * (100.0 + percent) / 100.0 < b as real + 1.0
    ensures percent < -100.0 ==> b <= 0
  {
    var brightness := if percent > 0.0 then 255.0 else 255.0 * ((100.0 + percent) / 100.0);
    Trunc(brightness)
  }

  /** The brightness curve never decreases as the percentage rises. */
  lemma BrightnessMonotone(p: real, q: real)
    requires p <= q
    ensures Brightness(p) <= Brightness(q)
  {
  }

  /** The patch for one light: always on with the fixed transition time, the
      reading's xy only for a light that reports xy, the brightness only when
      asked for. */
  function PatchFor(reading: Reading, light: Light, setBrightness: bool): (p: Patch)
    ensures WellFormed(p, reading, setBrightness)
    ensures p.xy.Some? <==> light.state.xy.Some?
  {
    Patch(
      on := true,
      xy := if light.state.xy.Some? then Some(reading.xy) else None,
      bri := if setBrightness then Some(Brightness(reading.percent)) else None,
      transitiontime := TransitionTime)
  }

  /** The dictionary `get_lightstate` returns: each light in order writes its
      patch under its id, so a later light with the same id overwrites. Its
      keys are exactly the ids of the input lights. */
  function Lightstates(reading: Reading, lights: seq<Light>, setBrightness: bool): (r: map<LightId, Patch>)
    ensures r.Keys == Ids(lights)
    decreases |lights|
  {
    if lights == [] then map[]
    else
      var init, last := lights[..|lights| - 1], lights[|lights| - 1];
      assert lights == init + [last];
      assert Ids(lights) == Ids(init) + {last.id};
      Lightstates(reading, init, setBrightness)[last.id := PatchFor(reading, last, setBrightness)]
  }

  function Ids(lights: seq<Light>): set<LightId>
  {
    set l | l in lights :: l.id
  }

  /** Lights taken from one light cache: equal ids mean equal lights. */
  predicate Consistent(lights: seq<Light>)
  {
    forall i, j :: 0 <= i < |lights| && 0 <= j < |lights| && lights[i].id == lights[j].id ==> lights[i] == lights[j]
  }

  /** What every patch in the output says for the given reading and flag. */
  predicate WellFormed(p: Patch, reading: Reading, setBrightness: bool)
  {
    && p.on
    && p.transitiontime == TransitionTime
    && (p.bri.Some? <==> setBrightness)
    && (p.bri.Some? ==> p.bri.value == Brightness(reading.percent))
    && (p.xy.Some? ==> p.xy.value == reading.xy)
  }

  /** Every patch is on, has transition time 20, carries the brightness
      exactly when asked to and carries only the reading's xy. */
  lemma {:induction false} LightstatesWellFormed(reading: Reading, lights: seq<Light>, setBrightness: bool)
    ensures forall id :: id in Lightstates(reading, lights, setBrightness) ==>
      WellFormed(Lightstates(reading, lights, setBrightness)[id], reading, setBrightness)
    decreases |lights|
  {
    if lights != [] {
      LightstatesWellFormed(reading, lights[..|lights| - 1], setBrightness);
    }
  }

  /** The entry of the last light with a given id is that light's patch. */
  lemma {:induction false} LightstatesLast(reading: Reading, lights: seq<Light>, setBrightness: bool, i: nat)
    requires i < |lights|
    requires forall j :: i < j < |lights| ==> lights[j].id != lights[i].id
    ensures lights[i].id in Lightstates(reading, lights, setBrightness)
    ensures Lightstates(reading, lights, setBrightness)[lights[i].id] == PatchFor(reading, lights[i], setBrightness)
    decreases |lights|
  {
    if i < |lights| - 1 {
      LightstatesLast(reading, lights[..|lights| - 1], setBrightness, i);
    }
  }

  /** For lights from one cache, the patch of each input light carries xy
      exactly when that light reports xy, and then the reading's xy; it
      carries the brightness exactly when asked to. */
  lemma {:induction false} LightstatesPatch(reading: Reading, lights: seq<Light>, setBrightness: bool, i: nat)
    requires i < |lights|
    requires Consistent(lights)
    ensures lights[i].id in Lightstates(reading, lights, setBrightness)
    ensures var p := Lightstates(reading, lights, setBrightness)[lights[i].id];
      && p.on && p.transitiontime == TransitionTime
      && (p.xy.Some? <==> lights[i].state.xy.Some?)
      && (p.xy.Some? ==> p.xy.value == reading.xy)
      && (p.bri.Some? <==> setBrightness)
      && (p.bri.Some? ==> p.bri.value == Brightness(reading.percent))
    decreases |lights|
  {
    var last := |lights| - 1;
    if i == last || lights[last].id == lights[i].id {
      // the last light wrote the entry, and it equals lights[i]
      assert lights[last] == lights[i];
    } else {
      LightstatesPatch(reading, lights[..last], setBrightness, i);
    }
  }
}
