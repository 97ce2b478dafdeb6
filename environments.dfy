/**
 * The fixed, ordered registry of environment-lighting presets and its lookup
 * by key, as `environmentOptions.find(env => env.value === key)` performs it.
 */
module Environments {
  import opened Wrappers

  /** One selector option: its key, its display text and the lighting image it points at. */
  datatype Preset = Preset(value: string, display: string, path: string)

  const Presets: seq<Preset> := [
    Preset("neutral", "Neutral",
           "https://modelviewer.dev/shared-assets/environments/neutral.hdr"),
    Preset("spruit-sunrise", "Spruit Sunrise",
           "https://modelviewer.dev/shared-assets/environments/spruit_sunrise_1k_HDR.hdr"),
    Preset("aircraft-workshop", "Aircraft Workshop",
           "https://modelviewer.dev/shared-assets/environments/aircraft_workshop_01_1k.hdr"),
    Preset("music-hall", "Music Hall",
           "https://modelviewer.dev/shared-assets/environments/music_hall_01_1k.hdr"),
    Preset("pillars", "Pillars",
           "https://modelviewer.dev/shared-assets/environments/pillars_1k.hdr"),
    Preset("whipple-creek", "Whipple Creek",
           "https://modelviewer.dev/shared-assets/environments/whipple_creek_regional_park_04_1k.hdr")
  ]

  /** The environment selected when the viewer is created. */
  const DefaultEnvironment: string := "neutral"

  /**
   * `Array.prototype.find` over `options` with the predicate "key equals":
   * the first option with that key, or nothing when no option has it
   * (`FindIsFirstMatch`).
   */
  function Find(options: seq<Preset>, key: string): Option<Preset> {
    if options == [] then None
    else if options[0].value == key then Some(options[0])
    else Find(options[1..], key)
  }

  /** `Find` answers nothing exactly when no option has the key, and otherwise the first option that has it. */
  lemma {:induction false} FindIsFirstMatch(options: seq<Preset>, key: string)
    ensures Find(options, key).None? <==> forall i :: 0 <= i < |options| ==> options[i].value != key
    ensures Find(options, key).Some? ==>
              exists i :: 0 <= i < |options| && options[i] == Find(options, key).value && options[i].value == key &&
                          forall j :: 0 <= j < i ==> options[j].value != key
  {
    if options != [] && options[0].value != key {
      var tail := options[1..];
      FindIsFirstMatch(tail, key);
      forall j | 1 <= j < |options| ensures options[j] == tail[j - 1] {
      }
      var r := Find(options, key);
      if r.Some? {
        var i :| 0 <= i < |tail| && tail[i] == r.value && tail[i].value == key &&
                 forall j :: 0 <= j < i ==> tail[j].value != key;
        assert options[i + 1] == r.value;
      }
    }
  }

  /** The registry lookup the viewer performs for a key. */
  function Lookup(key: string): Option<Preset> {
    Find(Presets, key)
  }

  /** The `environment-image` path for a key, when the key is registered. */
  function EnvironmentImage(key: string): Option<string> {
    if Lookup(key).Some? then Some(Lookup(key).value.path) else None
  }

  /** No two presets share a key. */
  lemma KeysUnique()
    ensures forall i, j :: 0 <= i < j < |Presets| ==> Presets[i].value != Presets[j].value
  {
    var keys := seq(|Presets|, i requires 0 <= i < |Presets| => Presets[i].value);
    assert keys == ["neutral", "spruit-sunrise", "aircraft-workshop", "music-hall", "pillars", "whipple-creek"];
    assert forall i, j :: 0 <= i < j < |Presets| ==> |keys[i]| != |keys[j]| || keys[i][0] != keys[j][0];
  }

  /** The default key is the first preset, so the first option is selected initially. */
  lemma DefaultIsFirst()
    ensures |Presets| > 0 && Presets[0].value == DefaultEnvironment
    ensures Lookup(DefaultEnvironment) == Some(Presets[0])
  {
  }

  /** Every registered key finds its own preset; since keys are unique this is the only match. */
  lemma LookupKnown(i: nat)
    requires i < |Presets|
    ensures Lookup(Presets[i].value) == Some(Presets[i])
    ensures EnvironmentImage(Presets[i].value) == Some(Presets[i].path)
  {
    KeysUnique();
    FindIsFirstMatch(Presets, Presets[i].value);
    var r := Lookup(Presets[i].value);
    var k :| 0 <= k < |Presets| && Presets[k] == r.value && r.value.value == Presets[i].value &&
             forall j :: 0 <= j < k ==> Presets[j].value != Presets[i].value;
    assert k == i;
  }

  /** A key outside the registry finds nothing, so no lighting image is applied for it. */
  lemma LookupUnknown(key: string)
    requires forall i :: 0 <= i < |Presets| ==> Presets[i].value != key
    ensures Lookup(key) == None && EnvironmentImage(key) == None
  {
    FindIsFirstMatch(Presets, key);
  }
}
