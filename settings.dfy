/** The settings store of the front end: defaults, the state it starts from and the
    shallow merge `updateSettings` applies. */
module Settings {
  import opened Wrappers
  import opened Js

  /** `defaultSettings`. */
  const DefaultSettings: map<string, Value> := map["theme" := Str("dark")]

  /** The initial state: the saved settings when some were stored, the defaults otherwise. */
  function InitialSettings(saved: Option<map<string, Value>>): map<string, Value> {
    if saved.Some? then saved.value else DefaultSettings
  }

  /** `{ ...prev, ...newSettings }`. */
  function UpdateSettings(prev: map<string, Value>, newSettings: map<string, Value>): (r: map<string, Value>)
    ensures r.Keys == prev.Keys + newSettings.Keys
    ensures forall k :: k in newSettings ==> r[k] == newSettings[k]
    ensures forall k :: k in prev && k !in newSettings ==> r[k] == prev[k]
  {
    prev + newSettings
  }

  /** With nothing stored, the theme is dark and nothing else is set. */
  lemma NothingSavedGivesDefaults()
    ensures InitialSettings(None).Keys == {"theme"} && InitialSettings(None)["theme"] == Str("dark")
  {
  }

  /** Merging nothing changes nothing; merging the same settings twice is merging them
      once; two merges in a row are one merge of their union, the later one winning. */
  lemma UpdateLaws(prev: map<string, Value>, a: map<string, Value>, b: map<string, Value>)
    ensures UpdateSettings(prev, map[]) == prev
    ensures UpdateSettings(UpdateSettings(prev, a), a) == UpdateSettings(prev, a)
    ensures UpdateSettings(UpdateSettings(prev, a), b) == UpdateSettings(prev, UpdateSettings(a, b))
  {
    assert UpdateSettings(prev, map[]) == prev;
    assert UpdateSettings(UpdateSettings(prev, a), a) == UpdateSettings(prev, a);
  }
}
