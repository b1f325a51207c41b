/** Editor preferences (src/app/services/editor-config.service.ts): a
    record of four settings, updated by merging a partial record over it. */
module EditorConfig {
  import opened Wrappers

  datatype Config = Config(autoSave: bool, autoComplete: bool, tabSize: int, insertSpaces: bool)

  /** A `Partial<EditorConfig>`: each field either supplied or absent. */
  datatype PartialConfig = PartialConfig(
    autoSave: Option<bool>,
    autoComplete: Option<bool>,
    tabSize: Option<int>,
    insertSpaces: Option<bool>)

  /** The configuration the service starts with. */
  function Default(): (c: Config)
    ensures c.autoSave && c.autoComplete && c.tabSize == 2 && c.insertSpaces
  {
    Config(true, true, 2, true)
  }

  const Empty := PartialConfig(None, None, None, None)

  /** `updateConfig(partial)`: `{...current, ...partial}`. */
  function UpdateConfig(c: Config, p: PartialConfig): (r: Config)
    ensures p.autoSave.Some? ==> r.autoSave == p.autoSave.value
    ensures p.autoComplete.Some? ==> r.autoComplete == p.autoComplete.value
    ensures p.tabSize.Some? ==> r.tabSize == p.tabSize.value
    ensures p.insertSpaces.Some? ==> r.insertSpaces == p.insertSpaces.value
    ensures p.autoSave.None? ==> r.autoSave == c.autoSave
    ensures p.autoComplete.None? ==> r.autoComplete == c.autoComplete
    ensures p.tabSize.None? ==> r.tabSize == c.tabSize
    ensures p.insertSpaces.None? ==> r.insertSpaces == c.insertSpaces
  {
    Config(
      p.autoSave.GetOr(c.autoSave),
      p.autoComplete.GetOr(c.autoComplete),
      p.tabSize.GetOr(c.tabSize),
      p.insertSpaces.GetOr(c.insertSpaces))
  }

  /** Spreading `q` over `p`: the fields `q` supplies win. */
  function Merge(p: PartialConfig, q: PartialConfig): PartialConfig {
    PartialConfig(
      if q.autoSave.Some? then q.autoSave else p.autoSave,
      if q.autoComplete.Some? then q.autoComplete else p.autoComplete,
      if q.tabSize.Some? then q.tabSize else p.tabSize,
      if q.insertSpaces.Some? then q.insertSpaces else p.insertSpaces)
  }

  /** `toggleAutoSave()`. */
  function ToggleAutoSave(c: Config): (r: Config)
    ensures r.autoSave == !c.autoSave
    ensures r.autoComplete == c.autoComplete && r.tabSize == c.tabSize && r.insertSpaces == c.insertSpaces
  {
    UpdateConfig(c, Empty.(autoSave := Some(!c.autoSave)))
  }

  /** `toggleAutoComplete()`. */
  function ToggleAutoComplete(c: Config): (r: Config)
    ensures r.autoComplete == !c.autoComplete
    ensures r.autoSave == c.autoSave && r.tabSize == c.tabSize && r.insertSpaces == c.insertSpaces
  {
    UpdateConfig(c, Empty.(autoComplete := Some(!c.autoComplete)))
  }

  /** An empty partial changes nothing. */
  lemma UpdateEmptyIsIdentity(c: Config)
    ensures UpdateConfig(c, Empty) == c
  {
  }

  /** A full partial replaces the whole configuration. */
  lemma UpdateFullReplaces(c: Config, d: Config)
    ensures UpdateConfig(c, PartialConfig(Some(d.autoSave), Some(d.autoComplete), Some(d.tabSize), Some(d.insertSpaces))) == d
  {
  }

  /** Two updates in a row are one update with the merged partial. */
  lemma UpdateTwiceIsMerge(c: Config, p: PartialConfig, q: PartialConfig)
    ensures UpdateConfig(UpdateConfig(c, p), q) == UpdateConfig(c, Merge(p, q))
  {
  }

  /** Re-applying the same partial is a no-op. */
  lemma UpdateIdempotent(c: Config, p: PartialConfig)
    ensures UpdateConfig(UpdateConfig(c, p), p) == UpdateConfig(c, p)
  {
  }

  /** Toggling twice restores the configuration. */
  lemma ToggleTwiceRestores(c: Config)
    ensures ToggleAutoSave(ToggleAutoSave(c)) == c
    ensures ToggleAutoComplete(ToggleAutoComplete(c)) == c
  {
  }

  /** The two toggles commute. */
  lemma TogglesCommute(c: Config)
    ensures ToggleAutoSave(ToggleAutoComplete(c)) == ToggleAutoComplete(ToggleAutoSave(c))
  {
  }
}
