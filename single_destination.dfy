/** The older single-destination plugin: its `start` is one `startDestination` on the
    options themselves, with no save of the options, and its `stop` is the same as the
    multi-destination one. */
module SingleDestination {
  import opened Config
  import opened Lifecycle
  import MultiDestination

  /** `DELIMITERS[options.lineDelimiter] || ''`: a missing option indexes the table with the
      key "undefined". */
  function JsDelimiter(name: Option<string>): (d: string)
    ensures d == "" || d == "\n" || d == "\r\n"
  {
    var key := if name.Some? then name.value else "undefined";
    if key in Delimiters && Delimiters[key] != "" then Delimiters[key] else ""
  }

  /** The two ways of looking up the delimiter choose the same delimiter for every option
      value, the missing one included. */
  lemma DelimitersAgree(name: Option<string>)
    ensures JsDelimiter(name) == Delimiter(name)
  {
    assert "undefined" !in Delimiters;
    assert "" !in Delimiters;
  }

  /** `start(options)` of the single-destination plugin. */
  method Start(relay: Relay, c: DestinationConfig)
    requires relay.Valid()
    modifies relay, relay.app
    ensures relay.Valid()
    ensures relay.State() == StartDestinationSpec(old(relay.State()), c)
  {
    relay.StartDestination(c);
  }

  /** Given the options in the flat layout, the single-destination `start` does what the
      multi-destination one does except that it saves nothing. */
  lemma StartIsFlatStartWithoutSave(s: Sys, c: DestinationConfig)
    ensures var multi := MultiDestination.StartSpec(s, MultiDestination.PluginOptions(None, c));
      && StartDestinationSpec(s, c) == multi.(saved := s.saved)
      && multi.saved == s.saved + [[c]]
  {
  }
}
