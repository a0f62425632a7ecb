/** The plugin's `start` in its multi-destination form: the options either list destinations,
    each started in turn, or are themselves one destination in the older flat layout, which
    is saved back in the list layout before it is started. */
module MultiDestination {
  import opened Listeners
  import opened Config
  import opened Lifecycle

  /** The options object `start` receives: its `destinations` member when it has one, and its
      own top-level members read as one destination. */
  datatype PluginOptions = PluginOptions(destinations: Option<seq<DestinationConfig>>, flat: DestinationConfig)

  /** `options.destinations !== undefined`. */
  predicate IsDestinationConfigs(o: PluginOptions) {
    o.destinations.Some?
  }

  /** `start(options)`: every listed destination in order, or else one request to save
      `{destinations: [options]}` followed by `startDestination(options)`. */
  function StartSpec(s: Sys, o: PluginOptions): (r: Sys)
    ensures r.sent == s.sent
  {
    if IsDestinationConfigs(o) then StartAll(s, o.destinations.value)
    else StartDestinationSpec(s.(saved := s.saved + [[o.flat]]), o.flat)
  }

  /** `start` keeps the invariant, for both layouts. */
  lemma StartInv(s: Sys, o: PluginOptions)
    requires Inv(s)
    ensures Inv(StartSpec(s, o))
  {
    if IsDestinationConfigs(o) {
      StartAllInv(s, o.destinations.value);
    } else {
      StartDestinationInv(s.(saved := s.saved + [[o.flat]]), o.flat);
    }
  }

  /** A list starts every destination and saves nothing; a flat configuration is saved once,
      wrapped in a one-element list, and reports one status. Statuses follow the order of the
      destinations. */
  lemma StartReportsEachDestination(s: Sys, o: PluginOptions)
    ensures var r := StartSpec(s, o);
      && (IsDestinationConfigs(o) ==>
            r.saved == s.saved && r.statuses == s.statuses + StatusesFor(o.destinations.value))
      && (!IsDestinationConfigs(o) ==>
            r.saved == s.saved + [[o.flat]] && r.statuses == s.statuses + [StatusFor(o.flat)])
  {
    if IsDestinationConfigs(o) {
      StartAllStatuses(s, o.destinations.value);
    }
  }

  /** From a stopped plugin, `start` then `stop` leaves every listener array as it was, for
      both layouts of the options. */
  lemma StartThenStopRestoresListeners(s: Sys, o: PluginOptions)
    requires Inv(s) && s.onStop == []
    ensures StopSpec(StartSpec(s, o)).listeners == s.listeners
  {
    if IsDestinationConfigs(o) {
      StartAllThenStop(s, o.destinations.value);
    } else {
      var saved := s.(saved := s.saved + [[o.flat]]);
      StartDestinationThenStop(saved, o.flat);
      assert StopSpec(saved).listeners == RunTeardowns(s.listeners, []);
    }
  }

  /** A list of two destinations is started first to last. */
  lemma StartTwo(s: Sys, a: DestinationConfig, b: DestinationConfig)
    ensures StartAll(s, [a, b]) == StartDestinationSpec(StartDestinationSpec(s, a), b)
  {
    assert [a, b][..1] == [a] && [a][..0] == [];
    assert StartAll(s, [a]) == StartDestinationSpec(StartAll(s, []), a);
  }

  /** Two active destinations started in turn: two new open sockets, the second one shared,
      and the first destination's `send` kept. */
  lemma StartTwoActive(s: Sys, a: DestinationConfig, b: DestinationConfig)
    requires Inv(s)
    requires ActiveAddress(a).Some? && ActiveAddress(b).Some?
    ensures var r := StartDestinationSpec(StartDestinationSpec(s, a), b);
            var n := |s.sockets|;
      && r.sockets == s.sockets + [true, true] && r.socket == Some(n + 1)
      && s.nextListener in r.senders
      && r.senders[s.nextListener] == Sender(ActiveAddress(a).value, a.port, Delimiter(a.lineDelimiter))
  {
    var r1 := StartDestinationSpec(s, a);
    StartDestinationSockets(s, a);
    StartDestinationSenders(s, a);
    StartDestinationInv(s, a);
    StartDestinationSockets(r1, b);
    StartDestinationSenders(r1, b);
  }

  /** Two active destinations share one socket: the first one's `send` transmits its own
      payload to its own port and address, but through the socket the second one opened; and
      `stop` closes that second socket only, leaving the first open. */
  lemma SharedSocket(s: Sys, a: DestinationConfig, b: DestinationConfig, message: string)
    requires Inv(s)
    requires ActiveAddress(a).Some? && ActiveAddress(b).Some?
    ensures var r := StartSpec(s, PluginOptions(Some([a, b]), a));
            var n := |s.sockets|;
      && r.socket == Some(n + 1)
      && s.nextListener in r.senders
      && SendSpec(r, s.nextListener, message).sent == r.sent + [Datagram(n + 1,
           Payload(message, Delimiter(a.lineDelimiter)), a.port, ActiveAddress(a).value)]
      && StopSpec(r).sockets[n] && !StopSpec(r).sockets[n + 1]
  {
    StartTwo(s, a, b);
    StartTwoActive(s, a, b);
    var r := StartDestinationSpec(StartDestinationSpec(s, a), b);
    assert StopSpec(r).sockets == Close(r.sockets, |s.sockets| + 1);
  }

  /** The plugin's `start`. */
  method Start(relay: Relay, o: PluginOptions)
    requires relay.Valid()
    modifies relay, relay.app
    ensures relay.Valid()
    ensures relay.State() == StartSpec(old(relay.State()), o)
  {
    if o.destinations.Some? {
      var ds := o.destinations.value;
      ghost var s0 := relay.State();
      var i := 0;
      while i < |ds|
        invariant 0 <= i <= |ds|
        invariant relay.Valid()
        invariant relay.State() == StartAll(s0, ds[..i])
      {
        relay.StartDestination(ds[i]);
        assert ds[..i + 1][..i] == ds[..i];
        i := i + 1;
      }
      assert ds[..|ds|] == ds;
    } else {
      ghost var s0 := relay.State();
      relay.app.SavePluginOptions([o.flat]);
      assert relay.State() == s0.(saved := s0.saved + [[o.flat]]);
      relay.StartDestination(o.flat);
    }
  }
}
