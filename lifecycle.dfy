/** One plugin instance over the host it runs in: `startDestination`, `stop` and the `send`
    closures. All destinations share the closure variables `socket` and `onStop`, so every
    active destination overwrites `socket`, every `send` transmits through the socket that
    is current when it runs, and `stop` closes only that one. */
module Lifecycle {
  import opened Listeners
  import opened Config

  /** A UDP socket is its position in the list of sockets the host has created. */
  type SocketId = nat

  /** One `socket.send` call: the socket, the string handed to it, the port and the address.
      The payload is that JavaScript string, not the bytes its encoding puts on the wire. */
  datatype Datagram = Datagram(socket: SocketId, payload: string, port: int, address: string)

  /** A call of `setPluginStatus` (`Ok`) or `setPluginError` (`Error`). */
  datatype Status = Ok(message: string) | Error(message: string)

  /** What one `send` closure captured: the resolved address, the port and the delimiter. */
  datatype Sender = Sender(address: string, port: int, delimiter: string)

  /** The host's side (listener arrays, the supply of fresh function identities, the sockets
      with their open flags, the `socket.send` calls made, the status calls, the options
      saved) and the plugin's closure variables (`socket`, `onStop`) with the `send` closures
      it created. */
  datatype Sys = Sys(
    listeners: Registry,
    nextListener: ListenerId,
    sockets: seq<bool>,
    sent: seq<Datagram>,
    statuses: seq<Status>,
    saved: seq<seq<DestinationConfig>>,
    socket: Option<SocketId>,
    onStop: seq<Teardown>,
    senders: map<ListenerId, Sender>)

  /** Every reachable state: no empty listener array, identities handed out only below
      `nextListener` (registered, captured by a teardown or a `send`), and the shared
      `socket`, when set, is a created socket still open. */
  predicate Inv(s: Sys) {
    && WellFormed(s.listeners)
    && IdsBelow(s.listeners, s.nextListener)
    && (forall t :: t in s.onStop ==> t.listener < s.nextListener)
    && (forall l :: l in s.senders ==> l < s.nextListener)
    && (s.socket.Some? ==> s.socket.value < |s.sockets| && s.sockets[s.socket.value])
  }

  const NoAddress := "No address specified"

  function UsingAddress(address: string): string {
    "Using address " + address
  }

  /** The status a destination reports when it is started. */
  function StatusFor(c: DestinationConfig): (r: Status)
    ensures r.Error? <==> ActiveAddress(c).None?
    ensures r.Error? ==> r.message == NoAddress
    ensures r.Ok? ==> r.message == UsingAddress(ActiveAddress(c).value)
  {
    match ActiveAddress(c)
    case None => Error(NoAddress)
    case Some(a) => Ok(UsingAddress(a))
  }

  /** `startDestination(options)`: an active destination creates a socket and makes it the
      shared one, creates its `send`, subscribes it and pushes one teardown per
      subscription; an inactive one only reports the missing address. */
  function StartDestinationSpec(s: Sys, c: DestinationConfig): (r: Sys)
    ensures r.statuses == s.statuses + [StatusFor(c)]
    ensures r.sent == s.sent && r.saved == s.saved
  {
    match ActiveAddress(c)
    case None => s.(statuses := s.statuses + [Error(NoAddress)])
    case Some(address) =>
      var l := s.nextListener;
      var ks := Registrations(c);
      s.(sockets := s.sockets + [true],
         socket := Some(|s.sockets|),
         nextListener := l + 1,
         senders := s.senders[l := Sender(address, c.port, Delimiter(c.lineDelimiter))],
         listeners := RegisterAll(s.listeners, ks, l),
         onStop := s.onStop + Teardowns(ks, l),
         statuses := s.statuses + [Ok(UsingAddress(address))])
  }

  /** `socket.close()` on one created socket. */
  function Close(sockets: seq<bool>, id: SocketId): (r: seq<bool>)
    ensures |r| == |sockets|
    ensures id < |sockets| ==> !r[id]
    ensures forall j :: 0 <= j < |sockets| && j != id ==> r[j] == sockets[j]
  {
    if id < |sockets| then sockets[id := false] else sockets
  }

  /** `stop()`: run every teardown, empty `onStop`, close the shared socket if one is set and
      unset it. Only that socket is closed. */
  function StopSpec(s: Sys): (r: Sys)
    ensures r.onStop == [] && r.socket == None
    ensures r.sent == s.sent && r.statuses == s.statuses && r.saved == s.saved
    ensures r.senders == s.senders && r.nextListener == s.nextListener
    ensures |r.sockets| == |s.sockets|
    ensures forall id :: 0 <= id < |s.sockets| && s.socket != Some(id) ==> r.sockets[id] == s.sockets[id]
    ensures s.socket.Some? && s.socket.value < |s.sockets| ==> !r.sockets[s.socket.value]
    ensures s.onStop == [] && s.socket == None ==> r == s
  {
    var drained := s.(listeners := RunTeardowns(s.listeners, s.onStop), onStop := []);
    match s.socket
    case None => drained
    case Some(id) => drained.(sockets := Close(s.sockets, id), socket := None)
  }

  /** The `send` closure of listener l called with `message`. It uses the shared `socket` as
      it is at that moment; with no socket set the call throws and nothing is sent. */
  function SendSpec(s: Sys, l: ListenerId, message: string): (r: Sys)
    requires l in s.senders
    ensures r == s.(sent := r.sent)
    ensures s.socket.None? ==> r.sent == s.sent
  {
    var out := s.senders[l];
    match s.socket
    case None => s
    case Some(id) =>
      s.(sent := s.sent + [Datagram(id, Payload(message, out.delimiter), out.port, out.address)])
  }

  /** `startDestination` keeps the invariant: the new socket is open, the listener arrays
      stay non-empty and the new listener is below the next fresh identity. */
  lemma StartDestinationInv(s: Sys, c: DestinationConfig)
    requires Inv(s)
    ensures Inv(StartDestinationSpec(s, c))
  {
    if ActiveAddress(c).Some? {
      RegisterAllBelow(s.listeners, Registrations(c), s.nextListener, s.nextListener + 1);
    }
  }

  /** `stop` keeps the invariant. */
  lemma StopInv(s: Sys)
    requires Inv(s)
    ensures Inv(StopSpec(s))
  {
    RunTeardownsBelow(s.listeners, s.onStop, s.nextListener);
  }

  /** The next identity of the supply is a new function object: no listener array holds
      it, no teardown names it and no `send` closure has it. */
  lemma FreshIdentity(s: Sys)
    requires Inv(s)
    ensures forall k :: k in s.listeners ==> s.nextListener !in s.listeners[k]
    ensures forall t :: t in s.onStop ==> t.listener != s.nextListener
    ensures s.nextListener !in s.senders
  {
  }

  /** An inactive destination creates no socket, registers nothing, leaves `onStop` alone
      and reports "No address specified". */
  lemma InactiveDestination(s: Sys, c: DestinationConfig)
    requires ActiveAddress(c).None?
    ensures var r := StartDestinationSpec(s, c);
      && r.listeners == s.listeners && r.onStop == s.onStop
      && r.sockets == s.sockets && r.socket == s.socket && r.senders == s.senders
      && r.statuses == s.statuses + [Error(NoAddress)]
  {
  }

  /** An active destination opens one new socket and makes it the shared one (the earlier
      ones stay as they were), reports the address in use and adds its `send` under an
      identity no earlier closure has. */
  lemma ActiveDestination(s: Sys, c: DestinationConfig)
    requires Inv(s)
    requires ActiveAddress(c).Some?
    ensures var r := StartDestinationSpec(s, c);
      && s.nextListener !in s.senders
      && r.senders == s.senders[s.nextListener := Sender(ActiveAddress(c).value, c.port, Delimiter(c.lineDelimiter))]
      && r.sockets == s.sockets + [true] && r.socket == Some(|s.sockets|)
      && r.statuses == s.statuses + [Ok(UsingAddress(ActiveAddress(c).value))]
  {
  }

  /** The teardowns an active destination pushes come behind the earlier ones, one per
      registration and in the same order. */
  lemma ActiveDestinationTeardowns(s: Sys, c: DestinationConfig)
    requires ActiveAddress(c).Some?
    ensures var r := StartDestinationSpec(s, c);
            var ks := Registrations(c);
      && |r.onStop| == |s.onStop| + |ks| && r.onStop[..|s.onStop|] == s.onStop
      && (forall i :: 0 <= i < |ks| ==> r.onStop[|s.onStop| + i] == Teardown(ks[i], s.nextListener))
  {
    var ks := Registrations(c);
    StartDestinationOnStop(s, c);
    TeardownsAfter(s.onStop, ks, s.nextListener);
  }

  /** An active destination appends its teardowns to `onStop`. */
  lemma StartDestinationOnStop(s: Sys, c: DestinationConfig)
    requires ActiveAddress(c).Some?
    ensures StartDestinationSpec(s, c).onStop == s.onStop + Teardowns(Registrations(c), s.nextListener)
  {
  }

  /** Every event's array gains the new listener once per registration of that event, and
      events the destination does not register for keep their arrays. */
  lemma {:induction false} ActiveDestinationListeners(s: Sys, c: DestinationConfig, k: Key)
    requires ActiveAddress(c).Some?
    ensures var r := StartDestinationSpec(s, c);
            var ks := Registrations(c);
      && Get(r.listeners, k) == Get(s.listeners, k) + Rep(s.nextListener, multiset(ks)[k])
      && (k !in ks ==> Get(r.listeners, k) == Get(s.listeners, k))
  {
    var ks := Registrations(c);
    assert StartDestinationSpec(s, c).listeners == RegisterAll(s.listeners, ks, s.nextListener);
    GetRegisterAll(s.listeners, ks, s.nextListener, k);
    assert k !in ks ==> Get(s.listeners, k) + Rep(s.nextListener, 0) == Get(s.listeners, k);
  }

  /** Starting a destination and stopping leaves the listener arrays as stopping alone would:
      from a stopped plugin, exactly as they were before the start. */
  lemma {:induction false} StartDestinationThenStop(s: Sys, c: DestinationConfig)
    requires Inv(s)
    ensures StopSpec(StartDestinationSpec(s, c)).listeners == StopSpec(s).listeners
  {
    if ActiveAddress(c).Some? {
      var l := s.nextListener;
      assert forall t :: t in s.onStop ==> t.listener != l;
      RegisterThenTeardown(s.listeners, s.onStop, Registrations(c), l);
    }
  }

  /** A second `stop`, or one before any `start`, changes nothing. */
  lemma StopIdempotent(s: Sys)
    ensures StopSpec(StopSpec(s)) == StopSpec(s)
  {
  }

  /** The `send` of a just-started destination makes exactly one `socket.send` call with the
      message followed by the configured delimiter, to the configured port and address, on
      the socket the start created. */
  lemma SendAfterStart(s: Sys, c: DestinationConfig, message: string)
    requires Inv(s)
    requires ActiveAddress(c).Some?
    ensures var r := StartDestinationSpec(s, c);
      && s.nextListener in r.senders
      && SendSpec(r, s.nextListener, message).sent == r.sent + [Datagram(|s.sockets|,
           Payload(message, Delimiter(c.lineDelimiter)), c.port, ActiveAddress(c).value)]
  {
  }

  /** How many of the destinations are active. */
  function ActiveCount(ds: seq<DestinationConfig>): nat {
    if ds == [] then 0
    else ActiveCount(ds[..|ds| - 1]) + (if ActiveAddress(ds[|ds| - 1]).Some? then 1 else 0)
  }

  /** `startDestination` called once per destination, in order, on the same closure state. */
  function StartAll(s: Sys, ds: seq<DestinationConfig>): (r: Sys)
    ensures r.sent == s.sent && r.saved == s.saved
    decreases |ds|
  {
    if ds == [] then s else StartDestinationSpec(StartAll(s, ds[..|ds| - 1]), ds[|ds| - 1])
  }

  /** Starting destinations in turn keeps the invariant. */
  lemma {:induction false} StartAllInv(s: Sys, ds: seq<DestinationConfig>)
    requires Inv(s)
    ensures Inv(StartAll(s, ds))
    decreases |ds|
  {
    if ds != [] {
      StartAllInv(s, ds[..|ds| - 1]);
      StartDestinationInv(StartAll(s, ds[..|ds| - 1]), ds[|ds| - 1]);
    }
  }

  /** The status each destination reports, in the order of the destinations. */
  function StatusesFor(ds: seq<DestinationConfig>): (ss: seq<Status>)
    ensures |ss| == |ds|
    ensures forall i :: 0 <= i < |ds| ==> ss[i] == StatusFor(ds[i])
  {
    seq(|ds|, i requires 0 <= i < |ds| => StatusFor(ds[i]))
  }

  /** Every destination reports exactly one status, in order. */
  lemma {:induction false} StartAllStatuses(s: Sys, ds: seq<DestinationConfig>)
    ensures StartAll(s, ds).statuses == s.statuses + StatusesFor(ds)
    decreases |ds|
  {
    if ds != [] {
      var p, d := ds[..|ds| - 1], ds[|ds| - 1];
      StartAllStatuses(s, p);
      assert StartAll(s, ds) == StartDestinationSpec(StartAll(s, p), d);
      assert ds == p + [d];
      StatusesForSnoc(p, d);
    }
  }

  lemma StatusesForSnoc(ds: seq<DestinationConfig>, d: DestinationConfig)
    ensures StatusesFor(ds + [d]) == StatusesFor(ds) + [StatusFor(d)]
  {
    assert forall i :: 0 <= i < |ds| ==> (ds + [d])[i] == ds[i];
  }

  /** The sockets after one `startDestination`. */
  lemma StartDestinationSockets(s: Sys, c: DestinationConfig)
    ensures var r := StartDestinationSpec(s, c);
      && r.sockets == s.sockets + (if ActiveAddress(c).Some? then [true] else [])
      && r.socket == if ActiveAddress(c).Some? then Some(|s.sockets|) else s.socket
  {
  }

  /** The `send` closures after one `startDestination`: the earlier ones are kept and an
      active destination adds its own under a fresh identity. */
  lemma StartDestinationSenders(s: Sys, c: DestinationConfig)
    requires Inv(s)
    ensures var r := StartDestinationSpec(s, c);
      && (forall l :: l in s.senders ==> l in r.senders && r.senders[l] == s.senders[l])
      && (ActiveAddress(c).Some? ==>
            && r.nextListener == s.nextListener + 1
            && s.nextListener in r.senders
            && r.senders[s.nextListener] == Sender(ActiveAddress(c).value, c.port, Delimiter(c.lineDelimiter)))
  {
  }

  /** Each active destination opens one more socket and none is closed; the shared socket is
      the one opened last, or the earlier one when no destination is active. */
  lemma {:induction false} StartAllSockets(s: Sys, ds: seq<DestinationConfig>)
    ensures var r := StartAll(s, ds);
      && |r.sockets| == |s.sockets| + ActiveCount(ds)
      && r.sockets[..|s.sockets|] == s.sockets
      && (forall id :: |s.sockets| <= id < |r.sockets| ==> r.sockets[id])
      && r.socket == if ActiveCount(ds) == 0 then s.socket else Some(|r.sockets| - 1)
    decreases |ds|
  {
    if ds != [] {
      var p, c := ds[..|ds| - 1], ds[|ds| - 1];
      StartAllSockets(s, p);
      var q := StartAll(s, p);
      assert StartAll(s, ds) == StartDestinationSpec(q, c);
      StartDestinationSockets(q, c);
      assert ActiveCount(ds) == ActiveCount(p) + (if ActiveAddress(c).Some? then 1 else 0);
    }
  }

  /** Starting several destinations and stopping leaves the listener arrays as stopping alone
      would. */
  lemma {:induction false} StartAllThenStop(s: Sys, ds: seq<DestinationConfig>)
    requires Inv(s)
    ensures StopSpec(StartAll(s, ds)).listeners == StopSpec(s).listeners
    decreases |ds|
  {
    if ds != [] {
      var p := ds[..|ds| - 1];
      StartAllThenStop(s, p);
      StartAllInv(s, p);
      StartDestinationThenStop(StartAll(s, p), ds[|ds| - 1]);
    }
  }

  /** From a stopped plugin, starting several destinations and stopping restores every listener
      array and closes only the socket opened last: the sockets of the other active
      destinations stay open. */
  lemma StartAllThenStopKeepsEarlierSockets(s: Sys, ds: seq<DestinationConfig>)
    requires Inv(s) && s.onStop == [] && s.socket == None
    ensures var r := StopSpec(StartAll(s, ds));
      && r.listeners == s.listeners && r.onStop == [] && r.socket == None
      && |r.sockets| == |s.sockets| + ActiveCount(ds)
      && r.sockets[..|s.sockets|] == s.sockets
      && (forall id :: |s.sockets| <= id < |r.sockets| - 1 ==> r.sockets[id])
      && (ActiveCount(ds) > 0 ==> !r.sockets[|r.sockets| - 1])
  {
    StartAllThenStop(s, ds);
    StartAllSockets(s, ds);
    assert StopSpec(s) == s;
    var q := StartAll(s, ds);
    var r := StopSpec(q);
    assert forall id :: 0 <= id < |s.sockets| ==> r.sockets[id] == q.sockets[id];
  }

  /** Concatenation of teardown lists is associative; `SubscribeAll` needs the fact on its
      own, out of the context of the method's frame. */
  lemma ConcatAssoc(a: seq<Teardown>, b: seq<Teardown>, c: seq<Teardown>)
    ensures (a + b) + c == a + (b + c)
  {
  }

  /** The two fixed registrations, one `if` block each. */
  lemma FixedRegistrations(r: Registry, c: DestinationConfig, l: ListenerId)
    ensures var r1 := if Listens(c.nmea0183) then On(r, Key(Signalk, "nmea0183"), l) else r;
            RegisterAll(r, FixedKeys(c), l)
            == if Listens(c.nmea0183out) then On(r1, Key(Application, "nmea0183out"), l) else r1
    ensures Teardowns(FixedKeys(c), l)
            == (if Listens(c.nmea0183) then [Teardown(Key(Signalk, "nmea0183"), l)] else [])
               + (if Listens(c.nmea0183out) then [Teardown(Key(Application, "nmea0183out"), l)] else [])
  {
    var k1, k2 := Key(Signalk, "nmea0183"), Key(Application, "nmea0183out");
    var first: seq<Key> := if Listens(c.nmea0183) then [k1] else [];
    RegisterAllSnoc(r, [], k1, l);
    if Listens(c.nmea0183out) {
      RegisterAllSnoc(r, first, k2, l);
      TeardownsConcat(first, [k2], l);
    } else {
      assert FixedKeys(c) == first;
    }
  }

  lemma RegistrationsSplit(r: Registry, c: DestinationConfig, l: ListenerId)
    ensures RegisterAll(r, Registrations(c), l)
            == RegisterAll(RegisterAll(r, FixedKeys(c), l), AppKeys(Events(c)), l)
    ensures Teardowns(Registrations(c), l)
            == Teardowns(FixedKeys(c), l) + Teardowns(AppKeys(Events(c)), l)
  {
    RegisterAllConcat(r, FixedKeys(c), AppKeys(Events(c)), l);
    TeardownsConcat(FixedKeys(c), AppKeys(Events(c)), l);
  }

  /** One more additional event subscribed extends both the registrations and the teardowns
      by that event. */
  lemma SubscribeEventStep(r: Registry, events: seq<string>, i: nat, l: ListenerId)
    requires i < |events|
    ensures RegisterAll(r, AppKeys(events[..i + 1]), l)
            == On(RegisterAll(r, AppKeys(events[..i]), l), Key(Application, events[i]), l)
    ensures Teardowns(AppKeys(events[..i + 1]), l)
            == Teardowns(AppKeys(events[..i]), l) + [Teardown(Key(Application, events[i]), l)]
  {
    var k := Key(Application, events[i]);
    assert events[..i + 1] == events[..i] + [events[i]];
    assert AppKeys(events[..i + 1]) == AppKeys(events[..i]) + [k];
    RegisterAllSnoc(r, AppKeys(events[..i]), k, l);
    TeardownsSnoc(AppKeys(events[..i]), k, l);
  }

  /** The server application object the plugin factory receives, reduced to the calls the
      plugin makes on it. */
  class App {
    var listeners: Registry
    var nextListener: ListenerId
    var sockets: seq<bool>
    var sent: seq<Datagram>
    var statuses: seq<Status>
    var saved: seq<seq<DestinationConfig>>

    constructor (listeners: Registry, nextListener: ListenerId)
      ensures this.listeners == listeners && this.nextListener == nextListener
      ensures sockets == [] && sent == [] && statuses == [] && saved == []
    {
      this.listeners := listeners;
      this.nextListener := nextListener;
      sockets, sent, statuses, saved := [], [], [], [];
    }

    /** `on(event, l)` on the emitter of k's channel. */
    method Listen(k: Key, l: ListenerId)
      modifies this`listeners
      ensures listeners == On(old(listeners), k, l)
    {
      listeners := On(listeners, k, l);
    }

    /** `removeListener(event, l)` on the emitter of k's channel. */
    method Unlisten(k: Key, l: ListenerId)
      modifies this`listeners
      ensures listeners == RemoveListener(old(listeners), k, l)
    {
      listeners := RemoveListener(listeners, k, l);
    }

    /** A new function object: an identity no function has had before. */
    method NewClosure() returns (l: ListenerId)
      modifies this`nextListener
      ensures l == old(nextListener) && nextListener == l + 1
    {
      l := nextListener;
      nextListener := nextListener + 1;
    }

    /** `dgram.createSocket('udp4')`. */
    method CreateSocket() returns (id: SocketId)
      modifies this`sockets
      ensures id == |old(sockets)| && sockets == old(sockets) + [true]
    {
      id := |sockets|;
      sockets := sockets + [true];
    }

    /** `socket.close()`. */
    method CloseSocket(id: SocketId)
      modifies this`sockets
      ensures sockets == Close(old(sockets), id)
    {
      sockets := Close(sockets, id);
    }

    /** `socket.send(msg, 0, msg.length, port, address)`, logged with the string `msg`. */
    method Transmit(id: SocketId, payload: string, port: int, address: string)
      modifies this`sent
      ensures sent == old(sent) + [Datagram(id, payload, port, address)]
    {
      sent := sent + [Datagram(id, payload, port, address)];
    }

    /** `setPluginStatus(message)`. */
    method SetStatus(message: string)
      modifies this`statuses
      ensures statuses == old(statuses) + [Ok(message)]
    {
      statuses := statuses + [Ok(message)];
    }

    /** `setPluginError(message)`. */
    method SetError(message: string)
      modifies this`statuses
      ensures statuses == old(statuses) + [Error(message)]
    {
      statuses := statuses + [Error(message)];
    }

    /** `savePluginOptions({destinations}, callback)`: the request only. */
    method SavePluginOptions(destinations: seq<DestinationConfig>)
      modifies this`saved
      ensures saved == old(saved) + [destinations]
    {
      saved := saved + [destinations];
    }
  }

  /** The object the plugin factory returns, with the closure variables its functions share. */
  class Relay {
    const app: App
    var socket: Option<SocketId>
    var onStop: seq<Teardown>
    var senders: map<ListenerId, Sender>

    function State(): Sys
      reads this, app
    {
      Sys(app.listeners, app.nextListener, app.sockets, app.sent, app.statuses, app.saved,
          socket, onStop, senders)
    }

    predicate Valid()
      reads this, app
    {
      Inv(State())
    }

    /** The factory: `let socket`, `let onStop = []`. */
    constructor (app: App)
      ensures this.app == app
      ensures State() == Sys(app.listeners, app.nextListener, app.sockets, app.sent,
                             app.statuses, app.saved, None, [], map[])
      ensures WellFormed(app.listeners) && IdsBelow(app.listeners, app.nextListener) ==> Valid()
    {
      this.app := app;
      socket := None;
      onStop := [];
      senders := map[];
    }

    /** `on(event, send)` followed by `onStop.push(() => removeListener(event, send))`. */
    method Subscribe(k: Key, l: ListenerId)
      modifies app`listeners, this`onStop
      ensures app.listeners == On(old(app.listeners), k, l)
      ensures onStop == old(onStop) + [Teardown(k, l)]
    {
      app.Listen(k, l);
      onStop := onStop + [Teardown(k, l)];
    }

    method StartDestination(c: DestinationConfig)
      requires Valid()
      modifies this, app
      ensures Valid()
      ensures State() == StartDestinationSpec(old(State()), c)
    {
      ghost var s0 := State();
      var address := ActiveAddress(c);
      if address.Some? {
        var id := app.CreateSocket();
        socket := Some(id);
        var delimiter := Delimiter(c.lineDelimiter);
        var send := app.NewClosure();
        senders := senders[send := Sender(address.value, c.port, delimiter)];
        SubscribeAll(c, send);
        app.SetStatus(UsingAddress(address.value));
        assert State() == StartDestinationSpec(s0, c);
        StartDestinationInv(s0, c);
      } else {
        app.SetError(NoAddress);
        assert State() == StartDestinationSpec(s0, c);
        StartDestinationInv(s0, c);
      }
    }

    /** The three `if` blocks of `startDestination` that subscribe `send`. */
    method SubscribeAll(c: DestinationConfig, send: ListenerId)
      modifies app`listeners, this`onStop
      ensures app.listeners == RegisterAll(old(app.listeners), Registrations(c), send)
      ensures onStop == old(onStop) + Teardowns(Registrations(c), send)
    {
      ghost var listeners0, onStop0 := app.listeners, onStop;
      if Listens(c.nmea0183) {
        Subscribe(Key(Signalk, "nmea0183"), send);
      }
      if Listens(c.nmea0183out) {
        Subscribe(Key(Application, "nmea0183out"), send);
      }
      FixedRegistrations(listeners0, c, send);
      ghost var fixed, events := Teardowns(FixedKeys(c), send), Teardowns(AppKeys(Events(c)), send);
      assert onStop == onStop0 + fixed;
      SubscribeEvents(Events(c), send);
      RegistrationsSplit(listeners0, c, send);
      assert onStop == (onStop0 + fixed) + events;
      ConcatAssoc(onStop0, fixed, events);
    }

    /** `options.additionalEvents.forEach(event => ...)`: each event subscribed on `app`, in
        order, with its teardown pushed. */
    method SubscribeEvents(events: seq<string>, send: ListenerId)
      modifies app`listeners, this`onStop
      ensures app.listeners == RegisterAll(old(app.listeners), AppKeys(events), send)
      ensures onStop == old(onStop) + Teardowns(AppKeys(events), send)
    {
      ghost var listeners0, onStop0 := app.listeners, onStop;
      var i := 0;
      while i < |events|
        invariant 0 <= i <= |events|
        invariant app.listeners == RegisterAll(listeners0, AppKeys(events[..i]), send)
        invariant onStop == onStop0 + Teardowns(AppKeys(events[..i]), send)
      {
        Subscribe(Key(Application, events[i]), send);
        SubscribeEventStep(listeners0, events, i, send);
        i := i + 1;
      }
      assert events[..|events|] == events;
    }

    method Stop()
      requires Valid()
      modifies this, app
      ensures Valid()
      ensures State() == StopSpec(old(State()))
    {
      ghost var s0 := State();
      RunAll();
      onStop := [];
      if socket.Some? {
        app.CloseSocket(socket.value);
        socket := None;
      }
      assert State() == StopSpec(s0);
      StopInv(s0);
    }

    /** `onStop.forEach(f => f())`: each teardown in order. */
    method RunAll()
      modifies app`listeners
      ensures app.listeners == RunTeardowns(old(app.listeners), onStop)
    {
      ghost var listeners0 := app.listeners;
      var i := 0;
      while i < |onStop|
        invariant 0 <= i <= |onStop|
        invariant app.listeners == RunTeardowns(listeners0, onStop[..i])
      {
        var t := onStop[i];
        app.Unlisten(t.key, t.listener);
        RunTeardownsSnoc(listeners0, onStop[..i], t);
        assert onStop[..i + 1] == onStop[..i] + [t];
        i := i + 1;
      }
      assert onStop[..|onStop|] == onStop;
    }

    /** The `send` closure of listener l, run by the host with `message`. */
    method Send(l: ListenerId, message: string)
      requires l in senders
      modifies app`sent
      ensures State() == SendSpec(old(State()), l, message)
    {
      var out := senders[l];
      var msg := Payload(message, out.delimiter);
      if socket.Some? {
        app.Transmit(socket.value, msg, out.port, out.address);
      }
    }
  }
}
