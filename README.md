# udp-nmea-plugin, modelled in Dafny

The Signal K plugin `udp-nmea-sender` forwards NMEA 0183 sentences from the server's event
bus to UDP destinations. Each destination has an address: an explicit IP address, or else a
broadcast address picked from the host's interfaces, where "-" means none. It also has a
port, a line delimiter and the events to forward. `start` subscribes one `send` function
per active destination to `nmea0183` on the Signal K emitter, to `nmea0183out` on the
application emitter and to any additional event names, and records one teardown per
subscription. `stop` runs the teardowns and closes the socket. The newer plugin
(`src/index.ts`) accepts a list of destinations, and it saves the older flat layout back as a
one-element list. The older one (`index.js`) handles a single destination.

The model:

- `Listeners`: the host's event emitters, as a map from (emitter, event name) to the array
  of listener identities. `on` appends; `removeListener` removes the last occurrence and
  deletes an array that becomes empty.
- `Config`: one destination's options and the pure decisions made from them. These are the
  active address, the delimiter, the string handed to `socket.send` and the ordered list of
  registrations.
  JavaScript truthiness follows section 7.1.2 of ECMA-262.
- `Lifecycle`: the whole plugin state as a value (`Sys`), with the specification functions
  `StartDestinationSpec`, `StopSpec` and `SendSpec`. Two classes mirror the code:
  - `App` is the host object. Its fields are the registry, the sockets, the log of
    `socket.send` calls, the status calls and the saved options.
  - `Relay` is the plugin object, with its shared closure variables `socket` and `onStop`.
    Its methods are proved against the specification functions.

  All destinations of one plugin share `socket`. So every `send` uses the socket opened
  last, and `stop` closes only that one. The model keeps this behaviour and proves its
  consequences.
- `MultiDestination`: the `start` of `src/index.ts`, covering both the list and the flat
  layout.
- `SingleDestination`: the `start` of `index.js`, and its delimiter lookup. Its `stop` is the
  same code as the newer one's (`index.js:56-63`) and is modelled by `Lifecycle.Relay.Stop`.
- `Interfaces`: `getBroadcastAddresses`. The interface table and the subnet broadcast
  computation are inputs. The two sources define the function identically
  (`index.js:115-130`).

## Model

| member | source | states |
|---|---|---|
| `Listeners.On` | src/index.ts:60 | `on` appends the listener to that event's array; no array is ever empty |
| `Listeners.GetOn` | src/index.ts:68 | `on` leaves every other event's array as it was |
| `Listeners.RemoveListener` | src/index.ts:63 | `removeListener` leaves that event's array one instance shorter when the listener is in it and unchanged when it is not; an array that becomes empty is dropped |
| `Listeners.GetRemoveListener` | src/index.ts:71 | `removeListener` leaves every other event's array as it was |
| `Listeners.RemoveLastSplices` | src/index.ts:63 | the removal cuts exactly the last occurrence out: what is before it and what is after it are kept in order |
| `Listeners.RegisterAll` | src/index.ts:58-81 | subscribing one listener under a list of keys, one `on` after another, leaves no listener array empty |
| `Listeners.Teardowns` | src/index.ts:61-79 | one `onStop` closure per registration, in the order of the registrations, each removing listener l under that registration's key |
| `Listeners.GetRegisterAll` | src/index.ts:58-81 | subscribing one listener under a list of keys appends it to each key's array once per occurrence of that key in the list |
| `Listeners.RunTeardowns` | src/index.ts:101 | running the teardowns, one `removeListener` after another, leaves no listener array empty |
| `Listeners.GetRunTeardowns` | src/index.ts:101 | running the teardowns in order removes, under each key, the listeners of that key's teardowns one after another |
| `Listeners.RegisterThenTeardown` | src/index.ts:58-81 | teardowns of earlier subscriptions, followed by the teardowns of a fresh listener's subscriptions, leave the registry exactly as the earlier teardowns alone would |
| `Config.ActiveAddress` | src/index.ts:46-47 | the explicit IP address wins when it is non-empty; either way an empty or "-" address makes the destination inactive; an active address is neither empty nor "-" |
| `Config.Delimiter` | src/index.ts:53 | the delimiter is "\n" exactly for "LF", "\r\n" exactly for "CRLF", otherwise empty |
| `Config.Payload` | src/index.ts:55 | the string handed to `socket.send` is the message unchanged followed by the delimiter |
| `Config.Truthy` | src/index.ts:58 | a value is truthy unless it is undefined, null, false, 0 or the empty string |
| `Config.Listens` | src/index.ts:58 | `typeof v === 'undefined' \|\| v` fails exactly for null, false, 0 and the empty string |
| `Config.ResolvedAddress` | src/index.ts:46 | a non-empty `ipaddress` is taken, otherwise `broadcastAddress`; the result is non-empty exactly when one of the two is |
| `Config.Events` | src/index.ts:74 | the additional events are the same events as the array option's, and none when it is not an array (their order and repeats are given by the definition, which returns the array itself) |
| `Config.Registrations` | src/index.ts:58-81 | a destination makes one subscription per additional event and at most two more |
| `Config.RegistrationsOrder` | src/index.ts:58-81 | the subscriptions come in source order: `nmea0183` first when allowed, then `nmea0183out` when allowed, then every additional event in its array order |
| `Config.SignalkRegistration` | src/index.ts:58-65 | on the Signal K emitter a destination listens to `nmea0183` exactly when its flag is unset or truthy, and to nothing else |
| `Config.ApplicationRegistrations` | src/index.ts:66-81 | on the application emitter it listens exactly to `nmea0183out` when allowed and to the additional events when they form an array |
| `Lifecycle.StatusFor` | src/index.ts:82-85 | a destination reports an error, "No address specified", exactly when it has no active address, and otherwise "Using address" with that address |
| `Lifecycle.StartDestinationSpec` | src/index.ts:44-86 | one start reports exactly one status, the one its address gives; it sends and saves nothing |
| `Lifecycle.StartDestinationInv` | src/index.ts:44-86 | a start keeps the invariant: listener arrays stay non-empty, every registered listener, teardown and `send` belongs to an identity already handed out, and the shared socket is open |
| `Lifecycle.FreshIdentity` | src/index.ts:54 | in every reachable state the next identity of the supply is a new function object: no listener array holds it, no teardown names it and no `send` closure has it |
| `Lifecycle.InactiveDestination` | src/index.ts:83-85 | an inactive destination opens no socket, subscribes nothing, pushes no teardown and reports "No address specified" |
| `Lifecycle.ActiveDestination` | src/index.ts:47-82 | an active destination opens a new socket and makes it the shared one. It reports "Using address …" and adds its `send` under an identity no earlier closure has |
| `Lifecycle.ActiveDestinationTeardowns` | src/index.ts:58-81 | the teardowns it pushes come behind the earlier ones, one per registration, in order |
| `Lifecycle.ActiveDestinationListeners` | src/index.ts:58-81 | every event's array gains the new listener once per registration of that event; other events keep their arrays |
| `Lifecycle.Close` | src/index.ts:104 | closing a socket marks that one closed and leaves every other socket as it was |
| `Lifecycle.StopSpec` | src/index.ts:100-107 | stop empties `onStop` and unsets the socket. It sends, reports and saves nothing, and keeps the `send` closures. It closes the shared socket and leaves every other socket as it was. On a stopped plugin it changes nothing |
| `Lifecycle.StopInv` | src/index.ts:100-107 | stop keeps the invariant |
| `Lifecycle.StopIdempotent` | src/index.ts:100-107 | a second stop changes nothing |
| `Lifecycle.SendSpec` | src/index.ts:54-57 | a `send` changes nothing but the log of `socket.send` calls, and sends nothing when no socket is set |
| `Lifecycle.SendAfterStart` | src/index.ts:48-57 | right after a start, that destination's `send` makes one `socket.send` call on the new socket with the message plus its delimiter, to its port and address |
| `Lifecycle.StartDestinationThenStop` | src/index.ts:44-107 | start then stop leaves the listener arrays as stop alone would |
| `Lifecycle.StartDestinationSockets` | src/index.ts:47-48 | only an active destination opens a socket, and that socket becomes the shared one |
| `Lifecycle.StartDestinationSenders` | src/index.ts:53-57 | earlier `send` closures are kept unchanged; an active destination adds its own with its address, port and delimiter |
| `Lifecycle.StartAll` | src/index.ts:90 | starting destinations in turn sends and saves nothing |
| `Lifecycle.StartAllInv` | src/index.ts:90 | starting destinations in turn keeps the invariant |
| `Lifecycle.StartAllStatuses` | src/index.ts:82-90 | each destination reports exactly one status, in the order of the destinations |
| `Lifecycle.StartAllSockets` | src/index.ts:39-48 | each active destination opens one socket and none is closed. The shared socket is the one opened last, or the earlier one when no destination is active |
| `Lifecycle.StartAllThenStop` | src/index.ts:88-107 | starting several destinations and then stopping leaves the listener arrays as stopping alone would |
| `Lifecycle.StartAllThenStopKeepsEarlierSockets` | index.js:14-62 | from a stopped plugin, repeated starts followed by one stop restore every listener array. Stop closes the socket opened last only; the other new sockets stay open |
| `Lifecycle.App.Listen` | src/index.ts:60 | `on` replaces the registry by `Listeners.On` of the old one |
| `Lifecycle.App.Unlisten` | src/index.ts:63 | `removeListener` replaces the registry by `Listeners.RemoveListener` of the old one |
| `Lifecycle.App.CreateSocket` | src/index.ts:48 | `dgram.createSocket` adds one open socket and returns its position |
| `Lifecycle.App.CloseSocket` | src/index.ts:104 | `socket.close` replaces the sockets by `Close` of the old ones |
| `Lifecycle.App.Transmit` | src/index.ts:56 | `socket.send` appends one entry to the log: socket, string, port and address |
| `Lifecycle.App.SetStatus` | src/index.ts:82 | `setPluginStatus` appends one `Ok` status |
| `Lifecycle.App.SetError` | src/index.ts:84 | `setPluginError` appends one `Error` status |
| `Lifecycle.App.SavePluginOptions` | src/index.ts:92 | `savePluginOptions` appends one saved list of destinations |
| `Lifecycle.App.NewClosure` | src/index.ts:54 | creating the `send` arrow function hands out the next identity of the supply and advances it; `Lifecycle.FreshIdentity` shows that identity is new under the invariant |
| `Lifecycle.Relay.constructor` | src/index.ts:38-40 | a new plugin has no socket, no teardowns and no `send` closures; it starts in the invariant when the host's arrays are non-empty and hold only identities already handed out |
| `Lifecycle.Relay.Subscribe` | src/index.ts:58-81 | `on` followed by pushing the matching teardown |
| `Lifecycle.Relay.SubscribeAll` | src/index.ts:58-81 | the three subscription blocks register `send` under exactly the keys of `Config.Registrations`, in order, and push their teardowns in the same order |
| `Lifecycle.Relay.SubscribeEvents` | src/index.ts:74-81 | the `forEach` subscribes each additional event in order and pushes its teardown |
| `Lifecycle.Relay.StartDestination` | src/index.ts:44-86 | the method's new state is `StartDestinationSpec` of the old one, and the invariant is kept |
| `Lifecycle.Relay.Stop` | src/index.ts:100-107 | the new state is `StopSpec` of the old one, and the invariant is kept |
| `Lifecycle.Relay.RunAll` | src/index.ts:101 | the loop runs the teardowns in order: the registry becomes `RunTeardowns` of the old one |
| `Lifecycle.Relay.Send` | src/index.ts:54-57 | the new state is `SendSpec` of the old one |
| `MultiDestination.IsDestinationConfigs` | src/index.ts:32-36 | the definition of the test `destinations !== undefined`; what the dispatch on it does is stated by `MultiDestination.StartReportsEachDestination` |
| `MultiDestination.StartSpec` | src/index.ts:88-99 | `start` sends nothing; the dispatch is the definition, and `MultiDestination.StartReportsEachDestination` states its effect |
| `MultiDestination.StartInv` | src/index.ts:88-99 | `start` keeps the invariant for both layouts |
| `MultiDestination.StartReportsEachDestination` | src/index.ts:88-99 | a list starts every destination, one status each in list order, and saves nothing. Flat options are saved once as a one-element list and report one status |
| `MultiDestination.StartThenStopRestoresListeners` | src/index.ts:88-107 | from a stopped plugin, `start` then `stop` restores every listener array, for both layouts |
| `MultiDestination.StartTwoActive` | src/index.ts:47-57 | two active destinations started in turn open two sockets, the second one shared, and the first one's `send` is kept |
| `MultiDestination.SharedSocket` | src/index.ts:44-107 | with two active destinations, the first one's `send` keeps its own payload, port and address but goes out on the second one's socket. `stop` closes the second socket and leaves the first open |
| `MultiDestination.Start` | src/index.ts:88-99 | the loop starts each destination in turn (new state `StartSpec` of the old one). In the flat case the save comes before the start |
| `SingleDestination.JsDelimiter` | index.js:28 | the older lookup yields one of the three delimiters |
| `SingleDestination.DelimitersAgree` | index.js:28 | the older lookup chooses the same delimiter as the newer one for every value, the missing option included |
| `SingleDestination.Start` | index.js:19-55 | the older `start` is one `startDestination` on the options |
| `SingleDestination.StartIsFlatStartWithoutSave` | index.js:19-55 | on flat options the older `start` does what the newer one does, except that it saves nothing |
| `Interfaces.Dedup` | src/index.ts:181 | the result has no repetitions and holds exactly the input's members |
| `Interfaces.DedupOrder` | src/index.ts:181 | the members come out in the order of their first occurrence |
| `Interfaces.Eligible` | src/index.ts:173 | the definition of the test `family === 'IPv4' && !internal`; that an address contributes exactly when it passes is stated by `Interfaces.CandidatesOfMember` |
| `Interfaces.Candidates` | src/index.ts:171-180 | the walk collects at most one broadcast address per address entry of the table |
| `Interfaces.CandidatesOfMember` | src/index.ts:172-179 | an address's broadcast address is collected exactly when the address is IPv4 and not internal |
| `Interfaces.CandidatesMember` | src/index.ts:171-180 | a broadcast address is collected exactly when some eligible address of some interface produces it |
| `Interfaces.GetBroadcastAddresses` | src/index.ts:168-183 | the nested walk returns the collected addresses without repetitions, in first-occurrence order. They are exactly those of the eligible addresses |
| `Interfaces.SubnetBroadcast` | src/index.ts:174-177 | the idealised broadcast keeps the network bits of the address and sets every host bit (section 7 of RFC 922) |
| `Interfaces.SubnetBroadcastExample` | src/index.ts:174-177 | 192.168.1.5/24 and 192.168.1.9/24 both broadcast on 192.168.1.255 |

## Left out

- UDP I/O (`dgram.createSocket`, `bind`, `setBroadcast`, `send`, `close`): a socket is an identity with an open flag, and a send is an entry in a log of `socket.send` calls. The bind argument is not modelled. That covers `bind(Number(address))` in `src/index.ts`, `bind(address)` in `index.js` and the callback that runs later.
- `Number(options.port)`: the port is modelled as the integer `Number(options.port)` yields; `index.js` passes the option as it is. Ports that are missing, non-numeric, fractional or outside 1-65535 are not modelled: for them `socket.send` throws inside the event dispatch, while `Lifecycle.SendSpec` logs a call for every integer port.
- `os.networkInterfaces()`: taken as an input sequence in `Object.keys` order.
- `Netmask`: the broadcast computation is a function parameter of `GetBroadcastAddresses`. The idealised `SubnetBroadcast` stands beside it. Netmask's rules for /31 and /32 blocks and its parsing of address strings are not modelled.
- The callback of `savePluginOptions` and the error status it may report: that error arrives asynchronously from the host.
- `schema()`, `app.debug`, `pkgData`, and the `setPluginStatus || setProviderStatus` fallback of `index.js`: configuration metadata and logging, with no effect on the modelled state.
- Event dispatch by the emitters: the model covers which listeners are registered, not their invocation order or the arguments of calls the host makes. In particular the emitters' own `newListener` and `removeListener` events are not modelled. An additional event named "newListener" makes every later `app.on` call invoke `send` (src/index.ts:77), so `start` would send. One named "removeListener" makes the teardowns of `stop` send before the socket is closed (src/index.ts:101-104). `Lifecycle.StartDestinationSpec`, `Lifecycle.StartAll` and `Lifecycle.StopSpec` state that nothing is sent, which holds only without such event names.
- Lookups of `DELIMITERS` by inherited property names such as "toString": the table is modelled as a plain map of its three entries.
- A `destinations` value that is defined but not an array: `forEach` would throw, and the model's options hold either a list or nothing.
- `Lifecycle.SendSpec`: a `send` run after `stop`, with the socket unset, throws in the source. The model sends nothing and changes nothing instead.
- Boolean options holding NaN, non-integer numbers or objects: `JsValue` covers undefined, null, booleans, integers and strings.
- Interfaces with a numeric `family` (some Node versions report 4): only the string "IPv4" is eligible, as in the code.
- The bytes on the wire: the log holds the string `msg` handed to `socket.send`, not its UTF-8 encoding. Node sends `msg.length` bytes, which counts UTF-16 code units, so a message with non-ASCII characters is cut short on the wire and loses its delimiter first. The messages are modelled as strings, so the conversion that `${message}` applies to non-string payloads is not modelled either.
