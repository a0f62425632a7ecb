/** One destination's options as the host hands them to the plugin, and the pure decisions
    taken from them: the address to send to, the line delimiter, the string a `send` hands
    to the socket and the events to listen to. */
module Config {
  import opened Listeners

  datatype Option<T> = None | Some(value: T)

  /** The JavaScript values a boolean option can hold once the host has parsed the stored
      configuration. */
  datatype JsValue = Undefined | Null | Bool(b: bool) | Num(n: int) | Str(s: string)

  /** ToBoolean of ECMA-262 (section 7.1.2) on the values above. */
  predicate Truthy(v: JsValue)
    ensures Truthy(v) <==> v !in {Undefined, Null, Bool(false), Num(0), Str("")}
  {
    match v
    case Undefined => false
    case Null => false
    case Bool(b) => b
    case Num(n) => n != 0
    case Str(s) => s != ""
  }

  /** `typeof v === 'undefined' || v`: the option is unset or holds a truthy value. */
  predicate Listens(v: JsValue)
    ensures Listens(v) <==> v !in {Null, Bool(false), Num(0), Str("")}
  {
    v.Undefined? || Truthy(v)
  }

  /** One destination. `additionalEvents` is `None` whenever the stored value is not an
      array (`Array.isArray` fails), present or not. */
  datatype DestinationConfig = DestinationConfig(
    ipaddress: Option<string>,
    broadcastAddress: Option<string>,
    port: int,
    lineDelimiter: Option<string>,
    nmea0183: JsValue,
    nmea0183out: JsValue,
    additionalEvents: Option<seq<string>>)

  /** A string option that is truthy: present and not empty. */
  predicate NonEmpty(v: Option<string>) {
    v.Some? && v.value != ""
  }

  /** The broadcast choice that means "no broadcast address selected". */
  const Unset := "-"

  /** `options.ipaddress || options.broadcastAddress`. */
  function ResolvedAddress(c: DestinationConfig): (r: Option<string>)
    ensures NonEmpty(r) <==> NonEmpty(c.ipaddress) || NonEmpty(c.broadcastAddress)
    ensures NonEmpty(c.ipaddress) ==> r == c.ipaddress
    ensures !NonEmpty(c.ipaddress) ==> r == c.broadcastAddress
  {
    if NonEmpty(c.ipaddress) then c.ipaddress else c.broadcastAddress
  }

  /** The address of an active destination, `None` when `address && address != '-'` fails.
      An `ipaddress` of "-" therefore disables the destination whatever the broadcast
      choice is. */
  function ActiveAddress(c: DestinationConfig): (r: Option<string>)
    ensures r.Some? ==> r.value != "" && r.value != Unset
    ensures NonEmpty(c.ipaddress) ==>
              r == if c.ipaddress.value == Unset then None else c.ipaddress
    ensures !NonEmpty(c.ipaddress) ==>
              r == if NonEmpty(c.broadcastAddress) && c.broadcastAddress.value != Unset
                   then c.broadcastAddress else None
  {
    var a := ResolvedAddress(c);
    if NonEmpty(a) && a.value != Unset then a else None
  }

  /** The `DELIMITERS` table. */
  const Delimiters: map<string, string> := map["None" := "", "CRLF" := "\r\n", "LF" := "\n"]

  /** `DELIMITERS[options.lineDelimiter || ''] || ''`: a missing entry and the empty entry of
      `None` both fall back to the empty string. */
  function Delimiter(name: Option<string>): (d: string)
    ensures d == "\n" <==> name == Some("LF")
    ensures d == "\r\n" <==> name == Some("CRLF")
    ensures d == "" || d == "\n" || d == "\r\n"
  {
    var key := if NonEmpty(name) then name.value else "";
    if key in Delimiters && Delimiters[key] != "" then Delimiters[key] else ""
  }

  /** `${message}${delimiter}`: the message unchanged, then the delimiter. */
  function Payload(message: string, delimiter: string): (p: string)
    ensures |p| == |message| + |delimiter|
    ensures p[..|message|] == message && p[|message|..] == delimiter
  {
    message + delimiter
  }

  /** `options.additionalEvents` when it is an array, otherwise nothing. */
  function Events(c: DestinationConfig): (es: seq<string>)
    ensures forall e :: e in es <==> c.additionalEvents.Some? && e in c.additionalEvents.value
    ensures c.additionalEvents.None? ==> es == []
  {
    if c.additionalEvents.Some? then c.additionalEvents.value else []
  }

  /** The registrations on `app` for a list of event names. */
  function AppKeys(es: seq<string>): (ks: seq<Key>)
    ensures |ks| == |es|
    ensures forall i :: 0 <= i < |es| ==> ks[i] == Key(Application, es[i])
  {
    seq(|es|, i requires 0 <= i < |es| => Key(Application, es[i]))
  }

  /** The two fixed registrations, those the flags switch on. */
  function FixedKeys(c: DestinationConfig): seq<Key> {
    (if Listens(c.nmea0183) then [Key(Signalk, "nmea0183")] else [])
    + (if Listens(c.nmea0183out) then [Key(Application, "nmea0183out")] else [])
  }

  /** Every (channel, event) an active destination subscribes its `send` to, in the order
      of the `on` calls. */
  function Registrations(c: DestinationConfig): (ks: seq<Key>)
    ensures |Events(c)| <= |ks| <= |Events(c)| + 2
  {
    FixedKeys(c) + AppKeys(Events(c))
  }

  /** The registrations come in source order: `nmea0183` when allowed, then `nmea0183out`
      when allowed, then the additional events in their array order. */
  lemma RegistrationsOrder(c: DestinationConfig)
    ensures var ks := Registrations(c);
      && |ks| == (if Listens(c.nmea0183) then 1 else 0)
                 + (if Listens(c.nmea0183out) then 1 else 0) + |Events(c)|
      && (Listens(c.nmea0183) ==> ks[0] == Key(Signalk, "nmea0183"))
      && (Listens(c.nmea0183out) ==>
            ks[if Listens(c.nmea0183) then 1 else 0] == Key(Application, "nmea0183out"))
      && (forall i :: 0 <= i < |Events(c)| ==>
            ks[|ks| - |Events(c)| + i] == Key(Application, Events(c)[i]))
  {
    var f, e := FixedKeys(c), AppKeys(Events(c));
    FixedKeysShape(c);
    assert Registrations(c) == f + e;
    assert forall i :: 0 <= i < |e| ==> (f + e)[|f| + i] == e[i];
    assert forall i :: 0 <= i < |f| ==> (f + e)[i] == f[i];
  }

  lemma FixedKeysShape(c: DestinationConfig)
    ensures var f := FixedKeys(c);
      && |f| == (if Listens(c.nmea0183) then 1 else 0) + (if Listens(c.nmea0183out) then 1 else 0)
      && (Listens(c.nmea0183) ==> f[0] == Key(Signalk, "nmea0183"))
      && (Listens(c.nmea0183out) ==> f[|f| - 1] == Key(Application, "nmea0183out"))
  {
  }

  /** On `app.signalk` a destination subscribes to `nmea0183` exactly when its flag allows
      it, and to nothing else. */
  lemma SignalkRegistration(c: DestinationConfig)
    ensures Key(Signalk, "nmea0183") in Registrations(c) <==> Listens(c.nmea0183)
    ensures forall k :: k in Registrations(c) && k.channel == Signalk ==> k.event == "nmea0183"
  {
    var extra := AppKeys(Events(c));
    assert Registrations(c) == FixedKeys(c) + extra;
    assert forall k :: k in extra ==> k.channel == Application;
  }

  /** On `app` a destination subscribes to `nmea0183out` when its flag allows it and to
      every additional event, and to nothing else. */
  lemma ApplicationRegistrations(c: DestinationConfig)
    ensures forall e :: Key(Application, e) in Registrations(c) <==>
              (e == "nmea0183out" && Listens(c.nmea0183out)) || e in Events(c)
  {
    var es := Events(c);
    var extra := AppKeys(es);
    assert Registrations(c) == FixedKeys(c) + extra;
    forall e ensures Key(Application, e) in extra <==> e in es {
      if e in es {
        var i :| 0 <= i < |es| && es[i] == e;
        assert extra[i] == Key(Application, e);
      }
    }
  }
}
