/** The host's two event emitters (`app.signalk` and `app`), reduced to what the relay
    touches: which listener functions are registered under which event name, in order.
    A Node.js emitter appends on `on`, removes the most recently added instance on
    `removeListener`, and drops an event's entry once its listener array is empty. */
module Listeners {

  /** `app.signalk` carries the `nmea0183` sentences, `app` itself everything else. */
  datatype Channel = Signalk | Application

  datatype Key = Key(channel: Channel, event: string)

  /** A listener is a function object; only its identity matters. */
  type ListenerId = nat

  /** The listener arrays of both emitters, keyed by channel and event name. */
  type Registry = map<Key, seq<ListenerId>>

  /** What one `onStop` closure does: `removeListener(event, send)` on one channel. */
  datatype Teardown = Teardown(key: Key, listener: ListenerId)

  /** An emitter never keeps an empty listener array. */
  predicate WellFormed(r: Registry) {
    forall k :: k in r ==> r[k] != []
  }

  function Get(r: Registry, k: Key): seq<ListenerId> {
    if k in r then r[k] else []
  }

  /** `emitter.on(event, l)`. */
  function On(r: Registry, k: Key, l: ListenerId): (r': Registry)
    ensures WellFormed(r) ==> WellFormed(r')
    ensures Get(r', k) == Get(r, k) + [l]
  {
    r[k := Get(r, k) + [l]]
  }

  /** `on` leaves the arrays of every other event as they were. */
  lemma GetOn(r: Registry, k: Key, l: ListenerId, k': Key)
    ensures Get(On(r, k, l), k') == if k' == k then Get(r, k) + [l] else Get(r, k')
  {
  }

  /** Position of the most recently added instance of x. */
  function LastIndex(s: seq<ListenerId>, x: ListenerId): (i: nat)
    requires x in s
    ensures i < |s| && s[i] == x && x !in s[i + 1..]
  {
    if s[|s| - 1] == x then |s| - 1
    else
      var p := s[..|s| - 1];
      assert x in p by { var j :| 0 <= j < |s| && s[j] == x; assert j < |s| - 1 && p[j] == x; }
      var i := LastIndex(p, x);
      assert s[i + 1..] == p[i + 1..] + [s[|s| - 1]];
      i
  }

  /** The listener array after `removeListener(event, x)`: the array is searched from its
      end and at most one instance is spliced out. */
  function RemoveLast(s: seq<ListenerId>, x: ListenerId): (t: seq<ListenerId>)
    ensures x !in s ==> t == s
    ensures |t| == if x in s then |s| - 1 else |s|
  {
    if s == [] then []
    else if s[|s| - 1] == x then
      s[..|s| - 1]
    else
      var p := s[..|s| - 1];
      assert s == p + [s[|s| - 1]];
      RemoveLast(p, x) + [s[|s| - 1]]
  }

  /** Removing the listener added last. */
  lemma RemoveLastSnoc(p: seq<ListenerId>, x: ListenerId)
    ensures RemoveLast(p + [x], x) == p
  {
    assert (p + [x])[..|p|] == p;
  }

  /** Removing a listener other than the one added last. */
  lemma RemoveLastSnocOther(p: seq<ListenerId>, y: ListenerId, x: ListenerId)
    requires y != x
    ensures RemoveLast(p + [y], x) == RemoveLast(p, x) + [y]
  {
    assert (p + [y])[..|p|] == p;
  }

  /** RemoveLast splices out exactly the instance LastIndex finds. */
  lemma {:induction false} RemoveLastSplices(s: seq<ListenerId>, x: ListenerId)
    requires x in s
    ensures RemoveLast(s, x) == s[..LastIndex(s, x)] + s[LastIndex(s, x) + 1..]
  {
    var p := s[..|s| - 1];
    var y := s[|s| - 1];
    assert s == p + [y];
    if y == x {
      RemoveLastSnoc(p, x);
      assert s[|s|..] == [];
    } else {
      assert x in p;
      RemoveLastSplices(p, x);
      RemoveLastSnocOther(p, y, x);
      var i := LastIndex(p, x);
      assert LastIndex(s, x) == i;
      assert s[..i] == p[..i];
      assert s[i + 1..] == p[i + 1..] + [y] by {
        assert i < |p|;
        assert forall m :: i + 1 <= m < |p| ==> s[m] == p[m];
      }
    }
  }

  /** `emitter.removeListener(event, l)`; the entry goes away with its last listener. */
  function RemoveListener(r: Registry, k: Key, l: ListenerId): (r': Registry)
    ensures WellFormed(r) ==> WellFormed(r')
    ensures Get(r', k) == RemoveLast(Get(r, k), l)
  {
    var rest := RemoveLast(Get(r, k), l);
    if rest == [] then r - {k} else r[k := rest]
  }

  /** `removeListener` leaves the arrays of every other event as they were. */
  lemma GetRemoveListener(r: Registry, k: Key, l: ListenerId, k': Key)
    ensures Get(RemoveListener(r, k, l), k') == if k' == k then RemoveLast(Get(r, k), l) else Get(r, k')
  {
  }

  /** n copies of one listener. */
  function Rep(l: ListenerId, n: nat): seq<ListenerId> {
    seq(n, _ => l)
  }

  lemma RepGrows(l: ListenerId, n: nat)
    ensures Rep(l, n) + [l] == Rep(l, n + 1)
  {
  }

  /** Registering one listener under each key of ks, in order. */
  function RegisterAll(r: Registry, ks: seq<Key>, l: ListenerId): (r': Registry)
    ensures WellFormed(r) ==> WellFormed(r')
  {
    if ks == [] then r else On(RegisterAll(r, ks[..|ks| - 1], l), ks[|ks| - 1], l)
  }

  /** Each key ends up with l appended once per occurrence of the key in ks. */
  lemma {:induction false} GetRegisterAll(r: Registry, ks: seq<Key>, l: ListenerId, k: Key)
    ensures Get(RegisterAll(r, ks, l), k) == Get(r, k) + Rep(l, multiset(ks)[k])
    decreases |ks|
  {
    if ks == [] {
      assert Get(r, k) + Rep(l, 0) == Get(r, k);
    } else {
      var p := ks[..|ks| - 1];
      var last := ks[|ks| - 1];
      var q := RegisterAll(r, p, l);
      assert ks == p + [last];
      assert multiset(ks) == multiset(p) + multiset{last};
      assert RegisterAll(r, ks, l) == On(q, last, l);
      GetRegisterAll(r, p, l, k);
      RepGrows(l, multiset(p)[k]);
      if last == k {
        assert multiset(ks)[k] == multiset(p)[k] + 1;
        assert Get(On(q, last, l), k) == Get(q, k) + [l];
      } else {
        assert multiset(ks)[k] == multiset(p)[k];
        GetOn(q, last, l, k);
      }
    }
  }

  lemma RegisterAllSnoc(r: Registry, ks: seq<Key>, k: Key, l: ListenerId)
    ensures RegisterAll(r, ks + [k], l) == On(RegisterAll(r, ks, l), k, l)
  {
    assert (ks + [k])[..|ks|] == ks;
  }

  lemma {:induction false} RegisterAllConcat(r: Registry, a: seq<Key>, b: seq<Key>, l: ListenerId)
    ensures RegisterAll(r, a + b, l) == RegisterAll(RegisterAll(r, a, l), b, l)
    decreases |b|
  {
    if b == [] {
      assert a + b == a;
    } else {
      var p := b[..|b| - 1];
      assert (a + b)[..|a + b| - 1] == a + p;
      assert (a + b)[|a + b| - 1] == b[|b| - 1];
      RegisterAllConcat(r, a, p, l);
    }
  }

  /** The `onStop` closures pushed for the registrations ks of listener l. */
  function Teardowns(ks: seq<Key>, l: ListenerId): (ts: seq<Teardown>)
    ensures |ts| == |ks|
    ensures forall i :: 0 <= i < |ks| ==> ts[i] == Teardown(ks[i], l)
  {
    seq(|ks|, i requires 0 <= i < |ks| => Teardown(ks[i], l))
  }

  /** Teardowns pushed behind earlier ones: the earlier ones stay in front, then one per key,
      in order. */
  lemma TeardownsAfter(earlier: seq<Teardown>, ks: seq<Key>, l: ListenerId)
    ensures var ts := earlier + Teardowns(ks, l);
      && |ts| == |earlier| + |ks| && ts[..|earlier|] == earlier
      && (forall i :: 0 <= i < |ks| ==> ts[|earlier| + i] == Teardown(ks[i], l))
  {
    var ts := earlier + Teardowns(ks, l);
    assert ts[..|earlier|] == earlier;
  }

  lemma TeardownsSnoc(ks: seq<Key>, k: Key, l: ListenerId)
    ensures Teardowns(ks + [k], l) == Teardowns(ks, l) + [Teardown(k, l)]
  {
  }

  lemma TeardownsConcat(a: seq<Key>, b: seq<Key>, l: ListenerId)
    ensures Teardowns(a + b, l) == Teardowns(a, l) + Teardowns(b, l)
  {
  }

  /** The listener arrays left by `removeListener` over `ts` in order. */
  function Drop(s: seq<ListenerId>, ids: seq<ListenerId>): seq<ListenerId> {
    if ids == [] then s else RemoveLast(Drop(s, ids[..|ids| - 1]), ids[|ids| - 1])
  }

  /** The listeners that the teardowns ts remove from key k, in order. */
  function IdsAt(ts: seq<Teardown>, k: Key): seq<ListenerId> {
    if ts == [] then []
    else
      var t := ts[|ts| - 1];
      IdsAt(ts[..|ts| - 1], k) + (if t.key == k then [t.listener] else [])
  }

  /** `onStop.forEach(f => f())`. */
  function RunTeardowns(r: Registry, ts: seq<Teardown>): (r': Registry)
    ensures WellFormed(r) ==> WellFormed(r')
  {
    if ts == [] then r
    else
      var t := ts[|ts| - 1];
      RemoveListener(RunTeardowns(r, ts[..|ts| - 1]), t.key, t.listener)
  }

  /** What the teardowns leave under one key: its array with their listeners for that key
      removed one by one. */
  lemma {:induction false} GetRunTeardowns(r: Registry, ts: seq<Teardown>, k: Key)
    ensures Get(RunTeardowns(r, ts), k) == Drop(Get(r, k), IdsAt(ts, k))
    decreases |ts|
  {
    if ts != [] {
      var p := ts[..|ts| - 1];
      var t := ts[|ts| - 1];
      var q := RunTeardowns(r, p);
      assert RunTeardowns(r, ts) == RemoveListener(q, t.key, t.listener);
      GetRunTeardowns(r, p, k);
      if t.key == k {
        var ids := IdsAt(p, k) + [t.listener];
        assert IdsAt(ts, k) == ids;
        assert ids[..|ids| - 1] == IdsAt(p, k);
        assert Drop(Get(r, k), ids) == RemoveLast(Drop(Get(r, k), IdsAt(p, k)), t.listener);
        assert Get(RemoveListener(q, t.key, t.listener), k) == RemoveLast(Get(q, k), t.listener);
      } else {
        assert IdsAt(ts, k) == IdsAt(p, k) + [];
        assert IdsAt(p, k) + [] == IdsAt(p, k);
        GetRemoveListener(q, t.key, t.listener, k);
      }
    }
  }

  lemma RunTeardownsSnoc(r: Registry, ts: seq<Teardown>, t: Teardown)
    ensures RunTeardowns(r, ts + [t]) == RemoveListener(RunTeardowns(r, ts), t.key, t.listener)
  {
    assert (ts + [t])[..|ts|] == ts;
  }

  /** Two registries without empty arrays are equal when every key has the same array. */
  lemma {:induction false} RegistryExt(a: Registry, b: Registry)
    requires WellFormed(a) && WellFormed(b)
    requires forall k :: Get(a, k) == Get(b, k)
    ensures a == b
  {
    assert forall k :: k in a <==> Get(a, k) != [];
    assert forall k :: k in b <==> Get(b, k) != [];
    assert a.Keys == b.Keys;
    forall k | k in a ensures a[k] == b[k] {
      assert Get(a, k) == Get(b, k);
    }
  }

  lemma {:induction false} IdsAtConcat(a: seq<Teardown>, b: seq<Teardown>, k: Key)
    ensures IdsAt(a + b, k) == IdsAt(a, k) + IdsAt(b, k)
    decreases |b|
  {
    if b == [] {
      assert a + b == a;
    } else {
      var p := b[..|b| - 1];
      assert (a + b)[..|a + b| - 1] == a + p;
      IdsAtConcat(a, p, k);
    }
  }

  lemma {:induction false} IdsAtTeardowns(ks: seq<Key>, l: ListenerId, k: Key)
    ensures IdsAt(Teardowns(ks, l), k) == Rep(l, multiset(ks)[k])
    decreases |ks|
  {
    if ks != [] {
      var p := ks[..|ks| - 1];
      assert ks == p + [ks[|ks| - 1]];
      assert Teardowns(ks, l)[..|ks| - 1] == Teardowns(p, l);
      IdsAtTeardowns(p, l, k);
      RepGrows(l, multiset(p)[k]);
    }
  }

  lemma {:induction false} IdsAtAvoids(ts: seq<Teardown>, k: Key, l: ListenerId)
    requires forall t :: t in ts ==> t.listener != l
    ensures l !in IdsAt(ts, k)
    decreases |ts|
  {
    if ts != [] {
      var p := ts[..|ts| - 1];
      assert forall t :: t in p ==> t in ts;
      IdsAtAvoids(p, k, l);
    }
  }

  /** Removing some other listener does not touch a run of l at the end of the array. */
  lemma {:induction false} RemoveLastBeforeRun(y: seq<ListenerId>, x: ListenerId, n: nat, i: ListenerId)
    requires i != x
    ensures RemoveLast(y + Rep(x, n), i) == RemoveLast(y, i) + Rep(x, n)
  {
    if n == 0 {
      assert y + Rep(x, 0) == y;
      assert RemoveLast(y, i) + Rep(x, 0) == RemoveLast(y, i);
    } else {
      RepGrows(x, n - 1);
      var z := y + Rep(x, n - 1);
      assert y + Rep(x, n) == z + [x];
      assert (z + [x])[..|z|] == z;
      RemoveLastBeforeRun(y, x, n - 1, i);
      assert RemoveLast(y, i) + Rep(x, n) == (RemoveLast(y, i) + Rep(x, n - 1)) + [x];
    }
  }

  lemma {:induction false} DropBeforeRun(y: seq<ListenerId>, x: ListenerId, n: nat, ids: seq<ListenerId>)
    requires x !in ids
    ensures Drop(y + Rep(x, n), ids) == Drop(y, ids) + Rep(x, n)
    decreases |ids|
  {
    if ids != [] {
      var p := ids[..|ids| - 1];
      assert x !in p by { assert forall j :: 0 <= j < |p| ==> p[j] == ids[j]; }
      DropBeforeRun(y, x, n, p);
      RemoveLastBeforeRun(Drop(y, p), x, n, ids[|ids| - 1]);
    }
  }

  lemma {:induction false} DropConcat(s: seq<ListenerId>, a: seq<ListenerId>, b: seq<ListenerId>)
    ensures Drop(s, a + b) == Drop(Drop(s, a), b)
    decreases |b|
  {
    if b == [] {
      assert a + b == a;
    } else {
      var p := b[..|b| - 1];
      assert (a + b)[..|a + b| - 1] == a + p;
      assert (a + b)[|a + b| - 1] == b[|b| - 1];
      DropConcat(s, a, p);
    }
  }

  /** Removing l j times strips j copies from a trailing run of l. */
  lemma {:induction false} DropRun(y: seq<ListenerId>, x: ListenerId, n: nat, j: nat)
    requires j <= n
    ensures Drop(y + Rep(x, n), Rep(x, j)) == y + Rep(x, n - j)
  {
    if j > 0 {
      assert Rep(x, j)[..j - 1] == Rep(x, j - 1);
      assert Drop(y + Rep(x, n), Rep(x, j)) == RemoveLast(Drop(y + Rep(x, n), Rep(x, j - 1)), x);
      DropRun(y, x, n, j - 1);
      RepGrows(x, n - j);
      var z := y + Rep(x, n - j);
      assert y + Rep(x, n - j + 1) == z + [x];
      RemoveLastSnoc(z, x);
    }
  }

  /** The registry half of "start then stop": registering l under ks and afterwards running
      some earlier teardowns (none of them for l) followed by the teardowns of ks leaves the
      registry as running the earlier teardowns alone leaves it. */
  lemma {:induction false} RegisterThenTeardown(r: Registry, earlier: seq<Teardown>, ks: seq<Key>, l: ListenerId)
    requires WellFormed(r)
    requires forall t :: t in earlier ==> t.listener != l
    ensures RunTeardowns(RegisterAll(r, ks, l), earlier + Teardowns(ks, l)) == RunTeardowns(r, earlier)
  {
    var lhs := RunTeardowns(RegisterAll(r, ks, l), earlier + Teardowns(ks, l));
    var rhs := RunTeardowns(r, earlier);
    forall k ensures Get(lhs, k) == Get(rhs, k) {
      var n := multiset(ks)[k];
      var before := IdsAt(earlier, k);
      IdsAtConcat(earlier, Teardowns(ks, l), k);
      IdsAtTeardowns(ks, l, k);
      IdsAtAvoids(earlier, k, l);
      GetRunTeardowns(RegisterAll(r, ks, l), earlier + Teardowns(ks, l), k);
      GetRegisterAll(r, ks, l, k);
      GetRunTeardowns(r, earlier, k);
      assert Get(lhs, k) == Drop(Get(r, k) + Rep(l, n), before + Rep(l, n));
      DropConcat(Get(r, k) + Rep(l, n), before, Rep(l, n));
      DropBeforeRun(Get(r, k), l, n, before);
      DropRun(Drop(Get(r, k), before), l, n, n);
      assert Drop(Get(r, k), before) + Rep(l, 0) == Drop(Get(r, k), before);
    }
    RegistryExt(lhs, rhs);
  }

  /** Every registered identity is below n: the function objects handed out so far. */
  predicate IdsBelow(r: Registry, n: ListenerId) {
    forall k, x :: k in r && x in r[k] ==> x < n
  }

  /** `on` with an identity below n keeps every registered identity below n. */
  lemma OnBelow(r: Registry, k: Key, l: ListenerId, n: ListenerId)
    requires IdsBelow(r, n) && l < n
    ensures IdsBelow(On(r, k, l), n)
  {
    forall k', x | k' in On(r, k, l) && x in On(r, k, l)[k'] ensures x < n {
      if k' != k {
        assert On(r, k, l)[k'] == r[k'];
      } else {
        assert x in Get(r, k) || x == l;
      }
    }
  }

  lemma {:induction false} RegisterAllBelow(r: Registry, ks: seq<Key>, l: ListenerId, n: ListenerId)
    requires IdsBelow(r, n) && l < n
    ensures IdsBelow(RegisterAll(r, ks, l), n)
    decreases |ks|
  {
    if ks != [] {
      RegisterAllBelow(r, ks[..|ks| - 1], l, n);
      OnBelow(RegisterAll(r, ks[..|ks| - 1], l), ks[|ks| - 1], l, n);
    }
  }

  /** Removing a listener adds no identity to the array. */
  lemma {:induction false} RemoveLastSubset(s: seq<ListenerId>, x: ListenerId, y: ListenerId)
    requires y in RemoveLast(s, x)
    ensures y in s
    decreases |s|
  {
    if s[|s| - 1] != x {
      var p := s[..|s| - 1];
      assert s == p + [s[|s| - 1]];
      if y != s[|s| - 1] {
        RemoveLastSubset(p, x, y);
      }
    }
  }

  lemma RemoveListenerBelow(r: Registry, k: Key, l: ListenerId, n: ListenerId)
    requires IdsBelow(r, n)
    ensures IdsBelow(RemoveListener(r, k, l), n)
  {
    var r' := RemoveListener(r, k, l);
    forall k', x | k' in r' && x in r'[k'] ensures x < n {
      if k' == k {
        assert x in RemoveLast(Get(r, k), l);
        RemoveLastSubset(Get(r, k), l, x);
      } else {
        assert r'[k'] == r[k'];
      }
    }
  }

  /** `removeListener` never registers anything, so the teardowns keep identities below n. */
  lemma {:induction false} RunTeardownsBelow(r: Registry, ts: seq<Teardown>, n: ListenerId)
    requires IdsBelow(r, n)
    ensures IdsBelow(RunTeardowns(r, ts), n)
    decreases |ts|
  {
    if ts != [] {
      var t := ts[|ts| - 1];
      RunTeardownsBelow(r, ts[..|ts| - 1], n);
      RemoveListenerBelow(RunTeardowns(r, ts[..|ts| - 1]), t.key, t.listener, n);
    }
  }
}
