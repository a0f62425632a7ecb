/** `getBroadcastAddresses()`: the broadcast address of every external IPv4 address of the
    host, without repetitions, in the order they are first found. The interface table is an
    input, and so is the computation of a subnet's broadcast address. */
module Interfaces {

  /** One entry of an interface's address list. */
  datatype AddressInfo = AddressInfo(address: string, netmask: string, family: string, internal: bool)

  /** One interface, in the order the interface table lists its names. */
  datatype Interface = Interface(name: string, addresses: seq<AddressInfo>)

  /** `addressInfo.family === 'IPv4' && !addressInfo.internal`. */
  predicate Eligible(a: AddressInfo) {
    a.family == "IPv4" && !a.internal
  }

  /** The broadcast addresses one interface contributes, in the order of its addresses. */
  function CandidatesOf(infos: seq<AddressInfo>, broadcastOf: AddressInfo -> string): (r: seq<string>)
    ensures |r| <= |infos|
    decreases |infos|
  {
    if infos == [] then []
    else
      var a := infos[|infos| - 1];
      CandidatesOf(infos[..|infos| - 1], broadcastOf) + (if Eligible(a) then [broadcastOf(a)] else [])
  }

  /** How many address entries the interface table lists. */
  function AddressCount(ifaces: seq<Interface>): nat
    decreases |ifaces|
  {
    if ifaces == [] then 0 else AddressCount(ifaces[..|ifaces| - 1]) + |ifaces[|ifaces| - 1].addresses|
  }

  /** `result` once every interface has been walked. */
  function Candidates(ifaces: seq<Interface>, broadcastOf: AddressInfo -> string): (r: seq<string>)
    ensures |r| <= AddressCount(ifaces)
    decreases |ifaces|
  {
    if ifaces == [] then []
    else Candidates(ifaces[..|ifaces| - 1], broadcastOf) + CandidatesOf(ifaces[|ifaces| - 1].addresses, broadcastOf)
  }

  /** x is the broadcast address of some eligible address of some interface. */
  predicate Produced(ifaces: seq<Interface>, broadcastOf: AddressInfo -> string, x: string) {
    exists i, j :: 0 <= i < |ifaces| && 0 <= j < |ifaces[i].addresses|
      && Eligible(ifaces[i].addresses[j]) && broadcastOf(ifaces[i].addresses[j]) == x
  }

  predicate NoDuplicates(ys: seq<string>) {
    forall i, j :: 0 <= i < j < |ys| ==> ys[i] != ys[j]
  }

  /** `[...new Set(xs)]`: a set remembers the order in which its members were first added. */
  function Dedup(xs: seq<string>): (ys: seq<string>)
    ensures NoDuplicates(ys)
    ensures forall x :: x in ys <==> x in xs
    decreases |xs|
  {
    if xs == [] then []
    else
      var p := Dedup(xs[..|xs| - 1]);
      var x := xs[|xs| - 1];
      if x in p then p else p + [x]
  }

  /** The position of the first occurrence of x. */
  function FirstIndex(xs: seq<string>, x: string): (i: nat)
    requires x in xs
    ensures i < |xs| && xs[i] == x
    ensures forall m :: 0 <= m < i ==> xs[m] != x
  {
    if xs[0] == x then 0 else 1 + FirstIndex(xs[1..], x)
  }

  /** A first occurrence inside a prefix is the first occurrence in the whole sequence. */
  lemma FirstIndexPrefix(xs: seq<string>, n: nat, x: string)
    requires n <= |xs| && x in xs[..n]
    ensures FirstIndex(xs, x) == FirstIndex(xs[..n], x)
  {
    assert forall m :: 0 <= m < n ==> xs[..n][m] == xs[m];
  }

  /** An element that only the last position holds is first found there. */
  lemma FirstIndexLast(xs: seq<string>, x: string)
    requires xs != [] && xs[|xs| - 1] == x && x !in xs[..|xs| - 1]
    ensures FirstIndex(xs, x) == |xs| - 1
  {
    assert forall m :: 0 <= m < |xs| - 1 ==> xs[..|xs| - 1][m] == xs[m];
  }

  /** The members of ys, all of them found in xs, come in the order of their first occurrence
      in xs. */
  predicate FirstOrder(xs: seq<string>, ys: seq<string>) {
    forall i, j :: 0 <= i < j < |ys| && ys[i] in xs && ys[j] in xs ==>
      FirstIndex(xs, ys[i]) < FirstIndex(xs, ys[j])
  }

  /** The addresses come out in the order of their first occurrence. */
  lemma {:induction false} DedupOrder(xs: seq<string>)
    ensures FirstOrder(xs, Dedup(xs))
    decreases |xs|
  {
    if xs != [] {
      var init := xs[..|xs| - 1];
      var x := xs[|xs| - 1];
      var p := Dedup(init);
      DedupOrder(init);
      assert xs[..|init|] == init;
      forall y | y in p
        ensures FirstIndex(xs, y) == FirstIndex(init, y) < |init|
      {
        FirstIndexPrefix(xs, |init|, y);
      }
      var ys := Dedup(xs);
      if x !in p {
        FirstIndexLast(xs, x);
        assert ys == p + [x];
      } else {
        assert ys == p;
      }
      forall i, j | 0 <= i < j < |ys|
        ensures FirstIndex(xs, ys[i]) < FirstIndex(xs, ys[j])
      {
        assert ys[i] == p[i] && p[i] in p;
        assert FirstIndex(xs, p[i]) == FirstIndex(init, p[i]) < |init|;
        if j < |p| {
          assert ys[j] == p[j] && p[j] in p;
          assert FirstIndex(xs, p[j]) == FirstIndex(init, p[j]);
          assert FirstIndex(init, p[i]) < FirstIndex(init, p[j]);
        } else {
          assert ys[j] == x && FirstIndex(xs, x) == |init|;
        }
      }
    }
  }

  /** An address contributes exactly when it is eligible. */
  lemma {:induction false} CandidatesOfMember(infos: seq<AddressInfo>, broadcastOf: AddressInfo -> string, x: string)
    ensures x in CandidatesOf(infos, broadcastOf) <==>
              exists j :: 0 <= j < |infos| && Eligible(infos[j]) && broadcastOf(infos[j]) == x
    decreases |infos|
  {
    if infos != [] {
      var p, a := infos[..|infos| - 1], infos[|infos| - 1];
      CandidatesOfMember(p, broadcastOf, x);
      if x in CandidatesOf(p, broadcastOf) {
        var j :| 0 <= j < |p| && Eligible(p[j]) && broadcastOf(p[j]) == x;
        assert infos[j] == p[j];
      }
      if exists j :: 0 <= j < |infos| && Eligible(infos[j]) && broadcastOf(infos[j]) == x {
        var j :| 0 <= j < |infos| && Eligible(infos[j]) && broadcastOf(infos[j]) == x;
        if j < |p| {
          assert p[j] == infos[j];
        }
      }
    }
  }

  /** Some interface produces x exactly when one before the last does or the last one does. */
  lemma ProducedSnoc(ifaces: seq<Interface>, broadcastOf: AddressInfo -> string, x: string)
    requires ifaces != []
    ensures var p, infos := ifaces[..|ifaces| - 1], ifaces[|ifaces| - 1].addresses;
      Produced(ifaces, broadcastOf, x) <==>
        Produced(p, broadcastOf, x)
        || exists j :: 0 <= j < |infos| && Eligible(infos[j]) && broadcastOf(infos[j]) == x
  {
    var p, last := ifaces[..|ifaces| - 1], ifaces[|ifaces| - 1];
    if Produced(p, broadcastOf, x) {
      var i, j :| 0 <= i < |p| && 0 <= j < |p[i].addresses|
        && Eligible(p[i].addresses[j]) && broadcastOf(p[i].addresses[j]) == x;
      assert ifaces[i] == p[i];
    }
    if exists j :: 0 <= j < |last.addresses| && Eligible(last.addresses[j]) && broadcastOf(last.addresses[j]) == x {
      var j :| 0 <= j < |last.addresses| && Eligible(last.addresses[j]) && broadcastOf(last.addresses[j]) == x;
      assert ifaces[|p|] == last;
    }
    if Produced(ifaces, broadcastOf, x) {
      var i, j :| 0 <= i < |ifaces| && 0 <= j < |ifaces[i].addresses|
        && Eligible(ifaces[i].addresses[j]) && broadcastOf(ifaces[i].addresses[j]) == x;
      if i < |p| {
        assert p[i] == ifaces[i];
      }
    }
  }

  /** A broadcast address is collected exactly when an eligible address of some interface
      produces it. */
  lemma {:induction false} CandidatesMember(ifaces: seq<Interface>, broadcastOf: AddressInfo -> string, x: string)
    ensures x in Candidates(ifaces, broadcastOf) <==> Produced(ifaces, broadcastOf, x)
    decreases |ifaces|
  {
    if ifaces != [] {
      var p, last := ifaces[..|ifaces| - 1], ifaces[|ifaces| - 1];
      CandidatesMember(p, broadcastOf, x);
      CandidatesOfMember(last.addresses, broadcastOf, x);
      ProducedSnoc(ifaces, broadcastOf, x);
    }
  }

  /** `getBroadcastAddresses()` over the given interface table. */
  method GetBroadcastAddresses(ifaces: seq<Interface>, broadcastOf: AddressInfo -> string) returns (r: seq<string>)
    ensures r == Dedup(Candidates(ifaces, broadcastOf))
    ensures NoDuplicates(r)
    ensures forall x :: x in r <==> Produced(ifaces, broadcastOf, x)
  {
    var result: seq<string> := [];
    var i := 0;
    while i < |ifaces|
      invariant 0 <= i <= |ifaces|
      invariant result == Candidates(ifaces[..i], broadcastOf)
    {
      var infos := ifaces[i].addresses;
      var j := 0;
      while j < |infos|
        invariant 0 <= j <= |infos|
        invariant result == Candidates(ifaces[..i], broadcastOf) + CandidatesOf(infos[..j], broadcastOf)
      {
        if Eligible(infos[j]) {
          result := result + [broadcastOf(infos[j])];
        }
        assert infos[..j + 1][..j] == infos[..j];
        j := j + 1;
      }
      assert infos[..|infos|] == infos;
      assert ifaces[..i + 1][..i] == ifaces[..i];
      i := i + 1;
    }
    assert ifaces[..|ifaces|] == ifaces;
    r := Dedup(result);
    forall x ensures x in r <==> Produced(ifaces, broadcastOf, x) {
      CandidatesMember(ifaces, broadcastOf, x);
    }
  }

  /** The broadcast address of an IPv4 subnet as the idealised bit computation of section 7 of
      RFC 922: the network bits of the address with every host bit set. */
  function SubnetBroadcast(address: bv32, mask: bv32): (b: bv32)
    ensures b & mask == address & mask
    ensures b & !mask == !mask
  {
    address | !mask
  }

  /** 192.168.1.5 with mask 255.255.255.0 broadcasts on 192.168.1.255, and so does any other
      address of that subnet. */
  lemma SubnetBroadcastExample()
    ensures SubnetBroadcast(0xC0A8_0105, 0xFFFF_FF00) == 0xC0A8_01FF
    ensures SubnetBroadcast(0xC0A8_0109, 0xFFFF_FF00) == SubnetBroadcast(0xC0A8_0105, 0xFFFF_FF00)
  {
  }
}
