/** The per-interface address listings of app/system_info/system_info.py
    (`get_ipv4_addresses`, `get_ipv6_addresses`). The host's interface
    enumeration is an input value: each interface name with its addresses,
    in the order the enumeration yields them. */
module SystemInfo {

  /** The address families the enumeration reports: `AF_INET`, `AF_INET6`
      and the link-layer family `AF_LINK`. */
  datatype Family = AfInet | AfInet6 | AfLink

  /** One enumerated address; netmask, broadcast and point-to-point fields
      are never read and are not modelled. */
  datatype Snicaddr = Snicaddr(family: Family, address: string)

  /** The enumeration: interface names with their addresses. */
  type Interfaces = seq<(string, seq<Snicaddr>)>

  /** The addresses of family `fam` among `addrs`, in their original order. */
  function OfFamily(addrs: seq<Snicaddr>, fam: Family): seq<string>
  {
    if addrs == [] then []
    else
      var last := addrs[|addrs| - 1];
      OfFamily(addrs[..|addrs| - 1], fam) + (if last.family == fam then [last.address] else [])
  }

  /** The map the two listings build: every enumerated interface is a key,
      bound to its addresses of family `fam`. A name enumerated twice keeps
      the listing of its later occurrence, as a repeated dict assignment does. */
  function PerInterface(ifaces: Interfaces, fam: Family): map<string, seq<string>>
  {
    if ifaces == [] then map[]
    else
      var last := ifaces[|ifaces| - 1];
      PerInterface(ifaces[..|ifaces| - 1], fam)[last.0 := OfFamily(last.1, fam)]
  }

  /** The loop both listings share: for each interface, bind its name to an
      empty list, then append the address of every entry of family `fam`. */
  method CollectAddresses(ifaces: Interfaces, fam: Family) returns (found: map<string, seq<string>>)
    ensures found == PerInterface(ifaces, fam)
  {
    found := map[];
    var i := 0;
    while i < |ifaces|
      invariant 0 <= i <= |ifaces|
      invariant found == PerInterface(ifaces[..i], fam)
    {
      var name := ifaces[i].0;
      var addrs := ifaces[i].1;
      ghost var before := found;
      found := found[name := []];
      var j := 0;
      while j < |addrs|
        invariant 0 <= j <= |addrs|
        invariant found == before[name := OfFamily(addrs[..j], fam)]
      {
        OfFamilyStep(addrs, j, fam);
        if addrs[j].family == fam {
          found := found[name := found[name] + [addrs[j].address]];
        } else {
          assert OfFamily(addrs[..j + 1], fam) == OfFamily(addrs[..j], fam);
        }
        j := j + 1;
      }
      assert addrs[..j] == addrs;
      PerInterfaceStep(ifaces, i, fam);
      i := i + 1;
    }
    assert ifaces[..i] == ifaces;
  }

  /** One more entry extends the listing by its address if it has the family. */
  lemma OfFamilyStep(addrs: seq<Snicaddr>, j: int, fam: Family)
    requires 0 <= j < |addrs|
    ensures OfFamily(addrs[..j + 1], fam)
      == OfFamily(addrs[..j], fam) + (if addrs[j].family == fam then [addrs[j].address] else [])
  {
    assert addrs[..j + 1][..j] == addrs[..j];
  }

  /** One more interface rebinds its name to its own listing. */
  lemma PerInterfaceStep(ifaces: Interfaces, i: int, fam: Family)
    requires 0 <= i < |ifaces|
    ensures PerInterface(ifaces[..i + 1], fam) == PerInterface(ifaces[..i], fam)[ifaces[i].0 := OfFamily(ifaces[i].1, fam)]
  {
    assert ifaces[..i + 1][..i] == ifaces[..i];
  }

  /** `get_ipv4_addresses`: a map (not the flat list its annotation names)
      from every interface to its `AF_INET` addresses. */
  method GetIpv4Addresses(ifaces: Interfaces) returns (ipv4: map<string, seq<string>>)
    ensures ipv4 == PerInterface(ifaces, AfInet)
    ensures ipv4.Keys == InterfaceNames(ifaces)
    ensures forall i :: 0 <= i < |ifaces| && IsLastOccurrence(ifaces, i) ==>
      ipv4[ifaces[i].0] == OfFamily(ifaces[i].1, AfInet)
  {
    ipv4 := CollectAddresses(ifaces, AfInet);
    PerInterfaceKeys(ifaces, AfInet);
    PerInterfaceValues(ifaces, AfInet);
  }

  /** `get_ipv6_addresses`: the same map for the `AF_INET6` addresses. */
  method GetIpv6Addresses(ifaces: Interfaces) returns (ipv6: map<string, seq<string>>)
    ensures ipv6 == PerInterface(ifaces, AfInet6)
    ensures ipv6.Keys == InterfaceNames(ifaces)
    ensures forall i :: 0 <= i < |ifaces| && IsLastOccurrence(ifaces, i) ==>
      ipv6[ifaces[i].0] == OfFamily(ifaces[i].1, AfInet6)
  {
    ipv6 := CollectAddresses(ifaces, AfInet6);
    PerInterfaceKeys(ifaces, AfInet6);
    PerInterfaceValues(ifaces, AfInet6);
  }

  /** The names of the enumerated interfaces. */
  function InterfaceNames(ifaces: Interfaces): set<string>
  {
    set i | 0 <= i < |ifaces| :: ifaces[i].0
  }

  /** Entry `i` is the last one in the enumeration with its name (with the
      distinct names an enumeration yields, every entry is). */
  predicate IsLastOccurrence(ifaces: Interfaces, i: int)
    requires 0 <= i < |ifaces|
  {
    forall j :: i < j < |ifaces| ==> ifaces[j].0 != ifaces[i].0
  }

  /** Exactly one key per enumerated interface, whatever its addresses. */
  lemma {:induction false} PerInterfaceKeys(ifaces: Interfaces, fam: Family)
    ensures PerInterface(ifaces, fam).Keys == InterfaceNames(ifaces)
  {
    if ifaces != [] {
      var n := |ifaces| - 1;
      PerInterfaceKeys(ifaces[..n], fam);
      forall x ensures x in InterfaceNames(ifaces) <==> x in InterfaceNames(ifaces[..n]) + {ifaces[n].0} {
        if x in InterfaceNames(ifaces) {
          var i :| 0 <= i < |ifaces| && ifaces[i].0 == x;
          if i < n {
            assert ifaces[..n][i] == ifaces[i];
          }
        }
        if x in InterfaceNames(ifaces[..n]) {
          var i :| 0 <= i < n && ifaces[..n][i].0 == x;
          assert ifaces[i] == ifaces[..n][i];
        }
      }
    }
  }

  /** Each interface is bound to the addresses of family `fam` of its (last)
      enumerated entry. */
  lemma {:induction false} PerInterfaceValues(ifaces: Interfaces, fam: Family)
    ensures forall i :: 0 <= i < |ifaces| && IsLastOccurrence(ifaces, i) ==>
      ifaces[i].0 in PerInterface(ifaces, fam) && PerInterface(ifaces, fam)[ifaces[i].0] == OfFamily(ifaces[i].1, fam)
  {
    if ifaces != [] {
      var n := |ifaces| - 1;
      PerInterfaceValues(ifaces[..n], fam);
      forall i | 0 <= i < |ifaces| && IsLastOccurrence(ifaces, i)
        ensures ifaces[i].0 in PerInterface(ifaces, fam) && PerInterface(ifaces, fam)[ifaces[i].0] == OfFamily(ifaces[i].1, fam)
      {
        if i < n {
          assert ifaces[n].0 != ifaces[i].0;
          assert ifaces[..n][i] == ifaces[i];
          assert IsLastOccurrence(ifaces[..n], i) by {
            forall j | i < j < n ensures ifaces[..n][j].0 != ifaces[..n][i].0 {
              assert ifaces[..n][j] == ifaces[j];
            }
          }
        }
      }
    }
  }

  /** Listing distributes over concatenation: order is kept and nothing is
      shared between the two halves. */
  lemma {:induction false} OfFamilyAppend(a: seq<Snicaddr>, b: seq<Snicaddr>, fam: Family)
    ensures OfFamily(a + b, fam) == OfFamily(a, fam) + OfFamily(b, fam)
    decreases |b|
  {
    if b == [] {
      assert a + b == a;
    } else {
      var n := |b| - 1;
      assert (a + b)[..|a + b| - 1] == a + b[..n];
      OfFamilyAppend(a, b[..n], fam);
    }
  }

  /** A single entry is listed iff it has the family. */
  lemma OfFamilySingle(x: Snicaddr, fam: Family)
    ensures OfFamily([x], fam) == if x.family == fam then [x.address] else []
  {
  }

  /** A listing never holds more entries than the interface enumerated. */
  lemma {:induction false} OfFamilyLength(addrs: seq<Snicaddr>, fam: Family)
    ensures |OfFamily(addrs, fam)| <= |addrs|
  {
    if addrs != [] {
      OfFamilyLength(addrs[..|addrs| - 1], fam);
    }
  }

  /** An address is listed exactly when the interface has an entry of the
      family with that address: every listed address is the interface's own,
      and none of its addresses of the family is missing. */
  lemma {:induction false} OfFamilyMembership(addrs: seq<Snicaddr>, fam: Family, x: string)
    ensures x in OfFamily(addrs, fam) <==> exists k :: 0 <= k < |addrs| && addrs[k] == Snicaddr(fam, x)
  {
    if addrs != [] {
      var n := |addrs| - 1;
      OfFamilyMembership(addrs[..n], fam, x);
      if x in OfFamily(addrs[..n], fam) {
        var k :| 0 <= k < n && addrs[..n][k] == Snicaddr(fam, x);
        assert addrs[k] == addrs[..n][k];
      }
      if exists k :: 0 <= k < |addrs| && addrs[k] == Snicaddr(fam, x) {
        var k :| 0 <= k < |addrs| && addrs[k] == Snicaddr(fam, x);
        if k < n {
          assert addrs[..n][k] == addrs[k];
        }
      }
    }
  }

  /** Entries of any other family never reach the listing: removing one
      leaves it unchanged. */
  lemma OtherFamilyIgnored(addrs: seq<Snicaddr>, k: int, fam: Family)
    requires 0 <= k < |addrs| && addrs[k].family != fam
    ensures OfFamily(addrs[..k] + addrs[k + 1..], fam) == OfFamily(addrs, fam)
  {
    var pre, post := addrs[..k], addrs[k + 1..];
    assert addrs == addrs[..k + 1] + post;
    assert addrs[..k + 1][..k] == pre;
    calc {
      OfFamily(addrs, fam);
      { OfFamilyAppend(addrs[..k + 1], post, fam); }
      OfFamily(addrs[..k + 1], fam) + OfFamily(post, fam);
      OfFamily(pre, fam) + OfFamily(post, fam);
      { OfFamilyAppend(pre, post, fam); }
      OfFamily(pre + post, fam);
    }
  }

  /** An interface with no address of the family is bound to the empty list. */
  lemma {:induction false} OfFamilyNone(addrs: seq<Snicaddr>, fam: Family)
    requires forall k :: 0 <= k < |addrs| ==> addrs[k].family != fam
    ensures OfFamily(addrs, fam) == []
  {
    if addrs != [] {
      OfFamilyNone(addrs[..|addrs| - 1], fam);
    }
  }

  /** The listings of the three families split an interface's entries
      between them: together they hold exactly as many addresses as it has
      entries. */
  lemma {:induction false} ListingsPartition(addrs: seq<Snicaddr>)
    ensures |OfFamily(addrs, AfInet)| + |OfFamily(addrs, AfInet6)| + |OfFamily(addrs, AfLink)| == |addrs|
  {
    if addrs != [] {
      ListingsPartition(addrs[..|addrs| - 1]);
    }
  }
}
