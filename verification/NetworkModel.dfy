/** A network's DHCP ranges, and reserving an IP in them for each interface. */
module NetworkModel {
  import opened Common
  import opened Addresses
  import opened Candidates

  type Mac = string

  // ---- Ranges ----

  // The block of an address and its prefix.
  function NetworkOf(own: int, prefix: nat): Cidr
    requires 0 <= own < SPACE && prefix <= 32
  {
    Masked(To(own, prefix))
  }

  predicate Within(range: (int, int), a: int) {
    range.0 <= a <= range.1
  }

  predicate InRanges(ranges: seq<(int, int)>, a: int) {
    exists i | 0 <= i < |ranges| :: Within(ranges[i], a)
  }

  function NonEmpty(ranges: seq<(int, int)>): seq<(int, int)> {
    if ranges == [] then []
    else (if ranges[0].0 <= ranges[0].1 then [ranges[0]] else []) + NonEmpty(ranges[1..])
  }

  // An address has a successor and a predecessor, or computing the ranges raises.
  predicate Inner(own: int) {
    0 < own < SPACE - 1
  }

  // The ranges below and above the network's own address.
  function DhcpRanges(own: int, prefix: nat): seq<(int, int)>
    requires 0 <= own < SPACE && prefix <= 32
  {
    var network := NetworkOf(own, prefix);
    NonEmpty([(network.address + 1, own - 1), (own + 1, Broadcast(network) - 1)])
  }

  lemma OwnIsInside(own: int, prefix: nat)
    requires 0 <= own < SPACE && prefix <= 32
    ensures NetworkOf(own, prefix).address <= own <= Broadcast(NetworkOf(own, prefix))
  {
  }

  /** The network has the prefix's length, and is of the addresses with the leading bits of its own. */
  lemma NetworkIsOfOwn(own: int, prefix: nat, a: int)
    requires 0 <= own < SPACE && prefix <= 32
    ensures NetworkOf(own, prefix).prefix == prefix
    ensures Contains(NetworkOf(own, prefix), a) <==> a / Size(prefix) == own / Size(prefix)
  {
    MaskedLeads(To(own, prefix), a);
  }

  lemma NonEmptySingle(range: (int, int))
    ensures NonEmpty([range]) == if range.0 <= range.1 then [range] else []
  {
    var none: seq<(int, int)> := [];
    assert [range][1..] == none;
  }

  lemma NonEmptyPair(a: (int, int), b: (int, int), x: int)
    ensures InRanges(NonEmpty([a, b]), x) <==> Within(a, x) || Within(b, x)
  {
    assert [a, b][1..] == [b];
    var kept := NonEmpty([a, b]);
    NonEmptySingle(b);
    if Within(a, x) {
      assert kept[0] == a;
    }
    if Within(b, x) {
      assert kept[|kept| - 1] == b;
    }
  }

  /** The ranges are disjoint, and together exactly the addresses strictly inside the network but its own. */
  lemma RangesAreExact(own: int, prefix: nat, a: int)
    requires Inner(own) && prefix <= 32
    ensures var network := NetworkOf(own, prefix);
      InRanges(DhcpRanges(own, prefix), a) <==> network.address < a < Broadcast(network) && a != own
    ensures var ranges := DhcpRanges(own, prefix);
      forall i, j | 0 <= i < j < |ranges| :: !(Within(ranges[i], a) && Within(ranges[j], a))
  {
    OwnIsInside(own, prefix);
    var network := NetworkOf(own, prefix);
    var low, high := (network.address + 1, own - 1), (own + 1, Broadcast(network) - 1);
    NonEmptyPair(low, high, a);
    NonEmptySingle(high);
    assert [low, high][1..] == [high];
  }

  // The addresses for hosts: both of a /31, and the one of a /32.
  function FirstHost(network: Cidr): int {
    if network.prefix >= 31 then network.address else network.address + 1
  }

  function LastHost(network: Cidr): int {
    if network.prefix >= 31 then Broadcast(network) else Broadcast(network) - 1
  }

  predicate IsHost(network: Cidr, a: int) {
    FirstHost(network) <= a <= LastHost(network)
  }

  /** The hosts are all addresses of the network, but its first and last one if it has more than two. */
  lemma HostsAreExact(network: Cidr, a: int)
    ensures network.prefix <= 30 ==>
      Size(network.prefix) >= 4
      && (IsHost(network, a) <==> Contains(network, a) && a != network.address && a != Broadcast(network))
    ensures network.prefix >= 31 ==> (IsHost(network, a) <==> Contains(network, a))
  {
    ContainsIsInterval(network, a);
    if network.prefix <= 30 {
      Pow2Sum(2, 30 - network.prefix);
      assert Pow2(2) == 4;
    }
  }

  /**
   The ranges are exactly the hosts other than the network's own, unless the network is a /31, which has no ranges.
   */
  lemma HostsAreInRanges(own: int, prefix: nat, a: int)
    requires Inner(own) && prefix <= 32
    ensures InRanges(DhcpRanges(own, prefix), a) <==> prefix != 31 && IsHost(NetworkOf(own, prefix), a) && a != own
  {
    var network := NetworkOf(own, prefix);
    RangesAreExact(own, prefix, a);
    HostsAreExact(network, a);
    ContainsIsInterval(network, a);
    OwnIsInside(own, prefix);
    SmallSizes();
  }

  lemma SmallSizes()
    ensures Size(32) == 1 && Size(31) == 2
  {
    assert Pow2(0) == 1 && Pow2(1) == 2 * Pow2(0);
  }

  // ---- Reservations ----

  datatype Host = Host(mac: Mac, ip: int)

  // Each MAC with the IP of its last reservation, which hides earlier ones.
  function GetHosts(hosts: seq<Host>): map<Mac, int> {
    if hosts == [] then map[]
    else
      var last := hosts[|hosts| - 1];
      GetHosts(hosts[..|hosts| - 1])[last.mac := last.ip]
  }

  // No later reservation is for the same MAC.
  predicate Visible(hosts: seq<Host>, i: nat)
    requires i < |hosts|
  {
    forall j | i < j < |hosts| :: hosts[j].mac != hosts[i].mac
  }

  predicate Reserves(hosts: seq<Host>, ip: int) {
    exists i | 0 <= i < |hosts| :: hosts[i].ip == ip
  }

  lemma {:induction false} VisibleIsGot(hosts: seq<Host>, i: nat)
    requires i < |hosts| && Visible(hosts, i)
    ensures hosts[i].mac in GetHosts(hosts) && GetHosts(hosts)[hosts[i].mac] == hosts[i].ip
    decreases |hosts|
  {
    var front := hosts[..|hosts| - 1];
    if i < |front| {
      assert hosts[|front|].mac != hosts[i].mac;
      assert forall j | i < j < |front| :: front[j] == hosts[j];
      VisibleIsGot(front, i);
    }
  }

  lemma {:induction false} GotIsVisible(hosts: seq<Host>, mac: Mac) returns (i: nat)
    requires mac in GetHosts(hosts)
    ensures i < |hosts| && Visible(hosts, i) && hosts[i] == Host(mac, GetHosts(hosts)[mac])
    decreases |hosts|
  {
    var front := hosts[..|hosts| - 1];
    if mac == hosts[|front|].mac {
      i := |front|;
    } else {
      i := GotIsVisible(front, mac);
      assert forall j | i < j < |front| :: front[j] == hosts[j];
    }
  }

  /** An IP counts as used if and only if a reservation of it isn't shadowed by a later one for the same MAC. */
  lemma UsedAreTheVisible(hosts: seq<Host>, ip: int)
    ensures ip in GetHosts(hosts).Values <==> exists i | 0 <= i < |hosts| :: Visible(hosts, i) && hosts[i].ip == ip
  {
    if ip in GetHosts(hosts).Values {
      var mac :| mac in GetHosts(hosts) && GetHosts(hosts)[mac] == ip;
      var i := GotIsVisible(hosts, mac);
    }
    if i :| 0 <= i < |hosts| && Visible(hosts, i) && hosts[i].ip == ip {
      VisibleIsGot(hosts, i);
    }
  }

  predicate DistinctMacs(hosts: seq<Host>) {
    forall i, j | 0 <= i < j < |hosts| :: hosts[i].mac != hosts[j].mac
  }

  predicate DistinctIps(hosts: seq<Host>) {
    forall i, j | 0 <= i < j < |hosts| :: hosts[i].ip != hosts[j].ip
  }

  // The lowest address of the range that isn't used.
  ghost predicate IsLowestFree(first: int, last: int, used: set<int>, ip: int) {
    first <= ip <= last && ip !in used && forall a | first <= a < ip :: a in used
  }

  ghost predicate NoneFree(first: int, last: int, used: set<int>) {
    forall a | first <= a <= last :: a in used
  }

  method FirstFree(first: int, last: int, used: set<int>) returns (ip: Option<int>)
    ensures ip.Some? ==> IsLowestFree(first, last, used, ip.value)
    ensures ip.None? <==> NoneFree(first, last, used)
  {
    var a := first;
    while a <= last
      invariant forall b | first <= b < a :: b in used
      invariant first <= a
      decreases last - a
    {
      if a !in used {
        return Some(a);
      }
      a := a + 1;
    }
    return None;
  }

  // `to` follows from `from` by one reservation.
  ghost predicate Reserved(own: int, prefix: nat, from: seq<Host>, to: seq<Host>, explicit: bool)
    requires 0 <= own < SPACE && prefix <= 32
  {
    && |to| == |from| + 1 && to[..|from|] == from
    && (!explicit ==>
          var network := NetworkOf(own, prefix);
          IsLowestFree(FirstHost(network), LastHost(network), {own} + GetHosts(from).Values, to[|from|].ip))
  }

  datatype Outcome = Done | AddressError | AssertionError | NoFreeIp

  // What `ip` puts into the network: its address, and with DHCP the ranges and reservations.
  datatype Dhcp = Dhcp(ranges: seq<(int, int)>, hosts: seq<Host>)
  datatype Ip = Ip(address: int, prefix: nat, dhcp: Option<Dhcp>)

  class LVNetworkModel {
    var ip: Option<Ip>
    // The address that guests resolve the host's name to.
    var dnsHost: Option<int>

    ghost predicate Valid()
      reads this
    {
      ip.Some? ==>
        && 0 <= ip.value.address < SPACE && ip.value.prefix <= 32
        && (ip.value.dhcp.Some? ==>
              Inner(ip.value.address) && ip.value.dhcp.value.ranges == DhcpRanges(ip.value.address, ip.value.prefix))
    }

    ghost function Hosts(): seq<Host>
      reads this
      requires ip.Some? && ip.value.dhcp.Some?
    {
      ip.value.dhcp.value.hosts
    }

    // The network's own address and those reserved, as far as they are seen.
    function Used(): set<int>
      reads this
      requires ip.Some? && ip.value.dhcp.Some?
    {
      {ip.value.address} + GetHosts(ip.value.dhcp.value.hosts).Values
    }

    constructor ()
      ensures Valid() && ip.None? && dnsHost.None?
    {
      ip, dnsHost := None, None;
    }

    // Sets the network's address, forgetting any reservations.
    method SetIp(address: int, prefix: nat, dhcp: bool) returns (outcome: Outcome)
      requires Valid() && 0 <= address < SPACE && prefix <= 32
      modifies this
      ensures Valid()
      ensures outcome == if dhcp && !Inner(address) then AddressError else Done
      ensures outcome == AddressError ==> ip == old(ip) && dnsHost == old(dnsHost)
      ensures outcome == Done ==>
        && dnsHost == Some(address)
        && ip == Some(Ip(address, prefix, if dhcp then Some(Dhcp(DhcpRanges(address, prefix), [])) else None))
    {
      if dhcp {
        // Its successor or predecessor would be no address.
        if address == 0 || address == SPACE - 1 {
          return AddressError;
        }
        ip := Some(Ip(address, prefix, Some(Dhcp(DhcpRanges(address, prefix), []))));
      } else {
        ip := Some(Ip(address, prefix, None));
      }
      dnsHost := Some(address);
      return Done;
    }

    /** Reserves the given IP, or the lowest free one of the network, for a MAC address. */
    method Interface(mac: Mac, explicit: Option<int>) returns (outcome: Outcome)
      requires Valid()
      modifies `ip
      ensures Valid()
      ensures outcome != Done || old(ip).None? || old(ip).value.dhcp.None? ==> ip == old(ip)
      ensures outcome == AssertionError <==> (old(ip).None? || old(ip).value.dhcp.None?) && explicit.Some?
      ensures old(ip).Some? && old(ip).value.dhcp.Some? ==>
        var network := NetworkOf(old(ip).value.address, old(ip).value.prefix);
        var first, last := FirstHost(network), LastHost(network);
        && (outcome == NoFreeIp <==> explicit.None? && NoneFree(first, last, old(Used())))
        && (outcome == Done ==>
              && ip.Some? && ip.value.dhcp.Some?
              && ip == Some(old(ip).value.(dhcp := Some(Dhcp(old(ip).value.dhcp.value.ranges, Hosts()))))
              && Reserved(old(ip).value.address, old(ip).value.prefix, old(Hosts()), Hosts(), explicit.Some?)
              && Hosts() == old(Hosts()) + [Host(mac, Hosts()[|old(Hosts())|].ip)]
              && (explicit.Some? ==> Hosts()[|old(Hosts())|].ip == explicit.value)
              && (explicit.None? ==> IsLowestFree(first, last, old(Used()), Hosts()[|old(Hosts())|].ip)))
    {
      if ip.None? || ip.value.dhcp.None? {
        return if explicit.Some? then AssertionError else Done;
      }
      var own := ip.value;
      var dhcp := own.dhcp.value;
      var picked := explicit;
      if picked.None? {
        var network := NetworkOf(own.address, own.prefix);
        picked := FirstFree(FirstHost(network), LastHost(network), Used());
        if picked.None? {
          return NoFreeIp;
        }
      }
      ip := Some(own.(dhcp := Some(dhcp.(hosts := dhcp.hosts + [Host(mac, picked.value)]))));
      return Done;
    }
  }

  // ---- Any run of reservations ----

  // The reservations after each call on a network that starts with none, and which calls gave an IP.
  ghost predicate IsRun(own: int, prefix: nat, run: seq<seq<Host>>, explicit: seq<bool>)
    requires 0 <= own < SPACE && prefix <= 32
  {
    && |run| == |explicit| + 1 && run[0] == []
    && forall i | 0 <= i < |explicit| :: Reserved(own, prefix, run[i], run[i + 1], explicit[i])
  }

  // An explicit IP is neither reserved nor the network's own.
  ghost predicate FreshExplicit(own: int, run: seq<seq<Host>>, explicit: seq<bool>)
    requires |run| == |explicit| + 1
  {
    forall i | 0 <= i < |explicit| && explicit[i] && |run[i + 1]| == |run[i]| + 1 ::
      var ip := run[i + 1][|run[i]|].ip; ip != own && !Reserves(run[i], ip)
  }

  /** An automatic IP is in the DHCP ranges if and only if the network isn't a /31. */
  lemma AutomaticIsInRanges(own: int, prefix: nat, from: seq<Host>, to: seq<Host>)
    requires Inner(own) && prefix <= 32 && Reserved(own, prefix, from, to, false)
    ensures InRanges(DhcpRanges(own, prefix), to[|from|].ip) <==> prefix != 31
  {
    HostsAreInRanges(own, prefix, to[|from|].ip);
  }

  lemma StaysDistinct(own: int, prefix: nat, from: seq<Host>, to: seq<Host>, explicit: bool)
    requires 0 <= own < SPACE && prefix <= 32
    requires Reserved(own, prefix, from, to, explicit) && DistinctMacs(from) && DistinctIps(from)
    requires !Reserves(from, own)
    requires explicit ==> to[|from|].ip != own && !Reserves(from, to[|from|].ip)
    ensures DistinctIps(to) && !Reserves(to, own)
  {
    var ip := to[|from|].ip;
    UsedAreTheVisible(from, ip);
    assert forall i | 0 <= i < |from| :: to[i] == from[i];
    assert forall i | 0 <= i < |from| :: Visible(from, i);
    forall i | 0 <= i < |from|
      ensures from[i].ip != ip
    {
      assert explicit ==> !Reserves(from, ip);
    }
  }

  /**
   Over any run of reservations for different MACs, with explicit IPs that are fresh, all reserved IPs differ from
   each other and from the network's own.
   */
  lemma {:induction false} ReservationsAreInjective(own: int, prefix: nat, run: seq<seq<Host>>, explicit: seq<bool>)
    requires 0 <= own < SPACE && prefix <= 32
    requires IsRun(own, prefix, run, explicit) && FreshExplicit(own, run, explicit)
    requires DistinctMacs(run[|explicit|])
    ensures DistinctIps(run[|explicit|]) && !Reserves(run[|explicit|], own)
    decreases |explicit|
  {
    if explicit != [] {
      var last := |explicit| - 1;
      assert Reserved(own, prefix, run[last], run[last + 1], explicit[last]);
      assert forall i | 0 <= i < |run[last]| :: run[last][i] == run[last + 1][i];
      ReservationsAreInjective(own, prefix, run[..last + 1], explicit[..last]);
      assert run[..last + 1][last] == run[last];
      StaysDistinct(own, prefix, run[last], run[last + 1], explicit[last]);
    }
  }

  /**
   The next automatic IP is one already reserved exactly if a reservation, hidden by a later one for its MAC, is of
   the lowest free address.
   */
  lemma ReissuedIfShadowed(own: int, prefix: nat, from: seq<Host>, to: seq<Host>)
    requires 0 <= own < SPACE && prefix <= 32 && Reserved(own, prefix, from, to, false)
    ensures var network := NetworkOf(own, prefix); var first, last := FirstHost(network), LastHost(network);
      Reserves(from, to[|from|].ip) <==>
      exists i | 0 <= i < |from| ::
        !Visible(from, i) && IsLowestFree(first, last, {own} + GetHosts(from).Values, from[i].ip)
  {
    var network := NetworkOf(own, prefix);
    var ip, used := to[|from|].ip, {own} + GetHosts(from).Values;
    UsedAreTheVisible(from, ip);
    forall i | 0 <= i < |from| && IsLowestFree(FirstHost(network), LastHost(network), used, from[i].ip)
      ensures from[i].ip == ip
    {
      LowestIsUnique(FirstHost(network), LastHost(network), used, from[i].ip, ip);
    }
    if i :| 0 <= i < |from| && from[i].ip == ip {
      assert !Visible(from, i);
    }
  }

  lemma LowestIsUnique(first: int, last: int, used: set<int>, a: int, b: int)
    requires IsLowestFree(first, last, used, a) && IsLowestFree(first, last, used, b)
    ensures a == b
  {
  }

  // As happens to 10.0.0.2 on 10.0.0.1/24, if a MAC gets that address, then a chosen one, and then another MAC gets
  // one.
  lemma ReissuedExample(mac: Mac, other: Mac)
    requires mac != other
    ensures var first, second := [Host(mac, 0x0A00_0002)], [Host(mac, 0x0A00_0002), Host(mac, 0x0A00_0003)];
      var third := second + [Host(other, 0x0A00_0002)];
      IsRun(0x0A00_0001, 24, [[], first, second, third], [false, true, false]) && !DistinctIps(third)
  {
    var first, second := [Host(mac, 0x0A00_0002)], [Host(mac, 0x0A00_0002), Host(mac, 0x0A00_0003)];
    var third := second + [Host(other, 0x0A00_0002)];
    SlashTwentyFourSize();
    assert NetworkOf(0x0A00_0001, 24) == Block(0x0A00_0000, 24);
    assert GetHosts([]).Values == {};
    assert Reserved(0x0A00_0001, 24, [], first, false);
    assert second[..1] == first;
    UsedAreTheVisible(second, 0x0A00_0002);
    assert second[1].mac == second[0].mac && third[..2] == second;
    assert Reserved(0x0A00_0001, 24, second, third, false);
    assert third[0].ip == third[2].ip;
  }

  // On 10.0.0.0/31 the first automatic IP is outside of the ranges, of which there are none.
  lemma OutsideExample(mac: Mac)
    ensures Reserved(0x0A00_0000, 31, [], [Host(mac, 0x0A00_0001)], false)
    ensures !InRanges(DhcpRanges(0x0A00_0000, 31), 0x0A00_0001)
  {
    SmallSizes();
    assert NetworkOf(0x0A00_0000, 31) == Block(0x0A00_0000, 31);
    assert GetHosts([]).Values == {};
    AutomaticIsInRanges(0x0A00_0000, 31, [], [Host(mac, 0x0A00_0001)]);
  }
}
