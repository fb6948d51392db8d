/** route_lookup and check_allowed_src over the session table, and the addresses they read from an
    IPv4 header (section 3.1 of RFC 791). */
module Routing {
  import opened Options
  import opened Bits
  import opened Crypto
  import opened Framing
  import opened Prefixes
  import opened Tables

  predicate IsIpv4(packet: seq<Byte>) {
    |packet| >= 20 && packet[0] / 16 == 4
  }

  function SrcIp(packet: seq<Byte>): (ip: nat)
    requires |packet| >= 20
    ensures ip < U32
  {
    FromBigEndianFits(packet[12..16]);
    Widths();
    FromBigEndian(packet[12..16])
  }

  function DstIp(packet: seq<Byte>): (ip: nat)
    requires |packet| >= 20
    ensures ip < U32
  {
    FromBigEndianFits(packet[16..20]);
    Widths();
    FromBigEndian(packet[16..20])
  }

  /** The number behind the address a.b.c.d. */
  function Dotted(a: int, b: int, c: int, d: int): int {
    0x1000000 * a + 0x10000 * b + 0x100 * c + d
  }

  /** The fields of an IPv4 header: version 4 in the upper half of the first byte, the source address
      in bytes 12 to 15 and the destination in bytes 16 to 19, the highest first. */
  lemma HeaderFields(packet: seq<Byte>)
    ensures IsIpv4(packet) <==> |packet| >= 20 && 0x40 <= packet[0] <= 0x4f
    ensures |packet| >= 20 ==>
              && SrcIp(packet) == Dotted(packet[12], packet[13], packet[14], packet[15])
              && DstIp(packet) == Dotted(packet[16], packet[17], packet[18], packet[19])
  {
    if |packet| >= 20 {
      FourBytes(packet[12..16]);
      FourBytes(packet[16..20]);
    }
  }

  lemma FourBytes(bs: seq<Byte>)
    requires |bs| == 4
    ensures FromBigEndian(bs) == Dotted(bs[0], bs[1], bs[2], bs[3])
  {
    assert bs[..3][..2] == bs[..2] && bs[..2][..1] == bs[..1] && bs[..1][..0] == [];
    assert FromBigEndian(bs[..1]) == Dotted(0, 0, 0, bs[0]);
    assert FromBigEndian(bs[..2]) == Dotted(0, 0, bs[0], bs[1]);
    assert FromBigEndian(bs[..3]) == Dotted(0, bs[0], bs[1], bs[2]);
  }

  // ----- longest prefix match -----------------------------------------------------------------

  /** The length of the longest of the first `n` routes that match, or -1. */
  function LongestMatch(routes: seq<Prefix>, ip: nat, n: nat): (len: int)
    requires n <= |routes|
    ensures len >= -1
    ensures forall j :: 0 <= j < n && Matches(routes[j], ip) ==> routes[j].len <= len
    ensures len >= 0 ==> exists j :: 0 <= j < n && Matches(routes[j], ip) && routes[j].len == len
  {
    if n == 0 then -1
    else
      var best := LongestMatch(routes, ip, n - 1);
      if Matches(routes[n - 1], ip) && routes[n - 1].len > best then routes[n - 1].len else best
  }

  datatype Best = Best(slot: Option<nat>, len: int)

  function MatchLen(s: Session, ip: nat): (len: int)
    ensures len >= -1
  {
    if s.active then LongestMatch(s.routes, ip, |s.routes|) else -1
  }

  /** The state of route_lookup after its first `n` slots. */
  function BestRoute(ss: seq<Session>, ip: nat, n: nat): (b: Best)
    requires n <= |ss|
    ensures b.len >= -1
    ensures b.slot.None? <==> b.len == -1
    ensures b.slot.Some? ==> b.slot.value < n && MatchLen(ss[b.slot.value], ip) == b.len
    ensures forall k :: 0 <= k < n ==> MatchLen(ss[k], ip) <= b.len
    ensures b.slot.Some? ==> forall k :: 0 <= k < b.slot.value ==> MatchLen(ss[k], ip) < b.len
  {
    if n == 0 then Best(None, -1)
    else
      var b := BestRoute(ss, ip, n - 1);
      if MatchLen(ss[n - 1], ip) > b.len then Best(Some(n - 1), MatchLen(ss[n - 1], ip)) else b
  }

  function RouteLookup(ss: seq<Session>, ip: nat): (r: Option<nat>)
    ensures r.Some? ==> r.value < |ss| && ss[r.value].active
  {
    BestRoute(ss, ip, |ss|).slot
  }

  /** Slot `i` is active and route `j` of it matches. */
  ghost predicate Candidate(ss: seq<Session>, ip: nat, i: nat, j: nat) {
    i < |ss| && ss[i].active && j < |ss[i].routes| && Matches(ss[i].routes[j], ip)
  }

  lemma CandidateBound(ss: seq<Session>, ip: nat, i: nat, j: nat)
    requires Candidate(ss, ip, i, j)
    ensures ss[i].routes[j].len <= MatchLen(ss[i], ip)
  {
  }

  /** Slot `k` is the first of those with the longest matching prefix, which is its route `j`. */
  ghost predicate Tops(ss: seq<Session>, ip: nat, k: nat, j: nat) {
    && Candidate(ss, ip, k, j)
    && forall i': nat, j': nat | Candidate(ss, ip, i', j') ::
         && ss[i'].routes[j'].len <= ss[k].routes[j].len
         && (i' < k ==> ss[i'].routes[j'].len < ss[k].routes[j].len)
  }

  ghost predicate Leads(ss: seq<Session>, ip: nat, k: nat) {
    exists j: nat :: Tops(ss, ip, k, j)
  }

  /** route_lookup answers with the first of the active slots that hold a matching prefix of maximal
      length, and with NULL exactly when no active slot has a matching prefix. */
  lemma RouteLookupIsLongestMatch(ss: seq<Session>, ip: nat)
    ensures var r := RouteLookup(ss, ip);
            && (r.None? <==> forall i: nat, j: nat :: !Candidate(ss, ip, i, j))
            && (r.Some? ==> Leads(ss, ip, r.value))
  {
    var b := BestRoute(ss, ip, |ss|);
    forall i: nat, j: nat | Candidate(ss, ip, i, j)
      ensures ss[i].routes[j].len <= b.len
      ensures b.slot.Some? && i < b.slot.value ==> ss[i].routes[j].len < b.len
    {
      CandidateBound(ss, ip, i, j);
    }
    if b.slot.Some? {
      var s := ss[b.slot.value];
      var j :| 0 <= j < |s.routes| && Matches(s.routes[j], ip) && s.routes[j].len == b.len;
      assert Tops(ss, ip, b.slot.value, j);
    }
  }

  lemma OneLeads(ss: seq<Session>, ip: nat, k: nat, k': nat)
    requires Leads(ss, ip, k) && Leads(ss, ip, k')
    ensures k == k'
  {
    var j: nat :| Tops(ss, ip, k, j);
    var j': nat :| Tops(ss, ip, k', j');
    assert Candidate(ss, ip, k, j) && Candidate(ss, ip, k', j');
  }

  /** It answers with a slot exactly if that one leads. */
  lemma LookupLeads(ss: seq<Session>, ip: nat, k: nat)
    ensures RouteLookup(ss, ip) == Some(k) <==> Leads(ss, ip, k)
  {
    RouteLookupIsLongestMatch(ss, ip);
    if Leads(ss, ip, k) {
      var j: nat :| Tops(ss, ip, k, j);
      assert Candidate(ss, ip, k, j);
      OneLeads(ss, ip, k, RouteLookup(ss, ip).value);
    }
  }

  ghost predicate CanonicalRoutes(ss: seq<Session>) {
    forall i, j | 0 <= i < |ss| && ss[i].active && 0 <= j < |ss[i].routes| :: Canonical(ss[i].routes[j])
  }

  /** No prefix is routed to two active slots. */
  ghost predicate DistinctRoutes(ss: seq<Session>) {
    forall i, j, i', j' |
      && 0 <= i < |ss| && 0 <= j < |ss[i].routes| && ss[i].active
      && 0 <= i' < |ss| && 0 <= j' < |ss[i'].routes| && ss[i'].active
      && ss[i].routes[j] == ss[i'].routes[j'] :: i == i'
  }

  /** `ss'` lists the same sessions in another slot order; `order` says where each one went. */
  ghost predicate Reordered(ss: seq<Session>, ss': seq<Session>, order: seq<nat>) {
    && |order| == |ss| == |ss'|
    && (forall i | 0 <= i < |ss| :: order[i] < |ss| && ss'[order[i]] == ss[i])
    && (forall i' | 0 <= i' < |ss| :: i' in order)
  }

  /** With canonical prefixes and no prefix routed twice, only one slot can hold the longest match:
      the answer does not depend on the order of the slots. */
  lemma RouteLookupIgnoresSlotOrder(ss: seq<Session>, ss': seq<Session>, order: seq<nat>, ip: nat)
    requires CanonicalRoutes(ss) && DistinctRoutes(ss) && Reordered(ss, ss', order)
    ensures RouteLookup(ss', ip) ==
            if RouteLookup(ss, ip).None? then None else Some(order[RouteLookup(ss, ip).value])
  {
    var b, b' := BestRoute(ss, ip, |ss|), BestRoute(ss', ip, |ss|);
    if b'.slot.Some? {
      var i := FindOrder(order, b'.slot.value);
      assert ss[i] == ss'[b'.slot.value];
      assert b'.len <= b.len;
    }
    if b.slot.Some? {
      var i := b.slot.value;
      assert ss'[order[i]] == ss[i];
      assert b.len <= b'.len;
      var i' := FindOrder(order, b'.slot.value);
      SameLongest(ss, ip, i, i');
    }
  }

  lemma FindOrder(order: seq<nat>, x: nat) returns (i: nat)
    requires x in order
    ensures i < |order| && order[i] == x
  {
    i :| i < |order| && order[i] == x;
  }

  lemma SameLongest(ss: seq<Session>, ip: nat, i: nat, i': nat)
    requires CanonicalRoutes(ss) && DistinctRoutes(ss)
    requires i < |ss| && i' < |ss| && MatchLen(ss[i], ip) == MatchLen(ss[i'], ip) >= 0
    ensures i == i'
  {
    var len := MatchLen(ss[i], ip);
    var j :| 0 <= j < |ss[i].routes| && Matches(ss[i].routes[j], ip) && ss[i].routes[j].len == len;
    var j' :| 0 <= j' < |ss[i'].routes| && Matches(ss[i'].routes[j'], ip) && ss[i'].routes[j'].len == len;
    EqualLengthTie(ss[i].routes[j], ss[i'].routes[j'], ip);
  }

  // ----- allowed sources ----------------------------------------------------------------------

  /** check_allowed_src: an empty list allows everything. */
  predicate AllowedSrc(routes: seq<Prefix>, ip: nat) {
    routes == [] || exists j :: 0 <= j < |routes| && Matches(routes[j], ip)
  }
}
