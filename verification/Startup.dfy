/** From the configuration file to routing: what the loader guarantees the route lookup in every
    state that a run can reach. */
module Startup {
  import opened Options
  import opened Crypto
  import opened Prefixes
  import opened Tables
  import opened Routing
  import opened Config
  import opened ConfigDoc
  import opened Steps
  import opened Invariants
  import opened Guarantees

  /** The peer table that the event loop starts with. */
  function PeersOf(entries: seq<Entry>): seq<Peer> {
    seq(|entries|, c requires 0 <= c < |entries| =>
      Peer(entries[c].pub, entries[c].routes, entries[c].endpoint.Some?))
  }

  ghost predicate CanonicalPeers(peers: seq<Peer>) {
    forall c, j | 0 <= c < |peers| && 0 <= j < |peers[c].routes| :: Canonical(peers[c].routes[j])
  }

  /** No two peers of the configuration share a key, and none share a prefix. */
  ghost predicate SeparatePeers(peers: seq<Peer>) {
    && (forall c, d | 0 <= c < |peers| && 0 <= d < |peers| && peers[c].pub == peers[d].pub :: c == d)
    && (forall c, d, j, k |
          && 0 <= c < |peers| && 0 <= j < |peers[c].routes|
          && 0 <= d < |peers| && 0 <= k < |peers[d].routes|
          && peers[c].routes[j] == peers[d].routes[k] :: c == d)
  }

  lemma LoadedPeersCanonical(rd: Reader, es: seq<YamlEvent>)
    requires ReaderHealth(rd).Sound?
    ensures var peers := PeersOf(Load(rd, Start(), es).peers);
            && CanonicalPeers(peers) && |peers| <= MAX_PEERS
            && forall c | 0 <= c < |peers| :: |peers[c].pub| == KEY_LEN
  {
  }

  /** The peer table that an accepted document starts the loop with, peer by peer: the last public key
      given, or zeros; a prefix for every allowed address, in order; and an endpoint exactly if one
      was given. */
  lemma ConfiguredPeers(rd: Reader, d: Doc, c: nat)
    requires ReaderHealth(rd).Sound? && Load(rd, Start(), DocEvents(d)).ok && c < |AllPeers(d)|
    ensures var peers, fs := PeersOf(Load(rd, Start(), DocEvents(d)).peers), AllPeers(d)[c];
            && |peers| == |AllPeers(d)|
            && (forall i: nat | LastOf(fs, IsKey, i) :: rd.key(fs[i].text) == Some(peers[c].pub))
            && ((forall i | 0 <= i < |fs| :: !IsKey(fs[i])) ==> peers[c].pub == seq(32, _ => Lit(0)))
            && |peers[c].routes| == |AllCidrs(fs)|
            && (forall j | 0 <= j < |AllCidrs(fs)| :: CidrOf(rd, AllCidrs(fs)[j]) == Some(peers[c].routes[j]))
            && (peers[c].hasEndpoint <==> exists i :: 0 <= i < |fs| && IsEndpoint(fs[i]))
  {
    DocLoad(rd, d);
    var fs := AllPeers(d)[c];
    assert Readable(rd, fs);
    assert Load(rd, Start(), DocEvents(d)).peers[c] == EntryOf(rd, fs);
    AllCidrsReadable(rd, fs);
    SomeEndpoint(rd, fs);
    CidrsAt(rd, AllCidrs(fs));
    forall i: nat | LastOf(fs, IsKey, i)
      ensures rd.key(fs[i].text) == Some(LastKey(rd, fs))
    {
      LastKeyAt(rd, fs, i);
    }
    if forall i | 0 <= i < |fs| :: !IsKey(fs[i]) {
      NoKeyIsZeros(rd, fs);
    }
  }

  /** What every reachable session table keeps of the configuration. */
  ghost predicate Drawn(p: Params, ss: seq<Session>) {
    DistinctPubs(ss) && forall i | 0 <= i < |ss| && ss[i].active :: Configured(p, ss[i])
  }

  lemma DrawnIsCanonical(p: Params, ss: seq<Session>)
    requires Drawn(p, ss) && CanonicalPeers(p.peers)
    ensures CanonicalRoutes(ss)
  {
  }

  lemma ConfigOf(p: Params, ss: seq<Session>, i: nat) returns (c: nat)
    requires Drawn(p, ss) && i < |ss| && ss[i].active
    ensures c < |p.peers| && p.peers[c].pub == ss[i].pub && p.peers[c].routes == ss[i].routes
  {
    assert Configured(p, ss[i]);
    c :| c < |p.peers| && p.peers[c].pub == ss[i].pub && p.peers[c].routes == ss[i].routes;
  }

  lemma DrawnIsSeparate(p: Params, ss: seq<Session>)
    requires Drawn(p, ss) && SeparatePeers(p.peers)
    ensures DistinctRoutes(ss)
  {
  }

  /** The same peers are connected, in any slots. */
  ghost predicate SamePeers(ss: seq<Session>, tt: seq<Session>) {
    && (forall i | 0 <= i < |ss| && ss[i].active :: exists k :: 0 <= k < |tt| && HasPub(tt[k], ss[i].pub))
    && (forall k | 0 <= k < |tt| && tt[k].active :: exists i :: 0 <= i < |ss| && HasPub(ss[i], tt[k].pub))
  }

  datatype Pairing = Paired | Unpaired

  /** Two session tables on one configuration, with the same peers connected. */
  ghost function PairingOf(p: Params, ss: seq<Session>, tt: seq<Session>): Pairing {
    if Drawn(p, ss) && Drawn(p, tt) && SamePeers(ss, tt) && CanonicalPeers(p.peers) && SeparatePeers(p.peers)
    then Paired else Unpaired
  }

  lemma Twin(p: Params, ss: seq<Session>, tt: seq<Session>, i: nat, ip: nat) returns (k: nat)
    requires PairingOf(p, ss, tt).Paired? && i < |ss| && ss[i].active
    ensures k < |tt| && HasPub(tt[k], ss[i].pub) && MatchLen(tt[k], ip) == MatchLen(ss[i], ip)
  {
    k :| k < |tt| && HasPub(tt[k], ss[i].pub);
    var c := ConfigOf(p, ss, i);
    var d := ConfigOf(p, tt, k);
    assert c == d;
  }

  lemma NoBetterThan(p: Params, ss: seq<Session>, tt: seq<Session>, ip: nat)
    requires PairingOf(p, ss, tt).Paired?
    ensures BestRoute(ss, ip, |ss|).len <= BestRoute(tt, ip, |tt|).len
  {
    var b := BestRoute(ss, ip, |ss|);
    if b.slot.Some? {
      var k := Twin(p, ss, tt, b.slot.value, ip);
    }
  }

  lemma LongestWins(p: Params, ss: seq<Session>, tt: seq<Session>, ip: nat, i: nat)
    requires PairingOf(p, ss, tt).Paired?
    requires i < |ss| && MatchLen(ss[i], ip) == BestRoute(ss, ip, |ss|).len >= 0
    ensures RouteLookup(ss, ip) == Some(i)
  {
    DrawnIsCanonical(p, ss);
    DrawnIsSeparate(p, ss);
    SameLongest(ss, ip, i, RouteLookup(ss, ip).value);
  }

  /** The peer that a packet is routed to depends on the configuration and on which peers are
      connected, not on the slots that their sessions happen to sit in. */
  lemma RoutedToSamePeer(p: Params, ss: seq<Session>, tt: seq<Session>, ip: nat)
    requires PairingOf(p, ss, tt).Paired?
    ensures var r, t := RouteLookup(ss, ip), RouteLookup(tt, ip);
            && (r.None? <==> t.None?)
            && (r.Some? ==> ss[r.value].pub == tt[t.value].pub)
  {
    assert PairingOf(p, tt, ss).Paired?;
    NoBetterThan(p, ss, tt, ip);
    NoBetterThan(p, tt, ss, ip);
    var b := BestRoute(tt, ip, |tt|);
    if b.slot.Some? {
      var i := Twin(p, tt, ss, b.slot.value, ip);
      LongestWins(p, ss, tt, ip, i);
    }
  }

  /** For every accepted configuration file with separate peers and any two runs on it: whenever
      the same peers are connected, a destination is routed to the same one of them. */
  lemma RoutingFollowsConfiguration(rd: Reader, es: seq<YamlEvent>, n: Node, inputs: seq<Input>, inputs': seq<Input>,
                                    ip: nat)
    requires ReaderHealth(rd).Sound? && Initial(n) && n.params.peers == PeersOf(Load(rd, Start(), es).peers)
    requires SeparatePeers(n.params.peers)
    requires SamePeers(Steps.Run(n, inputs).sessions, Steps.Run(n, inputs').sessions)
    ensures var ss, tt := Steps.Run(n, inputs).sessions, Steps.Run(n, inputs').sessions;
            var r, t := RouteLookup(ss, ip), RouteLookup(tt, ip);
            && CanonicalRoutes(ss)
            && (r.None? <==> t.None?)
            && (r.Some? ==> ss[r.value].pub == tt[t.value].pub)
  {
    LoadedPeersCanonical(rd, es);
    var ss, tt := Steps.Run(n, inputs).sessions, Steps.Run(n, inputs').sessions;
    SessionTable(n, inputs, 0, Addr(0, 0));
    SessionTable(n, inputs', 0, Addr(0, 0));
    DrawnIsCanonical(n.params, ss);
    assert PairingOf(n.params, ss, tt).Paired?;
    RoutedToSamePeer(n.params, ss, tt, ip);
  }
}
