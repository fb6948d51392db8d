/** load_config: the machine that reads the YAML event stream and fills the peer table.

    What the C library makes of a scalar - a public key from hex digits, an address and a length
    from CIDR notation, a resolved endpoint - comes in through a `Reader`. */
module Config {
  import opened Options
  import opened Bits
  import opened Crypto
  import opened Prefixes
  import opened Tables

  datatype YamlEvent =
    | Scalar(text: string)
    | SeqStart
    | SeqEnd
    | MapStart
    | MapEnd
    | StreamEnd
    | Marker              // document and stream starts, document ends, aliases
    | ParseError

  datatype Reader = Reader(key: string -> Option<Bytes>, address: string -> Option<nat>,
                           length: string -> Option<int>, endpoint: string -> Option<Addr>)

  /** Keys have 32 bytes and addresses 32 bits, as hex_to_bytes and inet_pton guarantee. */
  ghost predicate Sane(rd: Reader) {
    && (forall s :: rd.key(s).Some? ==> |rd.key(s).value| == KEY_LEN)
    && (forall s :: rd.address(s).Some? ==> rd.address(s).value < U32)
  }

  datatype Place = Root | RootVal | PeersSeq | PeerMap | PeerVal | AllowedIps

  datatype Entry = Entry(pub: Bytes, routes: seq<Prefix>, endpoint: Option<Addr>)

  datatype Loader = Loader(place: Place, key: string, peerKey: string, ok: bool, done: bool,
                           settings: map<string, string>, peers: seq<Entry>)

  function BlankEntry(): Entry {
    Entry(seq(KEY_LEN, _ => Lit(0)), [], None)
  }

  function Start(): Loader {
    Loader(Root, "", "", true, false, map[], [])
  }

  function Take(s: string, n: nat): string {
    if |s| <= n then s else s[..n]
  }

  /** Text settings are cut to their buffer, numbers are read from the whole scalar, and other
      keys are ignored. */
  datatype Room = Ignored | Whole | Cut(n: nat)

  function RoomFor(key: string): Room {
    if key == "interface" then Cut(15)
    else if key == "address" then Cut(63)
    else if key == "private_key_file" || key == "pre_shared_key" then Cut(255)
    else if key in NUMBERS || key == "verbose" then Whole
    else Ignored
  }

  const NUMBERS := {"port", "keepalive_interval", "rekey_after", "reconnect_interval", "session_expiry",
                    "prev_key_grace", "handshake_timeout", "handshake_cooldown"}

  function Assign(settings: map<string, string>, key: string, v: string): map<string, string> {
    match RoomFor(key)
    case Ignored => settings
    case Whole => if key == "verbose" && v != "true" then settings else settings[key := v]
    case Cut(n) => settings[key := Take(v, n)]
  }

  function SetLast(peers: seq<Entry>, e: Entry): (r: seq<Entry>)
    requires |peers| > 0
    ensures |r| == |peers|
  {
    peers[|peers| - 1 := e]
  }

  /** One scalar value inside a peer's map. */
  function PeerValue(rd: Reader, l: Loader, v: string): Loader
    requires |l.peers| > 0
  {
    var e := l.peers[|l.peers| - 1];
    if l.peerKey == "public_key" then
      match rd.key(v)
      case None => l.(ok := false)
      case Some(pub) => l.(place := PeerMap, peers := SetLast(l.peers, e.(pub := pub)))
    else if l.peerKey == "endpoint" then
      match rd.endpoint(v)
      case None => l.(ok := false)
      case Some(addr) => l.(place := PeerMap, peers := SetLast(l.peers, e.(endpoint := Some(addr))))
    else l.(place := PeerMap)
  }

  function AddRoute(rd: Reader, l: Loader, v: string): Loader
    requires |l.peers| > 0
  {
    var e := l.peers[|l.peers| - 1];
    if |e.routes| >= MAX_ROUTES then l.(ok := false)
    else
      match ParseCidr(rd.address(v), rd.length(v))
      case None => l.(ok := false)
      case Some(p) => l.(peers := SetLast(l.peers, e.(routes := e.routes + [p])))
  }

  predicate InPeer(place: Place) {
    place.PeerMap? || place.PeerVal? || place.AllowedIps?
  }

  /** One round of the switch. */
  function Advance(rd: Reader, l: Loader, ev: YamlEvent): Loader
    requires InPeer(l.place) ==> |l.peers| > 0
  {
    match l.place
    case Root => if ev.Scalar? then l.(place := RootVal, key := Take(ev.text, 63)) else l
    case RootVal =>
      if ev.Scalar? then l.(place := Root, settings := Assign(l.settings, l.key, ev.text))
      else if ev.SeqStart? && l.key == "peers" then l.(place := PeersSeq)
      else l
    case PeersSeq =>
      if ev.SeqEnd? then l.(place := Root)
      else if ev.MapStart? then
        if |l.peers| >= MAX_PEERS then l.(ok := false)
        else l.(place := PeerMap, peers := l.peers + [BlankEntry()])
      else l
    case PeerMap =>
      if ev.MapEnd? then l.(place := PeersSeq)
      else if ev.Scalar? then l.(place := PeerVal, peerKey := Take(ev.text, 63))
      else l
    case PeerVal =>
      if ev.Scalar? then PeerValue(rd, l, ev.text)
      else if ev.SeqStart? && l.peerKey == "allowed_ips" then l.(place := AllowedIps)
      else l
    case AllowedIps =>
      if ev.SeqEnd? then l.(place := PeerMap)
      else if ev.Scalar? then AddRoute(rd, l, ev.text)
      else l
  }

  function LoadStep(rd: Reader, l: Loader, ev: YamlEvent): Loader
    requires InPeer(l.place) ==> |l.peers| > 0
  {
    if ev.ParseError? then l.(ok := false) else Advance(rd, l, ev).(done := ev.StreamEnd?)
  }

  // ----- every stream -------------------------------------------------------------------------

  ghost predicate GoodEntry(e: Entry) {
    && |e.pub| == KEY_LEN && |e.routes| <= MAX_ROUTES
    && forall j | 0 <= j < |e.routes| :: Canonical(e.routes[j])
  }

  /** At most 64 peers with at most 16 routes each, all routes canonical, and a place inside a
      peer's map only when there is a peer. */
  ghost predicate Good(l: Loader) {
    && |l.peers| <= MAX_PEERS
    && (InPeer(l.place) ==> |l.peers| > 0)
    && forall c | 0 <= c < |l.peers| :: GoodEntry(l.peers[c])
  }

  /** Both as values: a chain of lemmas hands them on without unfolding them. */
  ghost function ReaderHealth(rd: Reader): Health {
    if Sane(rd) then Sound else Broken
  }

  ghost function LoaderHealth(l: Loader): Health {
    if Good(l) then Sound else Broken
  }

  lemma AddRouteKeepsGood(rd: Reader, l: Loader, v: string)
    requires ReaderHealth(rd).Sound? && LoaderHealth(l).Sound? && |l.peers| > 0
    ensures LoaderHealth(AddRoute(rd, l, v)).Sound?
  {
    ParsedIsCanonical(rd.address(v), rd.length(v));
  }

  lemma StepKeepsGood(rd: Reader, l: Loader, ev: YamlEvent)
    requires ReaderHealth(rd).Sound? && LoaderHealth(l).Sound?
    ensures LoaderHealth(LoadStep(rd, l, ev)).Sound?
  {
    if l.place.AllowedIps? && ev.Scalar? {
      AddRouteKeepsGood(rd, l, ev.text);
    }
  }

  /** The loop: it stops at an error or at the end of the stream. */
  ghost function Load(rd: Reader, l: Loader, es: seq<YamlEvent>): (r: Loader)
    requires ReaderHealth(rd).Sound? && LoaderHealth(l).Sound?
    ensures LoaderHealth(r).Sound?
    decreases |es|
  {
    StepKeepsGood(rd, l, if es == [] then Marker else es[0]);
    if es == [] || !l.ok || l.done then l else Load(rd, LoadStep(rd, l, es[0]), es[1..])
  }

  lemma {:induction false} LoadAppend(rd: Reader, l: Loader, es: seq<YamlEvent>, fs: seq<YamlEvent>)
    requires ReaderHealth(rd).Sound? && LoaderHealth(l).Sound?
    ensures Load(rd, l, es + fs) == Load(rd, Load(rd, l, es), fs)
    decreases |es|
  {
    if es == [] {
      assert es + fs == fs;
    } else if l.ok && !l.done {
      assert (es + fs)[0] == es[0] && (es + fs)[1..] == es[1..] + fs;
      StepKeepsGood(rd, l, es[0]);
      LoadAppend(rd, LoadStep(rd, l, es[0]), es[1..], fs);
    }
  }

  // ----- the loop in place --------------------------------------------------------------------

  /** The machine as load_config runs it, filling the peer table in place. */
  class Machine {
    const configs: array<Entry>
    var count: nat
    var place: Place
    var key: string
    var peerKey: string
    var ok: bool
    var done: bool
    var settings: map<string, string>

    ghost function State(): Loader
      requires count <= configs.Length
      reads this, configs
    {
      Loader(place, key, peerKey, ok, done, settings, configs[..count])
    }

    ghost predicate Valid()
      reads this, configs
    {
      configs.Length == MAX_PEERS && count <= MAX_PEERS && LoaderHealth(State()).Sound?
    }

    constructor ()
      ensures Valid() && State() == Start() && fresh(configs)
    {
      configs := new Entry[MAX_PEERS](_ => BlankEntry());
      count, place, key, peerKey, ok, done, settings := 0, Root, "", "", true, false, map[];
    }

    /** A store into the entry that is being read. */
    method PutLast(e: Entry)
      requires count <= configs.Length && count > 0
      modifies configs
      ensures State() == old(State()).(peers := SetLast(old(State()).peers, e))
    {
      configs[count - 1] := e;
      assert configs[..count] == old(configs[..count])[count - 1 := e];
    }

    method OnPeerValue(rd: Reader, v: string)
      requires Valid() && count > 0
      modifies configs, this`ok, this`place
      ensures State() == PeerValue(rd, old(State()), v)
    {
      var e := configs[count - 1];
      if peerKey == "public_key" {
        var pub := rd.key(v);
        if pub.None? {
          ok := false;
          return;
        }
        PutLast(e.(pub := pub.value));
      } else if peerKey == "endpoint" {
        var addr := rd.endpoint(v);
        if addr.None? {
          ok := false;
          return;
        }
        PutLast(e.(endpoint := Some(addr.value)));
      }
      place := PeerMap;
    }

    method OnRoute(rd: Reader, v: string)
      requires Valid() && count > 0
      modifies configs, this`ok
      ensures State() == AddRoute(rd, old(State()), v)
    {
      var e := configs[count - 1];
      if |e.routes| >= MAX_ROUTES {
        ok := false;
        return;
      }
      var p := ParseCidr(rd.address(v), rd.length(v));
      if p.None? {
        ok := false;
        return;
      }
      PutLast(e.(routes := e.routes + [p.value]));
    }

    method OnPeerStart()
      requires Valid() && place.PeersSeq?
      modifies configs, this`count, this`ok, this`place
      ensures configs.Length == MAX_PEERS && count <= MAX_PEERS
      ensures forall rd :: State() == Advance(rd, old(State()), MapStart)
    {
      if count >= MAX_PEERS {
        ok := false;
      } else {
        configs[count] := BlankEntry();
        assert configs[..count + 1] == old(configs[..count]) + [BlankEntry()];
        count := count + 1;
        place := PeerMap;
      }
    }

    /** One round of the loop. */
    method Handle(rd: Reader, ev: YamlEvent)
      requires ReaderHealth(rd).Sound? && Valid()
      modifies this, configs
      ensures Valid()
      ensures State() == LoadStep(rd, old(State()), ev)
    {
      StepKeepsGood(rd, State(), ev);
      if ev.ParseError? {
        ok := false;
        return;
      }
      match place {
        case Root =>
          if ev.Scalar? {
            place, key := RootVal, Take(ev.text, 63);
          }
        case RootVal =>
          if ev.Scalar? {
            place, settings := Root, Assign(settings, key, ev.text);
          } else if ev.SeqStart? && key == "peers" {
            place := PeersSeq;
          }
        case PeersSeq =>
          if ev.SeqEnd? {
            place := Root;
          } else if ev.MapStart? {
            OnPeerStart();
          }
        case PeerMap =>
          if ev.MapEnd? {
            place := PeersSeq;
          } else if ev.Scalar? {
            place, peerKey := PeerVal, Take(ev.text, 63);
          }
        case PeerVal =>
          if ev.Scalar? {
            OnPeerValue(rd, ev.text);
          } else if ev.SeqStart? && peerKey == "allowed_ips" {
            place := AllowedIps;
          }
        case AllowedIps =>
          if ev.SeqEnd? {
            place := PeerMap;
          } else if ev.Scalar? {
            OnRoute(rd, ev.text);
          }
      }
      done := ev.StreamEnd?;
    }

    method LoadAll(rd: Reader, es: seq<YamlEvent>)
      requires ReaderHealth(rd).Sound? && Valid()
      modifies this, configs
      ensures Valid()
      ensures State() == Load(rd, old(State()), es)
    {
      ghost var l := State();
      var i := 0;
      while i < |es| && ok && !done
        invariant 0 <= i <= |es| && Valid()
        invariant Load(rd, l, es) == Load(rd, State(), es[i..])
      {
        assert es[i..][0] == es[i] && es[i..][1..] == es[i + 1..];
        Handle(rd, es[i]);
        i := i + 1;
      }
    }
  }
}
