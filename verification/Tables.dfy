/** The tables of src/peer.c and the events that change them.

    peer_config_t is split in two: `Peer` holds what the configuration fixes and `Target` what a
    run changes. Slots of `sessions` beyond session_slots have never been used, so the sequence is
    as long as session_slots. */
module Tables {
  import opened Options
  import opened Crypto
  import opened Handshake
  import opened Replay
  import opened Prefixes

  const MAX_PEERS := 64
  const MAX_ROUTES := 16
  const TICK_SECS := 10

  datatype Addr = Addr(ip: nat, port: nat)

  datatype Peer = Peer(pub: Bytes, routes: seq<Prefix>, hasEndpoint: bool)

  datatype Target = Target(endpoint: Addr, lastAttempt: int)

  /** Everything a run does not change: our static key, the PSK, the timers and the peers. */
  datatype Params = Params(me: nat, psk: Option<Bytes>,
                           rekeyAfter: int, reconnect: int, expiry: int, grace: int,
                           timeout: int, cooldown: int, keepalive: int,
                           peers: seq<Peer>)

  /** The checks that main makes before it starts, and the table sizes. */
  ghost predicate ValidParams(p: Params) {
    && p.rekeyAfter > 0 && p.reconnect > 0 && p.expiry > p.rekeyAfter && p.grace > 0
    && p.timeout > 0 && p.cooldown > 0 && p.keepalive > 0
    && 0 < |p.peers| <= MAX_PEERS
    && forall c | 0 <= c < |p.peers| :: |p.peers[c].pub| == KEY_LEN
  }

  datatype Session = Session(active: bool, addr: Addr, pub: Bytes,
                             key: Bytes, prevKey: Bytes, prevActive: bool, prevExpires: int,
                             lastSeen: int, lastSent: int, lastHandshake: int, rekeyDeadline: int,
                             rekeying: bool, sendSeq: nat, recvHighest: nat, recvWindow: Window,
                             routes: seq<Prefix>, outbound: bool)

  /** A slot of zeroed memory. */
  function BlankSession(): Session {
    Session(false, Addr(0, 0), [], [], [], false, 0, 0, 0, 0, 0, false, 0, 0, ZeroWindow(WINDOW_WORDS), [], false)
  }

  datatype Pending = Pending(active: bool, cfg: nat, sentAt: int, eph: nat, hs: ClientState, server: Addr)

  datatype Origin = FromTun | Keepalive | Relayed(from: nat)

  datatype Sink = ToTun | ToPeer(slot: nat)

  /** One change of the node's state, or one visible action. A run of the event loop is a log of
      these; `now` is the clock reading of the step and `eph` counts our ephemeral keys. */
  datatype Event =
    | Ticked(now: int)
    | Attempted(cfg: nat, now: int, endpoint: Addr)
    | Greeted(entry: nat, cfg: nat, now: int, eph: nat, dst: Addr, wire: Bytes)
    | Rekeying(slot: nat)
    | Dropped(entry: nat)
    | Expired(slot: nat, now: int)
    | Sent(slot: nat, dst: Addr, key: Bytes, q: nat, payload: seq<Byte>, wire: Bytes, ok: bool, now: int,
           origin: Origin)
    | Replied(dst: Addr, wire: Bytes)
    | Refreshed(ok: bool)
    | Installed(slot: nat, addr: Addr, pub: Bytes, key: Bytes, cfg: nat, outbound: bool, now: int, eph: nat,
                peerEph: Bytes)
    | Touched(slot: nat, now: int)
    | Opened(slot: nat, key: Bytes, prev: bool, now: int, src: Addr, wire: Bytes)
    | Checked(slot: nat, key: Bytes, q: nat, payload: seq<Byte>, ok: bool, src: Addr, wire: Bytes)
    | Delivered(slot: nat, pub: Bytes, key: Bytes, q: nat, prev: bool, payload: seq<Byte>, sink: Sink)

  type Log = seq<Event>

  datatype Node = Node(params: Params, targets: seq<Target>, sessions: seq<Session>, pending: seq<Pending>,
                       precomp: nat, nextEph: nat, lastCheck: int, log: Log)

  function OwnStatic(p: Params): Secret {
    Static(p.me)
  }

  function OwnEph(p: Params, n: nat): Secret {
    Ephemeral(p.me, n)
  }

  // ----- finding things -----------------------------------------------------------------------

  /** find_peer_config: the first configuration with that key. */
  function FindPeer(peers: seq<Peer>, pub: Bytes, i: nat := 0): (r: Option<nat>)
    requires i <= |peers|
    ensures r.Some? ==> i <= r.value < |peers| && peers[r.value].pub == pub
    ensures r.Some? ==> forall c :: i <= c < r.value ==> peers[c].pub != pub
    ensures r.None? ==> forall c :: i <= c < |peers| ==> peers[c].pub != pub
    decreases |peers| - i
  {
    if i == |peers| then None
    else if peers[i].pub == pub then Some(i)
    else FindPeer(peers, pub, i + 1)
  }

  predicate HasPub(s: Session, pub: Bytes) {
    s.active && s.pub == pub
  }

  predicate HasAddr(s: Session, addr: Addr) {
    s.active && s.addr == addr
  }

  /** find_session_by_pub: the first active session with that key. */
  function FindByPub(ss: seq<Session>, pub: Bytes, i: nat := 0): (r: Option<nat>)
    requires i <= |ss|
    ensures r.Some? ==> i <= r.value < |ss| && HasPub(ss[r.value], pub)
    ensures r.Some? ==> forall k :: i <= k < r.value ==> !HasPub(ss[k], pub)
    ensures r.None? ==> forall k :: i <= k < |ss| ==> !HasPub(ss[k], pub)
    decreases |ss| - i
  {
    if i == |ss| then None
    else if HasPub(ss[i], pub) then Some(i)
    else FindByPub(ss, pub, i + 1)
  }

  /** find_session_by_addr: the first active session at that address. */
  function FindByAddr(ss: seq<Session>, addr: Addr, i: nat := 0): (r: Option<nat>)
    requires i <= |ss|
    ensures r.Some? ==> i <= r.value < |ss| && HasAddr(ss[r.value], addr)
    ensures r.Some? ==> forall k :: i <= k < r.value ==> !HasAddr(ss[k], addr)
    ensures r.None? ==> forall k :: i <= k < |ss| ==> !HasAddr(ss[k], addr)
    decreases |ss| - i
  {
    if i == |ss| then None
    else if HasAddr(ss[i], addr) then Some(i)
    else FindByAddr(ss, addr, i + 1)
  }

  function FindInactive(ss: seq<Session>, i: nat := 0): (r: Option<nat>)
    requires i <= |ss|
    ensures r.Some? ==> i <= r.value < |ss| && !ss[r.value].active
    ensures r.Some? ==> forall k :: i <= k < r.value ==> ss[k].active
    ensures r.None? ==> forall k :: i <= k < |ss| ==> ss[k].active
    decreases |ss| - i
  {
    if i == |ss| then None
    else if !ss[i].active then Some(i)
    else FindInactive(ss, i + 1)
  }

  /** alloc_session: the slot with that key, else the first one at that address, else a free one,
      else the next unused one. */
  function Alloc(ss: seq<Session>, pub: Bytes, addr: Addr): (r: Option<nat>)
    requires |ss| <= MAX_PEERS
    ensures r.Some? ==> r.value <= |ss| && r.value < MAX_PEERS
    ensures r.None? ==> |ss| == MAX_PEERS && forall k :: 0 <= k < |ss| ==> ss[k].active && ss[k].pub != pub
    ensures r.Some? ==> forall k :: 0 <= k < |ss| && k != r.value && HasPub(ss[k], pub) ==>
                                    r.value < |ss| && HasPub(ss[r.value], pub)
  {
    var byPub := FindByPub(ss, pub);
    var byAddr := FindByAddr(ss, addr);
    var free := FindInactive(ss);
    if byPub.Some? then byPub
    else if byAddr.Some? then byAddr
    else if free.Some? then free
    else if |ss| >= MAX_PEERS then None
    else Some(|ss|)
  }

  /** Which slot it is, said without the searches. */
  lemma AllocChooses(ss: seq<Session>, pub: Bytes, addr: Addr, k: nat)
    requires |ss| <= MAX_PEERS && k < |ss|
    ensures var r := Alloc(ss, pub, addr);
            && (HasPub(ss[k], pub) ==> r.Some? && r.value <= k && HasPub(ss[r.value], pub))
            && (HasAddr(ss[k], addr) ==>
                  && r.Some? && r.value < |ss| && ss[r.value].active
                  && (ss[r.value].pub == pub || (r.value <= k && ss[r.value].addr == addr)))
            && (!ss[k].active ==>
                  && r.Some? && r.value < |ss|
                  && (HasPub(ss[r.value], pub) || HasAddr(ss[r.value], addr) || (r.value <= k && !ss[r.value].active)))
            && (r == Some(k) && !ss[k].active ==>
                  forall j | 0 <= j < |ss| :: !HasPub(ss[j], pub) && !HasAddr(ss[j], addr))
  {
  }

  predicate PendingFrom(p: Pending, src: Addr) {
    p.active && p.server == src
  }

  /** The pending handshake whose server address is `src`, in table order. */
  function FindPending(ps: seq<Pending>, src: Addr, i: nat := 0): (r: Option<nat>)
    requires i <= |ps|
    ensures r.Some? ==> i <= r.value < |ps| && PendingFrom(ps[r.value], src)
    ensures r.Some? ==> forall k :: i <= k < r.value ==> !PendingFrom(ps[k], src)
    ensures r.None? ==> forall k :: i <= k < |ps| ==> !PendingFrom(ps[k], src)
    decreases |ps| - i
  {
    if i == |ps| then None
    else if PendingFrom(ps[i], src) then Some(i)
    else FindPending(ps, src, i + 1)
  }

  function FindFreeEntry(ps: seq<Pending>, i: nat := 0): (r: Option<nat>)
    requires i <= |ps|
    ensures r.Some? ==> i <= r.value < |ps| && !ps[r.value].active
    ensures r.Some? ==> forall k :: i <= k < r.value ==> ps[k].active
    ensures r.None? ==> forall k :: i <= k < |ps| ==> ps[k].active
    decreases |ps| - i
  {
    if i == |ps| then None
    else if !ps[i].active then Some(i)
    else FindFreeEntry(ps, i + 1)
  }

  /** The searches look at activity, key and address only. */
  lemma {:induction false} FindSame(ss: seq<Session>, tt: seq<Session>, pub: Bytes, addr: Addr, i: nat)
    requires |ss| == |tt| && i <= |ss|
    requires forall k | 0 <= k < |ss| ::
               ss[k].active == tt[k].active && ss[k].pub == tt[k].pub && ss[k].addr == tt[k].addr
    ensures FindByPub(ss, pub, i) == FindByPub(tt, pub, i) && FindByAddr(ss, addr, i) == FindByAddr(tt, addr, i)
    ensures FindInactive(ss, i) == FindInactive(tt, i)
    decreases |ss| - i
  {
    if i < |ss| {
      FindSame(ss, tt, pub, addr, i + 1);
    }
  }
}
