/** A configuration document, the events it is read as, and what load_config makes of it. The keys of
    the document and of a peer may come in any order and more than once. */
module ConfigDoc {
  import opened Options
  import opened Crypto
  import opened Prefixes
  import opened Tables
  import opened Config

  /** A key of a peer with its value, or its list of allowed addresses. */
  datatype Field = Value(key: string, text: string) | Allowed(cidrs: seq<string>)

  type PeerDoc = seq<Field>

  /** A top-level key with its value, or a list of peers. */
  datatype Section = Setting(key: string, text: string) | Peers(peers: seq<PeerDoc>)

  type Doc = seq<Section>

  // ----- the events of a document -------------------------------------------------------------

  function Scalars(ts: seq<string>): (es: seq<YamlEvent>) {
    if ts == [] then [] else [Scalar(ts[0])] + Scalars(ts[1..])
  }

  function FieldEvents(f: Field): seq<YamlEvent> {
    match f
    case Value(key, text) => [Scalar(key), Scalar(text)]
    case Allowed(cidrs) => [Scalar("allowed_ips"), SeqStart] + (Scalars(cidrs) + [SeqEnd])
  }

  function FieldsEvents(fs: PeerDoc): seq<YamlEvent> {
    if fs == [] then [] else FieldsEvents(fs[..|fs| - 1]) + FieldEvents(fs[|fs| - 1])
  }

  function PeerEvents(p: PeerDoc): seq<YamlEvent> {
    [MapStart] + (FieldsEvents(p) + [MapEnd])
  }

  function PeersEvents(ps: seq<PeerDoc>): seq<YamlEvent> {
    if ps == [] then [] else PeersEvents(ps[..|ps| - 1]) + PeerEvents(ps[|ps| - 1])
  }

  function SectionEvents(s: Section): seq<YamlEvent> {
    match s
    case Setting(key, text) => [Scalar(key), Scalar(text)]
    case Peers(peers) => [Scalar("peers"), SeqStart] + (PeersEvents(peers) + [SeqEnd])
  }

  function SectionsEvents(d: Doc): seq<YamlEvent> {
    if d == [] then [] else SectionsEvents(d[..|d| - 1]) + SectionEvents(d[|d| - 1])
  }

  function DocEvents(d: Doc): seq<YamlEvent> {
    [Marker, Marker, MapStart] + (SectionsEvents(d) + [MapEnd, Marker, StreamEnd])
  }

  /** The text, or as much of it as there is room for. */
  function Clipped(s: string, room: Option<nat>): string {
    if room.Some? && |s| > room.value then s[..room.value] else s
  }

  // ----- what a document means ----------------------------------------------------------------

  function CidrOf(rd: Reader, t: string): Option<Prefix> {
    ParseCidr(rd.address(t), rd.length(t))
  }

  predicate CidrsReadable(rd: Reader, ts: seq<string>) {
    forall j | 0 <= j < |ts| :: CidrOf(rd, ts[j]).Some?
  }

  function Cidrs(rd: Reader, ts: seq<string>): (ps: seq<Prefix>)
    requires CidrsReadable(rd, ts)
  {
    if ts == [] then [] else [CidrOf(rd, ts[0]).value] + Cidrs(rd, ts[1..])
  }

  /** Keys are cut to the buffer they are read into. */
  predicate IsKey(f: Field) {
    f.Value? && Clipped(f.key, Some(63)) == "public_key"
  }

  predicate IsEndpoint(f: Field) {
    f.Value? && Clipped(f.key, Some(63)) == "endpoint"
  }

  predicate FieldReadable(rd: Reader, f: Field) {
    && (IsKey(f) ==> rd.key(f.text).Some?)
    && (IsEndpoint(f) ==> rd.endpoint(f.text).Some?)
    && (f.Allowed? ==> CidrsReadable(rd, f.cidrs))
  }

  /** All allowed addresses of a peer, list after list. */
  function AllCidrs(fs: PeerDoc): seq<string> {
    if fs == [] then []
    else AllCidrs(fs[..|fs| - 1]) + if fs[|fs| - 1].Allowed? then fs[|fs| - 1].cidrs else []
  }

  predicate FieldsReadable(rd: Reader, fs: PeerDoc) {
    forall i | 0 <= i < |fs| :: FieldReadable(rd, fs[i])
  }

  predicate Readable(rd: Reader, fs: PeerDoc) {
    FieldsReadable(rd, fs) && |AllCidrs(fs)| <= 16
  }

  /** The last value counts; a peer without a key has zeros. */
  function LastKey(rd: Reader, fs: PeerDoc): Bytes
    requires FieldsReadable(rd, fs)
  {
    if fs == [] then BlankEntry().pub
    else
      var f := fs[|fs| - 1];
      assert FieldReadable(rd, f);
      if IsKey(f) then rd.key(f.text).value else LastKey(rd, fs[..|fs| - 1])
  }

  function LastEndpoint(rd: Reader, fs: PeerDoc): Option<Addr>
    requires FieldsReadable(rd, fs)
  {
    if fs == [] then None
    else if IsEndpoint(fs[|fs| - 1]) then rd.endpoint(fs[|fs| - 1].text)
    else LastEndpoint(rd, fs[..|fs| - 1])
  }

  lemma {:induction false} AllCidrsReadable(rd: Reader, fs: PeerDoc)
    requires FieldsReadable(rd, fs)
    ensures CidrsReadable(rd, AllCidrs(fs))
  {
    if fs != [] {
      AllCidrsReadable(rd, fs[..|fs| - 1]);
    }
  }

  function EntryOf(rd: Reader, fs: PeerDoc): Entry
    requires Readable(rd, fs)
  {
    AllCidrsReadable(rd, fs);
    Entry(LastKey(rd, fs), Cidrs(rd, AllCidrs(fs)), LastEndpoint(rd, fs))
  }

  predicate AllReadable(rd: Reader, ps: seq<PeerDoc>) {
    forall c | 0 <= c < |ps| :: Readable(rd, ps[c])
  }

  function Entries(rd: Reader, ps: seq<PeerDoc>): (es: seq<Entry>)
    requires AllReadable(rd, ps)
    ensures |es| == |ps|
  {
    seq(|ps|, c requires 0 <= c < |ps| => EntryOf(rd, ps[c]))
  }

  /** All peers of a document, list after list. */
  function AllPeers(d: Doc): seq<PeerDoc> {
    if d == [] then [] else AllPeers(d[..|d| - 1]) + if d[|d| - 1].Peers? then d[|d| - 1].peers else []
  }

  /** Every setting in turn, so that the last value counts. */
  function AssignAll(d: Doc): map<string, string> {
    if d == [] then map[]
    else
      var settings, s := AssignAll(d[..|d| - 1]), d[|d| - 1];
      if s.Setting? then Assign(settings, Take(s.key, 63), s.text) else settings
  }

  // ----- reading it ---------------------------------------------------------------------------

  lemma LoadCons(rd: Reader, l: Loader, ev: YamlEvent, es: seq<YamlEvent>)
    requires ReaderHealth(rd).Sound? && LoaderHealth(l).Sound? && l.ok && !l.done
    ensures LoaderHealth(LoadStep(rd, l, ev)).Sound?
    ensures Load(rd, l, [ev] + es) == Load(rd, LoadStep(rd, l, ev), es)
  {
    StepKeepsGood(rd, l, ev);
    assert ([ev] + es)[1..] == es;
  }

  lemma LoadTwo(rd: Reader, l: Loader, a: YamlEvent, b: YamlEvent)
    requires ReaderHealth(rd).Sound? && LoaderHealth(l).Sound? && l.ok && !l.done
    requires LoadStep(rd, l, a).ok && !LoadStep(rd, l, a).done
    ensures LoaderHealth(LoadStep(rd, l, a)).Sound?
    ensures Load(rd, l, [a, b]) == LoadStep(rd, LoadStep(rd, l, a), b)
  {
    assert [a, b] == [a] + [b];
    LoadCons(rd, l, a, [b]);
    assert [b] == [b] + [];
    LoadCons(rd, LoadStep(rd, l, a), b, []);
  }

  lemma {:induction false} Stopped(rd: Reader, l: Loader, es: seq<YamlEvent>)
    requires ReaderHealth(rd).Sound? && LoaderHealth(l).Sound? && (!l.ok || l.done)
    ensures Load(rd, l, es) == l
  {
  }

  /** An entry with these routes added, if they can be read and fit. */
  function WithRoutes(rd: Reader, e: Entry, ts: seq<string>): Option<Entry> {
    if |e.routes| + |ts| > MAX_ROUTES || !CidrsReadable(rd, ts) then None
    else Some(e.(routes := e.routes + Cidrs(rd, ts)))
  }

  lemma {:induction false} AllowedLoad(rd: Reader, l: Loader, ts: seq<string>)
    requires ReaderHealth(rd).Sound? && LoaderHealth(l).Sound? && l.ok && !l.done && l.place.AllowedIps?
    ensures var r, e := Load(rd, l, Scalars(ts)), WithRoutes(rd, l.peers[|l.peers| - 1], ts);
            && (r.ok <==> e.Some?)
            && (r.ok ==> r == l.(peers := SetLast(l.peers, e.value)))
    decreases |ts|
  {
    var e := l.peers[|l.peers| - 1];
    if ts == [] {
      assert SetLast(l.peers, e.(routes := e.routes + [])) == l.peers by {
        assert e.routes + [] == e.routes;
      }
    } else {
      var l1 := AddRoute(rd, l, ts[0]);
      LoadCons(rd, l, Scalar(ts[0]), Scalars(ts[1..]));
      assert LoadStep(rd, l, Scalar(ts[0])) == l1;
      if !l1.ok {
        Stopped(rd, l1, Scalars(ts[1..]));
      } else {
        AllowedLoad(rd, l1, ts[1..]);
        AllowedStep(rd, e.routes, ts);
      }
    }
  }

  lemma AllowedStep(rd: Reader, routes: seq<Prefix>, ts: seq<string>)
    requires ts != [] && CidrOf(rd, ts[0]).Some?
    ensures CidrsReadable(rd, ts) <==> CidrsReadable(rd, ts[1..])
    ensures CidrsReadable(rd, ts) ==>
              routes + [CidrOf(rd, ts[0]).value] + Cidrs(rd, ts[1..]) == routes + Cidrs(rd, ts)
  {
    assert forall j | 1 <= j < |ts| :: ts[j] == ts[1..][j - 1];
  }

  /** The addresses of two lists are those of one list after the other. */
  lemma {:induction false} CidrsAppend(rd: Reader, ts: seq<string>, us: seq<string>)
    requires CidrsReadable(rd, ts) && CidrsReadable(rd, us)
    ensures CidrsReadable(rd, ts + us) && Cidrs(rd, ts + us) == Cidrs(rd, ts) + Cidrs(rd, us)
  {
    if ts == [] {
      assert ts + us == us;
    } else {
      assert (ts + us)[0] == ts[0] && (ts + us)[1..] == ts[1..] + us;
      CidrsAppend(rd, ts[1..], us);
    }
  }

  lemma ListOpens(rd: Reader, l: Loader)
    requires ReaderHealth(rd).Sound? && LoaderHealth(l).Sound? && l.ok && !l.done && l.place.PeerMap?
    ensures Load(rd, l, [Scalar("allowed_ips"), SeqStart]) == l.(place := AllowedIps, peerKey := "allowed_ips")
  {
    LoadTwo(rd, l, Scalar("allowed_ips"), SeqStart);
  }

  lemma OneLoad(rd: Reader, l: Loader, ev: YamlEvent)
    requires ReaderHealth(rd).Sound? && LoaderHealth(l).Sound? && l.ok && !l.done
    ensures Load(rd, l, [ev]) == LoadStep(rd, l, ev)
  {
    assert [ev] == [ev] + [];
    LoadCons(rd, l, ev, []);
  }

  /** One list of allowed addresses. */
  lemma RoutesLoad(rd: Reader, l: Loader, ts: seq<string>)
    requires ReaderHealth(rd).Sound? && LoaderHealth(l).Sound? && l.ok && !l.done && l.place.PeerMap?
    ensures var r, e := Load(rd, l, FieldEvents(Allowed(ts))), WithRoutes(rd, l.peers[|l.peers| - 1], ts);
            && (r.ok <==> e.Some?)
            && (r.ok ==> r == l.(peerKey := r.peerKey, peers := SetLast(l.peers, e.value)))
  {
    var open := [Scalar("allowed_ips"), SeqStart];
    LoadAppend(rd, l, open, Scalars(ts) + [SeqEnd]);
    ListOpens(rd, l);
    var l1 := Load(rd, l, open);
    LoadAppend(rd, l1, Scalars(ts), [SeqEnd]);
    AllowedLoad(rd, l1, ts);
    var l2 := Load(rd, l1, Scalars(ts));
    if !l2.ok {
      Stopped(rd, l2, [SeqEnd]);
    } else {
      ListCloses(rd, l2);
    }
  }

  lemma ListCloses(rd: Reader, l: Loader)
    requires ReaderHealth(rd).Sound? && LoaderHealth(l).Sound? && l.ok && !l.done && l.place.AllowedIps?
    ensures Load(rd, l, [SeqEnd]) == l.(place := PeerMap)
  {
    OneLoad(rd, l, SeqEnd);
  }

  lemma MapCloses(rd: Reader, l: Loader)
    requires ReaderHealth(rd).Sound? && LoaderHealth(l).Sound? && l.ok && !l.done && l.place.PeerMap?
    ensures Load(rd, l, [MapEnd]) == l.(place := PeersSeq)
  {
    OneLoad(rd, l, MapEnd);
  }

  lemma MapOpens(rd: Reader, l: Loader)
    requires ReaderHealth(rd).Sound? && LoaderHealth(l).Sound? && l.ok && !l.done && l.place.PeersSeq?
    ensures var r := Load(rd, l, [MapStart]);
            if |l.peers| < MAX_PEERS then r == l.(place := PeerMap, peers := l.peers + [BlankEntry()]) else !r.ok
  {
    OneLoad(rd, l, MapStart);
  }

  /** One key of a peer with its value. */
  lemma ValueLoad(rd: Reader, l: Loader, f: Field)
    requires ReaderHealth(rd).Sound? && LoaderHealth(l).Sound? && l.ok && !l.done && l.place.PeerMap? && f.Value?
    ensures var r, e := Load(rd, l, FieldEvents(f)), l.peers[|l.peers| - 1];
            && (r.ok <==> FieldReadable(rd, f))
            && (r.ok ==>
                  var e' := e.(pub := if IsKey(f) then rd.key(f.text).value else e.pub,
                               endpoint := if IsEndpoint(f) then rd.endpoint(f.text) else e.endpoint);
                  r == l.(peerKey := r.peerKey, peers := SetLast(l.peers, e')))
  {
    LoadTwo(rd, l, Scalar(f.key), Scalar(f.text));
    var e := l.peers[|l.peers| - 1];
    assert SetLast(l.peers, e) == l.peers;
  }

  /** What one more field does to the entry, if it can be read and there is room. */
  function Filled(rd: Reader, e: Entry, f: Field): Option<Entry> {
    if !FieldReadable(rd, f) || (f.Allowed? && |e.routes| + |f.cidrs| > MAX_ROUTES) then None
    else
      match f
      case Value(_, text) =>
        Some(e.(pub := if IsKey(f) then rd.key(text).value else e.pub,
                endpoint := if IsEndpoint(f) then rd.endpoint(text) else e.endpoint))
      case Allowed(cidrs) => Some(e.(routes := e.routes + Cidrs(rd, cidrs)))
  }

  lemma FieldLoad(rd: Reader, l: Loader, f: Field)
    requires ReaderHealth(rd).Sound? && LoaderHealth(l).Sound? && l.ok && !l.done && l.place.PeerMap?
    ensures var r, e := Load(rd, l, FieldEvents(f)), Filled(rd, l.peers[|l.peers| - 1], f);
            && (r.ok <==> e.Some?)
            && (r.ok ==> r == l.(peerKey := r.peerKey, peers := SetLast(l.peers, e.value)))
  {
    match f {
      case Value(_, _) => ValueLoad(rd, l, f);
      case Allowed(cidrs) => RoutesLoad(rd, l, cidrs);
    }
  }

  lemma {:induction false} CidrsLength(rd: Reader, ts: seq<string>)
    requires CidrsReadable(rd, ts)
    ensures |Cidrs(rd, ts)| == |ts|
  {
    if ts != [] {
      CidrsLength(rd, ts[1..]);
    }
  }

  /** What a peer's map means, if it can be read. */
  function PeerMeaning(rd: Reader, fs: PeerDoc): Option<Entry> {
    if Readable(rd, fs) then Some(EntryOf(rd, fs)) else None
  }

  lemma PeerMeaningStep(rd: Reader, fs: PeerDoc)
    requires fs != []
    ensures var front, f := fs[..|fs| - 1], fs[|fs| - 1];
            PeerMeaning(rd, fs) ==
            if PeerMeaning(rd, front).None? then None else Filled(rd, PeerMeaning(rd, front).value, f)
  {
    var front, f := fs[..|fs| - 1], fs[|fs| - 1];
    FieldsReadableStep(rd, fs);
    if FieldsReadable(rd, front) && FieldReadable(rd, f) {
      EntryStep(rd, fs);
      CidrsLength(rd, AllCidrs(front));
      assert |AllCidrs(fs)| == |AllCidrs(front)| + if f.Allowed? then |f.cidrs| else 0;
      if Readable(rd, fs) {
        FilledStep(rd, fs);
      }
    }
  }

  lemma FilledStep(rd: Reader, fs: PeerDoc)
    requires fs != [] && Readable(rd, fs) && Readable(rd, fs[..|fs| - 1])
    ensures Filled(rd, EntryOf(rd, fs[..|fs| - 1]), fs[|fs| - 1]) == Some(EntryOf(rd, fs))
  {
    EntryStep(rd, fs);
    CidrsLength(rd, AllCidrs(fs[..|fs| - 1]));
    assert FieldReadable(rd, fs[|fs| - 1]);
    assert Cidrs(rd, AllCidrs(fs[..|fs| - 1])) + [] == Cidrs(rd, AllCidrs(fs[..|fs| - 1]));
  }

  lemma FieldsReadableStep(rd: Reader, fs: PeerDoc)
    requires fs != []
    ensures FieldsReadable(rd, fs) <==> FieldsReadable(rd, fs[..|fs| - 1]) && FieldReadable(rd, fs[|fs| - 1])
  {
    assert forall i | 0 <= i < |fs| - 1 :: fs[i] == fs[..|fs| - 1][i];
  }

  lemma EntryStep(rd: Reader, fs: PeerDoc)
    requires fs != [] && FieldsReadable(rd, fs) && FieldsReadable(rd, fs[..|fs| - 1])
    ensures var front, f := fs[..|fs| - 1], fs[|fs| - 1];
            && CidrsReadable(rd, AllCidrs(fs)) && CidrsReadable(rd, AllCidrs(front))
            && Cidrs(rd, AllCidrs(fs)) == Cidrs(rd, AllCidrs(front)) + (if f.Allowed? then Cidrs(rd, f.cidrs) else [])
            && LastKey(rd, fs) == (if IsKey(f) then rd.key(f.text).value else LastKey(rd, front))
            && LastEndpoint(rd, fs) == (if IsEndpoint(f) then rd.endpoint(f.text) else LastEndpoint(rd, front))
  {
    var front, f := fs[..|fs| - 1], fs[|fs| - 1];
    AllCidrsReadable(rd, fs);
    AllCidrsReadable(rd, front);
    if f.Allowed? {
      CidrsAppend(rd, AllCidrs(front), f.cidrs);
    } else {
      assert AllCidrs(fs) == AllCidrs(front);
    }
  }

  /** The fields of a peer, read into a blank entry. */
  lemma {:induction false} FieldsLoad(rd: Reader, l: Loader, fs: PeerDoc)
    requires ReaderHealth(rd).Sound? && LoaderHealth(l).Sound? && l.ok && !l.done && l.place.PeerMap?
    requires l.peers[|l.peers| - 1] == BlankEntry()
    ensures var r, e := Load(rd, l, FieldsEvents(fs)), PeerMeaning(rd, fs);
            && (r.ok <==> e.Some?)
            && (r.ok ==> r == l.(peerKey := r.peerKey, peers := SetLast(l.peers, e.value)))
    decreases |fs|
  {
    if fs == [] {
      assert EntryOf(rd, fs) == BlankEntry();
      assert SetLast(l.peers, BlankEntry()) == l.peers;
    } else {
      var front, f := fs[..|fs| - 1], fs[|fs| - 1];
      LoadAppend(rd, l, FieldsEvents(front), FieldEvents(f));
      FieldsLoad(rd, l, front);
      PeerMeaningStep(rd, fs);
      var l1 := Load(rd, l, FieldsEvents(front));
      if !l1.ok {
        Stopped(rd, l1, FieldEvents(f));
      } else {
        FieldLoad(rd, l1, f);
      }
    }
  }

  /** A peer's map is accepted exactly if there is room and all its fields are readable, with at most
      16 prefixes in all; then exactly its entry is appended. */
  lemma PeerLoad(rd: Reader, l: Loader, p: PeerDoc)
    requires ReaderHealth(rd).Sound? && LoaderHealth(l).Sound? && l.ok && !l.done && l.place.PeersSeq?
    ensures var r, e := Load(rd, l, PeerEvents(p)), PeerMeaning(rd, p);
            && (r.ok <==> |l.peers| < MAX_PEERS && e.Some?)
            && (r.ok ==> r == l.(peerKey := r.peerKey, peers := l.peers + [e.value]))
  {
    LoadAppend(rd, l, [MapStart], FieldsEvents(p) + [MapEnd]);
    MapOpens(rd, l);
    var l1 := Load(rd, l, [MapStart]);
    if !l1.ok {
      Stopped(rd, l1, FieldsEvents(p) + [MapEnd]);
    } else {
      LoadAppend(rd, l1, FieldsEvents(p), [MapEnd]);
      FieldsLoad(rd, l1, p);
      var l2 := Load(rd, l1, FieldsEvents(p));
      if !l2.ok {
        Stopped(rd, l2, [MapEnd]);
      } else {
        MapCloses(rd, l2);
        var e := PeerMeaning(rd, p).value;
        assert SetLast(l.peers + [BlankEntry()], e) == l.peers + [e];
      }
    }
  }

  function ListMeaning(rd: Reader, ps: seq<PeerDoc>): Option<seq<Entry>> {
    if AllReadable(rd, ps) then Some(Entries(rd, ps)) else None
  }

  lemma ListMeaningAppend(rd: Reader, ps: seq<PeerDoc>, qs: seq<PeerDoc>)
    ensures var a, b := ListMeaning(rd, ps), ListMeaning(rd, qs);
            ListMeaning(rd, ps + qs) == if a.Some? && b.Some? then Some(a.value + b.value) else None
  {
    var all := ps + qs;
    assert forall c | 0 <= c < |ps| :: all[c] == ps[c];
    assert forall c | 0 <= c < |qs| :: all[|ps| + c] == qs[c];
    if AllReadable(rd, all) {
      assert Entries(rd, all) == Entries(rd, ps) + Entries(rd, qs);
    }
  }

  lemma ListMeaningOne(rd: Reader, p: PeerDoc)
    ensures var e := PeerMeaning(rd, p);
            ListMeaning(rd, [p]) == if e.Some? then Some([e.value]) else None
  {
    if Readable(rd, p) {
      assert Entries(rd, [p]) == [EntryOf(rd, p)];
    } else {
      assert !Readable(rd, [p][0]);
    }
  }

  lemma ListMeaningStep(rd: Reader, ps: seq<PeerDoc>)
    requires ps != []
    ensures var es, e := ListMeaning(rd, ps[..|ps| - 1]), PeerMeaning(rd, ps[|ps| - 1]);
            ListMeaning(rd, ps) == if es.Some? && e.Some? then Some(es.value + [e.value]) else None
  {
    assert ps[..|ps| - 1] + [ps[|ps| - 1]] == ps;
    ListMeaningAppend(rd, ps[..|ps| - 1], [ps[|ps| - 1]]);
    ListMeaningOne(rd, ps[|ps| - 1]);
  }

  lemma {:induction false} PeersLoad(rd: Reader, l: Loader, ps: seq<PeerDoc>)
    requires ReaderHealth(rd).Sound? && LoaderHealth(l).Sound? && l.ok && !l.done && l.place.PeersSeq?
    ensures var r, es := Load(rd, l, PeersEvents(ps)), ListMeaning(rd, ps);
            && (r.ok <==> |l.peers| + |ps| <= MAX_PEERS && es.Some?)
            && (r.ok ==> r == l.(peerKey := r.peerKey, peers := l.peers + es.value))
    decreases |ps|
  {
    if ps == [] {
      assert l.peers + Entries(rd, ps) == l.peers;
    } else {
      var front, p := ps[..|ps| - 1], ps[|ps| - 1];
      LoadAppend(rd, l, PeersEvents(front), PeerEvents(p));
      PeersLoad(rd, l, front);
      ListMeaningStep(rd, ps);
      var l1 := Load(rd, l, PeersEvents(front));
      if !l1.ok {
        Stopped(rd, l1, PeerEvents(p));
      } else {
        PeerLoad(rd, l1, p);
      }
    }
  }

  // ----- the whole document -------------------------------------------------------------------

  /** One list of peers. */
  lemma ListLoad(rd: Reader, l: Loader, ps: seq<PeerDoc>)
    requires ReaderHealth(rd).Sound? && LoaderHealth(l).Sound? && l.ok && !l.done && l.place.Root?
    ensures var r, es := Load(rd, l, SectionEvents(Peers(ps))), ListMeaning(rd, ps);
            && (r.ok <==> |l.peers| + |ps| <= MAX_PEERS && es.Some?)
            && (r.ok ==> r == l.(key := r.key, peerKey := r.peerKey, peers := l.peers + es.value))
  {
    var open := [Scalar("peers"), SeqStart];
    LoadAppend(rd, l, open, PeersEvents(ps) + [SeqEnd]);
    LoadTwo(rd, l, Scalar("peers"), SeqStart);
    var l1 := Load(rd, l, open);
    LoadAppend(rd, l1, PeersEvents(ps), [SeqEnd]);
    PeersLoad(rd, l1, ps);
    var l2 := Load(rd, l1, PeersEvents(ps));
    if !l2.ok {
      Stopped(rd, l2, [SeqEnd]);
    } else {
      OneLoad(rd, l2, SeqEnd);
    }
  }

  lemma SettingLoad(rd: Reader, l: Loader, key: string, text: string)
    requires ReaderHealth(rd).Sound? && LoaderHealth(l).Sound? && l.ok && !l.done && l.place.Root?
    ensures var r := Load(rd, l, SectionEvents(Setting(key, text)));
            r == l.(key := r.key, settings := Assign(l.settings, Take(key, 63), text))
  {
    LoadTwo(rd, l, Scalar(key), Scalar(text));
  }

  lemma {:induction false} SectionsLoad(rd: Reader, d: Doc)
    requires ReaderHealth(rd).Sound?
    ensures var r, es := Load(rd, Start(), SectionsEvents(d)), ListMeaning(rd, AllPeers(d));
            && (r.ok <==> |AllPeers(d)| <= MAX_PEERS && es.Some?)
            && (r.ok ==> r == Start().(key := r.key, peerKey := r.peerKey, settings := AssignAll(d), peers := es.value))
    decreases |d|
  {
    if d != [] {
      var front, s := d[..|d| - 1], d[|d| - 1];
      LoadAppend(rd, Start(), SectionsEvents(front), SectionEvents(s));
      SectionsLoad(rd, front);
      var l := Load(rd, Start(), SectionsEvents(front));
      ListMeaningAppend(rd, AllPeers(front), if s.Peers? then s.peers else []);
      if !l.ok {
        Stopped(rd, l, SectionEvents(s));
      } else if s.Peers? {
        ListLoad(rd, l, s.peers);
      } else {
        SettingLoad(rd, l, s.key, s.text);
        assert AllPeers(d) == AllPeers(front);
      }
    }
  }

  /** load_config accepts a document exactly when it has at most 64 peers in all its lists, each with
      readable keys and endpoints and at most 16 readable prefixes; and then the table holds exactly
      the peers of the document, in order, and the settings their last values. */
  lemma DocLoad(rd: Reader, d: Doc)
    requires ReaderHealth(rd).Sound?
    ensures var r := Load(rd, Start(), DocEvents(d));
            && (r.ok <==> |AllPeers(d)| <= 64 && AllReadable(rd, AllPeers(d)))
            && (r.ok ==> r.peers == Entries(rd, AllPeers(d)) && r.settings == AssignAll(d) && r.done)
  {
    var end := [MapEnd, Marker, StreamEnd];
    StartLoad(rd, SectionsEvents(d) + end);
    LoadAppend(rd, Start(), SectionsEvents(d), end);
    SectionsLoad(rd, d);
    var l := Load(rd, Start(), SectionsEvents(d));
    if !l.ok {
      Stopped(rd, l, end);
    } else {
      EndLoad(rd, l);
    }
  }

  lemma StartLoad(rd: Reader, es: seq<YamlEvent>)
    requires ReaderHealth(rd).Sound?
    ensures Load(rd, Start(), [Marker, Marker, MapStart] + es) == Load(rd, Start(), es)
  {
    assert [Marker, Marker, MapStart] + es == [Marker] + ([Marker] + ([MapStart] + es));
    LoadCons(rd, Start(), Marker, [Marker] + ([MapStart] + es));
    LoadCons(rd, Start(), Marker, [MapStart] + es);
    LoadCons(rd, Start(), MapStart, es);
  }

  lemma EndLoad(rd: Reader, l: Loader)
    requires ReaderHealth(rd).Sound? && LoaderHealth(l).Sound? && l.ok && !l.done && l.place.Root?
    ensures Load(rd, l, [MapEnd, Marker, StreamEnd]) == l.(done := true)
  {
    LoadAppend(rd, l, [MapEnd, Marker], [StreamEnd]);
    LoadTwo(rd, l, MapEnd, Marker);
    OneLoad(rd, l, StreamEnd);
  }

  // ----- a peer, by position ------------------------------------------------------------------

  /** Field `i` is the last one of its kind. */
  ghost predicate LastOf(fs: PeerDoc, kind: Field -> bool, i: nat) {
    i < |fs| && kind(fs[i]) && forall j | i < j < |fs| :: !kind(fs[j])
  }

  lemma {:induction false} LastKeyAt(rd: Reader, fs: PeerDoc, i: nat)
    requires FieldsReadable(rd, fs) && LastOf(fs, IsKey, i)
    ensures rd.key(fs[i].text) == Some(LastKey(rd, fs))
  {
    var n := |fs| - 1;
    assert FieldReadable(rd, fs[i]);
    if i < n {
      assert !IsKey(fs[n]);
      LastKeyAt(rd, fs[..n], i);
    }
  }

  lemma {:induction false} NoKeyIsZeros(rd: Reader, fs: PeerDoc)
    requires FieldsReadable(rd, fs) && forall i | 0 <= i < |fs| :: !IsKey(fs[i])
    ensures LastKey(rd, fs) == seq(32, _ => Lit(0))
  {
    if fs != [] {
      NoKeyIsZeros(rd, fs[..|fs| - 1]);
    }
  }

  /** There is an endpoint exactly if a field gives one. */
  lemma {:induction false} SomeEndpoint(rd: Reader, fs: PeerDoc)
    requires FieldsReadable(rd, fs)
    ensures LastEndpoint(rd, fs).Some? <==> exists i :: 0 <= i < |fs| && IsEndpoint(fs[i])
  {
    if fs != [] {
      var n := |fs| - 1;
      SomeEndpoint(rd, fs[..n]);
      assert FieldReadable(rd, fs[n]);
      if i :| 0 <= i < n && IsEndpoint(fs[..n][i]) {
        assert IsEndpoint(fs[i]);
      }
    }
  }

  lemma {:induction false} CidrsAt(rd: Reader, ts: seq<string>)
    requires CidrsReadable(rd, ts)
    ensures |Cidrs(rd, ts)| == |ts|
    ensures forall j | 0 <= j < |ts| :: Cidrs(rd, ts)[j] == CidrOf(rd, ts[j]).value
  {
    if ts != [] {
      CidrsAt(rd, ts[1..]);
      assert forall j | 1 <= j < |ts| :: ts[j] == ts[1..][j - 1];
    }
  }

  // ----- broken streams -----------------------------------------------------------------------

  /** An error of the parser before the end of the stream is the end of loading: the result is refused. */
  lemma {:induction false} ErrorRefused(rd: Reader, l: Loader, es: seq<YamlEvent>, i: nat)
    requires ReaderHealth(rd).Sound? && LoaderHealth(l).Sound? && !l.done
    requires i < |es| && es[i].ParseError? && forall j | 0 <= j < i :: !es[j].StreamEnd?
    ensures !Load(rd, l, es).ok
    decreases i
  {
    if l.ok {
      StepKeepsGood(rd, l, es[0]);
      var l1 := LoadStep(rd, l, es[0]);
      if i == 0 || !l1.ok {
        Stopped(rd, l1, es[1..]);
      } else {
        ErrorRefused(rd, l1, es[1..], i - 1);
      }
    }
  }

  /** Nothing is read behind the end of the stream. */
  lemma EndIsTheEnd(rd: Reader, l: Loader, es: seq<YamlEvent>, fs: seq<YamlEvent>)
    requires ReaderHealth(rd).Sound? && LoaderHealth(l).Sound?
    ensures Load(rd, l, es + [StreamEnd] + fs) == Load(rd, l, es + [StreamEnd])
  {
    LoadAppend(rd, l, es + [StreamEnd], fs);
    LoadAppend(rd, l, es, [StreamEnd]);
    var l1 := Load(rd, l, es);
    if l1.ok && !l1.done {
      OneLoad(rd, l1, StreamEnd);
    } else {
      Stopped(rd, l1, [StreamEnd]);
    }
    Stopped(rd, Load(rd, l, es + [StreamEnd]), fs);
  }

  // ----- the settings, by position ------------------------------------------------------------

  /** The section gives that setting a value. */
  predicate Sets(s: Section, key: string) {
    s.Setting? && Clipped(s.key, Some(63)) == key
  }

  ghost predicate SomeSets(d: Doc, key: string) {
    exists i: nat :: i < |d| && Sets(d[i], key)
  }

  lemma SomeSetsStep(d: Doc, key: string)
    requires d != []
    ensures SomeSets(d, key) <==> SomeSets(d[..|d| - 1], key) || Sets(d[|d| - 1], key)
  {
    var front := d[..|d| - 1];
    if i: nat :| i < |front| && Sets(front[i], key) {
      assert i < |d| && Sets(d[i], key);
    }
    if i: nat :| i < |front| && Sets(d[i], key) {
      assert i < |front| && Sets(front[i], key);
    }
  }

  /** Section `i` is the last one that does. */
  ghost predicate SetsLast(d: Doc, key: string, i: nat) {
    i < |d| && Sets(d[i], key) && forall j | i < j < |d| :: !Sets(d[j], key)
  }

  /** The buffers of the text settings; numbers are read from the whole text. */
  predicate HasRoom(key: string, room: Option<nat>) {
    match room
    case None =>
      key in {"port", "keepalive_interval", "rekey_after", "reconnect_interval", "session_expiry",
              "prev_key_grace", "handshake_timeout", "handshake_cooldown"}
    case Some(n) =>
      || (key == "interface" && n == 15)
      || (key == "address" && n == 63)
      || (key in {"private_key_file", "pre_shared_key"} && n == 255)
  }

  /** The setting has the text of the last section that gives it one, as far as there is room. */
  ghost predicate HoldsLast(settings: map<string, string>, d: Doc, key: string, room: Option<nat>) {
    && (key in settings <==> SomeSets(d, key))
    && forall i: nat | SetsLast(d, key, i) :: key in settings && settings[key] == Clipped(d[i].text, room)
  }

  /** The flag is there exactly if some section sets it to "true". */
  ghost predicate HoldsFlag(settings: map<string, string>, d: Doc, key: string) {
    && (key in settings <==> exists i: nat :: i < |d| && Sets(d[i], key) && d[i].text == "true")
    && (key in settings ==> settings[key] == "true")
  }

  /** The key got a new text, or kept what it had. */
  ghost predicate Updated(settings: map<string, string>, r: map<string, string>, key: string, text: Option<string>) {
    if text.Some? then key in r && r[key] == text.value
    else (key in r <==> key in settings) && (key in r ==> r[key] == settings[key])
  }

  /** The text that a section gives the key. */
  function Given(s: Section, key: string, room: Option<nat>): Option<string> {
    if Sets(s, key) then Some(Clipped(s.text, room)) else None
  }

  lemma AssignOne(settings: map<string, string>, s: Section, key: string, room: Option<nat>)
    requires s.Setting? && HasRoom(key, room)
    ensures Updated(settings, Assign(settings, Take(s.key, 63), s.text), key, Given(s, key, room))
  {
    if Sets(s, key) {
      RoomIsRoomFor(key, room);
    }
  }

  lemma RoomIsRoomFor(key: string, room: Option<nat>)
    requires HasRoom(key, room)
    ensures key != "verbose" && RoomFor(key) == if room.Some? then Cut(room.value) else Config.Whole
  {
  }

  lemma AssignFlag(settings: map<string, string>, s: Section)
    requires s.Setting?
    ensures var r, key := Assign(settings, Take(s.key, 63), s.text), "verbose";
            if Sets(s, key) && s.text == "true" then key in r && r[key] == "true"
            else (key in r <==> key in settings) && (key in r ==> r[key] == settings[key])
  {
  }

  lemma AssignOther(settings: map<string, string>, s: Section, key: string)
    requires s.Setting? && key != "verbose" && forall room :: !HasRoom(key, room)
    ensures key in Assign(settings, Take(s.key, 63), s.text) <==> key in settings
  {
    assert !HasRoom(key, None) && !HasRoom(key, Some(15)) && !HasRoom(key, Some(63)) && !HasRoom(key, Some(255));
  }

  lemma {:induction false} AllLast(d: Doc, key: string, room: Option<nat>)
    requires HasRoom(key, room)
    ensures HoldsLast(AssignAll(d), d, key, room)
  {
    if d != [] {
      var front, s := d[..|d| - 1], d[|d| - 1];
      AllLast(front, key, room);
      if s.Setting? {
        AssignOne(AssignAll(front), s, key, room);
      }
      LastMovesOn(d, key, AssignAll(front), AssignAll(d), room);
    }
  }

  /** What held of the front holds of the whole once the last section has been stored. */
  lemma LastMovesOn(d: Doc, key: string, settings: map<string, string>, r: map<string, string>, room: Option<nat>)
    requires d != [] && HoldsLast(settings, d[..|d| - 1], key, room)
    requires Updated(settings, r, key, Given(d[|d| - 1], key, room))
    ensures HoldsLast(r, d, key, room)
  {
    var n := |d| - 1;
    var front := d[..n];
    SomeSetsStep(d, key);
    assert forall j | 0 <= j < n :: front[j] == d[j];
    if Sets(d[n], key) {
      assert forall i: nat | SetsLast(d, key, i) :: i == n;
    } else {
      assert forall i: nat | SetsLast(d, key, i) :: SetsLast(front, key, i);
    }
  }

  lemma {:induction false} AllFlags(d: Doc)
    ensures HoldsFlag(AssignAll(d), d, "verbose")
  {
    if d != [] {
      var n := |d| - 1;
      AllFlags(d[..n]);
      assert forall j | 0 <= j < n :: d[..n][j] == d[j];
      if d[n].Setting? {
        AssignFlag(AssignAll(d[..n]), d[n]);
      }
      if i: nat :| i < n && Sets(d[..n][i], "verbose") && d[..n][i].text == "true" {
        assert i < |d| && Sets(d[i], "verbose") && d[i].text == "true";
      }
    }
  }

  lemma {:induction false} NoOthers(d: Doc, key: string)
    requires key != "verbose" && forall room :: !HasRoom(key, room)
    ensures key !in AssignAll(d)
  {
    if d != [] {
      NoOthers(d[..|d| - 1], key);
      if d[|d| - 1].Setting? {
        AssignOther(AssignAll(d[..|d| - 1]), d[|d| - 1], key);
      }
    }
  }

  /** The settings of an accepted document: a text or number setting has the last value given for it,
      a text cut to its buffer; `verbose` is on exactly if it was set to "true" anywhere; and no
      other key leaves a trace. */
  lemma SettingsExactly(rd: Reader, d: Doc, key: string)
    requires ReaderHealth(rd).Sound? && Load(rd, Start(), DocEvents(d)).ok
    ensures var settings := Load(rd, Start(), DocEvents(d)).settings;
            && (forall room | HasRoom(key, room) :: HoldsLast(settings, d, key, room))
            && (key == "verbose" ==> HoldsFlag(settings, d, key))
            && (key in settings ==> key == "verbose" || exists room :: HasRoom(key, room))
  {
    DocLoad(rd, d);
    forall room | HasRoom(key, room)
      ensures HoldsLast(AssignAll(d), d, key, room)
    {
      AllLast(d, key, room);
    }
    AllFlags(d);
    if key != "verbose" && forall room :: !HasRoom(key, room) {
      NoOthers(d, key);
    }
  }
}
