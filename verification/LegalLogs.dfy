/** Facts about legal logs: what the automaton of module Trace remembers, and what follows for keys,
    sequence numbers, routes and timing over a whole log. */
module LegalLogs {
  import opened Options
  import opened Bits
  import opened Crypto
  import opened Handshake
  import opened Framing
  import opened Replay
  import opened Prefixes
  import opened Tables
  import opened Routing
  import opened Trace

  // ----- what a view remembers ----------------------------------------------------------------

  /** Between positions `a` and `b` the slot was neither initialised nor expired. */
  ghost predicate Undisturbed(h: Log, slot: nat, a: int, b: int)
    requires 0 <= a && b <= |h|
  {
    forall i | a <= i < b :: !(h[i].Installed? && h[i].slot == slot) && !(h[i].Expired? && h[i].slot == slot)
  }

  /** Position `b` is the latest installation in the slot, and the slot has not expired since. */
  ghost predicate Latest(h: Log, slot: nat, b: int) {
    && 0 <= b < |h| && h[b].Installed? && h[b].slot == slot
    && Undisturbed(h, slot, b + 1, |h|)
  }

  /** The numbers checked in the slot from position `a` on. */
  function CheckedFrom(h: Log, slot: nat, a: nat): seq<nat> {
    if |h| <= a then []
    else
      var e := h[|h| - 1];
      CheckedFrom(h[..|h| - 1], slot, a) + if e.Checked? && e.slot == slot then [e.q] else []
  }

  lemma {:induction false} ViewRemembers(h: Log, slot: nat)
    ensures var v := View(h, slot);
            && -1 <= v.born < |h|
            && (v.live ==>
                  && Latest(h, slot, v.born)
                  && h[v.born].key == v.key && h[v.born].pub == v.pub && h[v.born].cfg == v.cfg
                  && h[v.born].addr == v.addr && h[v.born].now == v.since)
  {
    if h != [] {
      ViewRemembers(h[..|h| - 1], slot);
    }
  }

  /** The view keeps exactly the numbers that were checked since the latest installation. */
  lemma {:induction false} ViewRemembersChecked(h: Log, slot: nat)
    ensures var v := View(h, slot); v.live ==> 0 <= v.born < |h| && v.seqs == CheckedFrom(h, slot, v.born + 1)
  {
    if h != [] {
      ViewRemembersChecked(h[..|h| - 1], slot);
    }
  }

  /** The times of datagrams from the slot's peer. */
  function Heard(slot: nat): Event -> Option<int> {
    (e: Event) => if e.Touched? && e.slot == slot then Some(e.now) else None
  }

  /** The times of datagrams that went out to the slot's peer. */
  function Spoken(slot: nat): Event -> Option<int> {
    (e: Event) => if e.Sent? && e.slot == slot && e.ok then Some(e.now) else None
  }

  /** The last of the times that the events from position `a` on tell is `t`; if they tell none, `t` is
      the other one. */
  ghost predicate LastTime(h: Log, a: int, times: Event -> Option<int>, other: int, t: int)
    requires 0 <= a
  {
    || (t == other && forall i | a <= i < |h| :: times(h[i]).None?)
    || exists i :: a <= i < |h| && times(h[i]) == Some(t) && forall j | i < j < |h| :: times(h[j]).None?
  }

  lemma LastTimeNext(h: Log, e: Event, a: int, times: Event -> Option<int>, other: int, t: int)
    requires 0 <= a <= |h| && LastTime(h, a, times, other, t)
    ensures LastTime(h + [e], a, times, other, if times(e).Some? then times(e).value else t)
  {
    var g := h + [e];
    if times(e).Some? {
      assert times(g[|h|]) == Some(times(e).value);
    } else if i :| a <= i < |h| && times(h[i]) == Some(t) && forall j | i < j < |h| :: times(h[j]).None? {
      assert times(g[i]) == Some(t);
    }
  }

  /** The view keeps the times of the last datagrams from and to the peer. */
  lemma {:induction false} ViewRemembersTimes(h: Log, slot: nat)
    ensures var v := View(h, slot);
            v.live ==>
              && 0 <= v.born < |h|
              && LastTime(h, v.born + 1, Heard(slot), 0, v.seen)
              && LastTime(h, v.born + 1, Spoken(slot), v.since, v.spoke)
  {
    if h != [] {
      var h0, e := h[..|h| - 1], h[|h| - 1];
      var v0, v := View(h0, slot), View(h, slot);
      assert h == h0 + [e];
      ViewRemembersTimes(h0, slot);
      if v.live && !(e.Installed? && e.slot == slot) {
        TimesMoveOn(v0, e, slot, |h0|);
        LastTimeNext(h0, e, v0.born + 1, Heard(slot), 0, v0.seen);
        LastTimeNext(h0, e, v0.born + 1, Spoken(slot), v0.since, v0.spoke);
      }
    }
  }

  lemma TimesMoveOn(v: SlotView, e: Event, slot: nat, at: nat)
    requires !(e.Installed? && e.slot == slot)
    ensures var v', heard, spoken := NextView(v, e, slot, at), Heard(slot)(e), Spoken(slot)(e);
            && v'.born == v.born && v'.since == v.since && (v'.live ==> v.live)
            && v'.seen == (if heard.Some? then heard.value else v.seen)
            && v'.spoke == (if spoken.Some? then spoken.value else v.spoke)
  {
  }

  /** Position `a` is the installation before `b`, and the slot was active all the way between. */
  ghost predicate Before(h: Log, slot: nat, a: int, b: int) {
    && 0 <= a < b < |h| && h[a].Installed? && h[a].slot == slot
    && Undisturbed(h, slot, a + 1, b)
  }

  ghost predicate NoneOpenedCurrent(h: Log, slot: nat, a: int)
    requires 0 <= a
  {
    forall i | a <= i < |h| :: h[i].Opened? && h[i].slot == slot ==> h[i].prev
  }

  /** `key` is that of the installation before `b`, and nothing has decrypted under b's key. */
  ghost predicate Replaced(h: Log, slot: nat, b: int, key: Bytes) {
    && 0 <= b < |h|
    && NoneOpenedCurrent(h, slot, b + 1)
    && exists a :: Before(h, slot, a, b) && h[a].key == key
  }

  lemma ReplacedExtends(h: Log, e: Event, slot: nat, b: int, key: Bytes)
    requires Replaced(h, slot, b, key) && !(e.Opened? && e.slot == slot && !e.prev)
    ensures Replaced(h + [e], slot, b, key)
  {
    var a :| Before(h, slot, a, b) && h[a].key == key;
    assert Before(h + [e], slot, a, b) && (h + [e])[a].key == key;
  }

  lemma ReplacedStarts(h: Log, e: Event, slot: nat, a: int)
    requires Latest(h, slot, a)
    ensures Replaced(h + [e], slot, |h|, h[a].key)
  {
    assert Before(h + [e], slot, a, |h|) && (h + [e])[a].key == h[a].key;
  }

  lemma {:induction false} PrevRemembers(h: Log, slot: nat)
    ensures var v := View(h, slot); v.live && v.prev.Some? ==> Replaced(h, slot, v.born, v.prev.value)
  {
    if h != [] {
      var h0, e := h[..|h| - 1], h[|h| - 1];
      var v0, v := View(h0, slot), View(h, slot);
      assert h == h0 + [e];
      PrevRemembers(h0, slot);
      ViewRemembers(h0, slot);
      if v.live && v.prev.Some? {
        if e.Installed? && e.slot == slot {
          ReplacedStarts(h0, e, slot, v0.born);
        } else {
          ReplacedExtends(h0, e, slot, v0.born, v0.prev.value);
        }
      }
    }
  }

  // ----- within one key's lifetime ------------------------------------------------------------

  /** As long as `born` is the same, the slot's checked numbers and its send count only grow. */
  lemma {:induction false} EpochGrows(h: Log, slot: nat, i: nat, j: nat)
    requires i <= j <= |h| && View(h[..i], slot).born == View(h[..j], slot).born
    ensures View(h[..i], slot).seqs <= View(h[..j], slot).seqs
    ensures View(h[..i], slot).sent <= View(h[..j], slot).sent
    decreases j
  {
    if i < j {
      ViewRemembers(h[..i], slot);
      BornGrows(h, slot, i, j - 1);
      assert h[..j][..j - 1] == h[..j - 1];
      EpochGrows(h, slot, i, j - 1);
    }
  }

  lemma {:induction false} BornGrows(h: Log, slot: nat, i: nat, j: nat)
    requires i <= j <= |h|
    ensures View(h[..i], slot).born <= View(h[..j], slot).born
    ensures j < |h| ==> View(h[..j], slot).born <= View(h[..j + 1], slot).born
    decreases j
  {
    ViewRemembers(h[..j], slot);
    if j < |h| {
      assert h[..j + 1][..j] == h[..j];
    }
    if i < j {
      BornGrows(h, slot, i, j - 1);
    }
  }

  // ----- keys ---------------------------------------------------------------------------------

  ghost predicate OwnKeyNotAPeer(p: Params) {
    forall c | 0 <= c < |p.peers| :: p.peers[c].pub != PubBytes(OwnStatic(p))
  }

  /** The ephemeral of the next reply stays the same exactly as long as no refresh succeeds. */
  lemma {:induction false} ReplyEphSame(h: Log, a: nat, b: nat)
    requires a <= b <= |h|
    ensures Generated(h[..a]) <= Generated(h[..b])
    ensures ReplyEph(h[..a]) == ReplyEph(h[..b]) <==> Unrefreshed(h, a, b)
    ensures Unrefreshed(h, a, b) || Generated(h[..a]) <= ReplyEph(h[..b])
    decreases b
  {
    if a < b {
      ReplyEphSame(h, a, b - 1);
      assert h[..b][..b - 1] == h[..b - 1];
      assert Unrefreshed(h, a, b) <==> Unrefreshed(h, a, b - 1) && h[b - 1] != Refreshed(true);
    }
  }

  /** No refresh succeeded between positions `a` and `b`. */
  ghost predicate Unrefreshed(h: Log, a: int, b: int)
    requires 0 <= a && b <= |h|
  {
    forall m | a <= m < b :: h[m] != Refreshed(true)
  }

  lemma AnsweredWith(p: Params, h: Log, i: int)
    requires LegalLog(p, h) && 0 <= i < |h| && h[i].Installed? && !h[i].outbound
    ensures i > 0 && h[i - 1].Refreshed? && h[i].eph == ReplyEph(h[..i - 1])
  {
    LegalAt(p, h, i);
    assert h[..i][..i - 1] == h[..i - 1];
  }

  /** Two replies used the same ephemeral exactly if every refresh failed from the one right after
      the first reply up to the second reply. */
  lemma SameEphExactly(p: Params, h: Log, i: int, j: int)
    requires LegalLog(p, h) && 0 <= i < j < |h|
    requires h[i].Installed? && h[j].Installed? && !h[i].outbound && !h[j].outbound
    ensures i > 0 && h[i - 1].Refreshed?
    ensures h[i].eph == h[j].eph <==> Unrefreshed(h, i - 1, j - 1)
  {
    AnsweredWith(p, h, i);
    AnsweredWith(p, h, j);
    ReplyEphSame(h, i - 1, j - 1);
  }

  /** One initiation was answered twice, and no refresh succeeded in between. */
  ghost predicate SameAnswer(h: Log, i: int, j: int)
    requires 0 <= i < j < |h| && h[i].Installed? && h[j].Installed?
  {
    && !h[i].outbound && !h[j].outbound && h[i].pub == h[j].pub && h[i].peerEph == h[j].peerEph
    && i > 0 && Unrefreshed(h, i - 1, j - 1)
  }

  /** The two ends of a handshake of the node with itself. */
  predicate Mirrored(p: Params, e: Event, f: Event)
    requires e.Installed? && f.Installed?
  {
    && e.outbound != f.outbound && e.pub == f.pub == PubBytes(OwnStatic(p))
    && e.peerEph == PubBytes(OwnEph(p, f.eph)) && f.peerEph == PubBytes(OwnEph(p, e.eph))
  }

  /** Two installed keys are equal exactly if one initiation was answered twice and every refresh
      in between failed, or if they are the two ends of a handshake with oneself. */
  lemma KeysEqualExactly(p: Params, h: Log, i: int, j: int)
    requires LegalLog(p, h) && 0 <= i < j < |h| && h[i].Installed? && h[j].Installed?
    ensures h[i].key == h[j].key <==> SameAnswer(h, i, j) || Mirrored(p, h[i], h[j])
  {
    LegalAt(p, h, i);
    LegalAt(p, h, j);
    assert h[..j][i] == h[i];
    var e, f := h[i], h[j];
    if e.outbound == f.outbound {
      if e.outbound {
        InitiatorKeysEqual(OwnStatic(p), OwnEph(p, e.eph), e.peerEph, e.pub, OwnEph(p, f.eph), f.peerEph, f.pub);
      } else {
        SameEphExactly(p, h, i, j);
        ResponderKeysEqual(OwnStatic(p), OwnEph(p, e.eph), e.peerEph, e.pub, OwnEph(p, f.eph), f.peerEph, f.pub);
      }
    } else if e.outbound {
      MixedKeysEqual(OwnStatic(p), OwnEph(p, e.eph), e.peerEph, e.pub, OwnEph(p, f.eph), f.peerEph, f.pub);
    } else {
      MixedKeysEqual(OwnStatic(p), OwnEph(p, f.eph), f.peerEph, f.pub, OwnEph(p, e.eph), e.peerEph, e.pub);
    }
  }

  /** No session key is installed twice. */
  ghost predicate EachKeyOnce(h: Log) {
    forall i, j | 0 <= i < j < |h| :: h[i].Installed? && h[j].Installed? ==> h[i].key != h[j].key
  }

  /** Whatever was rekeyed in between, no session key is installed twice if every answer was
      followed by a new ephemeral and the node is not its own peer. */
  lemma KeysInstalledOnce(p: Params, h: Log)
    requires LegalLog(p, h) && NeverReused(h) && OwnKeyNotAPeer(p)
    ensures EachKeyOnce(h)
  {
    forall i, j | 0 <= i < j < |h| && h[i].Installed? && h[j].Installed?
      ensures h[i].key != h[j].key
    {
      KeysEqualExactly(p, h, i, j);
      LegalAt(p, h, j);
      if !h[i].outbound && !h[j].outbound {
        AnsweredWith(p, h, i);
        assert h[i - 1] == Refreshed(true);
      }
    }
  }

  /** Two events in live slots under one key belong to the same slot and the same installation. */
  lemma SameKeySameEpoch(p: Params, h: Log, i: int, s: nat, j: int, t: nat)
    requires LegalLog(p, h) && EachKeyOnce(h)
    requires 0 <= i <= j <= |h| && View(h[..i], s).live && View(h[..j], t).live
    requires View(h[..i], s).key == View(h[..j], t).key
    ensures s == t && View(h[..i], s).born == View(h[..j], t).born
  {
    ViewRemembers(h[..i], s);
    ViewRemembers(h[..j], t);
  }

  // ----- sequence numbers ---------------------------------------------------------------------

  /** Two events of live slots under one key: the later one sees what the earlier one left. */
  lemma LaterInEpoch(p: Params, h: Log, i: int, s: nat, j: int, t: nat)
    requires LegalLog(p, h) && EachKeyOnce(h)
    requires 0 <= i < j <= |h| && View(h[..i], s).live && View(h[..j], t).live && !h[i].Installed?
    requires View(h[..i], s).key == View(h[..j], t).key
    ensures s == t
    ensures View(h[..i + 1], s) == NextView(View(h[..i], s), h[i], s, i)
    ensures View(h[..i + 1], s).seqs <= View(h[..j], s).seqs
    ensures View(h[..i + 1], s).sent <= View(h[..j], s).sent
  {
    SameKeySameEpoch(p, h, i, s, j, t);
    assert h[..i + 1] == h[..i] + [h[i]];
    ViewAppend(h[..i], h[i], s);
    EpochGrows(h, s, i + 1, j);
  }

  /** No (key, sequence number) pair passes the current-key path twice, in any slot. */
  lemma PairsPassOnce(p: Params, h: Log, i: int, j: int)
    requires LegalLog(p, h) && EachKeyOnce(h)
    requires 0 <= i < j < |h| && h[i].Checked? && h[j].Checked? && h[i].ok && h[j].ok && h[i].key == h[j].key
    ensures h[i].q != h[j].q
  {
    LegalAt(p, h, i);
    LegalAt(p, h, j);
    LaterInEpoch(p, h, i, h[i].slot, j, h[j].slot);
    if h[i].q == h[j].q {
      NeverAcceptedAgain(View(h[..i], h[i].slot).seqs, h[i].q, View(h[..j], h[i].slot).seqs);
    }
  }

  /** The packets sent under a key. */
  function SentUnder(h: Log, key: Bytes): nat {
    if h == [] then 0
    else SentUnder(h[..|h| - 1], key) + if h[|h| - 1].Sent? && h[|h| - 1].key == key then 1 else 0
  }

  lemma {:induction false} NoneSentUnder(h: Log, key: Bytes)
    requires forall i | 0 <= i < |h| :: h[i].Sent? ==> h[i].key != key
    ensures SentUnder(h, key) == 0
  {
    if h != [] {
      NoneSentUnder(h[..|h| - 1], key);
    }
  }

  lemma {:induction false} SentUnderGrows(h: Log, key: Bytes, i: nat)
    requires i < |h|
    ensures SentUnder(h[..i], key) + (if h[i].Sent? && h[i].key == key then 1 else 0) <= SentUnder(h, key)
  {
    var g := h[..|h| - 1];
    if i < |g| {
      SentUnderGrows(g, key, i);
      assert g[..i] == h[..i] && g[i] == h[i];
    } else {
      assert g == h[..i];
    }
  }

  lemma LegalPrefix(p: Params, h: Log, i: nat)
    requires LegalLog(p, h) && EachKeyOnce(h) && i <= |h|
    ensures LegalLog(p, h[..i]) && EachKeyOnce(h[..i])
    decreases |h| - i
  {
    if i < |h| {
      LegalPrefix(p, h, i + 1);
      assert h[..i + 1][..i] == h[..i];
    } else {
      assert h[..i] == h;
    }
  }

  /** Nothing was sent under a key before it is installed. */
  lemma NothingSentBefore(p: Params, h: Log, j: nat)
    requires LegalLog(p, h) && EachKeyOnce(h) && j < |h| && h[j].Installed?
    ensures SentUnder(h[..j], h[j].key) == 0
  {
    forall i | 0 <= i < j && h[i].Sent?
      ensures h[i].key != h[j].key
    {
      LegalAt(p, h, i);
      ViewRemembers(h[..i], h[i].slot);
      var b := View(h[..i], h[i].slot).born;
      assert h[..i][b] == h[b];
    }
    NoneSentUnder(h[..j], h[j].key);
  }

  /** What a live slot has sent since its installation is what was sent under its key. */
  lemma {:induction false} SentIsSentUnder(p: Params, h: Log, slot: nat)
    requires LegalLog(p, h) && EachKeyOnce(h) && View(h, slot).live
    ensures View(h, slot).sent == SentUnder(h, View(h, slot).key)
  {
    var n := |h| - 1;
    var g, e := h[..n], h[n];
    LegalPrefix(p, h, n);
    if e.Installed? && e.slot == slot {
      NothingSentBefore(p, h, n);
    } else {
      SentIsSentUnder(p, g, slot);
      LegalAt(p, h, n);
      if e.Sent? && e.slot != slot && e.key == View(g, slot).key {
        assert g[..n] == g;
        SameKeySameEpoch(p, g, n, slot, n, e.slot);
      }
    }
  }

  /** The number of a packet is the count of those sent before it under its key, modulo 2^64. */
  lemma NumberIsCount(p: Params, h: Log, j: nat)
    requires LegalLog(p, h) && EachKeyOnce(h) && j < |h| && h[j].Sent?
    ensures h[j].q == SentUnder(h[..j], h[j].key) % U64
  {
    LegalAt(p, h, j);
    LegalPrefix(p, h, j);
    SentIsSentUnder(p, h[..j], h[j].slot);
  }

  /** Two packets under one key have the same number exactly if a multiple of 2^64 packets were sent
      from the first to the second; in particular never before 2^64 packets under that key. */
  lemma SentOnce(p: Params, h: Log, i: int, j: int)
    requires LegalLog(p, h) && EachKeyOnce(h)
    requires 0 <= i < j < |h| && h[i].Sent? && h[j].Sent? && h[i].key == h[j].key
    ensures h[i].q == h[j].q <==> (SentUnder(h[..j], h[j].key) - SentUnder(h[..i], h[j].key)) % U64 == 0
    ensures SentUnder(h, h[j].key) <= U64 ==> h[i].q != h[j].q
  {
    var key := h[j].key;
    NumberIsCount(p, h, i);
    NumberIsCount(p, h, j);
    SentUnderGrows(h[..j], key, i);
    assert h[..j][..i] == h[..i];
    SentUnderGrows(h, key, j);
    SameRemainder(SentUnder(h[..i], key), SentUnder(h[..j], key));
  }

  lemma SameRemainder(a: nat, b: nat)
    ensures a % U64 == b % U64 <==> (b - a) % U64 == 0
    ensures 0 < b - a < U64 ==> a % U64 != b % U64
  {
  }

  /** A delivery follows the decryption of a datagram that carries it, and under the current key
      a check that passed. */
  lemma PassedBefore(p: Params, h: Log, m: nat)
    requires LegalLog(p, h) && m < |h| && h[m].Delivered?
    ensures m > 0 && Carries(h[m - 1]) && h[m - 1].key == h[m].key
    ensures OpenFrame(h[m].key, h[m - 1].wire) == Some(Parsed(h[m].q, h[m].payload))
    ensures !h[m].prev ==> h[m - 1].Checked? && h[m - 1].ok && h[m - 1].q == h[m].q
  {
    LegalAt(p, h, m);
    assert h[..m][m - 1] == h[m - 1];
    LegalAt(p, h, m - 1);
  }

  /** The events that record the datagram they are about. */
  predicate Carries(e: Event) {
    e.Checked? || e.Opened?
  }

  /** Two deliveries under one current key are never of the same number: each send is delivered at
      most once, however often its datagram arrives. */
  lemma DeliveredAtMostOnce(p: Params, h: Log, m: nat, m': nat)
    requires LegalLog(p, h) && EachKeyOnce(h)
    requires m < |h| && m' < |h| && m != m' && h[m].Delivered? && !h[m].prev && h[m'].Delivered? && !h[m'].prev
    ensures h[m].key == h[m'].key ==> h[m].q != h[m'].q
  {
    PassedBefore(p, h, m);
    PassedBefore(p, h, m');
    if h[m].key == h[m'].key {
      if m < m' {
        PairsPassOnce(p, h, m - 1, m' - 1);
      } else {
        PairsPassOnce(p, h, m' - 1, m - 1);
      }
    }
  }

  // ----- key lifetime -------------------------------------------------------------------------

  /** A packet decrypts only under the slot's latest key or the one before it. The one before it
      is used at most `grace` seconds after it was replaced, never once a packet has decrypted
      under its successor, and only if the slot did not expire in between. */
  lemma KeyLifetime(p: Params, h: Log, m: int)
    requires LegalLog(p, h) && 0 <= m < |h| && h[m].Opened?
    ensures exists b :: Latest(h[..m], h[m].slot, b) &&
              if !h[m].prev then h[b].key == h[m].key
              else
                && h[m].now <= h[b].now + p.grace
                && NoneOpenedCurrent(h[..m], h[m].slot, b + 1)
                && exists a :: Before(h[..m], h[m].slot, a, b) && h[a].key == h[m].key
  {
    LegalAt(p, h, m);
    var slot := h[m].slot;
    var b := View(h[..m], slot).born;
    ViewRemembers(h[..m], slot);
    PrevRemembers(h[..m], slot);
    assert Latest(h[..m], slot, b) && h[..m][b] == h[b];
    if h[m].prev {
      var a :| Before(h[..m], slot, a, b) && h[..m][a].key == h[m].key;
      assert h[..m][a] == h[a];
    }
  }

  /** No inbound handshake replaces the key of an active slot within `cooldown` seconds of the
      slot's last handshake. */
  lemma CooldownRespected(p: Params, h: Log, m: int, b: int)
    requires LegalLog(p, h) && 0 <= m < |h| && h[m].Installed? && !h[m].outbound
    requires Latest(h[..m], h[m].slot, b)
    ensures h[m].now - h[b].now >= p.cooldown
  {
    LegalAt(p, h, m);
    LatestIsLive(h[..m], h[m].slot, b);
    ViewRemembers(h[..m], h[m].slot);
  }

  /** A slot with a latest installation is live, and that is what its view shows. */
  lemma {:induction false} LatestIsLive(h: Log, slot: nat, b: int)
    requires Latest(h, slot, b)
    ensures View(h, slot).live && View(h, slot).born == b
  {
    if b < |h| - 1 {
      LatestIsLive(h[..|h| - 1], slot, b);
    }
  }

  /** The times behind a slot that holds the installation at `b`: when its peer was last heard, or 0,
      and when it was last spoken to. */
  ghost predicate Times(h: Log, slot: nat, b: int, heard: int, spoken: int)
    requires Latest(h, slot, b)
  {
    && LastTime(h, b + 1, Heard(slot), 0, heard)
    && LastTime(h, b + 1, Spoken(slot), h[b].now, spoken)
  }

  /** A session expires only if its peer has not been heard for longer than the expiry, counted from
      the handshake if it has not been heard at all. A keepalive is empty and goes only to a peer
      that has not been spoken to for the keepalive interval. */
  lemma UpkeepInTime(p: Params, h: Log, m: int) returns (b: int, heard: int, spoken: int)
    requires LegalLog(p, h) && 0 <= m < |h| && (h[m].Expired? || (h[m].Sent? && h[m].origin.Keepalive?))
    ensures Latest(h[..m], h[m].slot, b) && Times(h[..m], h[m].slot, b, heard, spoken)
    ensures h[m].Expired? ==> h[m].now - (if heard > 0 then heard else h[b].now) > p.expiry
    ensures h[m].Sent? ==> h[m].payload == [] && h[m].now - spoken >= p.keepalive
  {
    LegalAt(p, h, m);
    var v := View(h[..m], h[m].slot);
    ViewRemembers(h[..m], h[m].slot);
    ViewRemembersTimes(h[..m], h[m].slot);
    b, heard, spoken := v.born, v.seen, v.spoke;
    assert h[..m][b] == h[b];
  }

  // ----- the session table --------------------------------------------------------------------

  /** Live slots have different public keys, each that of the peer the slot was installed for. */
  lemma {:induction false} LiveSlotsDistinct(p: Params, h: Log, s: nat, t: nat)
    requires LegalLog(p, h) && s != t && View(h, s).live && View(h, t).live
    ensures View(h, s).pub != View(h, t).pub
  {
    var k := |h| - 1;
    LegalAt(p, h, k);
    if !h[k].Installed? || (h[k].slot != s && h[k].slot != t) {
      LiveSlotsDistinct(p, h[..k], s, t);
    }
  }

  lemma InstalledForPeer(p: Params, h: Log, j: nat)
    requires LegalLog(p, h) && j < |h| && h[j].Installed?
    ensures h[j].cfg < |p.peers| && p.peers[h[j].cfg].pub == h[j].pub
  {
    LegalAt(p, h, j);
  }

  lemma LivePeer(p: Params, h: Log, s: nat)
    requires LegalLog(p, h) && View(h, s).live
    ensures View(h, s).cfg < |p.peers| && p.peers[View(h, s).cfg].pub == View(h, s).pub
  {
  }

  /** A node all of whose peers have one key never relays. */
  lemma SpokeNeverRelays(p: Params, h: Log, m: int)
    requires LegalLog(p, h) && 0 <= m < |h| && h[m].Delivered?
    requires forall c, d | 0 <= c < |p.peers| && 0 <= d < |p.peers| :: p.peers[c].pub == p.peers[d].pub
    ensures h[m].sink == ToTun
  {
    LegalAt(p, h, m);
    if h[m].sink.ToPeer? {
      var s, t := h[m].slot, h[m].sink.slot;
      LivePeer(p, h[..m], s);
      LivePeer(p, h[..m], t);
      LiveSlotsDistinct(p, h[..m], s, t);
    }
  }

  /** What a slot delivers, to the TUN device or to another peer, comes from an address that is
      allowed by the route list configured for the slot's public key. */
  lemma DeliveredSourceConfigured(p: Params, h: Log, m: int)
    requires LegalLog(p, h) && 0 <= m < |h| && h[m].Delivered? && IsIpv4(h[m].payload)
    ensures exists c :: 0 <= c < |p.peers| && p.peers[c].pub == h[m].pub &&
              (p.peers[c].routes == [] ||
               exists j :: 0 <= j < |p.peers[c].routes| && Matches(p.peers[c].routes[j], SrcIp(h[m].payload)))
  {
    LegalAt(p, h, m);
    LivePeer(p, h[..m], h[m].slot);
  }

  /** Packets that are forwarded go to a live slot on the longest match, and a relayed one was just
      delivered by another slot. */
  lemma SentIsOnRoute(p: Params, h: Log, m: int)
    requires LegalLog(p, h) && 0 <= m < |h| && h[m].Sent? && !h[m].origin.Keepalive?
    ensures View(h[..m], h[m].slot).live && OnRoute(p, h[..m], h[m].slot, h[m].payload)
    ensures h[m].origin.Relayed? ==>
              && m > 0 && h[m - 1].Delivered? && h[m - 1].payload == h[m].payload
              && h[m - 1].slot == h[m].origin.from != h[m].slot
  {
    LegalAt(p, h, m);
    if h[m].origin.Relayed? {
      assert h[..m][m - 1] == h[m - 1];
      LegalAt(p, h, m - 1);
    }
  }
}
