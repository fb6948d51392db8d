/** The sliding replay window of src/common.h.

    `highest` is the largest sequence number accepted so far and bit `k` of the window stands for
    the number `highest - k`. The window is an array of 64-bit words, word 0 holding the low bits.
    The word count is a parameter: the tunnel uses WINDOW_WORDS of them. */
module Replay {
  import opened Bits

  const WINDOW_WORDS := 32

  type Window = seq<Word>

  datatype Verdict = Verdict(ok: bool, highest: nat, window: Window)

  function ZeroWindow(words: nat): (w: Window)
    ensures |w| == words
  {
    seq(words, _ => 0)
  }

  predicate WindowBit(w: Window, k: nat)
    requires k < 64 * |w|
  {
    Bit(w[k / 64], k % 64)
  }

  // ----- one word -----------------------------------------------------------------------------

  /** A word moved up by `bn` bits, filled from below by the top bits of `hi`. */
  function Merge(lo: Word, hi: Word, bn: nat): (x: Word)
    requires bn < 64
  {
    Widths();
    ShlFits(lo, bn, 64);
    ShrBit(hi, 64 - bn, 0);
    OrFits(Shl(lo, bn, 64), Shr(hi, 64 - bn), 64);
    if bn > 0 then Or(Shl(lo, bn, 64), Shr(hi, 64 - bn)) else lo
  }

  lemma MergeBit(lo: Word, hi: Word, bn: nat, b: nat)
    requires bn < 64 && b < 64
    ensures Bit(Merge(lo, hi, bn), b) <==> if bn <= b then Bit(lo, b - bn) else Bit(hi, 64 + b - bn)
  {
    if bn > 0 {
      OrBit(Shl(lo, bn, 64), Shr(hi, 64 - bn), b);
      ShlBit(lo, bn, 64, b);
      ShrBit(hi, 64 - bn, b);
      if bn <= b {
        Widths();
        NoHighBits(hi, 64, 64 - bn + b);
      }
    }
  }

  /** `x | (1ULL << b)` */
  function Mark(x: Word, b: nat): (y: Word)
    requires b < 64
  {
    Widths();
    ShlOne(b, 64);
    Pow2Monotone(b, 63);
    OrFits(x, Shl(1, b, 64), 64);
    Or(x, Shl(1, b, 64))
  }

  /** `x & (1ULL << b)` */
  predicate Marked(x: Word, b: nat)
    requires b < 64
  {
    And(x, Shl(1, b, 64)) != 0
  }

  lemma MarkedIsBit(x: Word, b: nat)
    requires b < 64
    ensures Marked(x, b) <==> Bit(x, b)
  {
    ShlOne(b, 64);
    TestBit(x, b);
  }

  lemma MarkSets(x: Word, b: nat, k: nat)
    requires b < 64 && k < 64
    ensures Bit(Mark(x, b), k) <==> k == b || Bit(x, k)
  {
    OrBit(x, Shl(1, b, 64), k);
    OneBit(b, 64, k);
  }

  // ----- shifting the whole window ------------------------------------------------------------

  /** Word `i` of the window moved up by `diff` bits: the low part comes from word `i - diff / 64`
      and the high part from the word below that one. */
  function ShiftedWord(w: Window, diff: nat, i: nat): (x: Word)
    requires i < |w|
  {
    var loSrc := i - diff / 64;
    var lo := if loSrc >= 0 then w[loSrc] else 0;
    var hi := if loSrc >= 1 then w[loSrc - 1] else 0;
    Merge(lo, hi, diff % 64)
  }

  function Shifted(w: Window, diff: nat): (r: Window)
    ensures |r| == |w|
  {
    seq(|w|, i requires 0 <= i < |w| => ShiftedWord(w, diff, i))
  }

  lemma SourceBit(k: nat, diff: nat)
    requires diff <= k
    ensures if diff % 64 <= k % 64
            then (k - diff) / 64 == k / 64 - diff / 64 && (k - diff) % 64 == k % 64 - diff % 64
            else (k - diff) / 64 == k / 64 - diff / 64 - 1 && (k - diff) % 64 == 64 + k % 64 - diff % 64
  {
  }

  /** The word-by-word formula is a shift of the whole window by `diff` bits. */
  lemma ShiftedBit(w: Window, diff: nat, k: nat)
    requires k < 64 * |w|
    ensures WindowBit(Shifted(w, diff), k) <==> diff <= k && WindowBit(w, k - diff)
  {
    var i, b := k / 64, k % 64;
    var loSrc, bn := i - diff / 64, diff % 64;
    var lo := if loSrc >= 0 then w[loSrc] else 0;
    var hi := if loSrc >= 1 then w[loSrc - 1] else 0;
    assert Shifted(w, diff)[i] == Merge(lo, hi, bn);
    MergeBit(lo, hi, bn, b);
    NoHighBits(0, 0, if bn <= b then b - bn else 64 + b - bn);
    if diff <= k {
      SourceBit(k, diff);
    }
  }

  /** The in-place loop: it runs from the top word down, so a word is overwritten only after the
      words that are built from it. */
  method ShiftInPlace(window: array<Word>, diff: nat)
    requires diff < 64 * window.Length
    modifies window
    ensures window[..] == Shifted(old(window[..]), diff)
  {
    var wn, bn := diff / 64, diff % 64;
    var i := window.Length - 1;
    while i >= 0
      invariant -1 <= i < window.Length
      invariant forall j :: 0 <= j <= i ==> window[j] == old(window[j])
      invariant forall j :: i < j < window.Length ==> window[j] == ShiftedWord(old(window[..]), diff, j)
    {
      var loSrc := i - wn;
      var hiSrc := loSrc - 1;
      var lo: Word := if loSrc >= 0 then window[loSrc] else 0;
      var hi: Word := if hiSrc >= 0 then window[hiSrc] else 0;
      assert lo == if loSrc >= 0 then old(window[..])[loSrc] else 0;
      assert hi == if hiSrc >= 0 then old(window[..])[hiSrc] else 0;
      window[i] := Merge(lo, hi, bn);
      i := i - 1;
    }
  }

  // ----- the check ----------------------------------------------------------------------------

  function WithBit(w: Window, k: nat): (r: Window)
    requires k < 64 * |w|
    ensures |r| == |w|
  {
    w[k / 64 := Mark(w[k / 64], k % 64)]
  }

  lemma WithBitSets(w: Window, k: nat, j: nat)
    requires k < 64 * |w| && j < 64 * |w|
    ensures WindowBit(WithBit(w, k), j) <==> j == k || WindowBit(w, j)
  {
    MarkSets(w[k / 64], k % 64, j % 64);
    if j / 64 == k / 64 && j % 64 == k % 64 {
      assert j == 64 * (j / 64) + j % 64 == k;
    }
  }

  /** What one call of check_replay answers and leaves behind. */
  function CheckReplay(q: nat, highest: nat, window: Window): (v: Verdict)
    requires |window| > 0
    ensures |v.window| == |window|
    ensures v.highest == if q > highest then q else highest
  {
    if q > highest then
      var diff := q - highest;
      var moved := if diff >= 64 * |window| then ZeroWindow(|window|) else Shifted(window, diff);
      Verdict(true, q, WithBit(moved, 0))
    else
      var diff := highest - q;
      if diff >= 64 * |window| || Marked(window[diff / 64], diff % 64) then
        Verdict(false, highest, window)
      else
        Verdict(true, highest, WithBit(window, diff))
  }

  method SetBit(window: array<Word>, k: nat)
    requires k < 64 * window.Length
    modifies window
    ensures window[..] == WithBit(old(window[..]), k)
  {
    window[k / 64] := Mark(window[k / 64], k % 64);
  }

  /** The window moves up by `diff`, and out of sight if that is its whole length. */
  method MoveUp(window: array<Word>, diff: nat)
    modifies window
    ensures window[..] == if diff >= 64 * window.Length then ZeroWindow(window.Length)
                          else Shifted(old(window[..]), diff)
  {
    if diff >= 64 * window.Length {
      forall i | 0 <= i < window.Length {
        window[i] := 0;
      }
    } else {
      ShiftInPlace(window, diff);
    }
  }

  /** check_replay itself, on the caller's array. */
  method CheckReplayInPlace(q: Word, highest: Word, window: array<Word>) returns (ok: bool, newHighest: Word)
    requires window.Length > 0
    modifies window
    ensures Verdict(ok, newHighest, window[..]) == CheckReplay(q, highest, old(window[..]))
  {
    if q > highest {
      MoveUp(window, q - highest);
      SetBit(window, 0);
      return true, q;
    }
    var diff := highest - q;
    if diff >= 64 * window.Length || Marked(window[diff / 64], diff % 64) {
      return false, highest;
    }
    SetBit(window, diff);
    return true, highest;
  }

  // ----- the window against the set of accepted numbers ---------------------------------------

  /** The window and its highest number describe the set of numbers accepted so far. */
  ghost predicate Tracks(highest: nat, window: Window, accepted: set<nat>) {
    && (forall q :: q in accepted ==> q <= highest)
    && (highest > 0 ==> highest in accepted)
    && forall k | 0 <= k < 64 * |window| ::
         WindowBit(window, k) <==> k <= highest && (highest - k) in accepted
  }

  /** The rule the window implements, on the set alone: a number passes exactly when it was never
      accepted and is above the highest, or fewer than `span` below it. */
  ghost predicate Fresh(q: nat, highest: nat, accepted: set<nat>, span: nat) {
    q !in accepted && (q > highest || highest - q < span)
  }

  lemma ZeroTracksNothing(words: nat)
    ensures Tracks(0, ZeroWindow(words), {})
  {
    forall k | 0 <= k < 64 * words
      ensures !WindowBit(ZeroWindow(words), k)
    {
      NoHighBits(0, 0, k % 64);
    }
  }

  /** One call answers by the rule and keeps the window in step with the set. */
  lemma CheckFollowsRule(q: nat, highest: nat, window: Window, accepted: set<nat>)
    requires |window| > 0 && Tracks(highest, window, accepted)
    ensures var v := CheckReplay(q, highest, window);
            && (v.ok <==> Fresh(q, highest, accepted, 64 * |window|))
            && Tracks(v.highest, v.window, if v.ok then accepted + {q} else accepted)
  {
    if q > highest {
      AdvanceTracks(q, highest, window, accepted);
    } else if highest - q < 64 * |window| {
      var diff := highest - q;
      MarkedIsBit(window[diff / 64], diff % 64);
      assert WindowBit(window, diff) <==> q in accepted;
      if q !in accepted {
        forall j | 0 <= j < 64 * |window|
          ensures WindowBit(WithBit(window, diff), j) <==> j <= highest && (highest - j) in accepted + {q}
        {
          WithBitSets(window, diff, j);
        }
      }
    }
  }

  lemma AdvanceTracks(q: nat, highest: nat, window: Window, accepted: set<nat>)
    requires |window| > 0 && Tracks(highest, window, accepted) && q > highest
    ensures var v := CheckReplay(q, highest, window); Tracks(q, v.window, accepted + {q})
  {
    var diff := q - highest;
    var v := CheckReplay(q, highest, window);
    forall j | 0 <= j < 64 * |window|
      ensures WindowBit(v.window, j) <==> j <= q && (q - j) in accepted + {q}
    {
      if diff >= 64 * |window| {
        WithBitSets(ZeroWindow(|window|), 0, j);
        NoHighBits(0, 0, j % 64);
      } else {
        WithBitSets(Shifted(window, diff), 0, j);
        ShiftedBit(window, diff, j);
        assert diff <= j ==> highest - (j - diff) == q - j;
      }
    }
  }

  // ----- whole call sequences -----------------------------------------------------------------

  /** The verdict on the last of `qs`, all checked in order against a window that starts zeroed. */
  function Run(qs: seq<nat>, words: nat): (v: Verdict)
    requires words > 0
    ensures |v.window| == words
  {
    if qs == [] then Verdict(true, 0, ZeroWindow(words))
    else
      var v := Run(qs[..|qs| - 1], words);
      CheckReplay(qs[|qs| - 1], v.highest, v.window)
  }

  /** The same run told by the rule alone. */
  ghost function Accepted(qs: seq<nat>, span: nat): set<nat> {
    if qs == [] then {}
    else
      var before, q := Accepted(qs[..|qs| - 1], span), qs[|qs| - 1];
      if Fresh(q, Highest(qs[..|qs| - 1]), before, span) then before + {q} else before
  }

  function Highest(qs: seq<nat>): nat {
    if qs == [] then 0
    else
      var h, q := Highest(qs[..|qs| - 1]), qs[|qs| - 1];
      if q > h then q else h
  }

  /** Over every call sequence the window agrees with the rule. */
  lemma {:induction false} RunFollowsRule(qs: seq<nat>, words: nat)
    requires words > 0
    ensures var v := Run(qs, words); v.highest == Highest(qs) && Tracks(v.highest, v.window, Accepted(qs, 64 * words))
  {
    if qs == [] {
      ZeroTracksNothing(words);
    } else {
      var v := Run(qs[..|qs| - 1], words);
      RunFollowsRule(qs[..|qs| - 1], words);
      CheckFollowsRule(qs[|qs| - 1], v.highest, v.window, Accepted(qs[..|qs| - 1], 64 * words));
    }
  }

  /** check_replay accepts the next number of any call sequence exactly when it was never accepted
      and is above the highest number seen or less than 2048 below it. */
  lemma AcceptsExactlyNewInWindow(qs: seq<nat>, q: nat)
    ensures var v := Run(qs, WINDOW_WORDS);
            CheckReplay(q, v.highest, v.window).ok
            <==> q !in Accepted(qs, 2048) && (q > Highest(qs) || Highest(qs) - q < 2048)
  {
    RunFollowsRule(qs, WINDOW_WORDS);
    var v := Run(qs, WINDOW_WORDS);
    CheckFollowsRule(q, v.highest, v.window, Accepted(qs, 2048));
  }

  lemma {:induction false} AcceptedGrows(qs: seq<nat>, rs: seq<nat>, span: nat)
    requires qs <= rs
    ensures Accepted(qs, span) <= Accepted(rs, span)
    decreases |rs|
  {
    if |qs| < |rs| {
      AcceptedGrows(qs, rs[..|rs| - 1], span);
    } else {
      assert qs == rs;
    }
  }

  /** A number that was accepted once is rejected ever after, whatever came in between. */
  lemma NeverAcceptedAgain(before: seq<nat>, q: nat, later: seq<nat>)
    requires before + [q] <= later
    requires CheckReplay(q, Run(before, WINDOW_WORDS).highest, Run(before, WINDOW_WORDS).window).ok
    ensures !CheckReplay(q, Run(later, WINDOW_WORDS).highest, Run(later, WINDOW_WORDS).window).ok
  {
    AcceptsExactlyNewInWindow(before, q);
    AcceptsExactlyNewInWindow(later, q);
    assert (before + [q])[..|before|] == before;
    assert q in Accepted(before + [q], 2048);
    AcceptedGrows(before + [q], later, 2048);
  }
}
