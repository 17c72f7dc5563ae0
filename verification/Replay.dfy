/** The anti-replay window: a 1024-bit bitmap in sixteen words, shifted in place,
    proved against the set of all nonces accepted so far. */
module Replay {
  import opened Prelude
  import opened Words

  const WINDOW: nat := 1024
  const WORDS: nat := WINDOW / 64

  // ---- the bitmap as one 1024-bit string ----

  /** Bit `j` of the whole bitmap; positions past the last word are clear. */
  predicate BitAt(words: seq<U64>, j: nat) {
    j / 64 < |words| && Bit(words[j / 64], j % 64)
  }

  /** What the descending word-move loop leaves in each word. */
  predicate WordsMoved(from: seq<U64>, to: seq<U64>, amount: nat) {
    |from| == |to| && forall i :: 0 <= i < |to| ==> to[i] == if i >= amount then from[i - amount] else 0
  }

  /** The bits that word `i` receives from the word below it. */
  function CarryInto(words: seq<U64>, i: nat, amount: nat): U64
    requires 0 < amount < 64 && i <= |words|
  {
    if i == 0 then 0 else Shr(words[i - 1], 64 - amount)
  }

  function CarriedWord(words: seq<U64>, i: nat, amount: nat): U64
    requires 0 < amount < 64 && i < |words|
  {
    WordIsPow2();
    OrBound(Shl(words[i], amount), CarryInto(words, i, amount), 64);
    Or(Shl(words[i], amount), CarryInto(words, i, amount))
  }

  /** What the ascending carry loop leaves in each word. */
  predicate BitsCarried(from: seq<U64>, to: seq<U64>, amount: nat)
    requires 0 < amount < 64
  {
    |from| == |to| && forall i :: 0 <= i < |to| ==> to[i] == CarriedWord(from, i, amount)
  }

  /** Bit `j` of the result is bit `j - shift` of the input; the low `shift` bits are clear. */
  ghost predicate Shifted(from: seq<U64>, to: seq<U64>, shift: nat) {
    forall j :: 0 <= j < WINDOW ==> BitAt(to, j) == (j >= shift && BitAt(from, j - shift))
  }

  lemma CarriedWordBit(words: seq<U64>, i: nat, amount: nat, k: nat)
    requires 0 < amount < 64 && k < 64 && i < |words|
    ensures Bit(CarriedWord(words, i, amount), k) ==
            if k >= amount then Bit(words[i], k - amount) else i > 0 && Bit(words[i - 1], 64 + k - amount)
  {
    BitOfOr(Shl(words[i], amount), CarryInto(words, i, amount), k);
    BitOfShl(words[i], amount, k);
    if i == 0 {
      ZeroHasNoBits(k);
    } else {
      BitOfShr(words[i - 1], 64 - amount, k);
      if k >= amount {
        WordIsPow2();
        NoBitsAbove(words[i - 1], 64, 64 - amount + k);
      }
    }
  }

  /** Position `offset` is added to the set positions. */
  ghost predicate Marked(from: seq<U64>, to: seq<U64>, offset: nat) {
    forall j :: 0 <= j < WINDOW ==> BitAt(to, j) == (j == offset || BitAt(from, j))
  }

  ghost predicate AllClear(words: seq<U64>) {
    forall j :: 0 <= j < WINDOW ==> !BitAt(words, j)
  }

  lemma ZerosAreClear(words: seq<U64>)
    requires forall i :: 0 <= i < |words| ==> words[i] == 0
    ensures AllClear(words)
  {
    forall j | 0 <= j < WINDOW ensures !BitAt(words, j) {
      ZeroHasNoBits(j % 64);
    }
  }

  lemma MovedBit(from: seq<U64>, to: seq<U64>, amount: nat, j: nat)
    requires WordsMoved(from, to, amount) && j < 64 * |to|
    ensures BitAt(to, j) == (j >= 64 * amount && BitAt(from, j - 64 * amount))
  {
    ZeroHasNoBits(j % 64);
    if j / 64 >= amount {
      assert (j - 64 * amount) / 64 == j / 64 - amount && (j - 64 * amount) % 64 == j % 64;
    }
  }

  lemma CarriedBit(from: seq<U64>, to: seq<U64>, amount: nat, j: nat)
    requires 0 < amount < 64 && BitsCarried(from, to, amount) && j < 64 * |to|
    ensures BitAt(to, j) == (j >= amount && BitAt(from, j - amount))
  {
    var i, k := j / 64, j % 64;
    CarriedWordBit(from, i, amount, k);
    if k >= amount {
      SplitBelow(i, k, amount);
    } else if i > 0 {
      SplitBelow(i - 1, 64 + k, amount);
    }
  }

  lemma SplitBelow(i: nat, k: nat, amount: nat)
    requires amount <= k < 64 + amount
    ensures (64 * i + k - amount) / 64 == i && (64 * i + k - amount) % 64 == k - amount
  {
  }

  /** The two phases together: a word move by `shift / 64` and a carry by `shift % 64`. */
  lemma TwoPhaseShift(from: seq<U64>, mid: seq<U64>, to: seq<U64>, shift: nat, j: nat)
    requires WordsMoved(from, mid, shift / 64) && j < 64 * |from|
    requires if shift % 64 > 0 then BitsCarried(mid, to, shift % 64) else to == mid
    ensures BitAt(to, j) == (j >= shift && BitAt(from, j - shift))
  {
    var ws, bs := shift / 64, shift % 64;
    if bs > 0 {
      CarriedBit(mid, to, bs, j);
    }
    if j >= bs {
      MovedBit(from, mid, ws, j - bs);
    }
  }

  lemma TwoPhases(from: seq<U64>, mid: seq<U64>, to: seq<U64>, shift: nat)
    requires WordsMoved(from, mid, shift / 64) && |from| == WORDS
    requires if shift % 64 > 0 then BitsCarried(mid, to, shift % 64) else to == mid
    ensures Shifted(from, to, shift)
  {
    forall j | 0 <= j < WINDOW
      ensures BitAt(to, j) == (j >= shift && BitAt(from, j - shift))
    {
      TwoPhaseShift(from, mid, to, shift, j);
    }
  }

  // ---- the in-place operations ----

  method Clear(bits: array<U64>)
    modifies bits
    ensures AllClear(bits[..])
  {
    forall i | 0 <= i < bits.Length {
      bits[i] := 0;
    }
    ZerosAreClear(bits[..]);
  }

  /** Moves every bit up by `shift` positions, in place. */
  method ShiftLeft(bits: array<U64>, shift: nat)
    requires bits.Length == WORDS
    modifies bits
    ensures Shifted(old(bits[..]), bits[..], shift)
  {
    ghost var from := bits[..];
    if shift == 0 {
      return;
    }
    if shift >= WINDOW {
      Clear(bits);
      return;
    }
    var wordShift := shift / 64;
    var bitShift := shift % 64;
    if wordShift > 0 {
      MoveWords(bits, wordShift);
    }
    ghost var mid := bits[..];
    assert WordsMoved(from, mid, wordShift);
    if bitShift > 0 {
      CarryBits(bits, bitShift);
    }
    TwoPhases(from, mid, bits[..], shift);
  }

  /** The descending loop: each word is read before it is overwritten. */
  method MoveWords(bits: array<U64>, wordShift: nat)
    modifies bits
    ensures WordsMoved(old(bits[..]), bits[..], wordShift)
  {
    var i := bits.Length;
    while i > 0
      invariant 0 <= i <= bits.Length
      invariant forall m :: 0 <= m < i ==> bits[m] == old(bits[m])
      invariant forall m :: i <= m < bits.Length ==> bits[m] == if m >= wordShift then old(bits[m - wordShift]) else 0
    {
      i := i - 1;
      bits[i] := if i >= wordShift then bits[i - wordShift] else 0;
    }
  }

  /** The ascending loop: the carry is taken from the word before it is shifted. */
  method CarryBits(bits: array<U64>, bitShift: nat)
    requires 0 < bitShift < 64
    modifies bits
    ensures BitsCarried(old(bits[..]), bits[..], bitShift)
  {
    ghost var from := bits[..];
    var carry: U64 := 0;
    var i := 0;
    while i < bits.Length
      invariant 0 <= i <= bits.Length
      invariant carry == CarryInto(from, i, bitShift)
      invariant forall m :: i <= m < bits.Length ==> bits[m] == from[m]
      invariant forall m :: 0 <= m < i ==> bits[m] == CarriedWord(from, m, bitShift)
    {
      ghost var word := CarriedWord(from, i, bitShift);
      var newCarry := Shr(bits[i], 64 - bitShift);
      bits[i] := Or(Shl(bits[i], bitShift), carry);
      carry := newCarry;
      i := i + 1;
    }
  }

  method TestBit(bits: array<U64>, offset: nat) returns (isSet: bool)
    requires bits.Length == WORDS
    ensures isSet == BitAt(bits[..], offset)
  {
    var word, bit := offset / 64, offset % 64;
    if word >= WORDS {
      return false;
    }
    MaskTestsBit(bits[word], bit);
    return And(bits[word], Shl(1, bit)) != 0;
  }

  method SetBit(bits: array<U64>, offset: nat)
    requires bits.Length == WORDS
    modifies bits
    ensures Marked(old(bits[..]), bits[..], offset)
  {
    var word, bit := offset / 64, offset % 64;
    if word < WORDS {
      MaskSetsBits(bits[word], bit);
      bits[word] := Or(bits[word], Shl(1, bit));
    }
  }

  // ---- the specification: a set of accepted nonces ----

  /** A nonce is accepted when it is new and less than `WINDOW` below the highest accepted so far. */
  predicate Admits(accepted: set<nat>, nonce: nat) {
    nonce !in accepted && forall m | m in accepted :: m < nonce + WINDOW
  }

  lemma AdmitsByHighest(accepted: set<nat>, nonce: nat)
    ensures Admits(accepted, nonce) <==> nonce !in accepted && nonce + 1024 > Highest(accepted)
  {
    assert accepted != {} ==> Highest(accepted) in accepted;
  }

  function Record(accepted: set<nat>, nonce: nat): set<nat> {
    if Admits(accepted, nonce) then accepted + {nonce} else accepted
  }

  lemma HighestIs(s: set<nat>, h: nat)
    requires forall n :: n in s ==> n <= h
    requires if s == {} then h == 0 else h in s
    ensures Highest(s) == h
  {
  }

  /** Bit `k` is set exactly when the nonce `k` below the highest was accepted. */
  ghost predicate Tracks(words: seq<U64>, highest: nat, accepted: set<nat>) {
    && highest == Highest(accepted)
    && forall k :: 0 <= k < WINDOW ==> BitAt(words, k) == (k <= highest && highest - k in accepted)
  }

  /** The bitmap after `shift` new positions are opened and position 0 is marked. */
  lemma AdvanceKeepsTrack(words: seq<U64>, mid: seq<U64>, next: seq<U64>, highest: nat, nonce: nat, accepted: set<nat>)
    requires Tracks(words, highest, accepted) && nonce > highest
    requires if nonce - highest >= WINDOW then AllClear(mid) else Shifted(words, mid, nonce - highest)
    requires Marked(mid, next, 0)
    ensures Admits(accepted, nonce) && Tracks(next, nonce, Record(accepted, nonce))
  {
    HighestIs(accepted + {nonce}, nonce);
    var shift := nonce - highest;
    forall k | 0 <= k < WINDOW
      ensures BitAt(next, k) == (k <= nonce && nonce - k in accepted + {nonce})
    {
      assert BitAt(next, k) == (k == 0 || BitAt(mid, k));
      if k >= shift {
        assert BitAt(words, k - shift) == (k - shift <= highest && highest - (k - shift) in accepted);
      }
    }
  }

  lemma MarkKeepsTrack(words: seq<U64>, next: seq<U64>, highest: nat, nonce: nat, accepted: set<nat>)
    requires Tracks(words, highest, accepted) && nonce <= highest < nonce + WINDOW
    requires nonce !in accepted
    requires Marked(words, next, highest - nonce)
    ensures Admits(accepted, nonce) && Tracks(next, highest, Record(accepted, nonce))
  {
    HighestIs(accepted + {nonce}, highest);
  }

  lemma StaleOrSeen(words: seq<U64>, highest: nat, nonce: nat, accepted: set<nat>)
    requires Tracks(words, highest, accepted) && nonce <= highest
    requires highest - nonce >= WINDOW || BitAt(words, highest - nonce)
    ensures !Admits(accepted, nonce)
  {
    AdmitsByHighest(accepted, nonce);
  }

  class ReplayWindow {
    var highest: U64
    const bitmap: array<U64>
    /** Every nonce accepted since creation; not bounded by the window. */
    ghost var accepted: set<nat>

    ghost predicate Valid()
      reads this, bitmap
    {
      bitmap.Length == WORDS && Tracks(bitmap[..], highest, accepted)
    }

    constructor ()
      ensures Valid() && accepted == {} && fresh(bitmap)
    {
      highest := 0;
      bitmap := new U64[WORDS](i => 0);
      accepted := {};
      new;
      ZerosAreClear(bitmap[..]);
    }

    method CheckAndUpdate(nonce: U64) returns (isFresh: bool)
      requires Valid()
      modifies this, bitmap
      ensures Valid()
      ensures isFresh == Admits(old(accepted), nonce)
      ensures accepted == Record(old(accepted), nonce)
    {
      ghost var words := bitmap[..];
      if nonce > highest {
        var shift := nonce - highest;
        if shift >= WINDOW {
          Clear(bitmap);
        } else {
          ShiftLeft(bitmap, shift);
        }
        ghost var mid := bitmap[..];
        SetBit(bitmap, 0);
        AdvanceKeepsTrack(words, mid, bitmap[..], highest, nonce, accepted);
        highest := nonce;
        accepted := Record(accepted, nonce);
        return true;
      }
      var offset := highest - nonce;
      if offset >= WINDOW {
        StaleOrSeen(words, highest, nonce, accepted);
        return false;
      }
      var seen := TestBit(bitmap, offset);
      if seen {
        StaleOrSeen(words, highest, nonce, accepted);
        return false;
      }
      SetBit(bitmap, offset);
      MarkKeepsTrack(words, bitmap[..], highest, nonce, accepted);
      accepted := Record(accepted, nonce);
      return true;
    }
  }

  // ---- laws of whole nonce sequences ----

  /** The nonces accepted after offering the first `i` of `nonces` in order. */
  function AcceptedBefore(nonces: seq<nat>, i: nat): set<nat>
    requires i <= |nonces|
  {
    if i == 0 then {} else Record(AcceptedBefore(nonces, i - 1), nonces[i - 1])
  }

  /** Whether the window accepts the `i`th of `nonces`. */
  predicate AcceptedAt(nonces: seq<nat>, i: nat)
    requires i < |nonces|
  {
    Admits(AcceptedBefore(nonces, i), nonces[i])
  }

  lemma {:induction false} AcceptedGrows(nonces: seq<nat>, i: nat, j: nat)
    requires i <= j <= |nonces|
    ensures AcceptedBefore(nonces, i) <= AcceptedBefore(nonces, j)
  {
    if i == j {
    } else {
      AcceptedGrows(nonces, i, j - 1);
    }
  }

  lemma {:induction false} AcceptedPrefix(nonces: seq<nat>, more: seq<nat>, i: nat)
    requires i <= |nonces| && nonces <= more
    ensures AcceptedBefore(nonces, i) == AcceptedBefore(more, i)
  {
    if i == 0 {
    } else {
      AcceptedPrefix(nonces, more, i - 1);
    }
  }

  lemma AcceptedAppend(nonces: seq<nat>, nonce: nat)
    ensures AcceptedBefore(nonces + [nonce], |nonces| + 1) == Record(AcceptedBefore(nonces, |nonces|), nonce)
  {
    AcceptedPrefix(nonces, nonces + [nonce], |nonces|);
  }

  /** No nonce is ever accepted twice, whatever is offered in between. */
  lemma NeverAcceptedTwice(nonces: seq<nat>, i: nat, j: nat)
    requires i < j < |nonces| && nonces[i] == nonces[j] && AcceptedAt(nonces, i)
    ensures !AcceptedAt(nonces, j)
  {
    AcceptedGrows(nonces, i + 1, j);
  }

  predicate FirstAt(nonces: seq<nat>, i: nat)
    requires i < |nonces|
  {
    forall k :: 0 <= k < i ==> nonces[k] != nonces[i]
  }

  predicate WithinWindowAt(nonces: seq<nat>, i: nat)
    requires i < |nonces|
  {
    forall k :: 0 <= k < i ==> nonces[k] < nonces[i] + WINDOW
  }

  /** Every nonce, when it first arrives, lies less than `WINDOW` below the maximum so far. */
  predicate MildlyReordered(nonces: seq<nat>) {
    forall i :: 0 <= i < |nonces| && FirstAt(nonces, i) ==> WithinWindowAt(nonces, i)
  }

  lemma {:induction false} AcceptedHaveArrived(nonces: seq<nat>, i: nat, n: nat) returns (k: nat)
    requires i <= |nonces| && n in AcceptedBefore(nonces, i)
    ensures k < i && nonces[k] == n
  {
    if n == nonces[i - 1] {
      k := i - 1;
    } else {
      k := AcceptedHaveArrived(nonces, i - 1, n);
    }
  }

  lemma EarlierArrival(nonces: seq<nat>, i: nat) returns (k: nat)
    requires i < |nonces| && !FirstAt(nonces, i)
    ensures k < i && nonces[k] == nonces[i]
  {
    k :| 0 <= k < i && nonces[k] == nonces[i];
  }

  lemma {:induction false} MildArrivalsAreAccepted(nonces: seq<nat>, i: nat, k: nat)
    requires MildlyReordered(nonces) && k < i <= |nonces|
    ensures nonces[k] in AcceptedBefore(nonces, i)
  {
    AcceptedGrows(nonces, i - 1, i);
    if k < i - 1 {
      MildArrivalsAreAccepted(nonces, i - 1, k);
    } else if FirstAt(nonces, k) {
      MildFirstIsAdmitted(nonces, k);
    } else {
      var m := EarlierArrival(nonces, k);
      MildArrivalsAreAccepted(nonces, i - 1, m);
    }
  }

  lemma MildFirstIsAdmitted(nonces: seq<nat>, i: nat)
    requires MildlyReordered(nonces) && i < |nonces| && FirstAt(nonces, i)
    ensures AcceptedAt(nonces, i)
  {
    forall m | m in AcceptedBefore(nonces, i)
      ensures m != nonces[i] && m < nonces[i] + WINDOW
    {
      var k := AcceptedHaveArrived(nonces, i, m);
    }
  }

  /** Under mild reordering the window accepts exactly the first arrivals: nothing genuine is
      lost and duplicates change nothing. */
  lemma MildReorderingIsTolerated(nonces: seq<nat>, i: nat)
    requires MildlyReordered(nonces) && i < |nonces|
    ensures AcceptedAt(nonces, i) <==> FirstAt(nonces, i)
  {
    if FirstAt(nonces, i) {
      MildFirstIsAdmitted(nonces, i);
    } else {
      var k := EarlierArrival(nonces, i);
      MildArrivalsAreAccepted(nonces, i, k);
    }
  }
}
