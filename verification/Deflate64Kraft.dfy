/** Which code lengths make a tree: those that satisfy Kraft's inequality. */
module Deflate64Kraft {
  import opened Prelude
  import opened Deflate64Huffman

  /** The share of all 15-bit strings that a code of length `l` takes. */
  function Share(l: nat): nat {
    if 1 <= l <= 15 then Pow2(15 - l) else 0
  }

  function Shares(ls: Lengths): nat {
    if ls == [] then 0 else Shares(ls[..|ls| - 1]) + Share(ls[|ls| - 1])
  }

  /** The end of the codes of length `l`, when the codes of all shorter ones come first. */
  function End(ls: Lengths, l: nat): nat
    requires l >= 1
  {
    First(ls, l) + Count(ls, l)
  }

  lemma EndNext(ls: Lengths, l: nat)
    requires l >= 2
    ensures End(ls, l) == 2 * End(ls, l - 1) + Count(ls, l)
  {
  }

  /** One more symbol moves the ends of its length and of all longer ones. */
  lemma {:induction false} EndGrows(ls: Lengths, x: nat, l: nat)
    requires l >= 1
    ensures End(ls + [x], l) == End(ls, l) + if 1 <= x <= l then Pow2(l - x) else 0
  {
    assert (ls + [x])[..|ls|] == ls;
    assert Count(ls + [x], l) == Count(ls, l) + if x == l then 1 else 0;
    if l > 1 {
      EndGrows(ls, x, l - 1);
      EndNext(ls, l);
      EndNext(ls + [x], l);
    }
  }

  lemma {:induction false} SharesAre(ls: Lengths)
    ensures Shares(ls) == End(ls, 15)
  {
    if ls == [] {
      NoCodes(15);
    } else {
      var init, x := ls[..|ls| - 1], ls[|ls| - 1];
      assert ls == init + [x];
      SharesAre(init);
      EndGrows(init, x, 15);
    }
  }

  lemma {:induction false} NoCodes(l: nat)
    requires l >= 1
    ensures End([], l) == 0
  {
    if l > 1 {
      NoCodes(l - 1);
      EndNext([], l);
    }
  }

  /** If the codes fit at one length they fit at every shorter one. */
  lemma {:induction false} FitsBelow(ls: Lengths, l: nat)
    requires l >= 1
    ensures End(ls, l) <= Pow2(l) <==> Subscribed(ls, l)
  {
    if l > 1 {
      FitsBelow(ls, l - 1);
      EndNext(ls, l);
      if Subscribed(ls, l) {
        assert End(ls, l) <= Pow2(l);
      }
      if End(ls, l) <= Pow2(l) {
        assert End(ls, l - 1) <= Pow2(l - 1);
        forall k | 1 <= k <= l ensures First(ls, k) + Count(ls, k) <= Pow2(k) {
          if k < l { assert First(ls, k) + Count(ls, k) <= Pow2(k); }
        }
      }
    } else {
      if End(ls, 1) <= Pow2(1) {
        forall k | 1 <= k <= 1 ensures First(ls, k) + Count(ls, k) <= Pow2(k) {}
      }
    }
  }

  lemma {:induction false} CodesCounted(ls: Lengths, l: nat)
    requires l >= 1 && forall s | 0 <= s < |ls| :: ls[s] < 16
    ensures Index(ls, l) == 0 <==> forall s | 0 <= s < |ls| :: ls[s] == 0 || ls[s] >= l
    decreases l
  {
    if l > 1 {
      CodesCounted(ls, l - 1);
      CountZero(ls, l - 1);
    }
  }

  lemma {:induction false} CountZero(ls: Lengths, l: nat)
    ensures Count(ls, l) == 0 <==> forall s | 0 <= s < |ls| :: ls[s] != l
  {
    if ls != [] {
      CountZero(ls[..|ls| - 1], l);
    }
  }

  lemma AllStrings()
    ensures Pow2(15) == 0x8000
  {
    Pow2Sum(8, 7);
    assert Pow2(8) == 0x100 && Pow2(7) == 0x80;
  }

  /** Lengths make a tree if and only if there are at most 320 of them, none is over 15, their shares add up to at most
      all strings, and there is a code, unless none is needed. */
  lemma AcceptedMeans(ls: Lengths, allowEmpty: bool)
    ensures Accepted(ls, allowEmpty) <==>
              && |ls| <= 320 && (forall s | 0 <= s < |ls| :: ls[s] <= 15) && Shares(ls) <= 0x8000
              && (allowEmpty || exists s :: 0 <= s < |ls| && ls[s] > 0)
  {
    SharesAre(ls);
    FitsBelow(ls, 15);
    AllStrings();
    hide Subscribed, Count, First, Index, Shares, Pow2, End;
    if forall s | 0 <= s < |ls| :: ls[s] <= 15 {
      CodesCounted(ls, 16);
    }
  }
}
