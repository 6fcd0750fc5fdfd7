/**
  Machine words as numbers read bit by bit: the 32-bit summary word that says which of the 32
  ready queues are non-empty, and the 64-bit affinity mask of a thread.  A word of n bits is a
  natural number below Pow2(n).
*/
module BitWords {

  function Pow2(n: nat): (r: nat)
    ensures r > 0
  {
    if n == 0 then 1 else 2 * Pow2(n - 1)
  }

  /** Bit `p` of a word (the test `w & (1 << p)`). */
  predicate Bit(w: nat, p: nat) {
    if p == 0 then w % 2 == 1 else Bit(w / 2, p - 1)
  }

  /** The word with bit `p` set (`w | (1 << p)`). */
  function SetBit(w: nat, p: nat): nat {
    if p == 0 then w / 2 * 2 + 1 else 2 * SetBit(w / 2, p - 1) + w % 2
  }

  /** The word with bit `p` cleared (`w & ~(1 << p)`). */
  function ClearBit(w: nat, p: nat): nat {
    if p == 0 then w / 2 * 2 else 2 * ClearBit(w / 2, p - 1) + w % 2
  }

  /** The bitwise exclusive or. */
  function Xor(a: nat, b: nat): nat {
    if a == 0 then b
    else if b == 0 then a
    else 2 * Xor(a / 2, b / 2) + (if a % 2 == b % 2 then 0 else 1)
  }

  /** Setting and clearing a bit affect that bit and no other. */
  lemma {:induction false} BitEffect(w: nat, p: nat, q: nat)
    ensures Bit(SetBit(w, p), q) <==> p == q || Bit(w, q)
    ensures Bit(ClearBit(w, p), q) <==> p != q && Bit(w, q)
  {
    if p > 0 && q > 0 {
      BitEffect(w / 2, p - 1, q - 1);
      assert SetBit(w, p) / 2 == SetBit(w / 2, p - 1);
      assert ClearBit(w, p) / 2 == ClearBit(w / 2, p - 1);
    }
  }

  /** Setting and clearing a bit stay within the word. */
  lemma {:induction false} WordSize(w: nat, p: nat, n: nat)
    requires p < n && w < Pow2(n)
    ensures SetBit(w, p) < Pow2(n) && ClearBit(w, p) < Pow2(n)
  {
    hide Pow2;
    HalfWord(w, n);
    if p == 0 {
      assert SetBit(w, p) == w / 2 * 2 + 1 && ClearBit(w, p) == w / 2 * 2;
    } else {
      WordSize(w / 2, p - 1, n - 1);
      assert SetBit(w, p) == 2 * SetBit(w / 2, p - 1) + w % 2;
      assert ClearBit(w, p) == 2 * ClearBit(w / 2, p - 1) + w % 2;
    }
  }

  lemma HalfWord(w: nat, n: nat)
    requires n > 0 && w < Pow2(n)
    ensures Pow2(n) == 2 * Pow2(n - 1) && w / 2 < Pow2(n - 1)
  {
  }

  lemma {:induction false} XorBits(a: nat, b: nat, p: nat)
    ensures Bit(Xor(a, b), p) <==> Bit(a, p) != Bit(b, p)
  {
    if a == 0 {
      NoBits(p);
    } else if b == 0 {
      NoBits(p);
    } else if p > 0 {
      XorBits(a / 2, b / 2, p - 1);
      assert Xor(a, b) / 2 == Xor(a / 2, b / 2);
    }
  }

  lemma {:induction false} NoBits(p: nat)
    ensures !Bit(0, p)
  {
    if p > 0 {
      NoBits(p - 1);
    }
  }

  /** The mask of one bit has that bit and no other. */
  lemma {:induction false} SingleBit(p: nat, q: nat)
    ensures Bit(Pow2(p), q) <==> p == q
  {
    if p == 0 {
      if q > 0 {
        NoBits(q - 1);
      }
    } else if q > 0 {
      SingleBit(p - 1, q - 1);
    }
  }

  /** A word without bits is zero (and `NoBits` is the converse). */
  lemma {:induction false} ZeroWord(w: nat, n: nat)
    requires w < Pow2(n)
    requires forall q :: 0 <= q < n ==> !Bit(w, q)
    ensures w == 0
  {
    if n > 0 {
      forall q | 0 <= q < n - 1
        ensures !Bit(w / 2, q)
      {
        assert !Bit(w, q + 1);
      }
      ZeroWord(w / 2, n - 1);
      assert !Bit(w, 0);
    }
  }

  /**
    The comparison the scheduler uses to decide whether to look at the shared queues: the
    core's word exceeds (shared XOR core) exactly when the core's word has the highest bit
    of the shared word.
  */
  lemma {:induction false} HighestBitTest(shared: nat, core: nat, top: nat, n: nat)
    requires shared < Pow2(n) && top < n && Bit(shared, top)
    requires forall q :: top < q < n ==> !Bit(shared, q)
    ensures core > Xor(shared, core) <==> Bit(core, top)
  {
    if top == 0 {
      forall q: nat | q < n - 1
        ensures !Bit(shared / 2, q)
      {
        assert !Bit(shared, q + 1);
      }
      ZeroWord(shared / 2, n - 1);
      assert shared == 1;
      assert Xor(1, core) == if core % 2 == 1 then core - 1 else core + 1 by {
        assert Xor(0, core / 2) == core / 2;
      }
    } else {
      forall q | top - 1 < q < n - 1
        ensures !Bit(shared / 2, q)
      {
        assert !Bit(shared, q + 1);
      }
      HighestBitTest(shared / 2, core / 2, top - 1, n - 1);
      if core == 0 {
        NoBits(top);
      } else {
        if shared == 0 {
          NoBits(top);
        }
        HalvesDiffer(shared / 2, core / 2, top - 1);
      }
    }
  }

  /** XOR with a non-zero word changes the word. */
  lemma HalvesDiffer(shared: nat, core: nat, p: nat)
    requires Bit(shared, p)
    ensures Xor(shared, core) != core
  {
    XorBits(shared, core, p);
  }
}
