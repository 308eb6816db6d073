/**
  The bitmap in which pb_decode_noinit notes the required fields it has seen (pb_decode.c).
 */
module PbRequired {
  import opened Coding
  import opened PbVarint

  function Bit(seen: set<nat>, k: nat): nat {
    if k in seen then 1 else 0
  }

  /** The low `n` bits of the word for the indices from `base` on. */
  function WordOf(seen: set<nat>, base: nat, n: nat): nat {
    if n == 0 then 0 else WordOf(seen, base, n - 1) + Bit(seen, base + n - 1) * Pow2(n - 1)
  }

  lemma {:induction false} WordBound(seen: set<nat>, base: nat, n: nat)
    ensures WordOf(seen, base, n) < Pow2(n)
  {
    if n > 0 {
      WordBound(seen, base, n - 1);
    }
  }

  predicate HasBit(seen: set<nat>, base: nat, k: nat) {
    base + k in seen
  }

  /** The word is all ones up to bit `r`, the rest being zero, exactly if all these are seen. */
  lemma {:induction false} WordFull(seen: set<nat>, base: nat, r: nat, n: nat)
    requires r <= n && forall k :: r <= k < n ==> !HasBit(seen, base, k)
    ensures WordOf(seen, base, n) == Pow2(r) - 1 <==> forall k :: 0 <= k < r ==> HasBit(seen, base, k)
    decreases n
  {
    if n > r {
      assert !HasBit(seen, base, n - 1);
      WordFull(seen, base, r, n - 1);
    } else if n > 0 {
      WordFull(seen, base, n - 1, n - 1);
      WordBound(seen, base, n - 1);
      assert HasBit(seen, base, n - 1) <==> Bit(seen, base + n - 1) == 1;
    }
  }

  /** Bits behind the word do not show in it. */
  lemma {:induction false} WordAdd(seen: set<nat>, base: nat, k: nat, n: nat)
    requires base + k !in seen
    ensures WordOf(seen + {base + k}, base, n) == WordOf(seen, base, n) + if k < n then Pow2(k) else 0
    decreases n
  {
    if n > 0 {
      WordAdd(seen, base, k, n - 1);
    }
  }

  lemma {:induction false} WordOther(seen: set<nat>, base: nat, k: nat, n: nat)
    requires k < base || base + n <= k
    ensures WordOf(seen + {k}, base, n) == WordOf(seen, base, n)
    decreases n
  {
    if n > 0 {
      WordOther(seen, base, k, n - 1);
    }
  }

  /** Testing a bit of the word. */
  lemma {:induction false} WordBit(seen: set<nat>, base: nat, k: nat, n: nat)
    requires k < n
    ensures WordOf(seen, base, n) / Pow2(k) % 2 == Bit(seen, base + k)
    decreases n
  {
    var b := Bit(seen, base + n - 1);
    WordBound(seen, base, n - 1);
    if k == n - 1 {
      TopBit(WordOf(seen, base, n - 1), b, Pow2(k));
    } else {
      WordBit(seen, base, k, n - 1);
      if b == 1 {
        PowSplit(k, n - 1);
        hide Pow2;
        HigherBits(WordOf(seen, base, n - 1), Pow2(n - 2 - k), Pow2(k));
      }
    }
  }

  lemma TopBit(w: nat, b: nat, p: nat)
    requires w < p && b <= 1
    ensures (w + b * p) / p % 2 == b
  {
  }

  lemma {:induction false} PowSplit(k: nat, n: nat)
    requires k < n
    ensures Pow2(n) == 2 * Pow2(n - 1 - k) * Pow2(k)
    decreases n
  {
    if k < n - 1 {
      PowSplit(k, n - 1);
    }
  }

  lemma HigherBits(w: nat, c: nat, p: nat)
    requires p > 0
    ensures (w + 2 * c * p) / p % 2 == w / p % 2
  {
    DivPlus(w, 2 * c, p);
  }

  lemma DivPlus(w: nat, c: nat, p: nat)
    requires p > 0
    ensures (w + c * p) / p == w / p + c
  {
    var q, r := w / p, w % p;
    assert w + c * p == (q + c) * p + r;
    QuotientIs(w + c * p, q + c, r, p);
  }

  lemma QuotientIs(x: nat, q: nat, r: nat, p: nat)
    requires x == q * p + r && r < p
    ensures x / p == q
  {
    var d := x / p;
    assert x == d * p + x % p;
    Monotone(d + 1, q, p);
    Monotone(q + 1, d, p);
  }

  lemma Monotone(a: nat, b: nat, p: nat)
    ensures a <= b ==> a * p <= b * p
  {
  }

  /** `w |= 1 << k`. */
  function OrBit(w: nat, k: nat): nat {
    if w / Pow2(k) % 2 == 1 then w else w + Pow2(k)
  }

  lemma OrBitAdds(seen: set<nat>, base: nat, k: nat, n: nat)
    requires k < n
    ensures OrBit(WordOf(seen, base, n), k) == WordOf(seen + {base + k}, base, n)
  {
    WordBit(seen, base, k, n);
    if base + k in seen {
      assert seen + {base + k} == seen;
    } else {
      WordAdd(seen, base, k, n);
    }
  }

  /** `~(uint32_t)0 >> (32 - r)` has the low `r` bits set. */
  lemma LowOnes(r: nat)
    requires 0 < r <= 32
    ensures 0xffff_ffff / Pow2(32 - r) == Pow2(r) - 1
  {
    hide Pow2;
    PowProduct(r, 32 - r);
    Pow32();
    var p, q := Pow2(32 - r), Pow2(r);
    LessOne(q, p);
    QuotientIs(0xffff_ffff, q - 1, p - 1, p);
  }

  lemma LessOne(q: nat, p: nat)
    ensures q * p - 1 == (q - 1) * p + (p - 1)
  {
  }

  lemma Pow32()
    ensures Pow2(32) == 0x1_0000_0000
  {
    assert Pow2(4) == 16 && Pow2(8) == 256 && Pow2(12) == 0x1000 && Pow2(16) == 0x1_0000;
    assert Pow2(20) == 0x10_0000 && Pow2(24) == 0x100_0000 && Pow2(28) == 0x1000_0000;
  }

  lemma {:induction false} PowProduct(a: nat, b: nat)
    ensures Pow2(a + b) == Pow2(a) * Pow2(b)
    decreases b
  {
    if b > 0 {
      PowProduct(a, b - 1);
    }
  }

  ghost predicate AllBelow(seen: set<nat>, n: nat) {
    forall k :: 0 <= k < n ==> k in seen
  }

  /** fields_seen: two words of 32 bits. */
  class FieldsSeen {
    const words: array<Word>

    ghost predicate Notes(seen: set<nat>)
      reads this, words
    {
      words.Length == 2 && words[0] == WordOf(seen, 0, 32) && words[1] == WordOf(seen, 32, 32)
    }

    constructor ()
      ensures fresh(words) && Notes({})
    {
      words := new Word[2] [0, 0];
      new;
      EmptyWord(0, 32);
      EmptyWord(32, 32);
    }

    method Note(k: nat, ghost seen: set<nat>)
      requires Notes(seen) && k < 64
      modifies words
      ensures Notes(seen + {k})
    {
      hide WordOf, OrBit;
      OrBitAdds(seen, k / 32 * 32, k % 32, 32);
      WordOther(seen, (1 - k / 32) * 32, k, 32);
      WordBound(seen + {k}, k / 32 * 32, 32);
      Pow32();
      words[k / 32] := OrBit(words[k / 32], k % 32);
    }

    /** The whole words first, then the remaining bits. */
    method AllSeen(n: nat, ghost seen: set<nat>) returns (ok: bool)
      requires Notes(seen) && n <= 64 && forall k :: k in seen ==> k < n
      ensures ok == AllBelow(seen, n)
    {
      hide WordOf, Pow2;
      WordSeen(seen, 0, n);
      WordSeen(seen, 32, n);
      BothWords(seen, n);
      for i := 0 to n / 32
        invariant forall j :: 0 <= j < i ==> words[j] == 0xffff_ffff
      {
        if words[i] != 0xffff_ffff {
          return false;
        }
      }
      if n % 32 != 0 && words[n / 32] != 0xffff_ffff / Pow2(32 - n % 32) {
        return false;
      }
      ok := true;
    }
  }

  lemma {:induction false} EmptyWord(base: nat, n: nat)
    ensures WordOf({}, base, n) == 0
  {
    if n > 0 {
      EmptyWord(base, n - 1);
    }
  }

  /** How many bits of the word at `base` are in use when `n` are in all. */
  function BitsAt(base: nat, n: nat): nat {
    if n <= base then 0 else if n - base < 32 then n - base else 32
  }

  lemma WordSeen(seen: set<nat>, base: nat, n: nat)
    requires forall k :: k in seen ==> k < n
    ensures var r := BitsAt(base, n);
      && (r == 32 ==> (WordOf(seen, base, 32) == 0xffff_ffff <==> forall k :: 0 <= k < 32 ==> HasBit(seen, base, k)))
      && (0 < r < 32 ==> (WordOf(seen, base, 32) == 0xffff_ffff / Pow2(32 - r)
        <==> forall k :: 0 <= k < r ==> HasBit(seen, base, k)))
  {
    hide WordOf, Pow2;
    var r := BitsAt(base, n);
    forall k | r <= k < 32 ensures !HasBit(seen, base, k) { }
    WordFull(seen, base, r, 32);
    if r > 0 {
      LowOnes(r);
    }
    Pow32();
  }

  lemma BothWords(seen: set<nat>, n: nat)
    requires n <= 64
    ensures AllBelow(seen, n)
      <==> (forall k :: 0 <= k < BitsAt(0, n) ==> HasBit(seen, 0, k))
           && forall k :: 0 <= k < BitsAt(32, n) ==> HasBit(seen, 32, k)
  {
    if (forall k :: 0 <= k < BitsAt(0, n) ==> HasBit(seen, 0, k))
       && forall k :: 0 <= k < BitsAt(32, n) ==> HasBit(seen, 32, k)
    {
      forall k | 0 <= k < n ensures k in seen {
        if k < 32 {
          assert HasBit(seen, 0, k);
        } else {
          assert HasBit(seen, 32, k - 32);
        }
      }
    }
  }
}
