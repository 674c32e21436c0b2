/** Bitwise or on unbounded naturals, for the places where the source builds a word out of fields. */
module Bits {
  function BitOr(a: nat, b: nat): nat
    decreases a + b
  {
    if a == 0 && b == 0 then 0
    else (if a % 2 == 1 || b % 2 == 1 then 1 else 0) + 2 * BitOr(a / 2, b / 2)
  }

  /** `a << k`, by doubling. */
  function Shl(a: nat, k: nat): nat {
    if k == 0 then a else 2 * Shl(a, k - 1)
  }

  lemma {:induction false} OrZero(a: nat)
    ensures BitOr(a, 0) == a && BitOr(0, a) == a
  {
    if a != 0 {
      OrZero(a / 2);
    }
  }

  lemma {:induction false} OrIdempotent(a: nat)
    ensures BitOr(a, a) == a
  {
    if a != 0 {
      OrIdempotent(a / 2);
    }
  }

  lemma {:induction false} OrCommutes(a: nat, b: nat)
    ensures BitOr(a, b) == BitOr(b, a)
    decreases a + b
  {
    if a != 0 || b != 0 {
      OrCommutes(a / 2, b / 2);
    }
  }

  lemma {:induction false} OrAssociates(a: nat, b: nat, c: nat)
    ensures BitOr(BitOr(a, b), c) == BitOr(a, BitOr(b, c))
    decreases a + b + c
  {
    if a != 0 || b != 0 || c != 0 {
      OrHalves(a, b);
      OrHalves(b, c);
      OrAssociates(a / 2, b / 2, c / 2);
    }
  }

  lemma OrHalves(a: nat, b: nat)
    ensures BitOr(a, b) / 2 == BitOr(a / 2, b / 2)
    ensures BitOr(a, b) % 2 == if a % 2 == 1 || b % 2 == 1 then 1 else 0
  {
  }

  /** Or works on the fields of a word separately: the part above bit k and the part below. */
  lemma {:induction false} OrFields(a: nat, x: nat, b: nat, y: nat, k: nat)
    requires x < Shl(1, k) && y < Shl(1, k)
    ensures BitOr(x, y) < Shl(1, k)
    ensures BitOr(Shl(a, k) + x, Shl(b, k) + y) == Shl(BitOr(a, b), k) + BitOr(x, y)
    decreases k
  {
    if k == 0 {
      OrZero(0);
    } else {
      OrFields(a, x / 2, b, y / 2, k - 1);
      OrHalves(Shl(a, k) + x, Shl(b, k) + y);
      OrHalves(x, y);
    }
  }

  /** Putting a field into the zero bits below bit k is adding it. */
  lemma OrBelow(a: nat, y: nat, k: nat)
    requires y < Shl(1, k)
    ensures BitOr(Shl(a, k), y) == BitOr(y, Shl(a, k)) == Shl(a, k) + y
  {
    OrFields(a, 0, 0, y, k);
    OrFields(0, y, a, 0, k);
    ShlZero(k);
    OrZero(a);
    OrZero(y);
  }

  lemma {:induction false} ShlZero(k: nat)
    ensures Shl(0, k) == 0
  {
    if k > 0 {
      ShlZero(k - 1);
    }
  }

  lemma {:induction false} ShlPositive(k: nat)
    ensures Shl(1, k) > 0
  {
    if k > 0 {
      ShlPositive(k - 1);
    }
  }

  lemma {:induction false} ShlSum(a: nat, j: nat, k: nat)
    ensures Shl(a, j + k) == Shl(Shl(a, j), k)
  {
    if k > 0 {
      ShlSum(a, j, k - 1);
    }
  }

  lemma ShlStep(a: nat, k: nat)
    ensures Shl(a, k + 1) == 2 * Shl(a, k)
  {
  }

  lemma ShlNibble(a: nat, k: nat)
    ensures Shl(a, k + 4) == 0x10 * Shl(a, k)
  {
    hide Shl;
    ShlStep(a, k);
    ShlStep(a, k + 1);
    ShlStep(a, k + 2);
    ShlStep(a, k + 3);
  }

  lemma ShlByte(a: nat, k: nat)
    ensures Shl(a, k + 8) == 0x100 * Shl(a, k)
  {
    hide Shl;
    ShlNibble(a, k);
    ShlNibble(a, k + 4);
  }

  lemma ShlNone(a: nat)
    ensures Shl(a, 0) == a
  {
  }

  /** Shifts by the widths of a page, a large page and a 32-bit word. */
  lemma ShlPage(a: nat)
    ensures Shl(a, 12) == 0x1000 * a && Shl(a, 21) == 0x20_0000 * a
  {
    hide Shl;
    ShlNone(a);
    ShlByte(a, 0);
    ShlNibble(a, 8);
    ShlByte(a, 8);
    ShlNibble(a, 16);
    ShlStep(a, 20);
  }

  lemma ShlWord(a: nat)
    ensures Shl(a, 32) == 0x1_0000_0000 * a
  {
    hide Shl;
    ShlNone(a);
    ShlByte(a, 0);
    ShlByte(a, 8);
    ShlByte(a, 16);
    ShlByte(a, 24);
  }

  /** The or of all values of a sequence. */
  function OrAll(vs: seq<nat>): nat {
    if vs == [] then 0 else BitOr(OrAll(vs[..|vs| - 1]), vs[|vs| - 1])
  }

  lemma {:induction false} OrAllBound(vs: seq<nat>, k: nat)
    requires forall i :: 0 <= i < |vs| ==> vs[i] < Shl(1, k)
    ensures OrAll(vs) < Shl(1, k)
  {
    ShlPositive(k);
    if vs != [] {
      OrAllBound(vs[..|vs| - 1], k);
      OrFields(0, OrAll(vs[..|vs| - 1]), 0, vs[|vs| - 1], k);
    }
  }

  lemma {:induction false} OrAllSame(vs: seq<nat>, v: nat)
    requires vs != [] && forall i :: 0 <= i < |vs| ==> vs[i] == v
    ensures OrAll(vs) == v
  {
    if |vs| == 1 {
      OrZero(v);
      assert vs[..0] == [];
    } else {
      OrAllSame(vs[..|vs| - 1], v);
      OrIdempotent(v);
    }
  }

  /** Every bit of a is set in v. */
  predicate Within(a: nat, v: nat) { BitOr(a, v) == v }

  lemma WithinOr(a: nat, b: nat, v: nat)
    ensures Within(BitOr(a, b), v) <==> Within(a, v) && Within(b, v)
  {
    OrAssociates(a, b, v);
    if Within(BitOr(a, b), v) {
      OrIdempotent(a);
      OrAssociates(a, a, BitOr(b, v));
      OrIdempotent(b);
      OrCommutes(a, b);
      OrAssociates(b, a, v);
      OrAssociates(b, b, BitOr(a, v));
    }
  }

  lemma {:induction false} WithinOrAll(vs: seq<nat>, v: nat)
    ensures Within(OrAll(vs), v) <==> forall i :: 0 <= i < |vs| ==> Within(vs[i], v)
  {
    if vs == [] {
      OrZero(v);
    } else {
      var n := |vs| - 1;
      WithinOrAll(vs[..n], v);
      WithinOr(OrAll(vs[..n]), vs[n], v);
      assert forall i :: 0 <= i < n ==> vs[..n][i] == vs[i];
    }
  }

  /** An accumulating register shows the value written last exactly if no earlier value had a bit outside it. */
  lemma OrAllIsLastIff(vs: seq<nat>)
    requires vs != []
    ensures OrAll(vs) == vs[|vs| - 1] <==> forall i :: 0 <= i < |vs| ==> Within(vs[i], vs[|vs| - 1])
  {
    var n := |vs| - 1;
    WithinOrAll(vs[..n], vs[n]);
    OrIdempotent(vs[n]);
    assert forall i :: 0 <= i < n ==> vs[..n][i] == vs[i];
  }
}
