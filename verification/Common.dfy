/** Types shared by the component models. */
module Common {

  datatype Option<+T> = None | Some(value: T)

  /** The result of code that may panic, for use with `:-`. */
  datatype Outcome<+T> = Pass(value: T) | Panic {
    predicate IsFailure() { Panic? }

    function PropagateFailure<U>(): Outcome<U>
      requires IsFailure()
    {
      Panic
    }

    function Extract(): T
      requires !IsFailure()
    {
      value
    }
  }

  /** An unsigned byte, the unit of memory, of firmware tables and of the wire. */
  type Byte = x: int | 0 <= x < 256

  /** 2 to the power `n`. */
  function Pow2(n: nat): (r: nat)
    ensures r > 0
  {
    if n == 0 then 1 else 2 * Pow2(n - 1)
  }

  /** Bit `k` of `v`. */
  predicate Bit(v: nat, k: nat) {
    if k == 0 then v % 2 == 1 else Bit(v / 2, k - 1)
  }

  /** Bits from 8 up are those of the quotient by 256. */
  lemma BitsOfByteQuotient(v: nat, k: nat)
    ensures Bit(v, 8 + k) <==> Bit(v / 256, k)
  {
    BitsOfQuarter(v, 6 + k);
    BitsOfQuarter(v / 4, 4 + k);
    BitsOfQuarter(v / 4 / 4, 2 + k);
    BitsOfQuarter(v / 4 / 4 / 4, k);
    var a := v / 4;
    var b := a / 4;
    var c := b / 4;
    assert v / 16 == b;
    assert v / 64 == c;
    assert v / 256 == c / 4;
  }

  lemma BitsOfQuarter(v: nat, k: nat)
    ensures Bit(v, 2 + k) <==> Bit(v / 4, k)
  {
    assert Bit(v, 2 + k) <==> Bit(v / 2, 1 + k);
    assert v / 2 / 2 == v / 4;
  }

  /** Adding a multiple of 2^n leaves the bits below n. */
  lemma {:induction false} BitsBelow(q: nat, v: nat, n: nat, k: nat)
    requires k < n
    ensures Bit(Pow2(n) * q + v, k) <==> Bit(v, k)
  {
    var p := Pow2(n - 1) * q;
    assert Pow2(n) * q == 2 * p;
    assert (2 * p + v) / 2 == p + v / 2;
    if k == 0 {
    } else {
      BitsBelow(q, v / 2, n - 1, k - 1);
    }
  }

  /** Taking away a set bit clears it and changes no other. */
  lemma {:induction false} BitCleared(v: nat, n: nat, k: nat)
    requires Bit(v, n)
    ensures v >= Pow2(n) && (Bit(v - Pow2(n), k) <==> k != n && Bit(v, k))
  {
    if n == 0 {
      assert (v - 1) / 2 == v / 2;
    } else {
      var p := Pow2(n - 1);
      BitCleared(v / 2, n - 1, if k == 0 then 0 else k - 1);
      assert (v - 2 * p) / 2 == v / 2 - p;
    }
  }

  lemma {:induction false} NoBits(k: nat)
    ensures !Bit(0, k)
  {
    if k == 0 {
    } else {
      NoBits(k - 1);
    }
  }

  /** 2^b - 2^a has exactly the bits from a up to b. */
  lemma {:induction false} BitsOfRun(a: nat, b: nat, k: nat)
    requires a <= b
    ensures Pow2(a) <= Pow2(b) && (Bit(Pow2(b) - Pow2(a), k) <==> a <= k < b)
    decreases b
  {
    if a == b {
      NoBits(k);
    } else if a == 0 {
      BitsOfRun(0, b - 1, if k == 0 then 0 else k - 1);
      assert (2 * Pow2(b - 1) - 1) / 2 == Pow2(b - 1) - 1;
    } else {
      BitsOfRun(a - 1, b - 1, if k == 0 then 0 else k - 1);
    }
  }
}
