/** Fixed-width integers and their big-endian byte form, as every codec of the
    broker uses them (`to_be_bytes` / `from_be_bytes`). */
module Bytes {
  type byte = x: int | 0 <= x < 0x100
  type u16 = x: int | 0 <= x < 0x1_0000
  type u32 = x: int | 0 <= x < 0x1_0000_0000
  type u64 = x: int | 0 <= x < 0x1_0000_0000_0000_0000

  const U16_MAX: u16 := 0xFFFF
  const U32_MAX: u32 := 0xFFFF_FFFF
  const U64_MAX: u64 := 0xFFFF_FFFF_FFFF_FFFF

  datatype Option<+T> = None | Some(value: T)

  /** `Panic` is an abort of the task (an out-of-range slice), as opposed to an error value. */
  datatype Outcome<+T> = Ok(value: T) | Err | Panic
  {
    predicate IsFailure() {
      !Ok?
    }

    function PropagateFailure<U>(): Outcome<U>
      requires IsFailure()
    {
      if Err? then Err else Panic
    }

    function Extract(): T
      requires Ok?
    {
      value
    }
  }

  function Min(a: int, b: int): int {
    if a <= b then a else b
  }

  function Max(a: int, b: int): int {
    if a >= b then a else b
  }

  /** Number of distinct values of `n` bytes. */
  function Radix(n: nat): (r: nat)
    ensures r >= 1
  {
    if n == 0 then 1 else 0x100 * Radix(n - 1)
  }

  lemma RadixWidths()
    ensures Radix(1) == 0x100
    ensures Radix(2) == 0x1_0000
    ensures Radix(4) == 0x1_0000_0000
    ensures Radix(8) == 0x1_0000_0000_0000_0000
  {
    assert Radix(3) == 0x100_0000;
    assert Radix(5) == 0x100_0000_0000;
    assert Radix(6) == 0x1_0000_0000_0000;
    assert Radix(7) == 0x100_0000_0000_0000;
  }

  /** The `n` low-order bytes of `x`, most significant first. */
  function Be(n: nat, x: nat): (s: seq<byte>)
    ensures |s| == n
  {
    if n == 0 then [] else Be(n - 1, x / 0x100) + [x % 0x100]
  }

  /** The number a byte string denotes, most significant byte first. */
  function FromBe(s: seq<byte>): (x: nat)
    ensures x < Radix(|s|)
  {
    if s == [] then 0 else FromBe(s[..|s| - 1]) * 0x100 + s[|s| - 1]
  }

  lemma {:induction false} BeRoundTrip(n: nat, x: nat)
    requires x < Radix(n)
    ensures FromBe(Be(n, x)) == x
  {
    if n > 0 {
      BeRoundTrip(n - 1, x / 0x100);
      assert Be(n, x)[..n - 1] == Be(n - 1, x / 0x100);
    }
  }

  lemma DivideTwice(x: nat, a: nat)
    requires a > 0
    ensures x / 0x100 / a == x / (0x100 * a)
  {
    var q, r := x / 0x100, x % 0x100;
    var p, t := q / a, q % a;
    assert x == 0x100 * a * p + (0x100 * t + r);
    assert 0 <= 0x100 * t + r < 0x100 * a;
    Quotient(x, 0x100 * a, p, 0x100 * t + r);
  }

  lemma Quotient(x: nat, d: nat, q: nat, r: nat)
    requires d > 0 && x == d * q + r && r < d
    ensures x / d == q
  {
    var k := x / d;
    assert d * k <= x < d * k + d;
    assert k < q ==> d * (k + 1) <= d * q;
    assert k > q ==> d * (q + 1) <= d * k;
  }

  /** Big-endian: byte `i` of `n` counts the multiples of 256 to the power `n - 1 - i`. */
  lemma {:induction false} BeAt(n: nat, x: nat, i: nat)
    requires i < n
    ensures Be(n, x)[i] == x / Radix(n - 1 - i) % 0x100
    decreases n
  {
    if i < n - 1 {
      BeAt(n - 1, x / 0x100, i);
      DivideTwice(x, Radix(n - 2 - i));
    }
  }

  /** Round trips of the three widths in use. */
  lemma WidthsRoundTrip()
    ensures forall x: u16 :: FromBe(Be(2, x)) == x
    ensures forall x: u32 :: FromBe(Be(4, x)) == x
    ensures forall x: u64 :: FromBe(Be(8, x)) == x
  {
    RadixWidths();
    forall x: u16 ensures FromBe(Be(2, x)) == x { BeRoundTrip(2, x); }
    forall x: u32 ensures FromBe(Be(4, x)) == x { BeRoundTrip(4, x); }
    forall x: u64 ensures FromBe(Be(8, x)) == x { BeRoundTrip(8, x); }
  }

  function U16At(s: seq<byte>, i: nat): u16
    requires i + 2 <= |s|
  {
    RadixWidths();
    FromBe(s[i..i + 2])
  }

  function U32At(s: seq<byte>, i: nat): u32
    requires i + 4 <= |s|
  {
    RadixWidths();
    FromBe(s[i..i + 4])
  }

  function U64At(s: seq<byte>, i: nat): u64
    requires i + 8 <= |s|
  {
    RadixWidths();
    FromBe(s[i..i + 8])
  }

  lemma TwoBytes(x: nat)
    ensures Be(2, x) == [x / 0x100 % 0x100, x % 0x100]
    ensures FromBe(Be(2, x)) == x % 0x1_0000
  {
    assert Be(1, x / 0x100) == Be(0, x / 0x100 / 0x100) + [x / 0x100 % 0x100];
    var b := [x / 0x100 % 0x100, x % 0x100];
    assert b[..1] == [x / 0x100 % 0x100];
    assert FromBe(b[..1]) == x / 0x100 % 0x100;
  }
}
