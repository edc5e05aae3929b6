/** Parsers over the bytes that are left, and the laws that make a byte form self-delimiting. */
module Codecs {
  import opened Bytes

  type Parser<!T> = seq<byte> -> Outcome<(T, seq<byte>)>

  function TakeU8(s: seq<byte>): Outcome<(byte, seq<byte>)> {
    if |s| < 1 then Err else Ok((s[0], s[1..]))
  }

  function TakeU16(s: seq<byte>): Outcome<(u16, seq<byte>)> {
    if |s| < 2 then Err else Ok((U16At(s, 0), s[2..]))
  }

  function TakeU64(s: seq<byte>): Outcome<(u64, seq<byte>)> {
    if |s| < 8 then Err else Ok((U64At(s, 0), s[8..]))
  }

  lemma TakesInvertBe(x: nat, rest: seq<byte>)
    ensures x <= U16_MAX ==> TakeU16(Be(2, x) + rest) == Ok((x, rest))
    ensures x <= U64_MAX ==> TakeU64(Be(8, x) + rest) == Ok((x, rest))
    ensures x < 0x100 ==> TakeU8([x] + rest) == Ok((x, rest))
  {
    WidthsRoundTrip();
    assert (Be(2, x) + rest)[0..2] == Be(2, x) && (Be(2, x) + rest)[2..] == rest;
    assert (Be(8, x) + rest)[0..8] == Be(8, x) && (Be(8, x) + rest)[8..] == rest;
  }

  /** `n` items in a row. */
  function Many<T>(n: nat, p: Parser<T>, s: seq<byte>): (r: Outcome<(seq<T>, seq<byte>)>)
    ensures r.Ok? ==> |r.value.0| == n
  {
    if n == 0 then Ok(([], s))
    else
      var (x, s1) :- p(s);
      var (xs, s2) :- Many(n - 1, p, s1);
      Ok(([x] + xs, s2))
  }

  function All<T>(xs: seq<T>, enc: T -> seq<byte>): seq<byte> {
    if xs == [] then [] else enc(xs[0]) + All(xs[1..], enc)
  }

  /** The byte form of `x` is read back, whatever follows it. */
  ghost predicate ReadsBack<T(!new)>(enc: T -> seq<byte>, p: Parser<T>, x: T) {
    forall rest :: p(enc(x) + rest) == Ok((x, rest))
  }

  /** No shorter part of the byte form of `x` is accepted. */
  ghost predicate RefusesPrefixes<T(!new)>(enc: T -> seq<byte>, p: Parser<T>, x: T) {
    forall n :: 0 <= n < |enc(x)| ==> p(enc(x)[..n]) == Err
  }

  ghost predicate SelfDelimiting<T(!new)>(enc: T -> seq<byte>, p: Parser<T>, x: T) {
    ReadsBack(enc, p, x) && RefusesPrefixes(enc, p, x)
  }

  lemma {:induction false} ManyReadsAll<T(!new)>(xs: seq<T>, enc: T -> seq<byte>, p: Parser<T>, rest: seq<byte>)
    requires forall x :: x in xs ==> ReadsBack(enc, p, x)
    ensures Many(|xs|, p, All(xs, enc) + rest) == Ok((xs, rest))
    decreases |xs|
  {
    if xs == [] {
      assert All(xs, enc) + rest == rest;
    } else {
      assert ReadsBack(enc, p, xs[0]);
      assert All(xs, enc) + rest == enc(xs[0]) + (All(xs[1..], enc) + rest);
      ManyReadsAll(xs[1..], enc, p, rest);
      assert [xs[0]] + xs[1..] == xs;
    }
  }

  lemma {:induction false} ManyRefusesPrefix<T(!new)>(xs: seq<T>, enc: T -> seq<byte>, p: Parser<T>, n: nat)
    requires forall x :: x in xs ==> SelfDelimiting(enc, p, x)
    requires n < |All(xs, enc)|
    ensures Many(|xs|, p, All(xs, enc)[..n]) == Err
    decreases |xs|
  {
    assert SelfDelimiting(enc, p, xs[0]);
    var first := enc(xs[0]);
    if n < |first| {
      assert All(xs, enc)[..n] == first[..n];
    } else {
      assert All(xs, enc)[..n] == first + All(xs[1..], enc)[..n - |first|];
      ManyRefusesPrefix(xs[1..], enc, p, n - |first|);
    }
  }

  lemma PrefixOfPair(a: seq<byte>, b: seq<byte>, n: nat)
    requires n <= |a| + |b|
    ensures (a + b)[..n] == if n < |a| then a[..n] else a + b[..n - |a|]
  {
  }

  /** Whatever holds of one parsed item holds of all of them. */
  lemma {:induction false} ManySatisfies<T>(n: nat, p: Parser<T>, s: seq<byte>, good: T -> bool)
    requires forall t :: p(t).Ok? ==> good(p(t).value.0)
    ensures Many(n, p, s).Ok? ==> forall x :: x in Many(n, p, s).value.0 ==> good(x)
  {
    if n > 0 && p(s).Ok? {
      ManySatisfies(n - 1, p, p(s).value.1, good);
    }
  }

  lemma {:induction false} ManyNeverPanics<T>(n: nat, p: Parser<T>, s: seq<byte>)
    requires forall t :: !p(t).Panic?
    ensures !Many(n, p, s).Panic?
  {
    if n > 0 && p(s).Ok? {
      ManyNeverPanics(n - 1, p, p(s).value.1);
    }
  }

  /** Reading one more item in a loop: what is read so far, then the rest. */
  function Then<T>(xs: seq<T>, rest: Outcome<(seq<T>, seq<byte>)>): Outcome<(seq<T>, seq<byte>)> {
    if rest.Ok? then Ok((xs + rest.value.0, rest.value.1)) else rest
  }

  lemma ThenStep<T>(xs: seq<T>, n: nat, p: Parser<T>, s: seq<byte>)
    requires n > 0
    ensures p(s).Ok? ==> Then(xs, Many(n, p, s)) == Then(xs + [p(s).value.0], Many(n - 1, p, p(s).value.1))
    ensures !p(s).Ok? ==> Then(xs, Many(n, p, s)) == p(s).PropagateFailure()
  {
    if p(s).Ok? {
      var rest := Many(n - 1, p, p(s).value.1);
      if rest.Ok? {
        assert xs + ([p(s).value.0] + rest.value.0) == xs + [p(s).value.0] + rest.value.0;
      }
    }
  }

  lemma ThenNothing<T>(xs: seq<T>, p: Parser<T>, s: seq<byte>, n: nat)
    ensures Then(xs, Many(0, p, s)) == Ok((xs, s))
    ensures Then([], Many(n, p, s)) == Many(n, p, s)
  {
    assert xs + [] == xs;
    var r := Many(n, p, s);
    if r.Ok? {
      assert [] + r.value.0 == r.value.0;
    }
  }
}
