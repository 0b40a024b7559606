/** Mixed-radix enumeration of a finite request domain. Every referenced field is
    a digit whose radix is its number of options, and the evidence scenario is the
    last digit. */
module Enumeration {
  import P = Programs

  const MAX_UINT64: nat := 0xFFFF_FFFF_FFFF_FFFF

  predicate Radices(counts: seq<nat>) {
    forall i :: 0 <= i < |counts| ==> counts[i] > 0
  }

  /** The stride of digit n: the product of the radices before it. */
  function Product(counts: seq<nat>, n: nat): nat
    requires n <= |counts|
  {
    if n == 0 then 1 else Product(counts, n - 1) * counts[n - 1]
  }

  lemma {:induction false} ProductPositive(counts: seq<nat>, n: nat)
    requires Radices(counts) && n <= |counts|
    ensures Product(counts, n) > 0
  {
    if n > 0 {
      ProductPositive(counts, n - 1);
    }
  }

  lemma {:induction false} ProductMonotone(counts: seq<nat>, m: nat, n: nat)
    requires Radices(counts) && m <= n <= |counts|
    ensures Product(counts, m) <= Product(counts, n)
    decreases n
  {
    if m < n {
      ProductMonotone(counts, m, n - 1);
      MulGrows(Product(counts, n - 1), counts[n - 1]);
    }
  }

  lemma MulGrows(a: nat, b: nat)
    requires b > 0
    ensures a <= a * b
  {
  }

  /** Digit i of an index, read off with its stride. */
  function Digit(counts: seq<nat>, index: nat, i: nat): nat
    requires Radices(counts) && i < |counts|
  {
    ProductPositive(counts, i);
    index / Product(counts, i) % counts[i]
  }

  function Digits(counts: seq<nat>, index: nat): seq<nat>
    requires Radices(counts)
  {
    seq(|counts|, i requires 0 <= i < |counts| => Digit(counts, index, i))
  }

  predicate IsOptions(counts: seq<nat>, options: seq<nat>) {
    |options| == |counts| && forall i :: 0 <= i < |counts| ==> options[i] < counts[i]
  }

  /** The index of a choice of options: the sum of option times stride over the
      first n digits. */
  function Encode(counts: seq<nat>, options: seq<nat>, n: nat): nat
    requires n <= |counts| && n <= |options|
  {
    if n == 0 then 0 else Encode(counts, options, n - 1) + options[n - 1] * Product(counts, n - 1)
  }

  /** The digits below n stay below the stride of digit n. */
  lemma {:induction false} EncodeBound(counts: seq<nat>, options: seq<nat>, n: nat)
    requires IsOptions(counts, options) && n <= |counts|
    ensures Encode(counts, options, n) < Product(counts, n)
  {
    if n > 0 {
      EncodeBound(counts, options, n - 1);
      DigitBound(Encode(counts, options, n - 1), Product(counts, n - 1), options[n - 1], counts[n - 1]);
    }
  }

  lemma DigitBound(e: nat, p: nat, o: nat, c: nat)
    requires e < p && o < c
    ensures e + o * p < p * c
  {
    MulMonotone(o + 1, c, p);
    assert o * p + p == (o + 1) * p && c * p == p * c;
  }

  lemma MulMonotone(a: nat, b: nat, p: nat)
    requires a <= b
    ensures a * p <= b * p
  {
  }

  /** What the digits from n on contribute, in units of the stride of digit n. */
  function Above(counts: seq<nat>, options: seq<nat>, n: nat): nat
    requires n <= |counts| == |options|
    decreases |counts| - n
  {
    if n == |counts| then 0 else options[n] + counts[n] * Above(counts, options, n + 1)
  }

  lemma {:induction false} EncodeSplit(counts: seq<nat>, options: seq<nat>, n: nat)
    requires n <= |counts| == |options|
    ensures Encode(counts, options, |counts|) ==
            Encode(counts, options, n) + Product(counts, n) * Above(counts, options, n)
    decreases |counts| - n
  {
    if n < |counts| {
      EncodeSplit(counts, options, n + 1);
      Regroup(Encode(counts, options, n), options[n], Product(counts, n), counts[n], Above(counts, options, n + 1));
    }
  }

  lemma Regroup(e: nat, o: nat, p: nat, c: nat, h: nat)
    ensures (e + o * p) + (p * c) * h == e + p * (o + c * h)
  {
    calc {
      p * (o + c * h);
      p * o + p * (c * h);
      o * p + (p * c) * h;
    }
  }

  /** Dividing by the stride leaves the digits above it. */
  lemma DivideOut(e: nat, p: nat, h: nat)
    requires e < p
    ensures (e + p * h) / p == h
  {
    assert (e + p * h) / p == h by {
      var q, r := (e + p * h) / p, (e + p * h) % p;
      assert e + p * h == p * q + r;
      assert p * (h - q) == r - e by { assert p * (h - q) == p * h - p * q; }
      if h - q >= 1 {
        MulMonotone(1, h - q, p);
      } else if h - q <= -1 {
        MulMonotone(1, q - h, p);
      }
    }
  }

  lemma RemainderOf(o: nat, c: nat, h: nat)
    requires o < c
    ensures (o + c * h) % c == o
  {
    DivideOut(o, c, h);
    assert o + c * h == c * ((o + c * h) / c) + (o + c * h) % c;
  }

  /** Decoding the index of a choice gives the choice back. */
  lemma DigitsOfEncode(counts: seq<nat>, options: seq<nat>)
    requires Radices(counts) && IsOptions(counts, options)
    ensures Digits(counts, Encode(counts, options, |counts|)) == options
    ensures Encode(counts, options, |counts|) < Product(counts, |counts|)
  {
    EncodeBound(counts, options, |counts|);
    forall i | 0 <= i < |counts|
      ensures Digit(counts, Encode(counts, options, |counts|), i) == options[i]
    {
      EncodeSplit(counts, options, i);
      EncodeBound(counts, options, i);
      DivideOut(Encode(counts, options, i), Product(counts, i), Above(counts, options, i));
      RemainderOf(options[i], counts[i], Above(counts, options, i + 1));
    }
  }

  /** The first n digits of an index encode its remainder by the stride of digit n. */
  lemma {:induction false} EncodeOfDigits(counts: seq<nat>, index: nat, n: nat)
    requires Radices(counts) && n <= |counts|
    ensures Product(counts, n) > 0
    ensures Encode(counts, Digits(counts, index), n) == index % Product(counts, n)
  {
    ProductPositive(counts, n);
    if n > 0 {
      EncodeOfDigits(counts, index, n - 1);
      ProductPositive(counts, n - 1);
      SplitRemainder(index, Product(counts, n - 1), counts[n - 1]);
      assert Digits(counts, index)[n - 1] == index / Product(counts, n - 1) % counts[n - 1];
    }
  }

  /** x mod p*c is x mod p plus p times the next digit. */
  lemma SplitRemainder(x: nat, p: nat, c: nat)
    requires p > 0 && c > 0
    ensures p * c > 0 && x % p + (x / p % c) * p == x % (p * c)
  {
    var q, r := x / p, x % p;
    Recombine(x, p, c, q, r, q % c, q / c);
    RemainderOf(q % c * p + r, p * c, q / c);
  }

  /** Dividing twice, put together again. */
  lemma Recombine(x: nat, p: nat, c: nat, q: nat, r: nat, d: nat, h: nat)
    requires x == p * q + r && q == c * h + d && r < p && d < c
    ensures x == (d * p + r) + (p * c) * h && d * p + r < p * c
  {
    calc {
      p * q;
      p * (c * h + d);
      p * (c * h) + p * d;
      (p * c) * h + d * p;
    }
    MulMonotone(d + 1, c, p);
    assert (d + 1) * p == d * p + p;
  }

  /** Indices below the cardinality and choices of options correspond one to one. */
  lemma EnumerationIsBijective(counts: seq<nat>, index: nat)
    requires Radices(counts) && index < Product(counts, |counts|)
    ensures IsOptions(counts, Digits(counts, index))
    ensures Encode(counts, Digits(counts, index), |counts|) == index
  {
    EncodeOfDigits(counts, index, |counts|);
    assert index % Product(counts, |counts|) == index by { RemainderOf(index, Product(counts, |counts|), 0); }
  }

  /** Multiply two widened counts; a zero factor or an overflow is refused. */
  function CheckedProduct(left: nat, right: nat): (r: (nat, bool))
    ensures r.1 <==> right > 0 && left * right <= MAX_UINT64
    ensures r.1 ==> r.0 == left * right
  {
    if right == 0 || left > MAX_UINT64 / right then
      assert right > 0 ==> left * right > MAX_UINT64 by { if right > 0 { OverflowDetected(left, right); } }
      (0, false)
    else
      assert left * right <= MAX_UINT64 by { FitDetected(left, right); }
      (left * right, true)
  }

  lemma OverflowDetected(left: nat, right: nat)
    requires right > 0 && left > MAX_UINT64 / right
    ensures left * right > MAX_UINT64
  {
    var q := MAX_UINT64 / right;
    MulMonotone(q + 1, left, right);
    assert (q + 1) * right == q * right + right;
  }

  lemma FitDetected(left: nat, right: nat)
    requires right > 0 && left <= MAX_UINT64 / right
    ensures left * right <= MAX_UINT64
  {
    MulMonotone(left, MAX_UINT64 / right, right);
  }

  /** Compute the strides of the digits and the cardinality. It succeeds exactly when
      the number of combinations is within the caller's budget and 32 bits; no
      intermediate product overflows unnoticed. */
  method BuildStrides(counts: seq<nat>, maxCandidates: nat) returns (ok: bool, strides: seq<nat>, cardinality: nat)
    requires Radices(counts) && maxCandidates <= MAX_UINT64
    ensures ok <==> Product(counts, |counts|) <= maxCandidates && Product(counts, |counts|) <= P.MAX_UINT32
    ensures ok ==> cardinality == Product(counts, |counts|) && |strides| == |counts|
    ensures ok ==> forall i :: 0 <= i < |counts| ==> strides[i] == Product(counts, i)
  {
    strides, cardinality := [], 1;
    for i := 0 to |counts|
      invariant cardinality == Product(counts, i) <= MAX_UINT64
      invariant |strides| == i && forall k :: 0 <= k < i ==> strides[k] == Product(counts, k)
    {
      strides := strides + [cardinality];
      var product := CheckedProduct(cardinality, counts[i]);
      if !product.1 {
        ProductMonotone(counts, i + 1, |counts|);
        return false, strides, cardinality;
      }
      cardinality := product.0;
    }
    ok := cardinality <= maxCandidates && cardinality <= P.MAX_UINT32;
  }

  /** Fill one batch of candidates: row r holds the digits of start + r. */
  method Generate(counts: seq<nat>, strides: seq<nat>, start: nat, rows: nat) returns (ok: bool, options: seq<seq<nat>>)
    requires Radices(counts) && |strides| == |counts| && forall i :: 0 <= i < |counts| ==>
               strides[i] == Product(counts, i)
    ensures ok <==> rows > 0 && start + rows <= Product(counts, |counts|)
    ensures ok ==> |options| == rows && forall r :: 0 <= r < rows ==> options[r] == Digits(counts, start + r)
  {
    options := [];
    if rows == 0 || start + rows > Product(counts, |counts|) {
      return false, options;
    }
    for r := 0 to rows
      invariant |options| == r && forall k :: 0 <= k < r ==> options[k] == Digits(counts, start + k)
    {
      var row: seq<nat> := [];
      for field := 0 to |counts|
        invariant row == Digits(counts, start + r)[..field]
      {
        ProductPositive(counts, field);
        row := row + [(start + r) / strides[field] % counts[field]];
      }
      options := options + [row];
    }
    ok := true;
  }
}
