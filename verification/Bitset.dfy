/** Bit sets stored in 64-bit words, as a set of bit indices: word w holds the
    indices from 64w to 64w + 63. */
module Bitsets {

  /** The bits of one word. */
  function WordBits(bits: set<nat>, word: nat): set<nat> {
    set b | b in bits && b / 64 == word
  }

  /** The number of words that hold n bits. */
  function WordCount(n: nat): nat {
    if n % 64 != 0 then n / 64 + 1 else n / 64
  }

  lemma {:induction false} MinExists(s: set<nat>) returns (m: nat)
    requires s != {}
    ensures m in s && forall x :: x in s ==> m <= x
    decreases |s|
  {
    var x :| x in s;
    if s == {x} {
      m := x;
    } else {
      var rest := s - {x};
      var n := MinExists(rest);
      m := if n < x then n else x;
      assert forall y :: y in s ==> y == x || y in rest;
    }
  }

  /** The index of the lowest set bit. */
  function Min(s: set<nat>): (m: nat)
    requires s != {}
    ensures m in s && forall x :: x in s ==> m <= x
  {
    assert exists m :: m in s && forall x :: x in s ==> m <= x by {
      var m := MinExists(s);
    }
    var m :| m in s && forall x :: x in s ==> m <= x; m
  }

  /** Scan words upwards from a cursor below which no bit is set, and take the
      lowest bit of the first word that is not zero. */
  method TakeLowest(bits: set<nat>, cursor: nat, words: nat) returns (found: bool, bit: nat, word: nat)
    requires forall b :: b in bits ==> cursor <= b / 64 < words
    ensures found <==> bits != {}
    ensures found ==> bit == Min(bits) && word == bit / 64
    ensures !found ==> word >= words
  {
    word := cursor;
    while word < words && WordBits(bits, word) == {}
      invariant cursor <= word
      invariant forall b :: b in bits ==> word <= b / 64
    {
      assert forall b :: b in bits ==> b !in WordBits(bits, word) ==> b / 64 != word;
      word := word + 1;
    }
    if word >= words {
      assert forall b :: b !in bits;
      return false, 0, word;
    }
    bit := Min(WordBits(bits, word));
    found := true;
    forall b | b in bits
      ensures bit <= b
    {
      assert b / 64 == word ==> b in WordBits(bits, word);
    }
  }

  /** An injection from A into B bounds the size of A. */
  lemma {:induction false} InjectionBound(A: set<nat>, B: set<nat>, f: map<nat, nat>)
    requires forall a :: a in A ==> a in f && f[a] in B
    requires forall a, b :: a in A && b in A && a != b ==> f[a] != f[b]
    ensures |A| <= |B|
    decreases |A|
  {
    if A != {} {
      var a :| a in A;
      InjectionBound(A - {a}, B - {f[a]}, f);
    }
  }

  /** The numbers from 1 to n. */
  function UpTo(n: nat): (r: set<nat>)
    ensures forall s :: s in r <==> 1 <= s <= n
    ensures |r| == n
  {
    if n == 0 then {} else UpTo(n - 1) + {n}
  }

  lemma SubsetFull(A: set<nat>, B: set<nat>)
    requires A <= B && |A| == |B|
    ensures A == B
  {
    if A != B {
      var x :| x in B && x !in A;
      SubsetBound(A, B - {x});
    }
  }

  lemma {:induction false} SubsetBound(A: set<nat>, B: set<nat>)
    requires A <= B
    ensures |A| <= |B|
  {
    if A != {} {
      var x :| x in A;
      SubsetBound(A - {x}, B - {x});
    }
  }
}
