/** Small helpers shared by every module of the model. */
module Util {

  datatype Option<+T> = None | Some(value: T)

  /** The outcome of an operation that, in the source, may end by throwing. */
  datatype Result<+T> = Ok(value: T) | Thrown(exception: string)

  /** Java's Integer.MAX_VALUE: the "unbounded" size of an expansion and the
      ordinal of an NFA state that accepts nothing. */
  const MAX_VALUE: int := 0x7fff_ffff

  /** Every natural number below n. */
  function Below(n: nat): (r: set<nat>)
    ensures forall i: nat :: i in r <==> i < n
  {
    if n == 0 then {} else Below(n - 1) + {n - 1}
  }

  lemma {:induction false} BelowSize(n: nat)
    ensures |Below(n)| == n
  {
    if n > 0 {
      BelowSize(n - 1);
    }
  }

  /** BitSet.flip(0, n): every member of [0, n) toggled, everything at or above n kept. */
  function Flip(bits: set<nat>, n: nat): set<nat>
  {
    (bits - Below(n)) + (Below(n) - bits)
  }

  lemma FlipBits(bits: set<nat>, n: nat, i: nat)
    ensures i in Flip(bits, n) <==> (if i < n then i !in bits else i in bits)
  {
  }

  /** Flipping the same range twice restores the set. */
  lemma FlipTwice(bits: set<nat>, n: nat)
    ensures Flip(Flip(bits, n), n) == bits
  {
    forall i: nat ensures i in Flip(Flip(bits, n), n) <==> i in bits {
      FlipBits(bits, n, i);
      FlipBits(Flip(bits, n), n, i);
    }
  }

  /** A set inside [0, n) has n - |bits| members once flipped. */
  lemma {:induction false} FlipCardinality(bits: set<nat>, n: nat)
    requires bits <= Below(n)
    ensures |Flip(bits, n)| == n - |bits|
  {
    BelowSize(n);
    assert Flip(bits, n) == Below(n) - bits;
    assert Below(n) == (Below(n) - bits) + bits;
  }

  function DigitChar(d: nat): char
    requires d < 10
  {
    "0123456789"[d]
  }

  /** The decimal rendering of n, as String.valueOf does it for a non-negative int. */
  function NatToString(n: nat): (s: string)
    ensures |s| >= 1
    ensures forall i :: 0 <= i < |s| ==> '0' <= s[i] <= '9'
  {
    if n < 10 then [DigitChar(n)] else NatToString(n / 10) + [DigitChar(n % 10)]
  }

  /** String.valueOf of an int: a minus sign exactly for a negative value, digits after it. */
  function IntToString(i: int): (s: string)
    ensures |s| >= 1 && (s[0] == '-' <==> i < 0)
    ensures forall k :: (if i < 0 then 1 else 0) <= k < |s| ==> '0' <= s[k] <= '9'
  {
    if i >= 0 then NatToString(i) else "-" + NatToString(-i)
  }

  /** A rendering of one digit is one character long, of a larger number longer. */
  lemma NatToStringLength(n: nat)
    ensures |NatToString(n)| == 1 <==> n < 10
  {
    if n >= 10 {
      assert |NatToString(n / 10)| >= 1;
    }
  }

  /** Different numbers have different decimal renderings. */
  lemma {:induction false} NatToStringInjective(n: nat, m: nat)
    requires NatToString(n) == NatToString(m)
    ensures n == m
    decreases n
  {
    NatToStringLength(n);
    NatToStringLength(m);
    var s := NatToString(n);
    if n >= 10 {
      var front := |s| - 1;
      assert NatToString(n / 10) == s[..front] == NatToString(m / 10);
      assert DigitChar(n % 10) == s[front] == DigitChar(m % 10);
      NatToStringInjective(n / 10, m / 10);
      DigitCharInjective(n % 10, m % 10);
    } else {
      DigitCharInjective(n, m);
    }
  }

  lemma DigitCharInjective(d: nat, e: nat)
    requires d < 10 && e < 10 && DigitChar(d) == DigitChar(e)
    ensures d == e
  {
  }

  /** Different ints have different renderings. */
  lemma IntToStringInjective(i: int, j: int)
    requires IntToString(i) == IntToString(j)
    ensures i == j
  {
    if i >= 0 && j >= 0 {
      NatToStringInjective(i, j);
    } else if i < 0 && j < 0 {
      var a: nat, b: nat := -i, -j;
      var s, t := NatToString(a), NatToString(b);
      assert IntToString(i) == "-" + s && IntToString(j) == "-" + t;
      assert s == IntToString(i)[1..] && t == IntToString(j)[1..];
      NatToStringInjective(a, b);
    } else {
      // the signs differ, so do the first characters
      assert false;
    }
  }

  // ---------------------------------------------------------------------
  // Strings
  // ---------------------------------------------------------------------

  /** String.startsWith. */
  function HasPrefix(s: string, prefix: string): bool
  {
    |prefix| <= |s| && s[..|prefix|] == prefix
  }

  /** String.replace: every non-overlapping occurrence of target, from the left, replaced. */
  function ReplaceAll(s: string, target: string, replacement: string): string
    requires target != ""
    decreases |s|
  {
    if |s| < |target| then s
    else if HasPrefix(s, target) then replacement + ReplaceAll(s[|target|..], target, replacement)
    else [s[0]] + ReplaceAll(s[1..], target, replacement)
  }

  /** The target occurs in s at position k. */
  predicate OccursAt(s: string, target: string, k: int)
  {
    0 <= k <= |s| - |target| && s[k..k + |target|] == target
  }

  ghost predicate Contains(s: string, target: string)
  {
    exists k :: OccursAt(s, target, k)
  }

  /** A string without an occurrence of the target is left as it is. */
  lemma {:induction false} ReplaceAbsent(s: string, target: string, replacement: string)
    requires target != "" && !Contains(s, target)
    ensures ReplaceAll(s, target, replacement) == s
    decreases |s|
  {
    if |s| >= |target| {
      assert !OccursAt(s, target, 0);
      forall k | OccursAt(s[1..], target, k)
        ensures OccursAt(s, target, k + 1)
      {
        assert s[1..][k..k + |target|] == s[k + 1..k + 1 + |target|];
      }
      assert !Contains(s[1..], target);
      ReplaceAbsent(s[1..], target, replacement);
    }
  }
}
