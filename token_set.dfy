/**
 * TokenSet: a bit vector over token ordinals whose universe is the lexer's
 * current token count, with an `incomplete` marker ("this FOLLOW set could
 * not be closed locally").
 *
 * The universe is never stored in the set: every operation that needs it is
 * given `names`, the lexer data's token-name table (ordinal i is named
 * names[i], and |names| is the token count).
 */
module TokenSets {
  import opened Util

  /** The set ordinals below n, in ascending order. */
  function SetOrdinals(bits: set<nat>, n: nat): seq<nat>
  {
    if n == 0 then [] else SetOrdinals(bits, n - 1) + (if n - 1 in bits then [n - 1] else [])
  }

  lemma {:induction false} SetOrdinalsExact(bits: set<nat>, n: nat)
    ensures forall k :: 0 <= k < |SetOrdinals(bits, n)| ==>
      SetOrdinals(bits, n)[k] < n && SetOrdinals(bits, n)[k] in bits
    ensures forall i: nat :: i < n && i in bits ==> i in SetOrdinals(bits, n)
    ensures forall k, l :: 0 <= k < l < |SetOrdinals(bits, n)| ==>
      SetOrdinals(bits, n)[k] < SetOrdinals(bits, n)[l]
  {
    if n > 0 {
      SetOrdinalsExact(bits, n - 1);
    }
  }

  /** The names of the set ordinals below n, in ascending ordinal order. */
  function NamesBelow(bits: set<nat>, names: seq<string>, n: nat): seq<string>
    requires n <= |names|
  {
    if n == 0 then []
    else NamesBelow(bits, names, n - 1) + (if n - 1 in bits then [names[n - 1]] else [])
  }

  /** What getTokenNames returns: the names of the set ordinals of the live universe. */
  function TokenNames(bits: set<nat>, names: seq<string>): seq<string>
  {
    NamesBelow(bits, names, |names|)
  }

  /** The k-th name listed is the name of the k-th set ordinal: one name per set bit, ascending. */
  lemma {:induction false} NamesFollowOrdinals(bits: set<nat>, names: seq<string>, n: nat)
    requires n <= |names|
    ensures |NamesBelow(bits, names, n)| == |SetOrdinals(bits, n)|
    ensures forall k :: 0 <= k < |SetOrdinals(bits, n)| ==>
      SetOrdinals(bits, n)[k] < |names| &&
      NamesBelow(bits, names, n)[k] == names[SetOrdinals(bits, n)[k]]
  {
    if n > 0 {
      NamesFollowOrdinals(bits, names, n - 1);
    }
  }

  /** What getFirstTokenName returns: the name of the smallest set ordinal of the universe, if any. */
  function FirstTokenName(bits: set<nat>, names: seq<string>): Option<string>
  {
    var listed := TokenNames(bits, names);
    if listed == [] then None else Some(listed[0])
  }

  lemma FirstTokenNameIsSmallest(bits: set<nat>, names: seq<string>)
    ensures FirstTokenName(bits, names).None? <==> forall i: nat :: i < |names| ==> i !in bits
    ensures FirstTokenName(bits, names).Some? ==>
      exists i: nat :: i < |names| && i in bits && FirstTokenName(bits, names).value == names[i] &&
        forall j: nat :: j < i ==> j !in bits
  {
    var ords := SetOrdinals(bits, |names|);
    SetOrdinalsExact(bits, |names|);
    NamesFollowOrdinals(bits, names, |names|);
    if ords != [] {
      var i := ords[0];
      forall j: nat | j < i ensures j !in bits {
        if j in bits {
          assert false;
        }
      }
    }
  }

  /** The names with `sep` after each one, as the StringBuilder loop of getCommaDelimitedTokens leaves them. */
  function Appended(xs: seq<string>, sep: string): string
  {
    if xs == [] then "" else Appended(xs[..|xs| - 1], sep) + xs[|xs| - 1] + sep
  }

  /** The names with `sep` between consecutive ones and nowhere else. */
  function Join(xs: seq<string>, sep: string): string
  {
    if |xs| <= 1 then (if xs == [] then "" else xs[0])
    else Join(xs[..|xs| - 1], sep) + sep + xs[|xs| - 1]
  }

  /** Dropping the final separator from the appended names leaves them joined. */
  lemma {:induction false} AppendedIsJoinPlusSeparator(xs: seq<string>, sep: string)
    requires xs != []
    ensures Appended(xs, sep) == Join(xs, sep) + sep
  {
    if |xs| > 1 {
      AppendedIsJoinPlusSeparator(xs[..|xs| - 1], sep);
    } else {
      assert xs[..|xs| - 1] == [];
    }
  }

  /** The 64 bits of word k of a bit set, as one long of BitSet.toLongArray. */
  function Word(bits: set<nat>, k: nat): (w: seq<bool>)
    ensures |w| == 64
  {
    seq(64, j requires 0 <= j < 64 => 64 * k + j in bits)
  }

  function ZeroWord(): (w: seq<bool>)
    ensures |w| == 64
  {
    seq(64, _ => false)
  }

  ghost function MaxOf(s: set<nat>): (m: nat)
    requires s != {}
    ensures m in s && forall x :: x in s ==> x <= m
  {
    var x :| x in s;
    if s == {x} then x
    else
      var rest := MaxOf(s - {x});
      assert forall y :: y in s ==> y == x || y in s - {x};
      if rest < x then x else rest
  }

  /** The number of words BitSet.toLongArray returns: up to the last word holding a set bit. */
  ghost function WordsInUse(bits: set<nat>): nat
  {
    if bits == {} then 0 else MaxOf(bits) / 64 + 1
  }

  class TokenSet {
    var bits: set<nat>
    var incomplete: bool

    constructor (incomplete: bool)
      ensures bits == {} && this.incomplete == incomplete
    {
      bits := {};
      this.incomplete := incomplete;
    }

    method SetIncomplete(incomplete: bool)
      modifies this
      ensures this.incomplete == incomplete && bits == old(bits)
    {
      this.incomplete := incomplete;
    }

    /** BitSet.set(ordinal). */
    method Set(ordinal: nat)
      modifies this
      ensures bits == old(bits) + {ordinal} && incomplete == old(incomplete)
    {
      bits := bits + {ordinal};
    }

    /** BitSet.or(other): the union, leaving the incomplete marker alone. */
    method Or(other: TokenSet)
      modifies this
      ensures bits == old(bits) + old(other.bits) && incomplete == old(incomplete)
    {
      bits := bits + other.bits;
    }

    /** Complement within the live universe of tokenCount tokens. */
    method Not(tokenCount: nat)
      modifies this
      ensures bits == Flip(old(bits), tokenCount) && incomplete == old(incomplete)
      ensures forall i: nat :: i < tokenCount ==> (i in bits <==> i !in old(bits))
      ensures forall i: nat :: i >= tokenCount ==> (i in bits <==> i in old(bits))
    {
      bits := Flip(bits, tokenCount);
    }

    method GetTokenNames(names: seq<string>) returns (r: seq<string>)
      ensures r == TokenNames(bits, names)
    {
      r := [];
      var i := 0;
      while i < |names|
        invariant 0 <= i <= |names|
        invariant r == NamesBelow(bits, names, i)
      {
        if i in bits {
          r := r + [names[i]];
        }
        i := i + 1;
      }
    }

    /** A second loop in the source that builds the same list as GetTokenNames. */
    method GetTokenSetNames(names: seq<string>) returns (r: seq<string>)
      ensures r == TokenNames(bits, names)
    {
      var result := [];
      var i := 0;
      while i < |names|
        invariant 0 <= i <= |names|
        invariant result == NamesBelow(bits, names, i)
      {
        if i in bits {
          result := result + [names[i]];
        }
        i := i + 1;
      }
      return result;
    }

    method GetFirstTokenName(names: seq<string>) returns (r: Option<string>)
      ensures r == FirstTokenName(bits, names)
    {
      var i := 0;
      while i < |names|
        invariant 0 <= i <= |names|
        invariant NamesBelow(bits, names, i) == []
      {
        if i in bits {
          ghost var upTo := NamesBelow(bits, names, i + 1);
          assert upTo == [names[i]];
          PrefixOfNames(bits, names, i + 1, |names|);
          return Some(names[i]);
        }
        i := i + 1;
      }
      return None;
    }

    /** The set's names joined by ", "; a single name (or none) when at most one bit is set.
        With two or more bits set but none inside the universe the source's
        StringBuilder.setLength(-2) throws. */
    method GetCommaDelimitedTokens(names: seq<string>) returns (r: Result<Option<string>>)
      ensures |bits| <= 1 ==> r == Ok(FirstTokenName(bits, names))
      ensures |bits| > 1 && TokenNames(bits, names) == [] ==> r.Thrown?
      ensures |bits| > 1 && TokenNames(bits, names) != [] ==>
        r == Ok(Some(Join(TokenNames(bits, names), ", ")))
    {
      if |bits| <= 1 {
        var first := GetFirstTokenName(names);
        return Ok(first);
      }
      var listed := GetTokenNames(names);
      var acc := "";
      var k := 0;
      while k < |listed|
        invariant 0 <= k <= |listed|
        invariant acc == Appended(listed[..k], ", ")
      {
        assert listed[..k + 1][..k] == listed[..k];
        acc := acc + listed[k] + ", ";
        k := k + 1;
      }
      assert listed[..|listed|] == listed;
      if listed == [] {
        return Thrown("StringIndexOutOfBoundsException");
      }
      AppendedIsJoinPlusSeparator(listed, ", ");
      r := Ok(Some(acc[..|acc| - 2]));
    }

    /** BitSet.toLongArray padded with zero words to at least 1 + tokenCount/64 words. */
    ghost function ToLongArray(tokenCount: nat): (ll: seq<seq<bool>>)
      reads this
      ensures |ll| >= 1 + tokenCount / 64 && |ll| >= WordsInUse(bits)
      ensures forall k :: 0 <= k < |ll| ==> |ll[k]| == 64
      ensures forall k :: 0 <= k < WordsInUse(bits) ==> ll[k] == Word(bits, k)
      ensures forall k :: WordsInUse(bits) <= k < |ll| ==> ll[k] == ZeroWord()
      ensures forall b: nat :: b in bits <==> b / 64 < |ll| && ll[b / 64][b % 64]
    {
      var b := bits;
      var inUse := seq(WordsInUse(b), k requires 0 <= k => Word(b, k));
      var ll := if |inUse| < 1 + tokenCount / 64
                then inUse + seq(1 + tokenCount / 64 - |inUse|, _ => ZeroWord())
                else inUse;
      WordsHoldBits(bits, ll);
      ll
    }
  }

  lemma {:induction false} PrefixOfNames(bits: set<nat>, names: seq<string>, i: nat, n: nat)
    requires i <= n <= |names|
    ensures |NamesBelow(bits, names, i)| <= |NamesBelow(bits, names, n)|
    ensures NamesBelow(bits, names, n)[..|NamesBelow(bits, names, i)|] == NamesBelow(bits, names, i)
  {
    if i < n {
      PrefixOfNames(bits, names, i, n - 1);
    }
  }

  lemma WordsHoldBits(bits: set<nat>, ll: seq<seq<bool>>)
    requires |ll| >= WordsInUse(bits)
    requires forall k :: 0 <= k < |ll| ==> |ll[k]| == 64
    requires forall k :: 0 <= k < WordsInUse(bits) ==> ll[k] == Word(bits, k)
    requires forall k :: WordsInUse(bits) <= k < |ll| ==> ll[k] == ZeroWord()
    ensures forall b: nat :: b in bits <==> b / 64 < |ll| && ll[b / 64][b % 64]
  {
    forall b: nat ensures b in bits <==> b / 64 < |ll| && ll[b / 64][b % 64] {
      assert 64 * (b / 64) + b % 64 == b;
      if b in bits {
        assert b <= MaxOf(bits);
        assert b / 64 <= MaxOf(bits) / 64;
      }
    }
  }
}
