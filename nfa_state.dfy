/**
 * One state of a lexical state's NFA, as a record in its lexical state's
 * arena (see LexicalStates): a state is named by its position there, which is
 * what object identity is in the source. A CompositeStateSet is a state whose
 * `members` is present; its members never change after construction.
 */
module NfaStates {
  import opened Util
  import opened CharRanges

  type StateId = nat

  /**
   * `tokenType` is the ordinal of the regular expression this state accepts
   * (None for null); `moveRanges` holds inclusive ranges as a flat list
   * left0, right0, left1, right1, ...
   */
  datatype NfaState = NfaState(
    tokenType: Option<int>,
    nextState: Option<StateId>,
    epsilonMoves: set<StateId>,
    index: int,
    moveRanges: seq<nat>,
    closureDone: bool,
    members: Option<set<StateId>>)

  /** A state as the NfaState constructor leaves it. */
  function FreshState(): (s: NfaState)
    ensures s.index == -1 && s.moveRanges == [] && s.epsilonMoves == {}
    ensures s.tokenType == None && s.nextState == None && !s.closureDone && s.members == None
  {
    NfaState(None, None, {}, -1, [], false, None)
  }

  /** A composite as the CompositeStateSet constructor leaves it: a copy of the member set. */
  function FreshComposite(members: set<StateId>): (s: NfaState)
    ensures s.members == Some(members) && s.index == -1 && s.moveRanges == [] && s.epsilonMoves == {}
    ensures s.tokenType == None && s.nextState == None && !s.closureDone
  {
    FreshState().(members := Some(members))
  }

  /** isComposite: true exactly for a CompositeStateSet. */
  predicate IsComposite(s: NfaState)
  {
    s.members.Some?
  }

  /** Two composites are equal (CompositeStateSet.equals) iff their member sets are. */
  predicate CompositeEquals(a: NfaState, b: NfaState)
  {
    IsComposite(a) && IsComposite(b) && a.members.value == b.members.value
  }

  lemma CompositeEqualsIsMemberEquality(m1: set<StateId>, m2: set<StateId>)
    ensures CompositeEquals(FreshComposite(m1), FreshComposite(m2)) <==> m1 == m2
  {
  }

  /** getOrdinal: the accepted expression's ordinal, MAX_VALUE when there is none. */
  function Ordinal(s: NfaState): int
  {
    if s.tokenType.None? then MAX_VALUE else s.tokenType.value
  }

  /** An accepted ordinal is an index into the registry of regular expressions. */
  predicate OrdinalInRange(s: NfaState)
  {
    s.tokenType.Some? ==> 0 <= s.tokenType.value < MAX_VALUE
  }

  /** MAX_VALUE marks exactly the states that accept nothing, and no ordinal exceeds it. */
  lemma OrdinalSentinel(s: NfaState)
    requires OrdinalInRange(s)
    ensures 0 <= Ordinal(s) <= MAX_VALUE
    ensures Ordinal(s) == MAX_VALUE <==> s.tokenType.None?
  {
  }

  // ---------------------------------------------------------------------
  // ASCII / non-ASCII split of the move ranges
  // ---------------------------------------------------------------------

  /**
   * The length of the ASCII part of the move ranges from pair position i on:
   * whole pairs are taken while their left end is below 128, and the pair
   * whose right end reaches 128 is the last one taken.
   */
  function AsciiLength(moves: seq<nat>, i: nat): (n: nat)
    requires |moves| % 2 == 0 && i % 2 == 0 && i <= |moves|
    ensures i <= n <= |moves| && n % 2 == 0
    decreases |moves| - i
  {
    if i == |moves| then i
    else if moves[i] >= 128 then i
    else if moves[i + 1] >= 128 then i + 2
    else AsciiLength(moves, i + 2)
  }

  /** The ASCII part holds the pairs that start below 128, up to and including the
      first that reaches 128; the rest starts at or above 128, or follows that pair. */
  lemma {:induction false} AsciiPrefixShape(moves: seq<nat>, i: nat)
    requires |moves| % 2 == 0 && i % 2 == 0 && i <= |moves|
    ensures var n := AsciiLength(moves, i);
      (forall j :: i <= j < n && j % 2 == 0 ==> moves[j] < 128) &&
      (forall j :: i <= j < n - 2 && j % 2 == 0 ==> moves[j + 1] < 128) &&
      (n < |moves| ==> moves[n] >= 128 || (n >= i + 2 && moves[n - 1] >= 128))
    decreases |moves| - i
  {
    if i < |moves| && moves[i] < 128 && moves[i + 1] < 128 {
      AsciiPrefixShape(moves, i + 2);
    }
  }

  /** getAsciiMoveRanges. */
  method GetAsciiMoveRanges(moves: seq<nat>) returns (result: seq<nat>)
    requires |moves| % 2 == 0
    ensures result == moves[..AsciiLength(moves, 0)]
  {
    result := [];
    var i := 0;
    while i < |moves|
      invariant i % 2 == 0 && i <= |moves|
      invariant result == moves[..i]
      invariant AsciiLength(moves, i) == AsciiLength(moves, 0)
      decreases |moves| - i
    {
      var left := moves[i];
      var right := moves[i + 1];
      if left >= 128 {
        break;
      }
      result := result + [left, right];
      assert result == moves[..i + 2];
      if right >= 128 {
        return;
      }
      i := i + 2;
    }
  }

  /** getNonAsciiMoveRanges: what follows the ASCII part. */
  method GetNonAsciiMoveRanges(moves: seq<nat>) returns (result: seq<nat>)
    requires |moves| % 2 == 0
    ensures result == moves[AsciiLength(moves, 0)..]
  {
    var ascii := GetAsciiMoveRanges(moves);
    result := moves[|ascii|..];
  }

  /** The two parts are an even-length prefix and the rest: together they are the move ranges. */
  lemma AsciiSplit(moves: seq<nat>)
    requires |moves| % 2 == 0
    ensures AsciiLength(moves, 0) % 2 == 0
    ensures moves[..AsciiLength(moves, 0)] + moves[AsciiLength(moves, 0)..] == moves
  {
  }

  function HasAsciiMoves(moves: seq<nat>): bool
    requires |moves| > 0
  {
    moves[0] < 128
  }

  function HasNonAsciiMoves(moves: seq<nat>): bool
    requires |moves| > 0
  {
    moves[|moves| - 1] >= 128
  }

  /** A sorted range list whose first range starts below 128 has a non-empty ASCII part. */
  lemma HasAsciiMovesIffAsciiPart(moves: seq<nat>)
    requires |moves| % 2 == 0 && |moves| > 0
    ensures HasAsciiMoves(moves) <==> AsciiLength(moves, 0) > 0
  {
  }

  // ---------------------------------------------------------------------
  // Single-character moves
  // ---------------------------------------------------------------------

  predicate SortedNats(xs: seq<nat>)
  {
    forall i, j :: 0 <= i < j < |xs| ==> xs[i] <= xs[j]
  }

  predicate Increasing(xs: seq<nat>)
  {
    forall i, j :: 0 <= i < j < |xs| ==> xs[i] < xs[j]
  }

  function Insert(x: nat, xs: seq<nat>): (r: seq<nat>)
    requires SortedNats(xs)
    ensures SortedNats(r) && multiset(r) == multiset(xs) + multiset{x}
  {
    if xs == [] then [x]
    else if x <= xs[0] then
      ConsSorted(x, xs);
      [x] + xs
    else
      var rest := Insert(x, xs[1..]);
      assert xs == [xs[0]] + xs[1..];
      RestBound(x, xs, rest);
      ConsSorted(xs[0], rest);
      [xs[0]] + rest
  }

  lemma ConsSorted(h: nat, t: seq<nat>)
    requires SortedNats(t) && (t == [] || h <= t[0])
    ensures SortedNats([h] + t)
  {
    var r := [h] + t;
    forall i, j | 0 <= i < j < |r| ensures r[i] <= r[j] {
      assert r[j] == t[j - 1];
      if i > 0 {
        assert r[i] == t[i - 1];
      }
    }
  }

  lemma RestBound(x: nat, xs: seq<nat>, rest: seq<nat>)
    requires xs != [] && SortedNats(xs) && xs[0] < x
    requires multiset(rest) == multiset(xs[1..]) + multiset{x}
    ensures rest == [] || xs[0] <= rest[0]
  {
    if rest != [] {
      assert rest[0] in multiset(rest);
      if rest[0] != x {
        assert rest[0] in xs[1..];
      }
    }
  }

  /** Collections.sort on a list of integers: ascending, same elements. */
  function Sort(xs: seq<nat>): (r: seq<nat>)
    ensures SortedNats(r) && multiset(r) == multiset(xs) && |r| == |xs|
  {
    if xs == [] then []
    else
      assert xs == [xs[0]] + xs[1..];
      Insert(xs[0], Sort(xs[1..]))
  }

  lemma TailSorted(a: seq<nat>)
    requires a != [] && SortedNats(a)
    ensures SortedNats(a[1..])
  {
    forall i, j | 0 <= i < j < |a| - 1 ensures a[1..][i] <= a[1..][j] {
      assert a[1..][i] == a[i + 1] && a[1..][j] == a[j + 1];
    }
  }

  /** Two ascending lists with the same elements are the same list. */
  lemma {:induction false} SortedUnique(a: seq<nat>, b: seq<nat>)
    requires SortedNats(a) && SortedNats(b) && multiset(a) == multiset(b)
    ensures a == b
  {
    if a != [] {
      assert a[0] in multiset(b);
      assert b[0] in multiset(a);
      assert a == [a[0]] + a[1..];
      assert b == [b[0]] + b[1..];
      assert a[0] == b[0];
      assert multiset(a) == multiset{a[0]} + multiset(a[1..]);
      assert multiset(b) == multiset{b[0]} + multiset(b[1..]);
      TailSorted(a);
      TailSorted(b);
      assert multiset(a[1..]) == multiset(a) - multiset{a[0]};
      assert multiset(b[1..]) == multiset(b) - multiset{b[0]};
      SortedUnique(a[1..], b[1..]);
    } else {
      assert |multiset(b)| == 0;
    }
  }

  /** Each value twice in a row: the list of the degenerate ranges of single characters. */
  function Doubled(vs: seq<nat>): (r: seq<nat>)
    ensures |r| == 2 * |vs|
    ensures forall i :: 0 <= i < |vs| ==> r[2 * i] == vs[i] && r[2 * i + 1] == vs[i]
  {
    if vs == [] then [] else [vs[0], vs[0]] + Doubled(vs[1..])
  }

  lemma PairMultiset(v: nat, tail: seq<nat>, rest: seq<nat>)
    requires multiset(rest) == multiset(tail) + multiset(tail)
    ensures multiset([v, v] + rest) == multiset([v] + tail) + multiset([v] + tail)
  {
  }

  lemma {:induction false} DoubledMultiset(vs: seq<nat>)
    ensures multiset(Doubled(vs)) == multiset(vs) + multiset(vs)
  {
    if vs != [] {
      DoubledMultiset(vs[1..]);
      var rest := Doubled(vs[1..]);
      PairMultiset(vs[0], vs[1..], rest);
      assert vs == [vs[0]] + vs[1..];
      assert Doubled(vs) == [vs[0], vs[0]] + rest;
    }
  }

  /** Every index of a doubled list is the first or the second copy of some index. */
  lemma Halve(i: nat) returns (a: nat)
    ensures i == 2 * a || i == 2 * a + 1
  {
    a := i / 2;
  }

  lemma DoubledSorted(vs: seq<nat>)
    requires SortedNats(vs)
    ensures SortedNats(Doubled(vs))
  {
    var d := Doubled(vs);
    forall i, j | 0 <= i < j < |d| ensures d[i] <= d[j] {
      var a := Halve(i);
      var b := Halve(j);
      assert d[i] == vs[a] && d[j] == vs[b];
    }
  }

  /** The characters a single-character move matches, in the order the source adds them:
      the character alone, or (ignoring case) its upper case, then its lower case and
      then itself, each only when it differs from those before it. */
  function CaseVariants(c: nat, ignoreCase: bool, cm: CaseMap): (vs: seq<nat>)
    ensures 1 <= |vs| <= 3
  {
    if !ignoreCase then [c]
    else
      var upper, lower := cm.upper(c), cm.lower(c);
      [upper] + (if upper != lower then [lower] else []) + (if c != upper && c != lower then [c] else [])
  }

  lemma TwiceIsEven(n: nat)
    ensures (2 * n) % 2 == 0
  {
  }

  /** setCharMove: the move ranges a state that moves on c is given. */
  function CharMoves(c: nat, ignoreCase: bool, cm: CaseMap): (moves: seq<nat>)
    ensures |moves| % 2 == 0
  {
    var variants := CaseVariants(c, ignoreCase, cm);
    var moves := Doubled(variants);
    TwiceIsEven(|variants|);
    if ignoreCase && |moves| > 2 then Sort(moves) else moves
  }

  predicate Distinct(xs: seq<nat>)
  {
    forall i, j :: 0 <= i < j < |xs| ==> xs[i] != xs[j]
  }

  lemma {:induction false} DistinctCounts(xs: seq<nat>, v: nat)
    requires Distinct(xs)
    ensures multiset(xs)[v] <= 1
  {
    if xs != [] {
      assert xs == [xs[0]] + xs[1..];
      assert Distinct(xs[1..]) by {
        forall i, j | 0 <= i < j < |xs[1..]| ensures xs[1..][i] != xs[1..][j] {
          assert xs[1..][i] == xs[i + 1] && xs[1..][j] == xs[j + 1];
        }
      }
      DistinctCounts(xs[1..], v);
      if xs[0] == v {
        assert v !in xs[1..];
      }
    }
  }

  lemma RepeatCounts(s: seq<nat>, i: nat, j: nat)
    requires i < j < |s| && s[i] == s[j]
    ensures multiset(s)[s[i]] >= 2
  {
    assert s == s[..j] + [s[j]] + s[j + 1..];
    assert s[i] in s[..j];
  }

  /** Sorting distinct values leaves them strictly ascending. */
  lemma SortDistinctIncreasing(xs: seq<nat>)
    requires Distinct(xs)
    ensures Increasing(Sort(xs))
  {
    var vs := Sort(xs);
    forall i, j | 0 <= i < j < |vs| ensures vs[i] < vs[j] {
      if vs[i] == vs[j] {
        RepeatCounts(vs, i, j);
        DistinctCounts(xs, vs[i]);
      }
    }
  }

  lemma VariantsDistinct(c: nat, ignoreCase: bool, cm: CaseMap)
    ensures Distinct(CaseVariants(c, ignoreCase, cm))
  {
  }

  lemma SortKeepsMembers(xs: seq<nat>, x: nat)
    ensures x in Sort(xs) <==> x in xs
  {
    assert x in Sort(xs) <==> x in multiset(Sort(xs));
    assert x in xs <==> x in multiset(xs);
  }

  lemma CharMovesDoubled(c: nat, ignoreCase: bool, cm: CaseMap)
    ensures CharMoves(c, ignoreCase, cm) == Doubled(Sort(CaseVariants(c, ignoreCase, cm)))
  {
    var variants := CaseVariants(c, ignoreCase, cm);
    var vs := Sort(variants);
    var moves := Doubled(variants);
    if ignoreCase && |moves| > 2 {
      DoubledMultiset(variants);
      DoubledMultiset(vs);
      DoubledSorted(vs);
      SortedUnique(Sort(moves), Doubled(vs));
    } else {
      assert |variants| == 1;
      SortedUnique(vs, variants);
    }
  }

  /** The moves are the degenerate ranges of the case variants of c, in ascending order
      and each once: c alone, or c with its upper- and lower-case forms. */
  lemma CharMovesAreSortedVariants(c: nat, ignoreCase: bool, cm: CaseMap)
    ensures var vs := Sort(CaseVariants(c, ignoreCase, cm));
      CharMoves(c, ignoreCase, cm) == Doubled(vs) && Increasing(vs) &&
      forall x :: x in vs <==> x == c || (ignoreCase && (x == cm.upper(c) || x == cm.lower(c)))
  {
    var variants := CaseVariants(c, ignoreCase, cm);
    VariantsDistinct(c, ignoreCase, cm);
    SortDistinctIncreasing(variants);
    CharMovesDoubled(c, ignoreCase, cm);
    forall x ensures x in Sort(variants) <==> x in variants {
      SortKeepsMembers(variants, x);
    }
    VariantsMembers(c, ignoreCase, cm);
  }

  lemma VariantsMembers(c: nat, ignoreCase: bool, cm: CaseMap)
    ensures forall x :: x in CaseVariants(c, ignoreCase, cm) <==>
      x == c || (ignoreCase && (x == cm.upper(c) || x == cm.lower(c)))
  {
  }

  // ---------------------------------------------------------------------
  // Names
  // ---------------------------------------------------------------------

  /** getMethodName of a plain state. */
  function PlainMethodName(lexicalStateName: string, index: int): string
  {
    if lexicalStateName == "DEFAULT" then "NFA_" + IntToString(index)
    else "NFA_" + lexicalStateName + "_" + IntToString(index)
  }

  /** Two strings with the same front and the same length are one string once the front is cut. */
  lemma SameFrontRest(front: string, x: string, y: string)
    requires front + x == front + y
    ensures x == y
  {
    assert x == (front + x)[|front|..];
    assert y == (front + y)[|front|..];
  }

  /** Within one lexical state, different indices give plain states different method names. */
  lemma PlainMethodNamesDistinct(lexicalStateName: string, i: int, j: int)
    requires PlainMethodName(lexicalStateName, i) == PlainMethodName(lexicalStateName, j)
    ensures i == j
  {
    var front := if lexicalStateName == "DEFAULT" then "NFA_" else "NFA_" + lexicalStateName + "_";
    assert PlainMethodName(lexicalStateName, i) == front + IntToString(i);
    assert PlainMethodName(lexicalStateName, j) == front + IntToString(j);
    SameFrontRest(front, IntToString(i), IntToString(j));
    IntToStringInjective(i, j);
  }

  /** getMethodName, plain or composite. */
  function MethodName(lexicalStateName: string, index: int, composite: bool): string
  {
    var plain := PlainMethodName(lexicalStateName, index);
    if composite then ReplaceAll(plain, "NFA_", "NFA_COMPOSITE_") else plain
  }

  lemma DigitsHaveNoUnderscore(s: string, target: string)
    requires forall i :: 0 <= i < |s| ==> s[i] != '_'
    requires '_' in target
    ensures !Contains(s, target)
  {
  }

  lemma IntToStringNoUnderscore(i: int)
    ensures forall k :: 0 <= k < |IntToString(i)| ==> IntToString(i)[k] != '_'
  {
    if i < 0 {
      var d := NatToString(-i);
      assert forall k :: 1 <= k < |"-" + d| ==> ("-" + d)[k] == d[k - 1];
    }
  }

  /** In the default lexical state a composite's method name is the plain name with
      "NFA_" turned into "NFA_COMPOSITE_": "NFA_COMPOSITE_" followed by the index. */
  lemma CompositeNameInDefaultState(index: int)
    ensures MethodName("DEFAULT", index, true) == "NFA_COMPOSITE_" + IntToString(index)
  {
    var digits := IntToString(index);
    var plain := "NFA_" + digits;
    assert HasPrefix(plain, "NFA_");
    assert plain[4..] == digits;
    IntToStringNoUnderscore(index);
    DigitsHaveNoUnderscore(digits, "NFA_");
    ReplaceAbsent(digits, "NFA_", "NFA_COMPOSITE_");
  }

  /** In any other lexical state whose name holds no "NFA_", the composite name is
      "NFA_COMPOSITE_" + state + "_" + index. */
  lemma CompositeNameInOtherState(lexicalStateName: string, index: int)
    requires lexicalStateName != "DEFAULT"
    requires !Contains(lexicalStateName + "_" + IntToString(index), "NFA_")
    ensures MethodName(lexicalStateName, index, true)
      == "NFA_COMPOSITE_" + lexicalStateName + "_" + IntToString(index)
  {
    var rest := lexicalStateName + "_" + IntToString(index);
    var plain := "NFA_" + rest;
    assert plain == "NFA_" + lexicalStateName + "_" + IntToString(index);
    assert HasPrefix(plain, "NFA_");
    assert plain[4..] == rest;
    ReplaceAbsent(rest, "NFA_", "NFA_COMPOSITE_");
  }

  // ---------------------------------------------------------------------
  // Move ranges as code-point sets, overlap
  // ---------------------------------------------------------------------

  /** The move ranges as a list of ranges. */
  function Pairs(moves: seq<nat>): (r: seq<CharRange>)
    requires |moves| % 2 == 0
    ensures |r| == |moves| / 2
    ensures forall i :: 0 <= i < |r| ==> r[i] == CharRange(moves[2 * i], moves[2 * i + 1])
    decreases |moves|
  {
    if moves == [] then [] else [CharRange(moves[0], moves[1])] + Pairs(moves[2..])
  }

  /** moveRangesToBS: the code points the move ranges cover. */
  method MoveRangesToBS(moves: seq<nat>) returns (bs: set<nat>)
    requires |moves| % 2 == 0
    ensures bs == RangesToSet(Pairs(moves))
  {
    var ranges := Pairs(moves);
    bs := {};
    var i := 0;
    ghost var j := 0;
    while i < |moves|
      invariant i == 2 * j && 0 <= j <= |ranges|
      invariant bs == RangesToSet(ranges[..j])
      decreases |moves| - i
    {
      var left := moves[i];
      var right := moves[i + 1];
      assert ranges[..j + 1][..j] == ranges[..j];
      assert ranges[j] == CharRange(left, right);
      bs := bs + Interval(left, right);
      i := i + 2;
      j := j + 1;
    }
    assert ranges[..|ranges|] == ranges;
  }

  /** A state overlaps another when it is the same state or their move ranges share a code point. */
  predicate Overlap(a: StateId, am: seq<nat>, b: StateId, bm: seq<nat>)
    requires |am| % 2 == 0 && |bm| % 2 == 0
  {
    a == b || Meet(am, bm)
  }

  /** intersect: the move lists, as code-point sets, share a code point. */
  predicate Meet(am: seq<nat>, bm: seq<nat>)
    requires |am| % 2 == 0 && |bm| % 2 == 0
  {
    RangesToSet(Pairs(am)) * RangesToSet(Pairs(bm)) != {}
  }

  /** The code point c lies in the i-th range of pa and in the j-th range of pb. */
  predicate SharedAt(pa: seq<CharRange>, pb: seq<CharRange>, c: nat, i: nat, j: nat)
  {
    i < |pa| && j < |pb| && Holds(pa[i], c) && Holds(pb[j], c)
  }

  /** A shared code point of two move lists lies in a range of each. */
  lemma {:induction false} MeetGivesShared(am: seq<nat>, bm: seq<nat>) returns (c: nat, i: nat, j: nat)
    requires |am| % 2 == 0 && |bm| % 2 == 0 && Meet(am, bm)
    ensures SharedAt(Pairs(am), Pairs(bm), c, i, j)
  {
    var pa, pb := Pairs(am), Pairs(bm);
    var both := RangesToSet(pa) * RangesToSet(pb);
    c :| c in both;
    InRanges(pa, c);
    InRanges(pb, c);
    i :| 0 <= i < |pa| && Holds(pa[i], c);
    j :| 0 <= j < |pb| && Holds(pb[j], c);
  }

  /** A code point in a range of each move list is shared by the two. */
  lemma {:induction false} SharedGivesMeet(am: seq<nat>, bm: seq<nat>, c: nat, i: nat, j: nat)
    requires |am| % 2 == 0 && |bm| % 2 == 0 && SharedAt(Pairs(am), Pairs(bm), c, i, j)
    ensures Meet(am, bm)
  {
    var pa, pb := Pairs(am), Pairs(bm);
    InRanges(pa, c);
    InRanges(pb, c);
    assert c in RangesToSet(pa) * RangesToSet(pb);
  }

  /** Two distinct states overlap exactly when one code point lies in a range of each. */
  lemma {:induction false} OverlapWitness(a: StateId, am: seq<nat>, b: StateId, bm: seq<nat>)
    requires |am| % 2 == 0 && |bm| % 2 == 0 && a != b
    ensures Overlap(a, am, b, bm) ==> exists c: nat, i: nat, j: nat :: SharedAt(Pairs(am), Pairs(bm), c, i, j)
    ensures (exists c: nat, i: nat, j: nat :: SharedAt(Pairs(am), Pairs(bm), c, i, j)) ==> Overlap(a, am, b, bm)
  {
    assert Overlap(a, am, b, bm) == Meet(am, bm);
    if Meet(am, bm) {
      var c, i, j := MeetGivesShared(am, bm);
      assert SharedAt(Pairs(am), Pairs(bm), c, i, j);
    }
    forall c: nat, i: nat, j: nat | SharedAt(Pairs(am), Pairs(bm), c, i, j) ensures Meet(am, bm) {
      SharedGivesMeet(am, bm, c, i, j);
    }
  }

  /** intersect(moves1, moves2): the two move lists, as code-point sets, share a code point. */
  method Intersect(m1: seq<nat>, m2: seq<nat>) returns (b: bool)
    requires |m1| % 2 == 0 && |m2| % 2 == 0
    ensures b <==> Meet(m1, m2)
  {
    var bs1 := MoveRangesToBS(m1);
    var bs2 := MoveRangesToBS(m2);
    b := bs1 * bs2 != {};
  }

  /** overlaps(Collection): some state of the collection is the state itself or shares a code point with it. */
  method Overlaps(states: seq<NfaState>, a: StateId, others: seq<StateId>) returns (b: bool)
    requires a < |states| && |states[a].moveRanges| % 2 == 0
    requires forall k | 0 <= k < |others| :: others[k] < |states| && |states[others[k]].moveRanges| % 2 == 0
    ensures b <==> exists k | 0 <= k < |others| ::
      Overlap(a, states[a].moveRanges, others[k], states[others[k]].moveRanges)
  {
    b := false;
    var k := 0;
    while k < |others| && !b
      invariant 0 <= k <= |others|
      invariant b ==> k > 0 && Overlap(a, states[a].moveRanges, others[k - 1], states[others[k - 1]].moveRanges)
      invariant !b ==> forall j | 0 <= j < k :: !Overlap(a, states[a].moveRanges, others[j], states[others[j]].moveRanges)
    {
      var o := others[k];
      if a == o {
        b := true;
      } else {
        b := Intersect(states[a].moveRanges, states[o].moveRanges);
      }
      k := k + 1;
    }
  }

  // ---------------------------------------------------------------------
  // The comparator
  // ---------------------------------------------------------------------

  /** What the comparator needs of a state: a next state and at least one range. */
  predicate Comparable(states: seq<NfaState>, a: StateId)
  {
    a < |states| && states[a].nextState.Some? && states[a].nextState.value < |states|
    && |states[a].moveRanges| >= 2
  }

  /** NfaState.comparator(state1, state2): negative when state1 comes first. */
  function Comparator(states: seq<NfaState>, a: StateId, b: StateId): int
    requires Comparable(states, a) && Comparable(states, b)
  {
    var sa, sb := states[a], states[b];
    var result := Ordinal(states[sb.nextState.value]) - Ordinal(states[sa.nextState.value]);
    var result := if result == 0 then sa.moveRanges[0] - sb.moveRanges[0] else result;
    var result := if result == 0 then sa.moveRanges[1] - sb.moveRanges[1] else result;
    if result == 0 then |sb.moveRanges| - |sa.moveRanges| else result
  }

  /** The comparator's sort key: descending next-state ordinal, ascending first
      left end, ascending first right end, longer range list first. */
  datatype Key = Key(negOrdinal: int, left: int, right: int, negLength: int)

  function KeyOf(states: seq<NfaState>, a: StateId): Key
    requires Comparable(states, a)
  {
    var s := states[a];
    Key(-Ordinal(states[s.nextState.value]), s.moveRanges[0], s.moveRanges[1], -|s.moveRanges|)
  }

  predicate KeyLess(x: Key, y: Key)
  {
    x.negOrdinal < y.negOrdinal
    || (x.negOrdinal == y.negOrdinal && x.left < y.left)
    || (x.negOrdinal == y.negOrdinal && x.left == y.left && x.right < y.right)
    || (x.negOrdinal == y.negOrdinal && x.left == y.left && x.right == y.right && x.negLength < y.negLength)
  }

  /** The comparator is the lexicographic order on the key: its sign says which key is smaller. */
  lemma ComparatorIsKeyOrder(states: seq<NfaState>, a: StateId, b: StateId)
    requires Comparable(states, a) && Comparable(states, b)
    ensures Comparator(states, a, b) < 0 <==> KeyLess(KeyOf(states, a), KeyOf(states, b))
    ensures Comparator(states, a, b) > 0 <==> KeyLess(KeyOf(states, b), KeyOf(states, a))
    ensures Comparator(states, a, b) == 0 <==> KeyOf(states, a) == KeyOf(states, b)
  {
  }

  /** Hence the comparator is a total preorder: antisymmetric in sign and transitive. */
  lemma ComparatorTotalPreorder(states: seq<NfaState>, a: StateId, b: StateId, c: StateId)
    requires Comparable(states, a) && Comparable(states, b) && Comparable(states, c)
    ensures Comparator(states, a, b) <= 0 || Comparator(states, b, a) <= 0
    ensures Comparator(states, a, b) <= 0 && Comparator(states, b, c) <= 0 ==> Comparator(states, a, c) <= 0
  {
    ComparatorIsKeyOrder(states, a, b);
    ComparatorIsKeyOrder(states, b, a);
    ComparatorIsKeyOrder(states, b, c);
    ComparatorIsKeyOrder(states, a, c);
  }

  /** The comparator puts first the state whose next state accepts the larger ordinal; a
      next state that accepts nothing, whose ordinal is MAX_VALUE, comes before every
      next state that accepts an expression. */
  lemma LargerOrdinalFirst(states: seq<NfaState>, a: StateId, b: StateId)
    requires Comparable(states, a) && Comparable(states, b)
    requires Ordinal(states[states[a].nextState.value]) > Ordinal(states[states[b].nextState.value])
    ensures Comparator(states, a, b) < 0 && Comparator(states, b, a) > 0
  {
  }

  lemma NonAcceptingNextFirst(states: seq<NfaState>, a: StateId, b: StateId)
    requires Comparable(states, a) && Comparable(states, b)
    requires states[states[a].nextState.value].tokenType.None?
    requires OrdinalInRange(states[states[b].nextState.value])
    requires states[states[b].nextState.value].tokenType.Some?
    ensures Comparator(states, a, b) < 0
  {
    OrdinalSentinel(states[states[b].nextState.value]);
    LargerOrdinalFirst(states, a, b);
  }

  /** A list of states in comparator order. */
  predicate SortedByComparator(states: seq<NfaState>, ids: seq<StateId>)
    requires forall i :: 0 <= i < |ids| ==> Comparable(states, ids[i])
  {
    forall i, j :: 0 <= i < j < |ids| ==> Comparator(states, ids[i], ids[j]) <= 0
  }

  /** One state put into a list in comparator order, before the first state it does not follow. */
  function InsertByComparator(states: seq<NfaState>, x: StateId, ids: seq<StateId>): (r: seq<StateId>)
    requires Comparable(states, x) && forall i :: 0 <= i < |ids| ==> Comparable(states, ids[i])
    ensures |r| == |ids| + 1 && multiset(r) == multiset(ids) + multiset{x}
    ensures forall i :: 0 <= i < |r| ==> Comparable(states, r[i])
  {
    if ids == [] || Comparator(states, x, ids[0]) <= 0 then [x] + ids
    else
      assert ids == [ids[0]] + ids[1..];
      [ids[0]] + InsertByComparator(states, x, ids[1..])
  }

  /** A state that precedes every state of a sorted list may head it. */
  lemma ConsSortedByComparator(states: seq<NfaState>, a: StateId, rest: seq<StateId>)
    requires Comparable(states, a) && forall i :: 0 <= i < |rest| ==> Comparable(states, rest[i])
    requires SortedByComparator(states, rest)
    requires forall j :: 0 <= j < |rest| ==> Comparator(states, a, rest[j]) <= 0
    ensures SortedByComparator(states, [a] + rest)
  {
    var r := [a] + rest;
    forall i, j | 0 <= i < j < |r| ensures Comparator(states, r[i], r[j]) <= 0 {
      assert r[j] == rest[j - 1];
      if i > 0 {
        assert r[i] == rest[i - 1];
      }
    }
  }

  /** Every state of the list, with x inserted further on, follows the list's head. */
  lemma InsertedAfterHead(states: seq<NfaState>, x: StateId, ids: seq<StateId>, rest: seq<StateId>)
    requires Comparable(states, x) && forall i :: 0 <= i < |ids| ==> Comparable(states, ids[i])
    requires SortedByComparator(states, ids) && ids != [] && Comparator(states, ids[0], x) <= 0
    requires rest == InsertByComparator(states, x, ids[1..])
    ensures forall j :: 0 <= j < |rest| ==> Comparator(states, ids[0], rest[j]) <= 0
  {
    forall j | 0 <= j < |rest| ensures Comparator(states, ids[0], rest[j]) <= 0 {
      assert rest[j] in multiset(rest);
      if rest[j] != x {
        assert rest[j] in multiset(ids[1..]);
        var k :| 0 <= k < |ids[1..]| && ids[1..][k] == rest[j];
        assert ids[k + 1] == rest[j];
      }
    }
  }

  /** Inserting into a sorted list keeps it sorted. */
  lemma {:induction false} InsertKeepsSorted(states: seq<NfaState>, x: StateId, ids: seq<StateId>)
    requires Comparable(states, x) && forall i :: 0 <= i < |ids| ==> Comparable(states, ids[i])
    requires SortedByComparator(states, ids)
    ensures SortedByComparator(states, InsertByComparator(states, x, ids))
  {
    if ids == [] || Comparator(states, x, ids[0]) <= 0 {
      forall j | 0 <= j < |ids| ensures Comparator(states, x, ids[j]) <= 0 {
        ComparatorTotalPreorder(states, x, ids[0], ids[j]);
      }
      ConsSortedByComparator(states, x, ids);
    } else {
      var rest := InsertByComparator(states, x, ids[1..]);
      assert SortedByComparator(states, ids[1..]) by {
        forall i, j | 0 <= i < j < |ids[1..]| ensures Comparator(states, ids[1..][i], ids[1..][j]) <= 0 {
          assert ids[1..][i] == ids[i + 1] && ids[1..][j] == ids[j + 1];
        }
      }
      InsertKeepsSorted(states, x, ids[1..]);
      ComparatorTotalPreorder(states, x, ids[0], x);
      InsertedAfterHead(states, x, ids, rest);
      ConsSortedByComparator(states, ids[0], rest);
      assert InsertByComparator(states, x, ids) == [ids[0]] + rest;
    }
  }

  /**
   * getOrderedStates: the members of a composite, copied out of the member set and
   * sorted by the comparator. Sorting fewer than two members compares nothing; with
   * two or more, a member without a next state or without a move range would make
   * the comparator throw.
   */
  method GetOrderedStates(states: seq<NfaState>, members: set<StateId>) returns (result: seq<StateId>)
    requires |members| >= 2 ==> forall s :: s in members ==> Comparable(states, s)
    ensures multiset(result) == multiset(members)
    ensures |members| >= 2 ==>
      (forall i :: 0 <= i < |result| ==> Comparable(states, result[i])) && SortedByComparator(states, result)
  {
    if |members| < 2 {
      result := [];
      if members != {} {
        var s :| s in members;
        assert |members - {s}| == |members| - 1;
        assert members == {s};
        result := [s];
      }
      return;
    }
    result := SortMembers(states, members);
  }

  /** The sort of getOrderedStates, on members the comparator can read: each member
      is inserted into the sorted list built so far. */
  method SortMembers(states: seq<NfaState>, members: set<StateId>) returns (result: seq<StateId>)
    requires forall s :: s in members ==> Comparable(states, s)
    ensures forall i :: 0 <= i < |result| ==> Comparable(states, result[i])
    ensures SortedByComparator(states, result)
    ensures multiset(result) == multiset(members)
  {
    result := [];
    var todo := members;
    while todo != {}
      invariant todo <= members
      invariant forall i :: 0 <= i < |result| ==> Comparable(states, result[i])
      invariant SortedByComparator(states, result)
      invariant multiset(result) == multiset(members - todo)
      decreases todo
    {
      var s :| s in todo;
      assert multiset(members - (todo - {s})) == multiset(members - todo) + multiset{s} by {
        assert members - (todo - {s}) == (members - todo) + {s};
      }
      todo := todo - {s};
      InsertKeepsSorted(states, s, result);
      result := InsertByComparator(states, s, result);
    }
  }
}
