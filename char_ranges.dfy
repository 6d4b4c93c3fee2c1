/**
 * The character-class helpers of the NFA builder: a list of character ranges
 * and the code-point set it denotes, the conversion of a set back to its
 * canonical range list, and the case-neutral, possibly negated, range list of
 * a character class.
 *
 * Code-point sets are `set<nat>`; a range is inclusive at both ends.
 */
module CharRanges {
  import opened Util

  /** One past the largest Unicode code point: the universe a negated class is complemented in. */
  const CODE_POINT_LIMIT: nat := 0x110000

  /** The highest code point the case-difference tables look at. */
  const CASE_SCAN_LIMIT: nat := 0x16e7f

  datatype CharRange = CharRange(left: nat, right: nat)

  /**
   * Character.toUpperCase / toLowerCase, given as parameters. The only fact
   * the builder relies on is that they map code points to code points.
   */
  datatype CaseMap = CaseMap(upper: nat -> nat, lower: nat -> nat)

  predicate ValidCaseMap(cm: CaseMap)
  {
    forall c: nat :: c < CODE_POINT_LIMIT ==> cm.upper(c) < CODE_POINT_LIMIT && cm.lower(c) < CODE_POINT_LIMIT
  }

  /** The code points left..right. */
  function Interval(left: nat, right: int): (r: set<nat>)
    ensures forall c: nat :: c in r <==> left <= c <= right
    decreases right - left
  {
    if right < left then {} else Interval(left, right - 1) + {right as nat}
  }

  /** BitSet.set(left, right + 1) throws unless left <= right + 1. */
  predicate WellFormed(ranges: seq<CharRange>)
  {
    forall i :: 0 <= i < |ranges| ==> ranges[i].left <= ranges[i].right + 1
  }

  predicate Holds(r: CharRange, c: nat)
  {
    r.left <= c <= r.right
  }

  /** The code points covered by a list of ranges. */
  function RangesToSet(ranges: seq<CharRange>): set<nat>
  {
    if ranges == [] then {}
    else
      var last := ranges[|ranges| - 1];
      RangesToSet(ranges[..|ranges| - 1]) + Interval(last.left, last.right)
  }

  /** A code point is covered iff one of the ranges holds it. */
  lemma {:induction false} InRanges(ranges: seq<CharRange>, c: nat)
    ensures c in RangesToSet(ranges) <==> exists i :: 0 <= i < |ranges| && Holds(ranges[i], c)
  {
    if ranges != [] {
      var init := ranges[..|ranges| - 1];
      InRanges(init, c);
      if c in RangesToSet(init) {
        var i :| 0 <= i < |init| && Holds(init[i], c);
        assert Holds(ranges[i], c);
      }
      if exists i :: 0 <= i < |ranges| && Holds(ranges[i], c) {
        var i :| 0 <= i < |ranges| && Holds(ranges[i], c);
        if i < |init| {
          assert Holds(init[i], c);
        }
      }
    }
  }

  lemma InRangesAt(ranges: seq<CharRange>, i: int, c: nat)
    requires 0 <= i < |ranges| && Holds(ranges[i], c)
    ensures c in RangesToSet(ranges)
  {
    InRanges(ranges, c);
  }

  lemma InRangesSome(ranges: seq<CharRange>, c: nat) returns (i: int)
    requires c in RangesToSet(ranges)
    ensures 0 <= i < |ranges| && Holds(ranges[i], c)
  {
    InRanges(ranges, c);
    i :| 0 <= i < |ranges| && Holds(ranges[i], c);
  }

  /** Ascending, each range non-empty, and a gap of at least one code point between neighbours. */
  predicate Canonical(ranges: seq<CharRange>)
  {
    (forall i :: 0 <= i < |ranges| ==> ranges[i].left <= ranges[i].right) &&
    (forall i :: 0 <= i < |ranges| - 1 ==> ranges[i].right + 1 < ranges[i + 1].left)
  }

  /** In a canonical list every later range lies wholly above every earlier one. */
  lemma {:induction false} CanonicalOrdered(ranges: seq<CharRange>, i: int, j: int)
    requires Canonical(ranges) && 0 <= i < j < |ranges|
    ensures ranges[i].right + 1 < ranges[j].left
    decreases j - i
  {
    if j > i + 1 {
      CanonicalOrdered(ranges, i, j - 1);
    }
  }

  /**
   * The rangeListToBS loop: the union of the ranges. BitSet.set(left, right + 1)
   * throws IndexOutOfBoundsException on a range whose left end lies past right + 1.
   */
  method RangeListToBS(ranges: seq<CharRange>) returns (r: Result<set<nat>>)
    ensures r.Thrown? <==> !WellFormed(ranges)
    ensures r.Ok? ==> r.value == RangesToSet(ranges)
  {
    var bs := {};
    for i := 0 to |ranges|
      invariant bs == RangesToSet(ranges[..i])
      invariant WellFormed(ranges[..i])
    {
      if ranges[i].left > ranges[i].right + 1 {
        return Thrown("IndexOutOfBoundsException");
      }
      assert ranges[..i + 1][..i] == ranges[..i];
      bs := bs + Interval(ranges[i].left, ranges[i].right);
    }
    assert ranges[..|ranges|] == ranges;
    r := Ok(bs);
  }

  /** BitSet.nextSetBit(from) over a set whose members lie below n: -1 when there is none. */
  function NextSetBit(bs: set<nat>, from: nat, n: nat): (r: int)
    requires forall c :: c in bs ==> c < n
    ensures r == -1 <==> forall c :: c in bs ==> c < from
    ensures r != -1 ==> from <= r < n && r in bs && forall c :: from <= c < r ==> c !in bs
    decreases n - from
  {
    if from >= n then -1
    else if from in bs then from
    else NextSetBit(bs, from + 1, n)
  }

  /** BitSet.nextClearBit(from). */
  function NextClearBit(bs: set<nat>, from: nat, n: nat): (r: nat)
    requires forall c :: c in bs ==> c < n
    ensures from <= r && r !in bs && forall c :: from <= c < r ==> c in bs
    decreases n - from
  {
    if from !in bs then from else NextClearBit(bs, from + 1, n)
  }

  /** The members of bs below k. */
  function Below2(bs: set<nat>, k: int): set<nat>
  {
    set c | c in bs && c < k
  }

  /**
   * bsToRangeList: the maximal runs of set bits, in ascending order. `n` bounds
   * the members (the source's BitSet needs no bound; any n above every member
   * gives the same list).
   */
  method BsToRangeList(bs: set<nat>, n: nat) returns (result: seq<CharRange>)
    requires forall c :: c in bs ==> c < n
    ensures Canonical(result)
    ensures RangesToSet(result) == bs
  {
    result := [];
    if bs == {} {
      return;
    }
    var curPos: int := 0;
    while curPos >= 0
      invariant RunsSoFar(bs, n, result, curPos)
      decreases if curPos < 0 then 0 else n + 1 - curPos
    {
      var left := NextSetBit(bs, curPos, n);
      var right := NextClearBit(bs, left, n) - 1;
      var next := NextSetBit(bs, right + 1, n);
      RunsStep(bs, n, result, curPos, left, right, next);
      result := result + [CharRange(left, right)];
      curPos := next;
    }
  }

  /** The bsToRangeList loop invariant: the runs found so far, in canonical form, cover
      the members below curPos, or all members once curPos is -1. */
  ghost predicate RunsSoFar(bs: set<nat>, n: nat, result: seq<CharRange>, curPos: int)
    requires forall c :: c in bs ==> c < n
  {
    curPos >= -1 &&
    (curPos >= 0 ==> curPos < n && NextSetBit(bs, curPos, n) != -1) &&
    Canonical(result) &&
    (curPos != -1 && result != [] ==> result[|result| - 1].right + 1 < curPos) &&
    (curPos == -1 ==> RangesToSet(result) == bs) &&
    (curPos != -1 ==> RangesToSet(result) == Below2(bs, curPos))
  }

  /** One turn of the bsToRangeList loop keeps its invariant and moves curPos forward. */
  lemma RunsStep(bs: set<nat>, n: nat, result: seq<CharRange>, curPos: int, left: int, right: int, next: int)
    requires forall c :: c in bs ==> c < n
    requires RunsSoFar(bs, n, result, curPos) && curPos >= 0
    requires left == NextSetBit(bs, curPos, n)
    requires right == NextClearBit(bs, left, n) - 1
    requires next == NextSetBit(bs, right + 1, n)
    ensures RunsSoFar(bs, n, result + [CharRange(left, right)], next)
    ensures next < 0 || curPos < next
  {
    var r := result + [CharRange(left, right)];
    assert r[..|r| - 1] == result;
    assert RangesToSet(r) == RangesToSet(result) + Interval(left, right);
    RunStep(bs, n, curPos, left, right, next);
  }

  /** One turn of the bsToRangeList loop covers every member up to the next run. */
  lemma RunStep(bs: set<nat>, n: nat, from: nat, left: nat, right: int, next: int)
    requires forall c :: c in bs ==> c < n
    requires from < n && left == NextSetBit(bs, from, n) && left != -1
    requires right == NextClearBit(bs, left, n) - 1
    requires next == NextSetBit(bs, right + 1, n)
    ensures next == -1 ==> Below2(bs, from) + Interval(left, right) == bs
    ensures next != -1 ==> Below2(bs, from) + Interval(left, right) == Below2(bs, next)
  {
    var covered := Below2(bs, from) + Interval(left, right);
    forall c | c in covered ensures c in bs {
    }
    if next == -1 {
      forall c | c in bs ensures c in covered {
      }
    } else {
      forall c | c in bs && c < next ensures c in covered {
      }
      assert Below2(bs, next) == covered;
    }
  }

  /** The set of a character class before negation: its ranges plus, case-neutrally,
      the other-case images of the members that differ from them in that case. */
  function CaseExpanded(bs: set<nat>, caseNeutral: bool, cm: CaseMap): set<nat>
  {
    if !caseNeutral then bs
    else
      bs
      + (set c | c in bs && c <= CASE_SCAN_LIMIT && cm.upper(c) != c :: cm.upper(c))
      + (set c | c in bs && c <= CASE_SCAN_LIMIT && cm.lower(c) != c :: cm.lower(c))
  }

  /** The code points a character class accepts. */
  function ClassSet(descriptors: seq<CharRange>, negated: bool, caseNeutral: bool, cm: CaseMap): set<nat>
  {
    var expanded := CaseExpanded(RangesToSet(descriptors), caseNeutral, cm);
    if negated then Flip(expanded, CODE_POINT_LIMIT) else expanded
  }

  /** A negated class accepts exactly the code points its un-negated form rejects. */
  lemma NegationComplements(descriptors: seq<CharRange>, caseNeutral: bool, cm: CaseMap, c: nat)
    requires c < CODE_POINT_LIMIT
    ensures c in ClassSet(descriptors, true, caseNeutral, cm) <==> c !in ClassSet(descriptors, false, caseNeutral, cm)
  {
    FlipBits(CaseExpanded(RangesToSet(descriptors), caseNeutral, cm), CODE_POINT_LIMIT, c);
  }

  /** Case-neutral expansion only ever adds code points, and adds both cases of a member. */
  lemma CaseExpansionAdds(bs: set<nat>, cm: CaseMap, c: nat)
    requires c in bs && c <= CASE_SCAN_LIMIT
    ensures bs <= CaseExpanded(bs, true, cm)
    ensures cm.upper(c) in CaseExpanded(bs, true, cm) && cm.lower(c) in CaseExpanded(bs, true, cm)
  {
  }

  lemma ExpandedBelowLimit(descriptors: seq<CharRange>, caseNeutral: bool, cm: CaseMap)
    requires ValidCaseMap(cm)
    requires forall i :: 0 <= i < |descriptors| ==> descriptors[i].right < CODE_POINT_LIMIT
    ensures forall c :: c in CaseExpanded(RangesToSet(descriptors), caseNeutral, cm) ==> c < CODE_POINT_LIMIT
  {
    var bs := RangesToSet(descriptors);
    forall c | c in bs ensures c < CODE_POINT_LIMIT {
      var i := InRangesSome(descriptors, c);
    }
  }

  /** orderedRanges: the canonical range list of a character class. */
  method OrderedRanges(descriptors: seq<CharRange>, negated: bool, caseNeutral: bool, cm: CaseMap)
    returns (ranges: seq<CharRange>)
    requires WellFormed(descriptors) && ValidCaseMap(cm)
    requires forall i :: 0 <= i < |descriptors| ==> descriptors[i].right < CODE_POINT_LIMIT
    ensures Canonical(ranges)
    ensures RangesToSet(ranges) == ClassSet(descriptors, negated, caseNeutral, cm)
  {
    var listed := RangeListToBS(descriptors);
    var bs := listed.value;
    ghost var original := bs;
    if caseNeutral {
      var upperCaseDiffPoints := set c | c in bs && c <= CASE_SCAN_LIMIT && cm.upper(c) != c;
      var lowerCaseDiffPoints := set c | c in bs && c <= CASE_SCAN_LIMIT && cm.lower(c) != c;
      bs := bs + (set c | c in upperCaseDiffPoints :: cm.upper(c));
      bs := bs + (set c | c in lowerCaseDiffPoints :: cm.lower(c));
    }
    assert bs == CaseExpanded(original, caseNeutral, cm);
    ExpandedBelowLimit(descriptors, caseNeutral, cm);
    if negated {
      bs := Flip(bs, CODE_POINT_LIMIT);
    }
    ranges := BsToRangeList(bs, CODE_POINT_LIMIT);
  }

  /** In a canonical list the last range ends at the largest covered code point. */
  lemma MaxInLast(a: seq<CharRange>)
    requires Canonical(a) && a != []
    ensures a[|a| - 1].right in RangesToSet(a)
    ensures forall c :: c in RangesToSet(a) ==> c <= a[|a| - 1].right
  {
    InRangesAt(a, |a| - 1, a[|a| - 1].right);
    forall c | c in RangesToSet(a) ensures c <= a[|a| - 1].right {
      var i := InRangesSome(a, c);
      if i < |a| - 1 {
        CanonicalOrdered(a, i, |a| - 1);
      }
    }
  }

  /** ... and starts right after the last code point the list leaves out below that. */
  lemma LastRunStart(a: seq<CharRange>)
    requires Canonical(a) && a != []
    ensures forall c: nat :: a[|a| - 1].left <= c <= a[|a| - 1].right ==> c in RangesToSet(a)
    ensures a[|a| - 1].left == 0 || a[|a| - 1].left - 1 !in RangesToSet(a)
  {
    var l := a[|a| - 1].left;
    forall c: nat | l <= c <= a[|a| - 1].right ensures c in RangesToSet(a) {
      InRangesAt(a, |a| - 1, c);
    }
    if l > 0 && l - 1 in RangesToSet(a) {
      var i := InRangesSome(a, l - 1);
      if i < |a| - 1 {
        CanonicalOrdered(a, i, |a| - 1);
      }
    }
  }

  /** Dropping the last range of a canonical list leaves exactly the covered code points
      that lie below the last range with a gap. */
  lemma SplitLast(a: seq<CharRange>, c: nat)
    requires Canonical(a) && a != []
    ensures c in RangesToSet(a[..|a| - 1]) <==> c in RangesToSet(a) && c + 1 < a[|a| - 1].left
  {
    var init := a[..|a| - 1];
    if c in RangesToSet(init) {
      var i := InRangesSome(init, c);
      assert init[i] == a[i];
      CanonicalOrdered(a, i, |a| - 1);
      InRangesAt(a, i, c);
    }
    if c in RangesToSet(a) && c + 1 < a[|a| - 1].left {
      var i := InRangesSome(a, c);
      assert i < |a| - 1;
      assert init[i] == a[i];
      InRangesAt(init, i, c);
    }
  }

  /** Two canonical lists covering the same set end with the same range. */
  lemma SameLast(a: seq<CharRange>, b: seq<CharRange>)
    requires Canonical(a) && Canonical(b) && RangesToSet(a) == RangesToSet(b) && a != [] && b != []
    ensures a[|a| - 1] == b[|b| - 1]
  {
    MaxInLast(a);
    MaxInLast(b);
    LastRunStart(a);
    LastRunStart(b);
  }

  /** ... and, without it, still cover the same set. */
  lemma SameInit(a: seq<CharRange>, b: seq<CharRange>)
    requires Canonical(a) && Canonical(b) && RangesToSet(a) == RangesToSet(b) && a != [] && b != []
    requires a[|a| - 1] == b[|b| - 1]
    ensures RangesToSet(a[..|a| - 1]) == RangesToSet(b[..|b| - 1])
  {
    var a', b' := a[..|a| - 1], b[..|b| - 1];
    forall c: nat ensures c in RangesToSet(a') <==> c in RangesToSet(b') {
      SplitLast(a, c);
      SplitLast(b, c);
    }
    assert RangesToSet(a') == RangesToSet(b');
  }

  lemma CanonicalInit(a: seq<CharRange>)
    requires Canonical(a) && a != []
    ensures Canonical(a[..|a| - 1])
  {
  }

  /** A canonical list covers some code point unless it is empty. */
  lemma NonEmptyCovers(a: seq<CharRange>)
    requires Canonical(a) && a != []
    ensures RangesToSet(a) != {}
  {
    MaxInLast(a);
  }

  /** The canonical range list of a set is unique: a canonical list is the only
      one bsToRangeList can return for the set it covers. */
  lemma {:induction false} CanonicalUnique(a: seq<CharRange>, b: seq<CharRange>)
    requires Canonical(a) && Canonical(b) && RangesToSet(a) == RangesToSet(b)
    ensures a == b
    decreases |a|
  {
    if a != [] && b != [] {
      SameLast(a, b);
      SameInit(a, b);
      CanonicalInit(a);
      CanonicalInit(b);
      CanonicalUnique(a[..|a| - 1], b[..|b| - 1]);
      assert a == a[..|a| - 1] + [a[|a| - 1]];
      assert b == b[..|b| - 1] + [b[|b| - 1]];
    } else if a != [] {
      NonEmptyCovers(a);
    } else if b != [] {
      NonEmptyCovers(b);
    }
  }

  /** The round trip the other way: the canonical range list of the set a canonical
      list covers is that list. */
  method RangeListRoundTrip(ranges: seq<CharRange>) returns (back: seq<CharRange>)
    requires Canonical(ranges)
    requires forall i :: 0 <= i < |ranges| ==> ranges[i].right < CODE_POINT_LIMIT
    ensures back == ranges
  {
    var listed := RangeListToBS(ranges);
    var bs := listed.value;
    forall c | c in bs ensures c < CODE_POINT_LIMIT {
      var i := InRangesSome(ranges, c);
    }
    back := BsToRangeList(bs, CODE_POINT_LIMIT);
    CanonicalUnique(back, ranges);
  }
}
