/**
 * What the expansion facts amount to, stated without the unit-by-unit
 * recursion they are computed by: sequences are conjunctions, sums and
 * prefix windows over their units, choices are disjunctions, minima, maxima
 * and unions over their alternatives.
 */
module ExpansionLemmas {
  import opened Util
  import opened Expansions
  import opened ExpansionFacts

  /* ---------------------------------------------------------------------- */
  /* isPossiblyEmpty                                                         */
  /* ---------------------------------------------------------------------- */

  lemma {:induction false} AllPossiblyEmptyIff(ps: Productions, us: seq<Expansion>, visiting: set<string>)
    requires Closed(ps) && forall i | 0 <= i < |us| :: Defined(ps, us[i])
    ensures AllPossiblyEmpty(ps, us, visiting) <==> forall i | 0 <= i < |us| :: PossiblyEmpty(ps, us[i], visiting)
  {
    if us != [] {
      AllPossiblyEmptyIff(ps, us[1..], visiting);
      assert forall i | 1 <= i < |us| :: us[1..][i - 1] == us[i];
    }
  }

  /** A sequence is possibly empty iff every unit is. */
  lemma SequencePossiblyEmpty(ps: Productions, e: Expansion, visiting: set<string>)
    requires Closed(ps) && Defined(ps, e) && e.Sequence?
    ensures PossiblyEmpty(ps, e, visiting) <==> forall i | 0 <= i < |e.units| :: PossiblyEmpty(ps, e.units[i], visiting)
  {
    AllPossiblyEmptyIff(ps, e.units, visiting);
  }

  lemma {:induction false} SomePossiblyEmptyIff(ps: Productions, alts: seq<Expansion>, visiting: set<string>)
    requires Closed(ps) && forall i | 0 <= i < |alts| :: Defined(ps, alts[i])
    ensures SomePossiblyEmpty(ps, alts, visiting) <==> exists i | 0 <= i < |alts| :: PossiblyEmpty(ps, alts[i], visiting)
  {
    if alts != [] {
      SomePossiblyEmptyIff(ps, alts[1..], visiting);
      assert forall i | 1 <= i < |alts| :: alts[1..][i - 1] == alts[i];
    }
  }

  /** A choice is possibly empty iff some alternative is. */
  lemma ChoicePossiblyEmpty(ps: Productions, e: Expansion, visiting: set<string>)
    requires Closed(ps) && Defined(ps, e) && e.Choice?
    ensures PossiblyEmpty(ps, e, visiting) <==> exists i | 0 <= i < |e.alternatives| :: PossiblyEmpty(ps, e.alternatives[i], visiting)
  {
    SomePossiblyEmptyIff(ps, e.alternatives, visiting);
  }

  /* ---------------------------------------------------------------------- */
  /* Sizes                                                                   */
  /* ---------------------------------------------------------------------- */

  function Sum(vals: seq<int>): int
  {
    if vals == [] then 0 else vals[0] + Sum(vals[1..])
  }

  predicate InRange(vals: seq<int>)
  {
    forall i | 0 <= i < |vals| :: 0 <= vals[i] <= MAX_VALUE
  }

  /** The sum of sizes, or MAX_VALUE when a size is MAX_VALUE or the sum reaches it. */
  function Saturated(vals: seq<int>): int
  {
    if (exists i | 0 <= i < |vals| :: vals[i] == MAX_VALUE) || Sum(vals) >= MAX_VALUE then MAX_VALUE else Sum(vals)
  }

  lemma {:induction false} SumNonNegative(vals: seq<int>)
    requires InRange(vals)
    ensures Sum(vals) >= 0
  {
    if vals != [] {
      assert InRange(vals[1..]) by {
        assert forall i | 0 <= i < |vals| - 1 :: vals[1..][i] == vals[i + 1];
      }
      SumNonNegative(vals[1..]);
    }
  }

  lemma SaturatedCons(vals: seq<int>)
    requires InRange(vals) && vals != []
    ensures InRange(vals[1..])
    ensures 0 <= Saturated(vals[1..]) <= MAX_VALUE
    ensures Saturated(vals) == AddSize(vals[0], Saturated(vals[1..]))
  {
    var tail := vals[1..];
    assert forall j | 0 <= j < |tail| :: tail[j] == vals[j + 1];
    SumNonNegative(tail);
    if exists j | 0 <= j < |tail| :: tail[j] == MAX_VALUE {
      var j :| 0 <= j < |tail| && tail[j] == MAX_VALUE;
      assert vals[j + 1] == MAX_VALUE;
    } else if vals[0] == MAX_VALUE {
    } else {
      assert !exists i | 0 <= i < |vals| :: vals[i] == MAX_VALUE by {
        forall i | 0 <= i < |vals| ensures vals[i] != MAX_VALUE {
          if i > 0 { assert vals[i] == tail[i - 1]; }
        }
      }
    }
  }

  function UnitMinima(ps: Productions, us: seq<Expansion>, inCall: set<nat>): (r: seq<int>)
    requires Closed(ps) && forall i | 0 <= i < |us| :: Defined(ps, us[i])
    ensures |r| == |us| && InRange(r)
  {
    seq(|us|, i requires 0 <= i < |us| => MinSize(ps, us[i], inCall))
  }

  function UnitMaxima(ps: Productions, us: seq<Expansion>, inCall: set<nat>): (r: seq<int>)
    requires Closed(ps) && forall i | 0 <= i < |us| :: Defined(ps, us[i])
    ensures |r| == |us| && InRange(r)
  {
    seq(|us|, i requires 0 <= i < |us| => MaxSize(ps, us[i], inCall))
  }

  /** A sequence's minimum size is the sum of its units' minima, MAX_VALUE if one of them is MAX_VALUE. */
  lemma {:induction false} SequenceMinimumSize(ps: Productions, us: seq<Expansion>, inCall: set<nat>)
    requires Closed(ps) && forall i | 0 <= i < |us| :: Defined(ps, us[i])
    ensures MinAll(ps, us, inCall) == Saturated(UnitMinima(ps, us, inCall))
  {
    if us != [] {
      SequenceMinimumSize(ps, us[1..], inCall);
      assert UnitMinima(ps, us, inCall)[1..] == UnitMinima(ps, us[1..], inCall);
      SaturatedCons(UnitMinima(ps, us, inCall));
    }
  }

  /** A sequence's maximum size is the sum of its units' maxima, MAX_VALUE if one of them is MAX_VALUE. */
  lemma {:induction false} SequenceMaximumSize(ps: Productions, us: seq<Expansion>, inCall: set<nat>)
    requires Closed(ps) && forall i | 0 <= i < |us| :: Defined(ps, us[i])
    ensures MaxAll(ps, us, inCall) == Saturated(UnitMaxima(ps, us, inCall))
  {
    if us != [] {
      SequenceMaximumSize(ps, us[1..], inCall);
      assert UnitMaxima(ps, us, inCall)[1..] == UnitMaxima(ps, us[1..], inCall);
      SaturatedCons(UnitMaxima(ps, us, inCall));
    }
  }

  /** A choice's minimum size is the least of its alternatives' (MAX_VALUE with none). */
  lemma {:induction false} ChoiceMinimumSize(ps: Productions, alts: seq<Expansion>, inCall: set<nat>)
    requires Closed(ps) && forall i | 0 <= i < |alts| :: Defined(ps, alts[i])
    ensures alts == [] ==> MinChoice(ps, alts, inCall) == MAX_VALUE
    ensures forall i | 0 <= i < |alts| :: MinChoice(ps, alts, inCall) <= MinSize(ps, alts[i], inCall)
    ensures alts != [] ==> exists i | 0 <= i < |alts| :: MinChoice(ps, alts, inCall) == MinSize(ps, alts[i], inCall)
  {
    if alts != [] {
      ChoiceMinimumSize(ps, alts[1..], inCall);
      assert forall i | 1 <= i < |alts| :: alts[1..][i - 1] == alts[i];
      if MinChoice(ps, alts, inCall) != MinSize(ps, alts[0], inCall) {
        var j :| 0 <= j < |alts| - 1 && MinChoice(ps, alts[1..], inCall) == MinSize(ps, alts[1..][j], inCall);
        assert MinChoice(ps, alts, inCall) == MinSize(ps, alts[j + 1], inCall);
      }
    }
  }

  /** A choice's maximum size is the greatest of its alternatives' (0 with none). */
  lemma {:induction false} ChoiceMaximumSize(ps: Productions, alts: seq<Expansion>, inCall: set<nat>)
    requires Closed(ps) && forall i | 0 <= i < |alts| :: Defined(ps, alts[i])
    ensures alts == [] ==> MaxChoice(ps, alts, inCall) == 0
    ensures forall i | 0 <= i < |alts| :: MaxChoice(ps, alts, inCall) >= MaxSize(ps, alts[i], inCall)
    ensures alts != [] ==> exists i | 0 <= i < |alts| :: MaxChoice(ps, alts, inCall) == MaxSize(ps, alts[i], inCall)
  {
    if alts != [] {
      ChoiceMaximumSize(ps, alts[1..], inCall);
      assert forall i | 1 <= i < |alts| :: alts[1..][i - 1] == alts[i];
      if MaxChoice(ps, alts, inCall) != MaxSize(ps, alts[0], inCall) {
        var j :| 0 <= j < |alts| - 1 && MaxChoice(ps, alts[1..], inCall) == MaxSize(ps, alts[1..][j], inCall);
        assert MaxChoice(ps, alts, inCall) == MaxSize(ps, alts[j + 1], inCall);
      }
    }
  }

  /** Every choice below e has at least one alternative (what the grammar syntax guarantees). */
  predicate ChoicesNonEmpty(e: Expansion)
  {
    match e
    case Sequence(us, _, _, _) => forall i | 0 <= i < |us| :: ChoicesNonEmpty(us[i])
    case Choice(alts) => |alts| > 0 && forall i | 0 <= i < |alts| :: ChoicesNonEmpty(alts[i])
    case ZeroOrMore(b) => ChoicesNonEmpty(b)
    case OneOrMore(b) => ChoicesNonEmpty(b)
    case ZeroOrOne(b) => ChoicesNonEmpty(b)
    case Parens(b) => ChoicesNonEmpty(b)
    case _ => true
  }

  predicate GrammarChoicesNonEmpty(ps: Productions)
  {
    forall n | n in ps :: ChoicesNonEmpty(ps[n].expansion)
  }

  /** The minimum size never exceeds the maximum size, re-entry guards included. */
  lemma {:induction false} MinimumAtMostMaximum(ps: Productions, e: Expansion, inCall: set<nat>)
    requires Closed(ps) && Defined(ps, e) && GrammarChoicesNonEmpty(ps) && ChoicesNonEmpty(e)
    ensures MinSize(ps, e, inCall) <= MaxSize(ps, e, inCall)
    decreases Budget(AllSites(ps), inCall), Size(e), 0
  {
    match e
    case Sequence(us, _, _, _) => SumsOrdered(ps, us, inCall);
    case Choice(alts) =>
      SizeAllBound(alts);
      MinimumAtMostMaximum(ps, alts[0], inCall);
    case NonTerminal(n, site) =>
      if site !in inCall {
        BudgetShrinks(AllSites(ps), inCall, site);
        MinimumAtMostMaximum(ps, ps[n].expansion, inCall + {site});
      }
    case OneOrMore(b) =>
    case ZeroOrOne(b) =>
    case ZeroOrMore(b) =>
    case Parens(b) => MinimumAtMostMaximum(ps, b, inCall);
    case Terminal(_) =>
    case Empty(_) =>
  }

  lemma {:induction false} SumsOrdered(ps: Productions, us: seq<Expansion>, inCall: set<nat>)
    requires Closed(ps) && GrammarChoicesNonEmpty(ps)
    requires forall i | 0 <= i < |us| :: Defined(ps, us[i]) && ChoicesNonEmpty(us[i])
    ensures MinAll(ps, us, inCall) <= MaxAll(ps, us, inCall)
    decreases Budget(AllSites(ps), inCall), SizeAll(us), |us| + 1
  {
    if us != [] {
      MinimumAtMostMaximum(ps, us[0], inCall);
      SumsOrdered(ps, us[1..], inCall);
    }
  }

  /* ---------------------------------------------------------------------- */
  /* FIRST and FINAL                                                         */
  /* ---------------------------------------------------------------------- */

  /** A token is in a sequence's FIRST set iff some unit has it and every unit before that one is possibly empty. */
  lemma SequenceFirstSet(ps: Productions, us: seq<Expansion>, visiting: set<string>, t: nat)
    requires Closed(ps) && forall i | 0 <= i < |us| :: Defined(ps, us[i])
    ensures t in FirstAll(ps, us, visiting) <==>
            exists i | 0 <= i < |us| :: t in First(ps, us[i], visiting) && forall j | 0 <= j < i :: Empties(ps, us[j])
  {
    if t in FirstAll(ps, us, visiting) {
      var i := FirstSetWitness(ps, us, visiting, t);
    }
    if exists i | 0 <= i < |us| :: t in First(ps, us[i], visiting) && forall j | 0 <= j < i :: Empties(ps, us[j]) {
      var i :| 0 <= i < |us| && t in First(ps, us[i], visiting) && forall j | 0 <= j < i :: Empties(ps, us[j]);
      FirstSetFromUnit(ps, us, visiting, t, i);
    }
  }

  /** The unit a token of a sequence's FIRST set comes from. */
  lemma {:induction false} FirstSetWitness(ps: Productions, us: seq<Expansion>, visiting: set<string>, t: nat)
    returns (i: nat)
    requires Closed(ps) && forall k | 0 <= k < |us| :: Defined(ps, us[k])
    requires t in FirstAll(ps, us, visiting)
    ensures i < |us| && t in First(ps, us[i], visiting) && forall j | 0 <= j < i :: Empties(ps, us[j])
  {
    if t in First(ps, us[0], visiting) {
      i := 0;
    } else {
      var tail := us[1..];
      var k := FirstSetWitness(ps, tail, visiting, t);
      i := k + 1;
      assert us[i] == tail[k];
      forall j | 0 <= j < i ensures Empties(ps, us[j]) {
        if j > 0 {
          assert us[j] == tail[j - 1];
        }
      }
    }
  }

  /** A token of a unit that only possibly-empty units precede is in the sequence's FIRST set. */
  lemma {:induction false} FirstSetFromUnit(ps: Productions, us: seq<Expansion>, visiting: set<string>, t: nat, i: nat)
    requires Closed(ps) && forall k | 0 <= k < |us| :: Defined(ps, us[k])
    requires i < |us| && t in First(ps, us[i], visiting) && forall j | 0 <= j < i :: Empties(ps, us[j])
    ensures t in FirstAll(ps, us, visiting)
    decreases i
  {
    if i > 0 {
      var tail := us[1..];
      assert tail[i - 1] == us[i];
      assert forall j | 0 <= j < i - 1 :: tail[j] == us[j + 1];
      FirstSetFromUnit(ps, tail, visiting, t, i - 1);
      assert Empties(ps, us[0]);
    }
  }

  /** The mirror image: a token is in a sequence's FINAL set iff some unit has it and every unit after that one is possibly empty. */
  lemma SequenceFinalSet(ps: Productions, us: seq<Expansion>, inCall: set<nat>, t: nat)
    requires Closed(ps) && forall i | 0 <= i < |us| :: Defined(ps, us[i])
    ensures t in FinalAll(ps, us, inCall) <==>
            exists i | 0 <= i < |us| :: t in FinalSet(ps, us[i], inCall) && forall j | i < j < |us| :: Empties(ps, us[j])
  {
    if t in FinalAll(ps, us, inCall) {
      var i := FinalSetWitness(ps, us, inCall, t);
    }
    if exists i | 0 <= i < |us| :: t in FinalSet(ps, us[i], inCall) && forall j | i < j < |us| :: Empties(ps, us[j]) {
      var i :| 0 <= i < |us| && t in FinalSet(ps, us[i], inCall) && forall j | i < j < |us| :: Empties(ps, us[j]);
      FinalSetFromUnit(ps, us, inCall, t, i);
    }
  }

  /** The unit a token of a sequence's FINAL set comes from. */
  lemma {:induction false} FinalSetWitness(ps: Productions, us: seq<Expansion>, inCall: set<nat>, t: nat)
    returns (i: nat)
    requires Closed(ps) && forall k | 0 <= k < |us| :: Defined(ps, us[k])
    requires t in FinalAll(ps, us, inCall)
    ensures i < |us| && t in FinalSet(ps, us[i], inCall) && forall j | i < j < |us| :: Empties(ps, us[j])
  {
    var n := |us| - 1;
    if t in FinalSet(ps, us[n], inCall) {
      i := n;
    } else {
      var front := us[..n];
      i := FinalSetWitness(ps, front, inCall, t);
      assert us[i] == front[i];
      forall j | i < j < |us| ensures Empties(ps, us[j]) {
        if j < n {
          assert us[j] == front[j];
        }
      }
    }
  }

  /** A token of a unit that only possibly-empty units follow is in the sequence's FINAL set. */
  lemma {:induction false} FinalSetFromUnit(ps: Productions, us: seq<Expansion>, inCall: set<nat>, t: nat, i: nat)
    requires Closed(ps) && forall k | 0 <= k < |us| :: Defined(ps, us[k])
    requires i < |us| && t in FinalSet(ps, us[i], inCall) && forall j | i < j < |us| :: Empties(ps, us[j])
    ensures t in FinalAll(ps, us, inCall)
    decreases |us|
  {
    var n := |us| - 1;
    if i < n {
      var front := us[..n];
      assert front[i] == us[i];
      assert forall j | i < j < n :: front[j] == us[j];
      FinalSetFromUnit(ps, front, inCall, t, i);
      assert Empties(ps, us[n]);
    }
  }

  /** A choice's FIRST set is the union of its alternatives' lookahead-expansion FIRST sets. */
  lemma {:induction false} ChoiceFirstSet(ps: Productions, alts: seq<Expansion>, visiting: set<string>, t: nat)
    requires Closed(ps) && forall i | 0 <= i < |alts| :: Defined(ps, alts[i])
    ensures t in FirstChoice(ps, alts, visiting) <==>
            exists i | 0 <= i < |alts| :: t in FirstOfAlternative(ps, alts[i], visiting)
  {
    if alts != [] {
      var rest := alts[1..];
      ChoiceFirstSet(ps, rest, visiting, t);
      assert FirstChoice(ps, alts, visiting) == FirstOfAlternative(ps, alts[0], visiting) + FirstChoice(ps, rest, visiting);
      if t in FirstChoice(ps, alts, visiting) {
        if t !in FirstOfAlternative(ps, alts[0], visiting) {
          var i :| 0 <= i < |rest| && t in FirstOfAlternative(ps, rest[i], visiting);
          assert rest[i] == alts[i + 1];
        }
      } else {
        forall i | 0 <= i < |alts| ensures t !in FirstOfAlternative(ps, alts[i], visiting) {
          if i > 0 {
            assert rest[i - 1] == alts[i];
          }
        }
      }
    }
  }

  /** A choice's FINAL set is the union of its alternatives' FINAL sets. */
  lemma {:induction false} ChoiceFinalSet(ps: Productions, alts: seq<Expansion>, inCall: set<nat>, t: nat)
    requires Closed(ps) && forall i | 0 <= i < |alts| :: Defined(ps, alts[i])
    ensures t in FinalChoice(ps, alts, inCall) <==> exists i | 0 <= i < |alts| :: t in FinalSet(ps, alts[i], inCall)
  {
    if alts != [] {
      ChoiceFinalSet(ps, alts[1..], inCall, t);
      assert forall i | 1 <= i < |alts| :: alts[1..][i - 1] == alts[i];
    }
  }

  /** An alternative without a nested lookahead expansion contributes its own FIRST set. */
  lemma AlternativeWithoutNestedLookahead(ps: Productions, alt: Expansion, visiting: set<string>)
    requires Closed(ps) && Defined(ps, alt)
    requires alt.Sequence? && alt.lookahead.Some? && alt.lookahead.value.nested.None?
    ensures FirstOfAlternative(ps, alt, visiting) == First(ps, alt, visiting)
  {
  }

  /* ---------------------------------------------------------------------- */
  /* isAlwaysSuccessful                                                      */
  /* ---------------------------------------------------------------------- */

  lemma {:induction false} AllAlwaysSuccessfulIff(ps: Productions, us: seq<Expansion>, visiting: set<string>)
    requires Closed(ps) && forall i | 0 <= i < |us| :: Defined(ps, us[i])
    ensures AllAlwaysSuccessful(ps, us, visiting) <==> forall i | 0 <= i < |us| :: AlwaysSuccessful(ps, us[i], visiting)
  {
    if us != [] {
      AllAlwaysSuccessfulIff(ps, us[1..], visiting);
      assert forall i | 1 <= i < |us| :: us[1..][i - 1] == us[i];
    }
  }

  lemma {:induction false} SomeAlwaysSuccessfulIff(ps: Productions, alts: seq<Expansion>, visiting: set<string>)
    requires Closed(ps) && forall i | 0 <= i < |alts| :: Defined(ps, alts[i])
    ensures SomeAlwaysSuccessful(ps, alts, visiting) <==> exists i | 0 <= i < |alts| :: AlwaysSuccessful(ps, alts[i], visiting)
  {
    if alts != [] {
      SomeAlwaysSuccessfulIff(ps, alts[1..], visiting);
      assert forall i | 1 <= i < |alts| :: alts[1..][i - 1] == alts[i];
    }
  }

  /** A sequence always succeeds iff the base conditions hold and every unit always succeeds. */
  lemma SequenceAlwaysSuccessful(ps: Productions, e: Expansion, visiting: set<string>)
    requires Closed(ps) && Defined(ps, e) && e.Sequence?
    ensures AlwaysSuccessful(ps, e, visiting) <==>
            BaseAlwaysSuccessful(ps, e) && forall i | 0 <= i < |e.units| :: AlwaysSuccessful(ps, e.units[i], visiting)
  {
    AllAlwaysSuccessfulIff(ps, e.units, visiting);
  }

  /** A choice always succeeds iff the base conditions hold and some alternative always succeeds. */
  lemma ChoiceAlwaysSuccessful(ps: Productions, e: Expansion, visiting: set<string>)
    requires Closed(ps) && Defined(ps, e) && e.Choice?
    ensures AlwaysSuccessful(ps, e, visiting) <==>
            BaseAlwaysSuccessful(ps, e) && exists i | 0 <= i < |e.alternatives| :: AlwaysSuccessful(ps, e.alternatives[i], visiting)
  {
    SomeAlwaysSuccessfulIff(ps, e.alternatives, visiting);
  }

  /** What always succeeds is possibly empty, and never has a FAIL child or a semantic lookahead. */
  lemma {:induction false} AlwaysSuccessfulIsEmpty(ps: Productions, e: Expansion, visiting: set<string>)
    requires Closed(ps) && Defined(ps, e) && AlwaysSuccessful(ps, e, visiting)
    ensures !FailureChild(e)
    ensures !e.NonTerminal? ==> Empties(ps, e)
    ensures !e.NonTerminal? && LookaheadFound(ps, e).Some? ==> !LookaheadFound(ps, e).value.semantic
  {
  }

  /* ---------------------------------------------------------------------- */
  /* Lexical-state switches and potentiallyStartsWith                        */
  /* ---------------------------------------------------------------------- */

  /** A sequence specifies a switch iff a unit does that comes after possibly-empty units only. */
  lemma SequenceSwitchesState(ps: Productions, us: seq<Expansion>, visiting: set<string>)
    requires Closed(ps) && forall i | 0 <= i < |us| :: Defined(ps, us[i])
    ensures UnitsSwitchState(ps, us, visiting) <==>
            exists i | 0 <= i < |us| :: SwitchesState(ps, us[i], visiting) && forall j | 0 <= j < i :: Empties(ps, us[j])
  {
    if UnitsSwitchState(ps, us, visiting) {
      var i := SwitchWitness(ps, us, visiting);
    }
    if exists i | 0 <= i < |us| :: SwitchesState(ps, us[i], visiting) && forall j | 0 <= j < i :: Empties(ps, us[j]) {
      var i :| 0 <= i < |us| && SwitchesState(ps, us[i], visiting) && forall j | 0 <= j < i :: Empties(ps, us[j]);
      SwitchFromUnit(ps, us, visiting, i);
    }
  }

  /** The unit that makes a sequence specify a switch. */
  lemma {:induction false} SwitchWitness(ps: Productions, us: seq<Expansion>, visiting: set<string>) returns (i: nat)
    requires Closed(ps) && forall k | 0 <= k < |us| :: Defined(ps, us[k])
    requires UnitsSwitchState(ps, us, visiting)
    ensures i < |us| && SwitchesState(ps, us[i], visiting) && forall j | 0 <= j < i :: Empties(ps, us[j])
  {
    if SwitchesState(ps, us[0], visiting) {
      i := 0;
    } else {
      var tail := us[1..];
      var k := SwitchWitness(ps, tail, visiting);
      i := k + 1;
      assert us[i] == tail[k];
      forall j | 0 <= j < i ensures Empties(ps, us[j]) {
        if j > 0 {
          assert us[j] == tail[j - 1];
        }
      }
    }
  }

  /** A unit that specifies a switch after possibly-empty units only makes the sequence specify it. */
  lemma {:induction false} SwitchFromUnit(ps: Productions, us: seq<Expansion>, visiting: set<string>, i: nat)
    requires Closed(ps) && forall k | 0 <= k < |us| :: Defined(ps, us[k])
    requires i < |us| && SwitchesState(ps, us[i], visiting) && forall j | 0 <= j < i :: Empties(ps, us[j])
    ensures UnitsSwitchState(ps, us, visiting)
    decreases i
  {
    if i > 0 {
      var tail := us[1..];
      assert tail[i - 1] == us[i];
      assert forall j | 0 <= j < i - 1 :: tail[j] == us[j + 1];
      SwitchFromUnit(ps, tail, visiting, i - 1);
      assert Empties(ps, us[0]);
    }
  }

  /** A choice specifies a switch iff one of its alternatives does. */
  lemma {:induction false} ChoiceSwitchesState(ps: Productions, alts: seq<Expansion>, visiting: set<string>)
    requires Closed(ps) && forall i | 0 <= i < |alts| :: Defined(ps, alts[i])
    ensures SomeSwitchesState(ps, alts, visiting) <==> exists i | 0 <= i < |alts| :: SwitchesState(ps, alts[i], visiting)
  {
    if alts != [] {
      ChoiceSwitchesState(ps, alts[1..], visiting);
      assert forall i | 1 <= i < |alts| :: alts[1..][i - 1] == alts[i];
    }
  }

  /** A sequence has a token activation iff a unit has one that comes after possibly-empty units only. */
  lemma SequenceActivatesTokens(ps: Productions, us: seq<Expansion>, visiting: set<string>)
    requires Closed(ps) && forall i | 0 <= i < |us| :: Defined(ps, us[i])
    ensures UnitsActivateTokens(ps, us, visiting) <==>
            exists i | 0 <= i < |us| :: HasTokenActivation(ps, us[i], visiting) && forall j | 0 <= j < i :: Empties(ps, us[j])
  {
    if UnitsActivateTokens(ps, us, visiting) {
      var i := ActivationWitness(ps, us, visiting);
    }
    if exists i | 0 <= i < |us| :: HasTokenActivation(ps, us[i], visiting) && forall j | 0 <= j < i :: Empties(ps, us[j]) {
      var i :| 0 <= i < |us| && HasTokenActivation(ps, us[i], visiting) && forall j | 0 <= j < i :: Empties(ps, us[j]);
      ActivationFromUnit(ps, us, visiting, i);
    }
  }

  /** The unit that gives a sequence its token activation. */
  lemma {:induction false} ActivationWitness(ps: Productions, us: seq<Expansion>, visiting: set<string>) returns (i: nat)
    requires Closed(ps) && forall k | 0 <= k < |us| :: Defined(ps, us[k])
    requires UnitsActivateTokens(ps, us, visiting)
    ensures i < |us| && HasTokenActivation(ps, us[i], visiting) && forall j | 0 <= j < i :: Empties(ps, us[j])
  {
    if HasTokenActivation(ps, us[0], visiting) {
      i := 0;
    } else {
      var tail := us[1..];
      var k := ActivationWitness(ps, tail, visiting);
      i := k + 1;
      assert us[i] == tail[k];
      forall j | 0 <= j < i ensures Empties(ps, us[j]) {
        if j > 0 {
          assert us[j] == tail[j - 1];
        }
      }
    }
  }

  /** A unit with a token activation after possibly-empty units only gives the sequence one. */
  lemma {:induction false} ActivationFromUnit(ps: Productions, us: seq<Expansion>, visiting: set<string>, i: nat)
    requires Closed(ps) && forall k | 0 <= k < |us| :: Defined(ps, us[k])
    requires i < |us| && HasTokenActivation(ps, us[i], visiting) && forall j | 0 <= j < i :: Empties(ps, us[j])
    ensures UnitsActivateTokens(ps, us, visiting)
    decreases i
  {
    if i > 0 {
      var tail := us[1..];
      assert tail[i - 1] == us[i];
      assert forall j | 0 <= j < i - 1 :: tail[j] == us[j + 1];
      ActivationFromUnit(ps, tail, visiting, i - 1);
      assert Empties(ps, us[0]);
    }
  }

  /**
   * A sequence's potentiallyStartsWith looks no further than its first unit
   * that cannot be empty: the units after it change neither the answer, nor
   * the visited set, nor the flags raised.
   */
  /** One unfolding of a sequence's potentiallyStartsWith past a possibly-empty first unit. */
  lemma UnitsStartWithUnfold(ps: Productions, p: string, us: seq<Expansion>, visited: set<string>)
    requires Closed(ps) && forall i | 0 <= i < |us| :: Defined(ps, us[i])
    requires us != [] && Empties(ps, us[0])
    ensures var r0 := StartsWith(ps, p, us[0], visited);
      var r1 := UnitsStartWith(ps, p, us[1..], r0.visited);
      UnitsStartWith(ps, p, us, visited) == Probe(r0.found || r1.found, r1.visited, r0.flagged + r1.flagged)
  {
  }

  lemma {:induction false} SequenceStartsWithWindow(ps: Productions, p: string, us: seq<Expansion>, k: nat, visited: set<string>)
    requires Closed(ps) && forall i | 0 <= i < |us| :: Defined(ps, us[i])
    requires k < |us| && !Empties(ps, us[k]) && forall j | 0 <= j < k :: Empties(ps, us[j])
    ensures UnitsStartWith(ps, p, us, visited) == UnitsStartWith(ps, p, us[..k + 1], visited)
    decreases k
  {
    if k > 0 {
      WindowTail(ps, us, k);
      var r0 := StartsWith(ps, p, us[0], visited);
      SequenceStartsWithWindow(ps, p, us[1..], k - 1, r0.visited);
      WindowPastFirst(ps, p, us, k, visited);
    } else {
      WindowAtFirst(ps, p, us, visited);
    }
  }

  /** The rest of the units meet the window's conditions, one place to the left. */
  lemma WindowTail(ps: Productions, us: seq<Expansion>, k: nat)
    requires Closed(ps) && forall i | 0 <= i < |us| :: Defined(ps, us[i])
    requires 0 < k < |us| && !Empties(ps, us[k]) && forall j | 0 <= j < k :: Empties(ps, us[j])
    ensures Empties(ps, us[0])
    ensures forall i | 0 <= i < |us| - 1 :: Defined(ps, us[1..][i])
    ensures !Empties(ps, us[1..][k - 1]) && forall j | 0 <= j < k - 1 :: Empties(ps, us[1..][j])
  {
    var tail := us[1..];
    assert tail[k - 1] == us[k];
    assert forall j | 0 <= j < |us| - 1 :: tail[j] == us[j + 1];
  }

  /** The window ends at the first unit when that unit cannot be empty. */
  lemma WindowAtFirst(ps: Productions, p: string, us: seq<Expansion>, visited: set<string>)
    requires Closed(ps) && forall i | 0 <= i < |us| :: Defined(ps, us[i])
    requires us != [] && !Empties(ps, us[0])
    ensures UnitsStartWith(ps, p, us, visited) == UnitsStartWith(ps, p, us[..1], visited)
  {
    var w := us[..1];
    assert w[0] == us[0];
    var r0 := StartsWith(ps, p, us[0], visited);
    assert UnitsStartWith(ps, p, us, visited) == r0;
    assert UnitsStartWith(ps, p, w, visited) == r0;
  }

  /** Past a possibly-empty first unit, the window of the sequence answers as the window of the rest. */
  lemma WindowPastFirst(ps: Productions, p: string, us: seq<Expansion>, k: nat, visited: set<string>)
    requires Closed(ps) && forall i | 0 <= i < |us| :: Defined(ps, us[i])
    requires 0 < k < |us| && Empties(ps, us[0])
    requires var r0 := StartsWith(ps, p, us[0], visited);
      UnitsStartWith(ps, p, us[1..], r0.visited) == UnitsStartWith(ps, p, us[1..][..k], r0.visited)
    ensures UnitsStartWith(ps, p, us, visited) == UnitsStartWith(ps, p, us[..k + 1], visited)
  {
    var w := us[..k + 1];
    assert w[0] == us[0];
    assert w[1..] == us[1..][..k];
    UnitsStartWithUnfold(ps, p, us, visited);
    UnitsStartWithUnfold(ps, p, w, visited);
  }
}
