/**
 * The loops ExpansionSequence and ExpansionChoice run over their units and
 * alternatives, with their early exits, each proved to compute the
 * corresponding fact of ExpansionFacts. Each unit's own fact is taken from
 * ExpansionFacts (the virtual call on the unit).
 */
module ExpansionLoops {
  import opened Util
  import opened Expansions
  import opened ExpansionFacts

  lemma AddSizeAssociative(a: int, b: int, c: int)
    requires 0 <= a <= MAX_VALUE && 0 <= b <= MAX_VALUE && 0 <= c <= MAX_VALUE
    ensures AddSize(AddSize(a, b), c) == AddSize(a, AddSize(b, c))
  {
  }

  /* ---------------------------------------------------------------------- */
  /* ExpansionSequence                                                       */
  /* ---------------------------------------------------------------------- */

  /** ExpansionSequence.isPossiblyEmpty: false at the first unit that cannot be empty. */
  method SequenceIsPossiblyEmpty(ps: Productions, e: Expansion) returns (result: bool)
    requires Closed(ps) && Defined(ps, e) && e.Sequence?
    ensures result == Empties(ps, e)
  {
    var us := e.units;
    var i := 0;
    while i < |us|
      invariant 0 <= i <= |us|
      invariant AllPossiblyEmpty(ps, us, {}) == AllPossiblyEmpty(ps, us[i..], {})
    {
      assert us[i..][1..] == us[i + 1..];
      if !Empties(ps, us[i]) {
        return false;
      }
      i := i + 1;
    }
    return true;
  }

  /** ExpansionSequence.getMinimumSize: MAX_VALUE as soon as a unit's minimum is, else the sum. */
  method SequenceMinimumSize(ps: Productions, e: Expansion, inCall: set<nat>) returns (result: int)
    requires Closed(ps) && Defined(ps, e) && e.Sequence?
    ensures result == MinSize(ps, e, inCall)
  {
    var us := e.units;
    result := 0;
    var i := 0;
    while i < |us|
      invariant 0 <= i <= |us|
      invariant 0 <= result <= MAX_VALUE
      invariant AddSize(result, MinAll(ps, us[i..], inCall)) == MinAll(ps, us, inCall)
    {
      assert us[i..][1..] == us[i + 1..];
      var m := MinSize(ps, us[i], inCall);
      if m == MAX_VALUE {
        return MAX_VALUE;
      }
      AddSizeAssociative(result, m, MinAll(ps, us[i + 1..], inCall));
      result := AddSize(result, m);
      i := i + 1;
    }
  }

  /** ExpansionSequence.getMaximumSize: MAX_VALUE as soon as a unit's maximum is, else the sum. */
  method SequenceMaximumSize(ps: Productions, e: Expansion, inCall: set<nat>) returns (result: int)
    requires Closed(ps) && Defined(ps, e) && e.Sequence?
    ensures result == MaxSize(ps, e, inCall)
  {
    var us := e.units;
    result := 0;
    var i := 0;
    while i < |us|
      invariant 0 <= i <= |us|
      invariant 0 <= result <= MAX_VALUE
      invariant AddSize(result, MaxAll(ps, us[i..], inCall)) == MaxAll(ps, us, inCall)
    {
      assert us[i..][1..] == us[i + 1..];
      var m := MaxSize(ps, us[i], inCall);
      if m == MAX_VALUE {
        return MAX_VALUE;
      }
      AddSizeAssociative(result, m, MaxAll(ps, us[i + 1..], inCall));
      result := AddSize(result, m);
      i := i + 1;
    }
  }

  /** ExpansionSequence.getFirstSet: the units' FIRST sets up to and including the first that cannot be empty. */
  method SequenceFirstSet(ps: Productions, e: Expansion) returns (result: set<nat>)
    requires Closed(ps) && Defined(ps, e) && e.Sequence?
    ensures result == First(ps, e, {})
  {
    var us := e.units;
    result := {};
    var i := 0;
    while i < |us|
      invariant 0 <= i <= |us|
      invariant result + FirstAll(ps, us[i..], {}) == FirstAll(ps, us, {})
    {
      assert us[i..][1..] == us[i + 1..];
      result := result + First(ps, us[i], {});
      if !Empties(ps, us[i]) {
        break;
      }
      i := i + 1;
    }
  }

  /** ExpansionSequence.getFinalSet: from the last unit backwards, up to and including the last that cannot be empty. */
  method SequenceFinalSet(ps: Productions, e: Expansion) returns (result: set<nat>)
    requires Closed(ps) && Defined(ps, e) && e.Sequence?
    ensures result == FinalSet(ps, e, {})
  {
    var us := e.units;
    result := {};
    var i := |us|;
    assert us[..i] == us;
    while i > 0
      invariant 0 <= i <= |us|
      invariant result + FinalAll(ps, us[..i], {}) == FinalAll(ps, us, {})
    {
      assert us[..i][..i - 1] == us[..i - 1];
      assert us[..i][i - 1] == us[i - 1];
      result := result + FinalSet(ps, us[i - 1], {});
      if !Empties(ps, us[i - 1]) {
        break;
      }
      i := i - 1;
    }
  }

  /** ExpansionSequence.getHasExplicitScanLimit: one of its own units is marked. */
  method SequenceHasExplicitScanLimit(e: Expansion) returns (result: bool)
    requires e.Sequence?
    ensures result <==> HasExplicitScanLimit(e)
  {
    var i := 0;
    while i < |e.units|
      invariant 0 <= i <= |e.units|
      invariant forall j | 0 <= j < i :: j !in e.scanLimits
    {
      if i in e.scanLimits {
        return true;
      }
      i := i + 1;
    }
    return false;
  }

  /**
   * ExpansionSequence.getRequiresScanAhead: true at the first marked unit, or
   * at a non-terminal before the first unit that cannot be empty whose
   * production has a scan limit or an explicit lookahead; past the units, the
   * sequence's lookahead decides.
   */
  method SequenceRequiresScanAhead(ps: Productions, e: Expansion) returns (result: bool)
    requires Closed(ps) && Defined(ps, e) && e.Sequence?
    ensures result == RequiresScanAhead(ps, e)
  {
    var us, limits := e.units, e.scanLimits;
    var foundNonEmpty := false;
    var i := 0;
    while i < |us|
      invariant 0 <= i <= |us|
      invariant UnitsRequireScanAhead(ps, us, limits, 0, false) == UnitsRequireScanAhead(ps, us, limits, i, foundNonEmpty)
    {
      var unit := us[i];
      assert Defined(ps, unit);
      if i in limits {
        return true;
      }
      if !foundNonEmpty && unit.NonTerminal? {
        if ProductionHasScanLimit(ps, unit.name, {}) {
          return true;
        }
        if HasExplicitLookahead(ps, ps[unit.name].expansion) {
          return true;
        }
      }
      if !Empties(ps, unit) {
        foundNonEmpty := true;
      }
      i := i + 1;
    }
    var r := LookaheadOf(ps, e, {});
    result := r.found.Some? && LookaheadRequiresScanAhead(ps, r.found.value, r.owner);
  }

  /* ---------------------------------------------------------------------- */
  /* ExpansionChoice                                                         */
  /* ---------------------------------------------------------------------- */

  /** ExpansionChoice.isPossiblyEmpty: true at the first alternative that can be empty. */
  method ChoiceIsPossiblyEmpty(ps: Productions, e: Expansion) returns (result: bool)
    requires Closed(ps) && Defined(ps, e) && e.Choice?
    ensures result == Empties(ps, e)
  {
    var alts := e.alternatives;
    var i := 0;
    while i < |alts|
      invariant 0 <= i <= |alts|
      invariant SomePossiblyEmpty(ps, alts, {}) == SomePossiblyEmpty(ps, alts[i..], {})
    {
      assert alts[i..][1..] == alts[i + 1..];
      if Empties(ps, alts[i]) {
        return true;
      }
      i := i + 1;
    }
    return false;
  }

  /** ExpansionChoice.getMinimumSize: 0 at the first alternative of minimum 0, else the least minimum. */
  method ChoiceMinimumSize(ps: Productions, e: Expansion, inCall: set<nat>) returns (result: int)
    requires Closed(ps) && Defined(ps, e) && e.Choice?
    ensures result == MinSize(ps, e, inCall)
  {
    var alts := e.alternatives;
    result := MAX_VALUE;
    var i := 0;
    while i < |alts|
      invariant 0 <= i <= |alts|
      invariant 0 <= result <= MAX_VALUE
      invariant MinChoice(ps, alts, inCall) == (var rest := MinChoice(ps, alts[i..], inCall); if result <= rest then result else rest)
    {
      assert alts[i..][1..] == alts[i + 1..];
      var m := MinSize(ps, alts[i], inCall);
      if m == 0 {
        return 0;
      }
      result := if result <= m then result else m;
      i := i + 1;
    }
  }

  /** ExpansionChoice.getMaximumSize: the greatest maximum, stopping once it is MAX_VALUE. */
  method ChoiceMaximumSize(ps: Productions, e: Expansion, inCall: set<nat>) returns (result: int)
    requires Closed(ps) && Defined(ps, e) && e.Choice?
    ensures result == MaxSize(ps, e, inCall)
  {
    var alts := e.alternatives;
    result := 0;
    var i := 0;
    while i < |alts|
      invariant 0 <= i <= |alts|
      invariant 0 <= result <= MAX_VALUE
      invariant MaxChoice(ps, alts, inCall) == (var rest := MaxChoice(ps, alts[i..], inCall); if result >= rest then result else rest)
    {
      assert alts[i..][1..] == alts[i + 1..];
      var m := MaxSize(ps, alts[i], inCall);
      result := if result >= m then result else m;
      if result == MAX_VALUE {
        break;
      }
      i := i + 1;
    }
  }

  /** ExpansionChoice.getFirstSet: the union of the alternatives' lookahead-expansion FIRST sets. */
  method ChoiceFirstSet(ps: Productions, e: Expansion) returns (result: set<nat>)
    requires Closed(ps) && Defined(ps, e) && e.Choice?
    ensures result == First(ps, e, {})
  {
    var alts := e.alternatives;
    result := {};
    var i := 0;
    while i < |alts|
      invariant 0 <= i <= |alts|
      invariant result + FirstChoice(ps, alts[i..], {}) == FirstChoice(ps, alts, {})
    {
      assert alts[i..][1..] == alts[i + 1..];
      result := result + FirstOfAlternative(ps, alts[i], {});
      i := i + 1;
    }
  }

  /** ExpansionChoice.getFinalSet: the union of the alternatives' FINAL sets. */
  method ChoiceFinalSet(ps: Productions, e: Expansion) returns (result: set<nat>)
    requires Closed(ps) && Defined(ps, e) && e.Choice?
    ensures result == FinalSet(ps, e, {})
  {
    var alts := e.alternatives;
    result := {};
    var i := 0;
    while i < |alts|
      invariant 0 <= i <= |alts|
      invariant result + FinalChoice(ps, alts[i..], {}) == FinalChoice(ps, alts, {})
    {
      assert alts[i..][1..] == alts[i + 1..];
      result := result + FinalSet(ps, alts[i], {});
      i := i + 1;
    }
  }
}
