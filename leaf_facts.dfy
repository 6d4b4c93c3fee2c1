/**
 * The constant facts of the leaf expansions (a token reference and the empty
 * expansions), the two decisions of a Lookahead, isSingleToken, and the
 * lookahead amount an expansion reports, each related to the other facts it
 * has to agree with.
 */
module LeafFacts {
  import opened Util
  import opened Expansions
  import opened ExpansionFacts

  /* ---------------------------------------------------------------------- */
  /* RegularExpression and EmptyExpansion                                    */
  /* ---------------------------------------------------------------------- */

  /**
   * A reference to a token: FIRST is its own ordinal and FINAL the same set;
   * it never matches the empty input, takes exactly one token, and needs no
   * scanning ahead, so its lookahead amount is 1.
   */
  lemma TerminalFacts(ps: Productions, t: nat, visiting: set<string>, inCall: set<nat>)
    requires Closed(ps)
    ensures Defined(ps, Terminal(t))
    ensures First(ps, Terminal(t), visiting) == {t} == FinalSet(ps, Terminal(t), inCall)
    ensures !PossiblyEmpty(ps, Terminal(t), visiting)
    ensures MinSize(ps, Terminal(t), inCall) == 1 && MaxSize(ps, Terminal(t), inCall) == 1
    ensures !RequiresScanAhead(ps, Terminal(t)) && LookaheadAmount(ps, Terminal(t)) == 1
  {
  }

  /**
   * An empty expansion (a code block, FAIL, a token activation, ...): it can
   * match the empty input, takes no token, has empty FIRST and FINAL sets,
   * needs no scanning ahead and switches no lexical state.
   */
  lemma EmptyFacts(ps: Productions, k: EmptyKind, visiting: set<string>, inCall: set<nat>)
    requires Closed(ps)
    ensures Defined(ps, Empty(k))
    ensures PossiblyEmpty(ps, Empty(k), visiting)
    ensures MinSize(ps, Empty(k), inCall) == 0 && MaxSize(ps, Empty(k), inCall) == 0
    ensures First(ps, Empty(k), visiting) == {} && FinalSet(ps, Empty(k), inCall) == {}
    ensures !RequiresScanAhead(ps, Empty(k)) && !SwitchesState(ps, Empty(k), visiting)
    ensures LookaheadAmount(ps, Empty(k)) == 1
  {
  }

  /** A token reference is a single token. */
  lemma TerminalIsSingleToken(ps: Productions, t: nat, visiting: set<string>)
    requires Closed(ps)
    ensures Defined(ps, Terminal(t)) && SingleToken(ps, Terminal(t), visiting)
  {
    var e := Terminal(t);
    assert Descendants(e) == {};
    assert !HasNestedSemanticLookahead(ps, e);
    assert !HasGlobalSemanticActions(e);
    assert BaseSingleToken(ps, e);
  }

  /* ---------------------------------------------------------------------- */
  /* Lookahead                                                               */
  /* ---------------------------------------------------------------------- */

  /**
   * getAmount: an explicit amount is returned as written; without one, a legacy
   * lookahead that has only a semantic predicate has amount 0, and every other
   * lookahead an unbounded amount.
   */
  lemma AmountCases(la: Lookahead)
    ensures la.amount.Some? ==> Amount(la) == la.amount.value
    ensures la.amount.None? ==>
      (Amount(la) == 0 <==> la.legacy && la.nested.None? && la.semantic) &&
      (Amount(la) != 0 <==> Amount(la) == MAX_VALUE)
  {
  }

  /**
   * The two decisions of a lookahead without a semantic predicate are
   * complementary: whenever its amount is not 0, it always succeeds exactly
   * when it does not require scanning ahead; and it always does one or the
   * other. The lookahead expansion is the nested one when present, else the
   * sequence the lookahead belongs to.
   */
  lemma LookaheadDecisions(ps: Productions, la: Lookahead, owner: Expansion)
    requires Closed(ps) && Defined(ps, owner) && owner.Sequence? && owner.lookahead == Some(la)
    requires !la.semantic && !la.semanticNested
    ensures LookaheadExpansion(la, owner) == (if la.nested.Some? then la.nested.value else owner)
    ensures Defined(ps, LookaheadExpansion(la, owner))
    ensures LookaheadAlwaysSuccessful(ps, la, owner) || LookaheadRequiresScanAhead(ps, la, owner)
    ensures Amount(la) != 0 ==>
      (LookaheadAlwaysSuccessful(ps, la, owner) <==> !LookaheadRequiresScanAhead(ps, la, owner))
  {
  }

  /* ---------------------------------------------------------------------- */
  /* getRequiresScanAhead / getLookaheadAmount                               */
  /* ---------------------------------------------------------------------- */

  /** From position i on, a marked unit at or after i makes the units require scanning ahead. */
  lemma {:induction false} MarkedUnitScans(ps: Productions, us: seq<Expansion>, limits: set<nat>,
                                           i: nat, j: nat, foundNonEmpty: bool)
    requires Closed(ps) && forall k | 0 <= k < |us| :: Defined(ps, us[k])
    requires i <= j < |us| && j in limits
    ensures UnitsRequireScanAhead(ps, us, limits, i, foundNonEmpty)
    decreases j - i
  {
    if i < j {
      assert Defined(ps, us[i]);
      MarkedUnitScans(ps, us, limits, i + 1, j, foundNonEmpty || !Empties(ps, us[i]));
    }
  }

  /**
   * A sequence with a unit marked "=>||" requires scanning ahead; unless it
   * has a lookahead of its own, its lookahead amount is then unbounded.
   */
  lemma ScanLimitRequiresScanAhead(ps: Productions, e: Expansion, j: nat)
    requires Closed(ps) && Defined(ps, e) && e.Sequence?
    requires j < |e.units| && j in e.scanLimits
    ensures RequiresScanAhead(ps, e)
    ensures LookaheadFound(ps, e).None? ==> LookaheadAmount(ps, e) == MAX_VALUE
  {
    MarkedUnitScans(ps, e.units, e.scanLimits, 0, j, false);
  }

  /**
   * getLookaheadAmount: the amount of the lookahead that governs the
   * expansion; without one, more than one token exactly when the expansion
   * requires scanning ahead, and then an unbounded number.
   */
  lemma LookaheadAmountMeaning(ps: Productions, e: Expansion)
    requires Closed(ps) && Defined(ps, e)
    ensures LookaheadFound(ps, e).Some? ==> LookaheadAmount(ps, e) == Amount(LookaheadFound(ps, e).value)
    ensures LookaheadFound(ps, e).None? ==>
      (LookaheadAmount(ps, e) > 1 <==> RequiresScanAhead(ps, e)) &&
      (LookaheadAmount(ps, e) == 1 || LookaheadAmount(ps, e) == MAX_VALUE)
  {
  }
}
