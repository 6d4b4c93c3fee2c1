/**
 * The facts every expansion answers about itself: whether it can match the
 * empty input, its minimum and maximum size in tokens, its FIRST and FINAL
 * token sets, whether it always succeeds, which lookahead governs it, whether
 * it switches lexical state, carries a scan limit or activates tokens, and
 * whether it can start with a given production.
 *
 * Java answers these by virtual calls that recurse through non-terminals into
 * the referenced production. Two kinds of recursion occur:
 *  - the size and FINAL queries guard each non-terminal node with a flag (or
 *    counter) and answer MAX_VALUE or the empty set on re-entry; here the set
 *    `inCall` holds the sites of the non-terminal nodes whose flag is raised;
 *  - a choice or sequence stores an empty FIRST set in its cache before it
 *    loops, so a re-entry ends and returns the members gathered so far; here
 *    `visiting` holds the productions being evaluated and a re-entry adds the
 *    empty set, and each FIRST set is computed afresh, without the partial
 *    sets Java's caches keep for the expansions on such a cycle;
 *  - every other query recurses without a guard, so re-entering a production
 *    while it is being evaluated never ends. Here `visiting` also holds the
 *    productions being evaluated and re-entry answers the least value (false,
 *    no lookahead). `PossiblyEmptyAgrees` in left_recursion.dfy shows that
 *    this changes nothing wherever the Java recursion terminates.
 */
module ExpansionFacts {
  import opened Util
  import opened Expansions

  /* ---------------------------------------------------------------------- */
  /* isPossiblyEmpty                                                         */
  /* ---------------------------------------------------------------------- */

  function PossiblyEmpty(ps: Productions, e: Expansion, visiting: set<string>): bool
    requires Closed(ps) && Defined(ps, e)
    decreases Budget(ps.Keys, visiting), Size(e), 0
  {
    match e
    case Sequence(us, _, _, _) => AllPossiblyEmpty(ps, us, visiting)
    case Choice(alts) => SomePossiblyEmpty(ps, alts, visiting)
    case NonTerminal(n, _) =>
      if n in visiting then false
      else BudgetShrinks(ps.Keys, visiting, n); PossiblyEmpty(ps, ps[n].expansion, visiting + {n})
    case Terminal(_) => false
    case ZeroOrMore(_) => true
    case OneOrMore(b) => PossiblyEmpty(ps, b, visiting)
    case ZeroOrOne(_) => true
    case Parens(b) => PossiblyEmpty(ps, b, visiting)
    case Empty(_) => true
  }

  function AllPossiblyEmpty(ps: Productions, us: seq<Expansion>, visiting: set<string>): bool
    requires Closed(ps) && forall i | 0 <= i < |us| :: Defined(ps, us[i])
    decreases Budget(ps.Keys, visiting), SizeAll(us), |us| + 1
  {
    us == [] || (PossiblyEmpty(ps, us[0], visiting) && AllPossiblyEmpty(ps, us[1..], visiting))
  }

  function SomePossiblyEmpty(ps: Productions, alts: seq<Expansion>, visiting: set<string>): bool
    requires Closed(ps) && forall i | 0 <= i < |alts| :: Defined(ps, alts[i])
    decreases Budget(ps.Keys, visiting), SizeAll(alts), |alts| + 1
  {
    alts != [] && (PossiblyEmpty(ps, alts[0], visiting) || SomePossiblyEmpty(ps, alts[1..], visiting))
  }

  /** An expansion of the grammar, asked at the top level. */
  predicate Empties(ps: Productions, e: Expansion)
    requires Closed(ps) && Defined(ps, e)
  {
    PossiblyEmpty(ps, e, {})
  }

  /* ---------------------------------------------------------------------- */
  /* getMinimumSize / getMaximumSize                                         */
  /* ---------------------------------------------------------------------- */

  /** int addition of two sizes, where MAX_VALUE stands for "unbounded". */
  function AddSize(a: int, b: int): (r: int)
    requires 0 <= a <= MAX_VALUE && 0 <= b <= MAX_VALUE
    ensures 0 <= r <= MAX_VALUE
  {
    if a == MAX_VALUE || b == MAX_VALUE || a + b >= MAX_VALUE then MAX_VALUE else a + b
  }

  /** The sum of two sizes, capped at MAX_VALUE: an unbounded operand needs no test of its own. */
  lemma AddSizeCapped(a: int, b: int)
    requires 0 <= a <= MAX_VALUE && 0 <= b <= MAX_VALUE
    ensures AddSize(a, b) == if a + b < MAX_VALUE then a + b else MAX_VALUE
  {
  }

  /** The order of the operands does not matter. */
  lemma AddSizeCommutative(a: int, b: int)
    requires 0 <= a <= MAX_VALUE && 0 <= b <= MAX_VALUE
    ensures AddSize(a, b) == AddSize(b, a)
  {
  }

  /** A sum is at least each operand, and grows with each operand. */
  lemma AddSizeMonotone(a: int, b: int, a': int, b': int)
    requires 0 <= a <= a' <= MAX_VALUE && 0 <= b <= b' <= MAX_VALUE
    ensures a <= AddSize(a, b) && b <= AddSize(a, b)
    ensures AddSize(a, b) <= AddSize(a', b')
  {
  }

  function MinSize(ps: Productions, e: Expansion, inCall: set<nat>): (r: int)
    requires Closed(ps) && Defined(ps, e)
    ensures 0 <= r <= MAX_VALUE
    decreases Budget(AllSites(ps), inCall), Size(e), 0
  {
    match e
    case Sequence(us, _, _, _) => MinAll(ps, us, inCall)
    case Choice(alts) => MinChoice(ps, alts, inCall)
    case NonTerminal(n, site) =>
      if site in inCall then MAX_VALUE
      else BudgetShrinks(AllSites(ps), inCall, site); MinSize(ps, ps[n].expansion, inCall + {site})
    case Terminal(_) => 1
    case ZeroOrMore(_) => 0
    case OneOrMore(b) => MinSize(ps, b, inCall)
    case ZeroOrOne(_) => 0
    case Parens(b) => MinSize(ps, b, inCall)
    case Empty(_) => 0
  }

  function MinAll(ps: Productions, us: seq<Expansion>, inCall: set<nat>): (r: int)
    requires Closed(ps) && forall i | 0 <= i < |us| :: Defined(ps, us[i])
    ensures 0 <= r <= MAX_VALUE
    decreases Budget(AllSites(ps), inCall), SizeAll(us), |us| + 1
  {
    if us == [] then 0 else AddSize(MinSize(ps, us[0], inCall), MinAll(ps, us[1..], inCall))
  }

  function MinChoice(ps: Productions, alts: seq<Expansion>, inCall: set<nat>): (r: int)
    requires Closed(ps) && forall i | 0 <= i < |alts| :: Defined(ps, alts[i])
    ensures 0 <= r <= MAX_VALUE
    decreases Budget(AllSites(ps), inCall), SizeAll(alts), |alts| + 1
  {
    if alts == [] then MAX_VALUE
    else
      var m := MinSize(ps, alts[0], inCall);
      var rest := MinChoice(ps, alts[1..], inCall);
      if m <= rest then m else rest
  }

  function MaxSize(ps: Productions, e: Expansion, inCall: set<nat>): (r: int)
    requires Closed(ps) && Defined(ps, e)
    ensures 0 <= r <= MAX_VALUE
    decreases Budget(AllSites(ps), inCall), Size(e), 0
  {
    match e
    case Sequence(us, _, _, _) => MaxAll(ps, us, inCall)
    case Choice(alts) => MaxChoice(ps, alts, inCall)
    case NonTerminal(n, site) =>
      if site in inCall then MAX_VALUE
      else BudgetShrinks(AllSites(ps), inCall, site); MaxSize(ps, ps[n].expansion, inCall + {site})
    case Terminal(_) => 1
    case ZeroOrMore(_) => MAX_VALUE
    case OneOrMore(_) => MAX_VALUE
    case ZeroOrOne(b) => MaxSize(ps, b, inCall)
    case Parens(b) => MaxSize(ps, b, inCall)
    case Empty(_) => 0
  }

  function MaxAll(ps: Productions, us: seq<Expansion>, inCall: set<nat>): (r: int)
    requires Closed(ps) && forall i | 0 <= i < |us| :: Defined(ps, us[i])
    ensures 0 <= r <= MAX_VALUE
    decreases Budget(AllSites(ps), inCall), SizeAll(us), |us| + 1
  {
    if us == [] then 0 else AddSize(MaxSize(ps, us[0], inCall), MaxAll(ps, us[1..], inCall))
  }

  function MaxChoice(ps: Productions, alts: seq<Expansion>, inCall: set<nat>): (r: int)
    requires Closed(ps) && forall i | 0 <= i < |alts| :: Defined(ps, alts[i])
    ensures 0 <= r <= MAX_VALUE
    decreases Budget(AllSites(ps), inCall), SizeAll(alts), |alts| + 1
  {
    if alts == [] then 0
    else
      var m := MaxSize(ps, alts[0], inCall);
      var rest := MaxChoice(ps, alts[1..], inCall);
      if m >= rest then m else rest
  }

  /* ---------------------------------------------------------------------- */
  /* getLookahead                                                            */
  /* ---------------------------------------------------------------------- */

  /** The lookahead found, the sequence it belongs to, and the productions entered on the way. */
  datatype Resolved = Resolved(found: Option<Lookahead>, owner: Expansion, seen: set<string>)

  /**
   * getLookahead: a sequence's own lookahead; else that of a leading
   * non-terminal's production or of leading superfluous parentheses, looking
   * past units whose maximum size is 0. Every other expansion has none.
   */
  function LookaheadOf(ps: Productions, e: Expansion, visiting: set<string>): (r: Resolved)
    requires Closed(ps) && Defined(ps, e)
    ensures visiting <= r.seen
    ensures r.seen == visiting || Budget(ps.Keys, r.seen) < Budget(ps.Keys, visiting)
    ensures r.found.Some? ==> r.owner.Sequence? && r.owner.lookahead == r.found && Defined(ps, r.owner)
    ensures r.found.Some? && r.seen == visiting ==> Size(r.owner) <= Size(e)
    decreases Budget(ps.Keys, visiting), Size(e), 0
  {
    match e
    case Sequence(us, la, _, _) =>
      assert Size(e) == 1 + SizeAll(us) + SizeLa(la);
      if la.Some? then Resolved(la, e, visiting) else LookaheadOfUnits(ps, us, visiting)
    case NonTerminal(n, _) => LookaheadThrough(ps, n, visiting)
    case _ => Resolved(None, e, visiting)
  }

  function LookaheadThrough(ps: Productions, n: string, visiting: set<string>): (r: Resolved)
    requires Closed(ps) && n in ps
    ensures visiting <= r.seen
    ensures r.seen == visiting || Budget(ps.Keys, r.seen) < Budget(ps.Keys, visiting)
    ensures r.found.Some? ==> r.owner.Sequence? && r.owner.lookahead == r.found && Defined(ps, r.owner)
    ensures r.found.Some? ==> r.seen != visiting
    decreases Budget(ps.Keys, visiting), 0, 0
  {
    if n in visiting then Resolved(None, ps[n].expansion, visiting)
    else
      BudgetShrinks(ps.Keys, visiting, n);
      var r := LookaheadOf(ps, ps[n].expansion, visiting + {n});
      BudgetMonotone(ps.Keys, visiting + {n}, r.seen);
      r
  }

  function LookaheadOfUnits(ps: Productions, us: seq<Expansion>, visiting: set<string>): (r: Resolved)
    requires Closed(ps) && forall i | 0 <= i < |us| :: Defined(ps, us[i])
    ensures visiting <= r.seen
    ensures r.seen == visiting || Budget(ps.Keys, r.seen) < Budget(ps.Keys, visiting)
    ensures r.found.Some? ==> r.owner.Sequence? && r.owner.lookahead == r.found && Defined(ps, r.owner)
    ensures r.found.Some? && r.seen == visiting ==> Size(r.owner) < SizeAll(us)
    decreases Budget(ps.Keys, visiting), SizeAll(us), |us| + 1
  {
    if us == [] then Resolved(None, Empty(OtherEmpty), visiting)
    else
      var u := us[0];
      assert Defined(ps, u);
      assert SizeAll(us) == Size(u) + SizeAll(us[1..]);
      if u.NonTerminal? then LookaheadThrough(ps, u.name, visiting)
      else if Superfluous(u) then LookaheadOf(ps, u.body, visiting)
      else if MaxSize(ps, u, {}) > 0 then Resolved(None, u, visiting)
      else LookaheadOfUnits(ps, us[1..], visiting)
  }

  /** getHasExplicitLookahead: a sequence's own lookahead; any other expansion's getLookahead(). */
  predicate HasExplicitLookahead(ps: Productions, e: Expansion)
    requires Closed(ps) && Defined(ps, e)
  {
    if e.Sequence? then e.lookahead.Some? else LookaheadFound(ps, e).Some?
  }

  /** getLookahead of an expansion asked at the top level. */
  function LookaheadFound(ps: Productions, e: Expansion): Option<Lookahead>
    requires Closed(ps) && Defined(ps, e)
  {
    LookaheadOf(ps, e, {}).found
  }

  /* ---------------------------------------------------------------------- */
  /* Lookahead                                                               */
  /* ---------------------------------------------------------------------- */

  /** Lookahead.getAmount */
  function Amount(la: Lookahead): int
  {
    if la.amount.Some? then la.amount.value
    else if la.legacy && la.nested.None? && la.semantic then 0
    else MAX_VALUE
  }

  /** Lookahead.getLookaheadExpansion: the nested expansion, else the expansion the lookahead belongs to. */
  function LookaheadExpansion(la: Lookahead, owner: Expansion): Expansion
  {
    if la.nested.Some? then la.nested.value else owner
  }

  /** Lookahead.isAlwaysSuccessful */
  predicate LookaheadAlwaysSuccessful(ps: Productions, la: Lookahead, owner: Expansion)
    requires Closed(ps) && Defined(ps, owner) && owner.Sequence? && owner.lookahead == Some(la)
  {
    !la.semantic && (Amount(la) == 0 || Empties(ps, LookaheadExpansion(la, owner)))
  }

  /** Lookahead.getRequiresScanAhead */
  predicate LookaheadRequiresScanAhead(ps: Productions, la: Lookahead, owner: Expansion)
    requires Closed(ps) && Defined(ps, owner) && owner.Sequence? && owner.lookahead == Some(la)
  {
    !Empties(ps, LookaheadExpansion(la, owner)) || la.semanticNested
  }

  /* ---------------------------------------------------------------------- */
  /* getFirstSet / getFinalSet                                               */
  /* ---------------------------------------------------------------------- */

  /**
   * The FIRST set. A choice takes, for each alternative, the FIRST set of the
   * alternative's lookahead expansion (getLookaheadExpansion); resolving that
   * lookahead shares the set of productions being evaluated.
   */
  function First(ps: Productions, e: Expansion, visiting: set<string>): set<nat>
    requires Closed(ps) && Defined(ps, e)
    decreases Budget(ps.Keys, visiting), Size(e), 0
  {
    match e
    case Sequence(us, _, _, _) => FirstAll(ps, us, visiting)
    case Choice(alts) => FirstChoice(ps, alts, visiting)
    case NonTerminal(n, _) =>
      if n in visiting then {}
      else BudgetShrinks(ps.Keys, visiting, n); First(ps, ps[n].expansion, visiting + {n})
    case Terminal(t) => {t}
    case ZeroOrMore(b) => First(ps, b, visiting)
    case OneOrMore(b) => First(ps, b, visiting)
    case ZeroOrOne(b) => First(ps, b, visiting)
    case Parens(b) => First(ps, b, visiting)
    case Empty(_) => {}
  }

  function FirstAll(ps: Productions, us: seq<Expansion>, visiting: set<string>): set<nat>
    requires Closed(ps) && forall i | 0 <= i < |us| :: Defined(ps, us[i])
    decreases Budget(ps.Keys, visiting), SizeAll(us), |us| + 1
  {
    if us == [] then {}
    else First(ps, us[0], visiting) + (if Empties(ps, us[0]) then FirstAll(ps, us[1..], visiting) else {})
  }

  function FirstChoice(ps: Productions, alts: seq<Expansion>, visiting: set<string>): set<nat>
    requires Closed(ps) && forall i | 0 <= i < |alts| :: Defined(ps, alts[i])
    decreases Budget(ps.Keys, visiting), SizeAll(alts), |alts| + 2
  {
    if alts == [] then {}
    else
      SizeAllBound(alts);
      FirstOfAlternative(ps, alts[0], visiting) + FirstChoice(ps, alts[1..], visiting)
  }

  /** The FIRST set of alt.getLookaheadExpansion(): a nested lookahead expansion if alt has one, else alt. */
  function FirstOfAlternative(ps: Productions, alt: Expansion, visiting: set<string>): set<nat>
    requires Closed(ps) && Defined(ps, alt)
    decreases Budget(ps.Keys, visiting), Size(alt), 1
  {
    var r := LookaheadOf(ps, alt, visiting);
    if r.found.Some? && r.found.value.nested.Some? then
      NestedSmaller(r.owner);
      First(ps, r.found.value.nested.value, r.seen)
    else First(ps, alt, visiting)
  }

  function FinalSet(ps: Productions, e: Expansion, inCall: set<nat>): set<nat>
    requires Closed(ps) && Defined(ps, e)
    decreases Budget(AllSites(ps), inCall), Size(e), 0
  {
    match e
    case Sequence(us, _, _, _) => FinalAll(ps, us, inCall)
    case Choice(alts) => FinalChoice(ps, alts, inCall)
    case NonTerminal(n, site) =>
      if site in inCall then {}
      else BudgetShrinks(AllSites(ps), inCall, site); FinalSet(ps, ps[n].expansion, inCall + {site})
    case Terminal(t) => {t}
    case ZeroOrMore(b) => FinalSet(ps, b, inCall)
    case OneOrMore(b) => FinalSet(ps, b, inCall)
    case ZeroOrOne(b) => FinalSet(ps, b, inCall)
    case Parens(b) => FinalSet(ps, b, inCall)
    case Empty(_) => {}
  }

  /** FINAL of a sequence: from the last unit backwards, up to and including the last unit that cannot be empty. */
  function FinalAll(ps: Productions, us: seq<Expansion>, inCall: set<nat>): set<nat>
    requires Closed(ps) && forall i | 0 <= i < |us| :: Defined(ps, us[i])
    decreases Budget(AllSites(ps), inCall), SizeAll(us), |us| + 1
  {
    if us == [] then {}
    else
      var last := us[|us| - 1];
      SizeAllBound(us);
      SizeAllPrefix(us, |us| - 1);
      FinalSet(ps, last, inCall) + (if Empties(ps, last) then FinalAll(ps, us[..|us| - 1], inCall) else {})
  }

  function FinalChoice(ps: Productions, alts: seq<Expansion>, inCall: set<nat>): set<nat>
    requires Closed(ps) && forall i | 0 <= i < |alts| :: Defined(ps, alts[i])
    decreases Budget(AllSites(ps), inCall), SizeAll(alts), |alts| + 1
  {
    if alts == [] then {} else FinalSet(ps, alts[0], inCall) + FinalChoice(ps, alts[1..], inCall)
  }

  lemma {:induction false} SizeAllPrefix(us: seq<Expansion>, k: nat)
    requires k <= |us|
    ensures SizeAll(us[..k]) <= SizeAll(us)
  {
    if k > 0 {
      assert us[..k][1..] == us[1..][..k - 1];
      SizeAllPrefix(us[1..], k - 1);
    }
  }

  /* ---------------------------------------------------------------------- */
  /* isAlwaysSuccessful                                                      */
  /* ---------------------------------------------------------------------- */

  /**
   * Expansion.isAlwaysSuccessful: no semantic lookahead and no lookbehind,
   * possibly empty, no FAIL child, and any nested lookahead expansion is
   * itself possibly empty.
   */
  predicate BaseAlwaysSuccessful(ps: Productions, e: Expansion)
    requires Closed(ps) && Defined(ps, e)
  {
    var r := LookaheadOf(ps, e, {});
    !(r.found.Some? && (r.found.value.semantic || r.found.value.lookBehind.Some?)) &&
    Empties(ps, e) &&
    !FailureChild(e) &&
    (r.found.None? || r.found.value.nested.None? || Empties(ps, r.found.value.nested.value))
  }

  predicate AlwaysSuccessful(ps: Productions, e: Expansion, visiting: set<string>)
    requires Closed(ps) && Defined(ps, e)
    decreases Budget(ps.Keys, visiting), Size(e), 0
  {
    match e
    case Sequence(us, _, _, _) => BaseAlwaysSuccessful(ps, e) && AllAlwaysSuccessful(ps, us, visiting)
    case Choice(alts) => BaseAlwaysSuccessful(ps, e) && SomeAlwaysSuccessful(ps, alts, visiting)
    case NonTerminal(n, _) =>
      if n in visiting then false
      else BudgetShrinks(ps.Keys, visiting, n); AlwaysSuccessful(ps, ps[n].expansion, visiting + {n})
    case _ => BaseAlwaysSuccessful(ps, e)
  }

  predicate AllAlwaysSuccessful(ps: Productions, us: seq<Expansion>, visiting: set<string>)
    requires Closed(ps) && forall i | 0 <= i < |us| :: Defined(ps, us[i])
    decreases Budget(ps.Keys, visiting), SizeAll(us), |us| + 1
  {
    us == [] || (AlwaysSuccessful(ps, us[0], visiting) && AllAlwaysSuccessful(ps, us[1..], visiting))
  }

  predicate SomeAlwaysSuccessful(ps: Productions, alts: seq<Expansion>, visiting: set<string>)
    requires Closed(ps) && forall i | 0 <= i < |alts| :: Defined(ps, alts[i])
    decreases Budget(ps.Keys, visiting), SizeAll(alts), |alts| + 1
  {
    alts != [] && (AlwaysSuccessful(ps, alts[0], visiting) || SomeAlwaysSuccessful(ps, alts[1..], visiting))
  }

  /* ---------------------------------------------------------------------- */
  /* getSpecifiesLexicalStateSwitch / getHasTokenActivation                  */
  /* ---------------------------------------------------------------------- */

  predicate SwitchesState(ps: Productions, e: Expansion, visiting: set<string>)
    requires Closed(ps) && Defined(ps, e)
    decreases Budget(ps.Keys, visiting), Size(e), 0
  {
    match e
    case Sequence(us, _, _, _) => UnitsSwitchState(ps, us, visiting)
    case Choice(alts) => SomeSwitchesState(ps, alts, visiting)
    case NonTerminal(n, _) =>
      ps[n].lexicalState.Some? ||
      (n !in visiting && (BudgetShrinks(ps.Keys, visiting, n); SwitchesState(ps, ps[n].expansion, visiting + {n})))
    case ZeroOrMore(b) => SwitchesState(ps, b, visiting)
    case OneOrMore(b) => SwitchesState(ps, b, visiting)
    case ZeroOrOne(b) => SwitchesState(ps, b, visiting)
    case Parens(b) => SwitchesState(ps, b, visiting)
    case _ => false
  }

  /** A sequence switches state if a unit in its leading possibly-empty run, or the first unit after it, does. */
  predicate UnitsSwitchState(ps: Productions, us: seq<Expansion>, visiting: set<string>)
    requires Closed(ps) && forall i | 0 <= i < |us| :: Defined(ps, us[i])
    decreases Budget(ps.Keys, visiting), SizeAll(us), |us| + 1
  {
    us != [] &&
    (SwitchesState(ps, us[0], visiting) ||
     (Empties(ps, us[0]) && UnitsSwitchState(ps, us[1..], visiting)))
  }

  predicate SomeSwitchesState(ps: Productions, alts: seq<Expansion>, visiting: set<string>)
    requires Closed(ps) && forall i | 0 <= i < |alts| :: Defined(ps, alts[i])
    decreases Budget(ps.Keys, visiting), SizeAll(alts), |alts| + 1
  {
    alts != [] && (SwitchesState(ps, alts[0], visiting) || SomeSwitchesState(ps, alts[1..], visiting))
  }

  predicate HasTokenActivation(ps: Productions, e: Expansion, visiting: set<string>)
    requires Closed(ps) && Defined(ps, e)
    decreases Budget(ps.Keys, visiting), Size(e), 0
  {
    match e
    case Sequence(us, _, _, _) => UnitsActivateTokens(ps, us, visiting)
    case NonTerminal(n, _) =>
      n !in visiting && (BudgetShrinks(ps.Keys, visiting, n); HasTokenActivation(ps, ps[n].expansion, visiting + {n}))
    case _ => TokenActivationChild(e)
  }

  predicate UnitsActivateTokens(ps: Productions, us: seq<Expansion>, visiting: set<string>)
    requires Closed(ps) && forall i | 0 <= i < |us| :: Defined(ps, us[i])
    decreases Budget(ps.Keys, visiting), SizeAll(us), |us| + 1
  {
    us != [] &&
    (HasTokenActivation(ps, us[0], visiting) ||
     (Empties(ps, us[0]) && UnitsActivateTokens(ps, us[1..], visiting)))
  }

  /* ---------------------------------------------------------------------- */
  /* Scan limits                                                             */
  /* ---------------------------------------------------------------------- */

  /** An element of allUnits(): a unit and whether it is marked as a scan limit. */
  datatype Unit = Unit(exp: Expansion, scanLimit: bool)

  /** allUnits(): the units of a sequence, each followed by the units inside it when it is superfluous parentheses. */
  function AllUnits(e: Expansion): (r: seq<Unit>)
    requires e.Sequence?
    ensures forall k :: 0 <= k < |r| ==> r[k].exp in Descendants(e)
    decreases Size(e), 0
  {
    UnitsFrom(e.units, e.scanLimits, 0)
  }

  function UnitsFrom(us: seq<Expansion>, limits: set<nat>, i: nat): (r: seq<Unit>)
    requires i <= |us|
    ensures forall k :: 0 <= k < |r| ==> r[k].exp in DescendantsAll(us)
    decreases SizeAll(us), |us| - i
  {
    if i == |us| then []
    else
      SizeAllBound(us);
      DescendantsAllHas(us, i);
      [Unit(us[i], i in limits)] +
      (if Superfluous(us[i]) then AllUnits(us[i].body) else []) +
      UnitsFrom(us, limits, i + 1)
  }

  lemma {:induction false} DescendantsAllHas(us: seq<Expansion>, i: nat)
    requires i < |us|
    ensures us[i] in DescendantsAll(us) && Descendants(us[i]) <= DescendantsAll(us)
  {
    if i > 0 {
      DescendantsAllHas(us[1..], i - 1);
    }
  }

  /**
   * ExpansionSequence.getHasScanLimit over allUnits(): a marked unit anywhere,
   * or a non-terminal in the leading possibly-empty run whose production has a
   * scan limit.
   */
  predicate ScanUnits(ps: Productions, flat: seq<Unit>, atStart: bool, visiting: set<string>)
    requires Closed(ps) && forall k | 0 <= k < |flat| :: Defined(ps, flat[k].exp)
    decreases Budget(ps.Keys, visiting), |flat|
  {
    flat != [] &&
    assert Defined(ps, flat[0].exp);
    (flat[0].scanLimit ||
     (atStart && flat[0].exp.NonTerminal? && ProductionHasScanLimit(ps, flat[0].exp.name, visiting)) ||
     ScanUnits(ps, flat[1..], atStart && Empties(ps, flat[0].exp), visiting))
  }

  /** BNFProduction.getHasScanLimit: its expansion is a sequence that has a scan limit. */
  predicate ProductionHasScanLimit(ps: Productions, n: string, visiting: set<string>)
    requires Closed(ps) && n in ps
    decreases Budget(ps.Keys, visiting), 0
  {
    n !in visiting && ps[n].expansion.Sequence? &&
    (BudgetShrinks(ps.Keys, visiting, n);
     DescendantsDefined(ps, ps[n].expansion);
     ScanUnits(ps, AllUnits(ps[n].expansion), true, visiting + {n}))
  }

  /** getHasScanLimit: only a sequence, or a non-terminal through its production, has one. */
  predicate HasScanLimit(ps: Productions, e: Expansion)
    requires Closed(ps) && Defined(ps, e)
  {
    match e
    case Sequence(_, _, _, _) => DescendantsDefined(ps, e); ScanUnits(ps, AllUnits(e), true, {})
    case NonTerminal(n, _) => ProductionHasScanLimit(ps, n, {})
    case _ => false
  }

  /** ExpansionSequence.getHasExplicitScanLimit: one of its own units is marked. */
  predicate HasExplicitScanLimit(e: Expansion)
  {
    e.Sequence? && exists i :: 0 <= i < |e.units| && i in e.scanLimits
  }

  /* ---------------------------------------------------------------------- */
  /* potentiallyStartsWith                                                   */
  /* ---------------------------------------------------------------------- */

  /**
   * The answer of potentiallyStartsWith, the alreadyVisited set as the call
   * leaves it, and the sites of the non-terminals whose needsLeftRecursionCheck
   * flag the call raised.
   */
  datatype Probe = Probe(found: bool, visited: set<string>, flagged: set<nat>)

  function StartsWith(ps: Productions, p: string, e: Expansion, visited: set<string>): (r: Probe)
    requires Closed(ps) && Defined(ps, e)
    ensures visited <= r.visited
    ensures r.visited == visited || Budget(ps.Keys, r.visited) < Budget(ps.Keys, visited)
    ensures r.found <==> r.flagged != {}
    decreases Budget(ps.Keys, visited), Size(e), 0
  {
    match e
    case Sequence(us, _, _, _) => UnitsStartWith(ps, p, us, visited)
    case Choice(alts) => SomeStartsWith(ps, p, alts, visited)
    case NonTerminal(n, site) => StartsThrough(ps, p, n, site, visited)
    case ZeroOrMore(b) => StartsWith(ps, p, b, visited)
    case OneOrMore(b) => StartsWith(ps, p, b, visited)
    case ZeroOrOne(b) => StartsWith(ps, p, b, visited)
    case Parens(b) => StartsWith(ps, p, b, visited)
    case _ => Probe(false, visited, {})
  }

  /** NonTerminal.potentiallyStartsWith: flags itself on reaching p, otherwise enters each production once. */
  function StartsThrough(ps: Productions, p: string, n: string, site: nat, visited: set<string>): (r: Probe)
    requires Closed(ps) && n in ps
    ensures visited <= r.visited
    ensures r.visited == visited || Budget(ps.Keys, r.visited) < Budget(ps.Keys, visited)
    ensures r.found <==> r.flagged != {}
    decreases Budget(ps.Keys, visited), 0, 0
  {
    if n == p then Probe(true, visited, {site})
    else if n in visited then Probe(false, visited, {})
    else
      BudgetShrinks(ps.Keys, visited, n);
      var r := StartsWith(ps, p, ps[n].expansion, visited + {n});
      BudgetMonotone(ps.Keys, visited + {n}, r.visited);
      r
  }

  /** Every unit is asked, in order, up to and including the first that cannot be empty. */
  function UnitsStartWith(ps: Productions, p: string, us: seq<Expansion>, visited: set<string>): (r: Probe)
    requires Closed(ps) && forall i | 0 <= i < |us| :: Defined(ps, us[i])
    ensures visited <= r.visited
    ensures r.visited == visited || Budget(ps.Keys, r.visited) < Budget(ps.Keys, visited)
    ensures r.found <==> r.flagged != {}
    decreases Budget(ps.Keys, visited), SizeAll(us), |us| + 1
  {
    if us == [] then Probe(false, visited, {})
    else
      var r0 := StartsWith(ps, p, us[0], visited);
      if !Empties(ps, us[0]) then r0
      else
        var r1 := UnitsStartWith(ps, p, us[1..], r0.visited);
        Probe(r0.found || r1.found, r1.visited, r0.flagged + r1.flagged)
  }

  /** The alternatives are asked in order until one answers true. */
  function SomeStartsWith(ps: Productions, p: string, alts: seq<Expansion>, visited: set<string>): (r: Probe)
    requires Closed(ps) && forall i | 0 <= i < |alts| :: Defined(ps, alts[i])
    ensures visited <= r.visited
    ensures r.visited == visited || Budget(ps.Keys, r.visited) < Budget(ps.Keys, visited)
    ensures r.found <==> r.flagged != {}
    decreases Budget(ps.Keys, visited), SizeAll(alts), |alts| + 1
  {
    if alts == [] then Probe(false, visited, {})
    else
      var r0 := StartsWith(ps, p, alts[0], visited);
      if r0.found then r0
      else
        var r1 := SomeStartsWith(ps, p, alts[1..], r0.visited);
        Probe(r1.found, r1.visited, r0.flagged + r1.flagged)
  }

  /* ---------------------------------------------------------------------- */
  /* Descendant queries and isSingleToken                                    */
  /* ---------------------------------------------------------------------- */

  /** getHasGlobalSemanticActions: a code block below that applies in lookahead. */
  predicate HasGlobalSemanticActions(e: Expansion)
  {
    Empty(CodeBlock(true)) in Descendants(e)
  }

  /** hasNestedSemanticLookahead: an expansion below whose lookahead has a nested semantic predicate. */
  predicate HasNestedSemanticLookahead(ps: Productions, e: Expansion)
    requires Closed(ps) && Defined(ps, e)
  {
    DescendantsDefined(ps, e);
    exists d | d in Descendants(e) ::
      var la := LookaheadFound(ps, d); la.Some? && la.value.semantic && la.value.semanticNested
  }

  /** Expansion.isSingleToken */
  predicate BaseSingleToken(ps: Productions, e: Expansion)
    requires Closed(ps) && Defined(ps, e)
  {
    DescendantsDefined(ps, e);
    !Empties(ps, e) && MaxSize(ps, e, {}) <= 1 && !HasScanLimit(ps, e) && !SwitchesState(ps, e, {}) &&
    LookaheadFound(ps, e).None? &&
    Empty(Failure) !in Descendants(e) && Empty(TokenActivation) !in Descendants(e) &&
    (forall d | d in Descendants(e) :: !SwitchesState(ps, d, {})) &&
    (forall d | d in Descendants(e) :: !(LookaheadFound(ps, d).Some? && LookaheadFound(ps, d).value.lookBehind.Some?)) &&
    !HasNestedSemanticLookahead(ps, e) &&
    !HasGlobalSemanticActions(e)
  }

  /** isSingleToken: NonTerminal also asks its production's expansion. */
  predicate SingleToken(ps: Productions, e: Expansion, visiting: set<string>)
    requires Closed(ps) && Defined(ps, e)
    decreases Budget(ps.Keys, visiting)
  {
    BaseSingleToken(ps, e) &&
    (e.NonTerminal? ==>
      e.name !in visiting &&
      (BudgetShrinks(ps.Keys, visiting, e.name); SingleToken(ps, ps[e.name].expansion, visiting + {e.name})))
  }

  /* ---------------------------------------------------------------------- */
  /* getRequiresScanAhead / getLookaheadAmount                               */
  /* ---------------------------------------------------------------------- */

  /** Expansion.getRequiresScanAhead */
  predicate BaseRequiresScanAhead(ps: Productions, e: Expansion)
    requires Closed(ps) && Defined(ps, e)
  {
    var r := LookaheadOf(ps, e, {});
    (r.found.Some? && LookaheadRequiresScanAhead(ps, r.found.value, r.owner)) || HasGlobalSemanticActions(e)
  }

  /**
   * getRequiresScanAhead. A sequence: a marked unit anywhere; before the first
   * unit that cannot be empty, a non-terminal whose production has a scan limit
   * or an explicit lookahead; else its lookahead requires scanning ahead.
   * Tokens and empty expansions never do.
   */
  predicate RequiresScanAhead(ps: Productions, e: Expansion)
    requires Closed(ps) && Defined(ps, e)
  {
    match e
    case Sequence(us, _, limits, _) =>
      UnitsRequireScanAhead(ps, us, limits, 0, false) ||
      (var r := LookaheadOf(ps, e, {}); r.found.Some? && LookaheadRequiresScanAhead(ps, r.found.value, r.owner))
    case Terminal(_) => false
    case Empty(_) => false
    case _ => BaseRequiresScanAhead(ps, e)
  }

  predicate UnitsRequireScanAhead(ps: Productions, us: seq<Expansion>, limits: set<nat>, i: nat, foundNonEmpty: bool)
    requires Closed(ps) && i <= |us| && forall j | 0 <= j < |us| :: Defined(ps, us[j])
    decreases |us| - i
  {
    i < |us| &&
    assert Defined(ps, us[i]);
    (i in limits ||
     (!foundNonEmpty && us[i].NonTerminal? &&
      (ProductionHasScanLimit(ps, us[i].name, {}) || HasExplicitLookahead(ps, ps[us[i].name].expansion))) ||
     UnitsRequireScanAhead(ps, us, limits, i + 1, foundNonEmpty || !Empties(ps, us[i])))
  }

  /** getLookaheadAmount */
  function LookaheadAmount(ps: Productions, e: Expansion): int
    requires Closed(ps) && Defined(ps, e)
  {
    var la := LookaheadFound(ps, e);
    if la.Some? then Amount(la.value)
    else if RequiresScanAhead(ps, e) then MAX_VALUE
    else 1
  }
}
