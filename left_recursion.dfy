/**
 * isPossiblyEmpty as the source evaluates it: ExpansionSequence,
 * ExpansionChoice and NonTerminal call each other with no guard, so the
 * question re-enters a production as often as the grammar leads back to it.
 * `EmptyAsWritten` follows those calls with a budget of `fuel` non-terminal
 * calls and answers None when the budget runs out.
 *
 * The model's `PossiblyEmpty` instead answers false when it meets a
 * production it is already evaluating. The lemmas here show that the two
 * agree whenever the unguarded recursion ends, and that it ends exactly when
 * the guard never fires. A left-recursive production is the case where the
 * guard fires: isLeftRecursive asks that question about the production's own
 * leading reference, and the unguarded recursion never returns.
 */
module LeftRecursion {
  import opened Util
  import opened Expansions
  import opened ExpansionFacts
  import BnfProductions

  /* ---------------------------------------------------------------------- */
  /* The unguarded recursion                                                 */
  /* ---------------------------------------------------------------------- */

  /** Java's isPossiblyEmpty, allowed `fuel` nested calls through non-terminals. */
  function EmptyAsWritten(ps: Productions, e: Expansion, fuel: nat): Option<bool>
    requires Closed(ps) && Defined(ps, e)
    decreases fuel, Size(e), 0
  {
    match e
    case Sequence(us, _, _, _) => AllEmptyAsWritten(ps, us, fuel)
    case Choice(alts) => SomeEmptyAsWritten(ps, alts, fuel)
    case NonTerminal(n, _) => if fuel == 0 then None else EmptyAsWritten(ps, ps[n].expansion, fuel - 1)
    case Terminal(_) => Some(false)
    case ZeroOrMore(_) => Some(true)
    case OneOrMore(b) => EmptyAsWritten(ps, b, fuel)
    case ZeroOrOne(_) => Some(true)
    case Parens(b) => EmptyAsWritten(ps, b, fuel)
    case Empty(_) => Some(true)
  }

  /** The loop of ExpansionSequence.isPossiblyEmpty: false at the first unit that cannot be empty. */
  function AllEmptyAsWritten(ps: Productions, us: seq<Expansion>, fuel: nat): Option<bool>
    requires Closed(ps) && forall i | 0 <= i < |us| :: Defined(ps, us[i])
    decreases fuel, SizeAll(us), |us| + 1
  {
    if us == [] then Some(true)
    else
      match EmptyAsWritten(ps, us[0], fuel)
      case None => None
      case Some(b) => if !b then Some(false) else AllEmptyAsWritten(ps, us[1..], fuel)
  }

  /** The loop of ExpansionChoice.isPossiblyEmpty: true at the first alternative that can be empty. */
  function SomeEmptyAsWritten(ps: Productions, alts: seq<Expansion>, fuel: nat): Option<bool>
    requires Closed(ps) && forall i | 0 <= i < |alts| :: Defined(ps, alts[i])
    decreases fuel, SizeAll(alts), |alts| + 1
  {
    if alts == [] then Some(false)
    else
      match EmptyAsWritten(ps, alts[0], fuel)
      case None => None
      case Some(b) => if b then Some(true) else SomeEmptyAsWritten(ps, alts[1..], fuel)
  }

  /* ---------------------------------------------------------------------- */
  /* Where the guard fires                                                   */
  /* ---------------------------------------------------------------------- */

  /**
   * The guarded evaluation, answering None at the point where it meets a
   * production it is already evaluating (where PossiblyEmpty answers false).
   */
  function EmptyOrReentry(ps: Productions, e: Expansion, visiting: set<string>): Option<bool>
    requires Closed(ps) && Defined(ps, e)
    decreases Budget(ps.Keys, visiting), Size(e), 0
  {
    match e
    case Sequence(us, _, _, _) => AllEmptyOrReentry(ps, us, visiting)
    case Choice(alts) => SomeEmptyOrReentry(ps, alts, visiting)
    case NonTerminal(n, _) =>
      if n in visiting then None
      else BudgetShrinks(ps.Keys, visiting, n); EmptyOrReentry(ps, ps[n].expansion, visiting + {n})
    case Terminal(_) => Some(false)
    case ZeroOrMore(_) => Some(true)
    case OneOrMore(b) => EmptyOrReentry(ps, b, visiting)
    case ZeroOrOne(_) => Some(true)
    case Parens(b) => EmptyOrReentry(ps, b, visiting)
    case Empty(_) => Some(true)
  }

  function AllEmptyOrReentry(ps: Productions, us: seq<Expansion>, visiting: set<string>): Option<bool>
    requires Closed(ps) && forall i | 0 <= i < |us| :: Defined(ps, us[i])
    decreases Budget(ps.Keys, visiting), SizeAll(us), |us| + 1
  {
    if us == [] then Some(true)
    else
      match EmptyOrReentry(ps, us[0], visiting)
      case None => None
      case Some(b) => if !b then Some(false) else AllEmptyOrReentry(ps, us[1..], visiting)
  }

  function SomeEmptyOrReentry(ps: Productions, alts: seq<Expansion>, visiting: set<string>): Option<bool>
    requires Closed(ps) && forall i | 0 <= i < |alts| :: Defined(ps, alts[i])
    decreases Budget(ps.Keys, visiting), SizeAll(alts), |alts| + 1
  {
    if alts == [] then Some(false)
    else
      match EmptyOrReentry(ps, alts[0], visiting)
      case None => None
      case Some(b) => if b then Some(true) else SomeEmptyOrReentry(ps, alts[1..], visiting)
  }

  /** Where the guard does not fire, the guarded answer is PossiblyEmpty's. */
  lemma {:induction false} ReentryFreeIsPossiblyEmpty(ps: Productions, e: Expansion, visiting: set<string>)
    requires Closed(ps) && Defined(ps, e) && EmptyOrReentry(ps, e, visiting).Some?
    ensures PossiblyEmpty(ps, e, visiting) == EmptyOrReentry(ps, e, visiting).value
    decreases Budget(ps.Keys, visiting), Size(e), 0
  {
    match e
    case Sequence(us, _, _, _) => ReentryFreeAll(ps, us, visiting);
    case Choice(alts) => ReentryFreeSome(ps, alts, visiting);
    case NonTerminal(n, _) =>
      BudgetShrinks(ps.Keys, visiting, n);
      ReentryFreeIsPossiblyEmpty(ps, ps[n].expansion, visiting + {n});
    case OneOrMore(b) => ReentryFreeIsPossiblyEmpty(ps, b, visiting);
    case Parens(b) => ReentryFreeIsPossiblyEmpty(ps, b, visiting);
    case _ =>
  }

  lemma {:induction false} ReentryFreeAll(ps: Productions, us: seq<Expansion>, visiting: set<string>)
    requires Closed(ps) && (forall i | 0 <= i < |us| :: Defined(ps, us[i])) && AllEmptyOrReentry(ps, us, visiting).Some?
    ensures AllPossiblyEmpty(ps, us, visiting) == AllEmptyOrReentry(ps, us, visiting).value
    decreases Budget(ps.Keys, visiting), SizeAll(us), |us| + 1
  {
    if us != [] {
      ReentryFreeIsPossiblyEmpty(ps, us[0], visiting);
      if EmptyOrReentry(ps, us[0], visiting) == Some(true) {
        ReentryFreeAll(ps, us[1..], visiting);
      }
    }
  }

  lemma {:induction false} ReentryFreeSome(ps: Productions, alts: seq<Expansion>, visiting: set<string>)
    requires Closed(ps) && (forall i | 0 <= i < |alts| :: Defined(ps, alts[i])) && SomeEmptyOrReentry(ps, alts, visiting).Some?
    ensures SomePossiblyEmpty(ps, alts, visiting) == SomeEmptyOrReentry(ps, alts, visiting).value
    decreases Budget(ps.Keys, visiting), SizeAll(alts), |alts| + 1
  {
    if alts != [] {
      ReentryFreeIsPossiblyEmpty(ps, alts[0], visiting);
      if EmptyOrReentry(ps, alts[0], visiting) == Some(false) {
        ReentryFreeSome(ps, alts[1..], visiting);
      }
    }
  }

  /* ---------------------------------------------------------------------- */
  /* More fuel never changes an answer                                       */
  /* ---------------------------------------------------------------------- */

  lemma {:induction false} MoreFuel(ps: Productions, e: Expansion, fuel: nat, more: nat)
    requires Closed(ps) && Defined(ps, e) && fuel <= more && EmptyAsWritten(ps, e, fuel).Some?
    ensures EmptyAsWritten(ps, e, more) == EmptyAsWritten(ps, e, fuel)
    decreases fuel, Size(e), 0
  {
    match e
    case Sequence(us, _, _, _) => MoreFuelAll(ps, us, fuel, more);
    case Choice(alts) => MoreFuelSome(ps, alts, fuel, more);
    case NonTerminal(n, _) => MoreFuel(ps, ps[n].expansion, fuel - 1, more - 1);
    case OneOrMore(b) => MoreFuel(ps, b, fuel, more);
    case Parens(b) => MoreFuel(ps, b, fuel, more);
    case _ =>
  }

  lemma {:induction false} MoreFuelAll(ps: Productions, us: seq<Expansion>, fuel: nat, more: nat)
    requires Closed(ps) && (forall i | 0 <= i < |us| :: Defined(ps, us[i]))
    requires fuel <= more && AllEmptyAsWritten(ps, us, fuel).Some?
    ensures AllEmptyAsWritten(ps, us, more) == AllEmptyAsWritten(ps, us, fuel)
    decreases fuel, SizeAll(us), |us| + 1
  {
    if us != [] {
      MoreFuel(ps, us[0], fuel, more);
      if EmptyAsWritten(ps, us[0], fuel) == Some(true) {
        MoreFuelAll(ps, us[1..], fuel, more);
      }
    }
  }

  lemma {:induction false} MoreFuelSome(ps: Productions, alts: seq<Expansion>, fuel: nat, more: nat)
    requires Closed(ps) && (forall i | 0 <= i < |alts| :: Defined(ps, alts[i]))
    requires fuel <= more && SomeEmptyAsWritten(ps, alts, fuel).Some?
    ensures SomeEmptyAsWritten(ps, alts, more) == SomeEmptyAsWritten(ps, alts, fuel)
    decreases fuel, SizeAll(alts), |alts| + 1
  {
    if alts != [] {
      MoreFuel(ps, alts[0], fuel, more);
      if EmptyAsWritten(ps, alts[0], fuel) == Some(false) {
        MoreFuelSome(ps, alts[1..], fuel, more);
      }
    }
  }

  /* ---------------------------------------------------------------------- */
  /* Without re-entry, the unguarded recursion ends                          */
  /* ---------------------------------------------------------------------- */

  /** One call per production not yet being evaluated is enough fuel. */
  lemma {:induction false} ReentryFreeEnds(ps: Productions, e: Expansion, visiting: set<string>, fuel: nat)
    requires Closed(ps) && Defined(ps, e) && EmptyOrReentry(ps, e, visiting).Some?
    requires fuel >= Budget(ps.Keys, visiting)
    ensures EmptyAsWritten(ps, e, fuel) == EmptyOrReentry(ps, e, visiting)
    decreases Budget(ps.Keys, visiting), Size(e), 0
  {
    match e
    case Sequence(us, _, _, _) => ReentryFreeEndsAll(ps, us, visiting, fuel);
    case Choice(alts) => ReentryFreeEndsSome(ps, alts, visiting, fuel);
    case NonTerminal(n, _) =>
      BudgetShrinks(ps.Keys, visiting, n);
      ReentryFreeEnds(ps, ps[n].expansion, visiting + {n}, fuel - 1);
    case OneOrMore(b) => ReentryFreeEnds(ps, b, visiting, fuel);
    case Parens(b) => ReentryFreeEnds(ps, b, visiting, fuel);
    case _ =>
  }

  lemma {:induction false} ReentryFreeEndsAll(ps: Productions, us: seq<Expansion>, visiting: set<string>, fuel: nat)
    requires Closed(ps) && (forall i | 0 <= i < |us| :: Defined(ps, us[i])) && AllEmptyOrReentry(ps, us, visiting).Some?
    requires fuel >= Budget(ps.Keys, visiting)
    ensures AllEmptyAsWritten(ps, us, fuel) == AllEmptyOrReentry(ps, us, visiting)
    decreases Budget(ps.Keys, visiting), SizeAll(us), |us| + 1
  {
    if us != [] {
      ReentryFreeEnds(ps, us[0], visiting, fuel);
      if EmptyOrReentry(ps, us[0], visiting) == Some(true) {
        ReentryFreeEndsAll(ps, us[1..], visiting, fuel);
      }
    }
  }

  lemma {:induction false} ReentryFreeEndsSome(ps: Productions, alts: seq<Expansion>, visiting: set<string>, fuel: nat)
    requires Closed(ps) && (forall i | 0 <= i < |alts| :: Defined(ps, alts[i])) && SomeEmptyOrReentry(ps, alts, visiting).Some?
    requires fuel >= Budget(ps.Keys, visiting)
    ensures SomeEmptyAsWritten(ps, alts, fuel) == SomeEmptyOrReentry(ps, alts, visiting)
    decreases Budget(ps.Keys, visiting), SizeAll(alts), |alts| + 1
  {
    if alts != [] {
      ReentryFreeEnds(ps, alts[0], visiting, fuel);
      if EmptyOrReentry(ps, alts[0], visiting) == Some(false) {
        ReentryFreeEndsSome(ps, alts[1..], visiting, fuel);
      }
    }
  }

  /* ---------------------------------------------------------------------- */
  /* With re-entry, it never ends                                            */
  /* ---------------------------------------------------------------------- */

  /** Every production being evaluated fails to answer with less than `fuel`. */
  predicate Stuck(ps: Productions, visiting: set<string>, fuel: nat)
    requires Closed(ps) && visiting <= ps.Keys
  {
    forall m, f: nat | m in visiting && f < fuel :: EmptyAsWritten(ps, ps[m].expansion, f).None?
  }

  /**
   * Where the guarded evaluation re-enters, the unguarded one runs out of any
   * fuel, given that the productions on the current path do.
   */
  lemma {:induction false} ReentryNeverEnds(ps: Productions, e: Expansion, visiting: set<string>, fuel: nat)
    requires Closed(ps) && Defined(ps, e) && visiting <= ps.Keys
    requires EmptyOrReentry(ps, e, visiting).None? && Stuck(ps, visiting, fuel)
    ensures EmptyAsWritten(ps, e, fuel).None?
    decreases fuel, 1, Size(e), 0
  {
    match e
    case Sequence(us, _, _, _) => ReentryNeverEndsAll(ps, us, visiting, fuel);
    case Choice(alts) => ReentryNeverEndsSome(ps, alts, visiting, fuel);
    case NonTerminal(n, _) =>
      if n !in visiting && fuel > 0 {
        ProductionNeverEnds(ps, n, visiting, fuel);
      }
    case OneOrMore(b) => ReentryNeverEnds(ps, b, visiting, fuel);
    case Parens(b) => ReentryNeverEnds(ps, b, visiting, fuel);
  }

  /** A production entered afresh, whose evaluation re-enters, answers with no fuel below `k`. */
  lemma {:induction false} ProductionNeverEnds(ps: Productions, n: string, visiting: set<string>, k: nat)
    requires Closed(ps) && n in ps && n !in visiting && visiting <= ps.Keys
    requires EmptyOrReentry(ps, ps[n].expansion, visiting + {n}).None? && Stuck(ps, visiting, k)
    ensures forall f: nat | f < k :: EmptyAsWritten(ps, ps[n].expansion, f).None?
    decreases k, 0
  {
    if k > 0 {
      ProductionNeverEnds(ps, n, visiting, k - 1);
      assert Stuck(ps, visiting + {n}, k - 1);
      ReentryNeverEnds(ps, ps[n].expansion, visiting + {n}, k - 1);
    }
  }

  /** An answer at some fuel stays the answer at more fuel: only the fuel can cut the sequence short. */
  lemma AnswersAgree(ps: Productions, e: Expansion, visiting: set<string>, fuel: nat)
    requires Closed(ps) && Defined(ps, e) && EmptyOrReentry(ps, e, visiting).Some?
    requires EmptyAsWritten(ps, e, fuel).Some?
    ensures EmptyAsWritten(ps, e, fuel) == EmptyOrReentry(ps, e, visiting)
  {
    var more := fuel + Budget(ps.Keys, visiting);
    ReentryFreeEnds(ps, e, visiting, more);
    MoreFuel(ps, e, fuel, more);
  }

  lemma {:induction false} ReentryNeverEndsAll(ps: Productions, us: seq<Expansion>, visiting: set<string>, fuel: nat)
    requires Closed(ps) && (forall i | 0 <= i < |us| :: Defined(ps, us[i])) && visiting <= ps.Keys
    requires AllEmptyOrReentry(ps, us, visiting).None? && Stuck(ps, visiting, fuel)
    ensures AllEmptyAsWritten(ps, us, fuel).None?
    decreases fuel, 1, SizeAll(us), |us| + 1
  {
    if EmptyOrReentry(ps, us[0], visiting).None? {
      ReentryNeverEnds(ps, us[0], visiting, fuel);
    } else if EmptyAsWritten(ps, us[0], fuel).Some? {
      AnswersAgree(ps, us[0], visiting, fuel);
      ReentryNeverEndsAll(ps, us[1..], visiting, fuel);
    }
  }

  lemma {:induction false} ReentryNeverEndsSome(ps: Productions, alts: seq<Expansion>, visiting: set<string>, fuel: nat)
    requires Closed(ps) && (forall i | 0 <= i < |alts| :: Defined(ps, alts[i])) && visiting <= ps.Keys
    requires SomeEmptyOrReentry(ps, alts, visiting).None? && Stuck(ps, visiting, fuel)
    ensures SomeEmptyAsWritten(ps, alts, fuel).None?
    decreases fuel, 1, SizeAll(alts), |alts| + 1
  {
    if EmptyOrReentry(ps, alts[0], visiting).None? {
      ReentryNeverEnds(ps, alts[0], visiting, fuel);
    } else if EmptyAsWritten(ps, alts[0], fuel).Some? {
      AnswersAgree(ps, alts[0], visiting, fuel);
      ReentryNeverEndsSome(ps, alts[1..], visiting, fuel);
    }
  }

  /* ---------------------------------------------------------------------- */
  /* The two evaluations compared                                            */
  /* ---------------------------------------------------------------------- */

  /** Wherever Java's isPossiblyEmpty returns, it returns what the model's PossiblyEmpty does. */
  lemma PossiblyEmptyAgrees(ps: Productions, e: Expansion, fuel: nat)
    requires Closed(ps) && Defined(ps, e) && EmptyAsWritten(ps, e, fuel).Some?
    ensures Empties(ps, e) == EmptyAsWritten(ps, e, fuel).value
  {
    if EmptyOrReentry(ps, e, {}).None? {
      ReentryNeverEnds(ps, e, {}, fuel);
    } else {
      AnswersAgree(ps, e, {}, fuel);
      ReentryFreeIsPossiblyEmpty(ps, e, {});
    }
  }

  /** Java's isPossiblyEmpty returns, for some amount of stack, exactly when the model's guard never fires. */
  lemma EndsIffNoReentry(ps: Productions, e: Expansion)
    requires Closed(ps) && Defined(ps, e)
    ensures EmptyOrReentry(ps, e, {}).Some? <==> exists fuel: nat :: EmptyAsWritten(ps, e, fuel).Some?
  {
    if EmptyOrReentry(ps, e, {}).Some? {
      ReentryFreeEnds(ps, e, {}, |ps.Keys|);
    } else {
      forall fuel: nat ensures EmptyAsWritten(ps, e, fuel).None? {
        ReentryNeverEnds(ps, e, {}, fuel);
      }
    }
  }

  /* ---------------------------------------------------------------------- */
  /* P ::= P "x" | "y"                                                        */
  /* ---------------------------------------------------------------------- */

  const X: nat := 1
  const Y: nat := 2

  function Production0(name: string, e: Expansion): Production
  {
    Production(name, e, None, None, false, None, [])
  }

  /** A grammar of the one production P ::= first | second, whose reference to P is site 0. */
  function OneProduction(first: Expansion, second: Expansion): (ps: Productions)
    requires first.Sequence? && second.Sequence? && first.lookahead.None? && second.lookahead.None?
    requires forall i | 0 <= i < |first.units| :: first.units[i].Terminal? || first.units[i] == NonTerminal("P", 0)
    requires forall i | 0 <= i < |second.units| :: second.units[i].Terminal?
    requires exists i | 0 <= i < |first.units| :: first.units[i] == NonTerminal("P", 0)
    ensures ps.Keys == {"P"} && ps["P"].expansion == Choice([first, second])
    ensures Closed(ps) && Defined(ps, NonTerminal("P", 0))
  {
    var root := Choice([first, second]);
    var ps := map["P" := Production0("P", root)];
    var i :| 0 <= i < |first.units| && first.units[i] == NonTerminal("P", 0);
    assert 0 in SitesIn(first.units[i]);
    assert 0 in SitesIn(root.alternatives[0]);
    assert 0 in SitesIn(root);
    assert "P" in ps && ps["P"].expansion == root;
    assert 0 in AllSites(ps);
    assert forall j | 0 <= j < |first.units| :: Defined(ps, first.units[j]);
    assert forall j | 0 <= j < |second.units| :: Defined(ps, second.units[j]);
    assert Defined(ps, root.alternatives[0]) && Defined(ps, root.alternatives[1]);
    assert Defined(ps, ps["P"].expansion);
    ps
  }

  /** P ::= P "x" | "y": a left-recursive production. */
  function LeftRecursive(): (ps: Productions)
    ensures Closed(ps) && Defined(ps, NonTerminal("P", 0)) && ps.Keys == {"P"}
    ensures ps["P"].expansion == Choice([
      Sequence([NonTerminal("P", 0), Terminal(X)], None, {}, {}), Sequence([Terminal(Y)], None, {}, {})])
  {
    var first := Sequence([NonTerminal("P", 0), Terminal(X)], None, {}, {});
    assert first.units[0] == NonTerminal("P", 0);
    OneProduction(first, Sequence([Terminal(Y)], None, {}, {}))
  }

  /** P ::= "y" P | "y": right recursion only. */
  function RightRecursive(): (ps: Productions)
    ensures Closed(ps) && Defined(ps, NonTerminal("P", 0)) && ps.Keys == {"P"}
    ensures ps["P"].expansion == Choice([
      Sequence([Terminal(Y), NonTerminal("P", 0)], None, {}, {}), Sequence([Terminal(Y)], None, {}, {})])
  {
    var first := Sequence([Terminal(Y), NonTerminal("P", 0)], None, {}, {});
    assert first.units[1] == NonTerminal("P", 0);
    OneProduction(first, Sequence([Terminal(Y)], None, {}, {}))
  }

  /**
   * isLeftRecursive of P finds the leading reference to P, then asks it
   * whether it can be empty (ExpansionSequence.potentiallyStartsWith); that
   * question never gets an answer in the source.
   */
  lemma LeftRecursionCheckNeverEnds(fuel: nat)
    ensures EmptyAsWritten(LeftRecursive(), NonTerminal("P", 0), fuel).None?
  {
    var ps := LeftRecursive();
    var alt := ps["P"].expansion.alternatives[0];
    assert EmptyOrReentry(ps, alt.units[0], {"P"}).None?;
    assert AllEmptyOrReentry(ps, alt.units, {"P"}).None?;
    assert EmptyOrReentry(ps, alt, {"P"}).None?;
    assert SomeEmptyOrReentry(ps, ps["P"].expansion.alternatives, {"P"}).None?;
    assert EmptyOrReentry(ps, ps["P"].expansion, {"P"}).None?;
    var none: set<string> := {};
    assert none + {"P"} == {"P"};
    assert EmptyOrReentry(ps, NonTerminal("P", 0), none) == EmptyOrReentry(ps, ps["P"].expansion, {"P"});
    ReentryNeverEnds(ps, NonTerminal("P", 0), {}, fuel);
  }

  /** The model flags P ::= P "x" | "y" as left-recursive. */
  lemma LeftRecursiveFlagged()
    ensures BnfProductions.IsLeftRecursive(LeftRecursive(), "P")
  {
    var ps := LeftRecursive();
    var alts := ps["P"].expansion.alternatives;
    assert StartsWith(ps, "P", alts[0].units[0], {}).found;
    assert UnitsStartWith(ps, "P", alts[0].units, {}).found;
    assert StartsWith(ps, "P", alts[0], {}).found;
  }

  /** The model does not flag P ::= "y" P | "y". */
  lemma RightRecursiveNotFlagged()
    ensures !BnfProductions.IsLeftRecursive(RightRecursive(), "P")
  {
    var ps := RightRecursive();
    var alts := ps["P"].expansion.alternatives;
    assert !Empties(ps, alts[0].units[0]);
    assert StartsWith(ps, "P", alts[0].units[0], {}) == Probe(false, {}, {});
    assert UnitsStartWith(ps, "P", alts[0].units, {}) == Probe(false, {}, {});
    assert StartsWith(ps, "P", alts[0], {}) == Probe(false, {}, {});
    assert !Empties(ps, alts[1].units[0]);
    assert StartsWith(ps, "P", alts[1].units[0], {}) == Probe(false, {}, {});
    assert UnitsStartWith(ps, "P", alts[1].units, {}) == Probe(false, {}, {});
    assert StartsWith(ps, "P", alts[1], {}) == Probe(false, {}, {});
    assert SomeStartsWith(ps, "P", alts[2..], {}) == Probe(false, {}, {});
    assert SomeStartsWith(ps, "P", alts[1..], {}) == Probe(false, {}, {});
    assert SomeStartsWith(ps, "P", alts, {}) == Probe(false, {}, {});
  }
}
