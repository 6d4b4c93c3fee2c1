/**
 * The right-hand sides of grammar productions as a closed tree: sequences,
 * choices, references to other productions (non-terminals), tokens (regular
 * expressions), the three repetition operators, plain parentheses and the
 * empty expansions (FAIL, code blocks, token activations, ...).
 *
 * A non-terminal refers to its production by name through a `Productions`
 * map. Every non-terminal node also carries a `site`: the identity of that
 * node object, which the per-node re-entrancy guards of the size and FINAL
 * queries are keyed on.
 */
module Expansions {
  import opened Util

  /** A LOOKAHEAD/SCAN specification, attached to an expansion sequence. */
  datatype Lookahead = Lookahead(
    amount: Option<int>,             // the integer literal, when one is written
    legacy: bool,                    // the LOOKAHEAD(...) form rather than SCAN
    nested: Option<Expansion>,       // a separate syntactic lookahead expansion
    semantic: bool,                  // a semantic predicate is present
    semanticNested: bool,
    negated: bool,
    lookBehind: Option<seq<string>>, // the production-name path of a lookbehind
    upTo: Option<Expansion>)         // the expansion after UPTO

  /** The kinds of expansion that never consume a token. */
  datatype EmptyKind = Failure | CodeBlock(appliesInLookahead: bool) | TokenActivation | OtherEmpty

  datatype Expansion =
    | Sequence(units: seq<Expansion>, lookahead: Option<Lookahead>,
               scanLimits: set<nat>,  // positions of the units marked "=>||"
               tolerant: set<nat>)    // positions of the units marked for tolerant parsing
    | Choice(alternatives: seq<Expansion>)
    | NonTerminal(name: string, site: nat)
    | Terminal(ordinal: nat)
    | ZeroOrMore(body: Expansion)
    | OneOrMore(body: Expansion)
    | ZeroOrOne(body: Expansion)
    | Parens(body: Expansion)
    | Empty(kind: EmptyKind)

  /** The access-modifier tokens that may precede a production's name. */
  datatype ModifierToken = PrivateToken | ProtectedToken | PackageToken | OtherToken

  datatype Production = Production(
    name: string,
    expansion: Expansion,
    lexicalState: Option<string>,
    annotation: Option<Option<string>>,  // a tree-building annotation, with its node name if it has one
    implicitReturnType: bool,
    returnType: Option<string>,
    modifiers: seq<ModifierToken>)

  /** getProductionByName: the productions of the grammar by name. */
  type Productions = map<string, Production>

  /** The child expansions of a node (childrenOfType(Expansion.class)). */
  function Children(e: Expansion): (r: seq<Expansion>)
    ensures forall i :: 0 <= i < |r| ==> Size(r[i]) < Size(e)
  {
    match e
    case Sequence(us, _, _, _) => SizeAllBound(us); us
    case Choice(alts) => SizeAllBound(alts); alts
    case ZeroOrMore(b) => [b]
    case OneOrMore(b) => [b]
    case ZeroOrOne(b) => [b]
    case Parens(b) => [b]
    case _ => []
  }

  /** The expansion nested in a repetition or parentheses (getNestedExpansion). */
  predicate HasBody(e: Expansion)
  {
    e.ZeroOrMore? || e.OneOrMore? || e.ZeroOrOne? || e.Parens?
  }

  /** Plain parentheses around a sequence: transparent for choice points and lookahead. */
  predicate Superfluous(e: Expansion)
  {
    e.Parens? && e.body.Sequence?
  }

  /** firstChildOfType(Failure.class) != null */
  predicate FailureChild(e: Expansion)
  {
    exists i :: 0 <= i < |Children(e)| && Children(e)[i] == Empty(Failure)
  }

  /** firstChildOfType(TokenActivation.class) != null */
  predicate TokenActivationChild(e: Expansion)
  {
    exists i :: 0 <= i < |Children(e)| && Children(e)[i] == Empty(TokenActivation)
  }

  function Size(e: Expansion): nat
  {
    match e
    case Sequence(us, la, _, _) => 1 + SizeAll(us) + SizeLa(la)
    case Choice(alts) => 1 + SizeAll(alts)
    case ZeroOrMore(b) => 1 + Size(b)
    case OneOrMore(b) => 1 + Size(b)
    case ZeroOrOne(b) => 1 + Size(b)
    case Parens(b) => 1 + Size(b)
    case _ => 1
  }

  function SizeAll(es: seq<Expansion>): nat
  {
    if es == [] then 0 else Size(es[0]) + SizeAll(es[1..])
  }

  function SizeLa(la: Option<Lookahead>): nat
  {
    match la
    case None => 0
    case Some(l) =>
      (match l.nested case None => 0 case Some(n) => Size(n)) +
      (match l.upTo case None => 0 case Some(u) => Size(u))
  }

  lemma {:induction false} SizeAllBound(es: seq<Expansion>)
    ensures forall i :: 0 <= i < |es| ==> Size(es[i]) <= SizeAll(es)
  {
    if es != [] {
      SizeAllBound(es[1..]);
      assert forall i :: 1 <= i < |es| ==> es[i] == es[1..][i - 1];
    }
  }

  /** A nested lookahead expansion of a sequence is smaller than the sequence. */
  lemma NestedSmaller(e: Expansion)
    requires e.Sequence? && e.lookahead.Some?
    ensures e.lookahead.value.nested.Some? ==> Size(e.lookahead.value.nested.value) < Size(e)
    ensures e.lookahead.value.upTo.Some? ==> Size(e.lookahead.value.upTo.value) < Size(e)
  {
  }

  /**
   * Every non-terminal below e, lookahead expansions included, names a key of
   * ps and is one of the grammar's non-terminal nodes.
   */
  predicate Defined(ps: Productions, e: Expansion)
  {
    match e
    case Sequence(us, la, _, _) =>
      (forall i | 0 <= i < |us| :: Defined(ps, us[i])) &&
      (la.Some? ==> (la.value.nested.Some? ==> Defined(ps, la.value.nested.value)) &&
                    (la.value.upTo.Some? ==> Defined(ps, la.value.upTo.value)))
    case Choice(alts) => forall i | 0 <= i < |alts| :: Defined(ps, alts[i])
    case NonTerminal(n, site) => n in ps && site in AllSites(ps)
    case ZeroOrMore(b) => Defined(ps, b)
    case OneOrMore(b) => Defined(ps, b)
    case ZeroOrOne(b) => Defined(ps, b)
    case Parens(b) => Defined(ps, b)
    case _ => true
  }

  lemma ChildrenDefined(ps: Productions, e: Expansion)
    requires Defined(ps, e)
    ensures forall i :: 0 <= i < |Children(e)| ==> Defined(ps, Children(e)[i])
  {
  }

  /** No non-terminal of the grammar is undefined: what the sanity check establishes first. */
  predicate Closed(ps: Productions)
  {
    forall n | n in ps :: Defined(ps, ps[n].expansion)
  }

  /** The sites of the non-terminal nodes below e. */
  function SitesIn(e: Expansion): set<nat>
  {
    match e
    case Sequence(us, la, _, _) =>
      (set i, s | 0 <= i < |us| && s in SitesIn(us[i]) :: s) +
      (if la.Some? && la.value.nested.Some? then SitesIn(la.value.nested.value) else {}) +
      (if la.Some? && la.value.upTo.Some? then SitesIn(la.value.upTo.value) else {})
    case Choice(alts) => set i, s | 0 <= i < |alts| && s in SitesIn(alts[i]) :: s
    case NonTerminal(_, site) => {site}
    case ZeroOrMore(b) => SitesIn(b)
    case OneOrMore(b) => SitesIn(b)
    case ZeroOrOne(b) => SitesIn(b)
    case Parens(b) => SitesIn(b)
    case _ => {}
  }

  /** The sites of every non-terminal node of the grammar. */
  function AllSites(ps: Productions): set<nat>
  {
    set n, s | n in ps && s in SitesIn(ps[n].expansion) :: s
  }

  lemma ChildrenSites(e: Expansion)
    ensures forall i :: 0 <= i < |Children(e)| ==> SitesIn(Children(e)[i]) <= SitesIn(e)
  {
  }

  /** What is left of a finite universe once `seen` is taken out: the measure of every guarded recursion. */
  function Budget<T>(universe: set<T>, seen: set<T>): nat
  {
    |universe - seen|
  }

  lemma BudgetShrinks<T>(universe: set<T>, seen: set<T>, x: T)
    requires x in universe && x !in seen
    ensures Budget(universe, seen + {x}) < Budget(universe, seen)
  {
    assert universe - (seen + {x}) == (universe - seen) - {x};
  }

  lemma {:induction false} SubsetCard<T>(a: set<T>, b: set<T>)
    requires a <= b
    ensures |a| <= |b|
    decreases |b|
  {
    if a != {} {
      var x :| x in a;
      SubsetCard(a - {x}, b - {x});
    }
  }

  lemma BudgetMonotone<T>(universe: set<T>, seen: set<T>, more: set<T>)
    requires seen <= more
    ensures Budget(universe, more) <= Budget(universe, seen)
  {
    SubsetCard(universe - more, universe - seen);
  }

  /** Every expansion node strictly below e, inside lookahead and UPTO expansions too (descendants(Expansion.class)). */
  function Descendants(e: Expansion): set<Expansion>
  {
    match e
    case Sequence(us, la, _, _) => DescendantsAll(us) + DescendantsLa(la)
    case Choice(alts) => DescendantsAll(alts)
    case ZeroOrMore(b) => {b} + Descendants(b)
    case OneOrMore(b) => {b} + Descendants(b)
    case ZeroOrOne(b) => {b} + Descendants(b)
    case Parens(b) => {b} + Descendants(b)
    case _ => {}
  }

  function DescendantsAll(es: seq<Expansion>): set<Expansion>
  {
    if es == [] then {} else {es[0]} + Descendants(es[0]) + DescendantsAll(es[1..])
  }

  function DescendantsLa(la: Option<Lookahead>): set<Expansion>
  {
    match la
    case None => {}
    case Some(l) =>
      (match l.nested case None => {} case Some(n) => {n} + Descendants(n)) +
      (match l.upTo case None => {} case Some(u) => {u} + Descendants(u))
  }

  /** Descendants are smaller and, in a grammar, still defined. */
  lemma {:induction false} DescendantsDefined(ps: Productions, e: Expansion)
    requires Defined(ps, e)
    ensures forall d | d in Descendants(e) :: Defined(ps, d) && Size(d) < Size(e)
  {
    match e
    case Sequence(us, la, _, _) =>
      DescendantsAllDefined(ps, us);
      if la.Some? && la.value.nested.Some? { DescendantsDefined(ps, la.value.nested.value); }
      if la.Some? && la.value.upTo.Some? { DescendantsDefined(ps, la.value.upTo.value); }
    case Choice(alts) => DescendantsAllDefined(ps, alts);
    case ZeroOrMore(b) => DescendantsDefined(ps, b);
    case OneOrMore(b) => DescendantsDefined(ps, b);
    case ZeroOrOne(b) => DescendantsDefined(ps, b);
    case Parens(b) => DescendantsDefined(ps, b);
    case _ =>
  }

  lemma {:induction false} DescendantsAllDefined(ps: Productions, es: seq<Expansion>)
    requires forall i | 0 <= i < |es| :: Defined(ps, es[i])
    ensures forall d | d in DescendantsAll(es) :: Defined(ps, d) && Size(d) <= SizeAll(es)
  {
    if es != [] {
      DescendantsDefined(ps, es[0]);
      DescendantsAllDefined(ps, es[1..]);
    }
  }
}
