/**
 * SanityChecker.doChecks: the checks over a parsed grammar, phase by phase,
 * each phase a method proved against the function that says what it reports.
 */
module SanityCheckers {
  import opened Util
  import opened Expansions
  import opened ExpansionContext
  import opened GrammarWalks
  import opened BnfProductions
  import opened Regexps
  import opened LexerDatas
  import LexicalStates
  import opened SanityChecks
  import opened TokenChecks
  import opened RegexpVisitors

  /** One error per undefined non-terminal, in order. */
  function UndefinedErrors(names: seq<string>): (r: seq<Diagnostic>)
  {
    if names == [] then [] else UndefinedErrors(names[..|names| - 1]) + [Error(UndefinedNonTerminal(names[|names| - 1]))]
  }

  /** An undefined name is reported exactly when it is one of the undefined names. */
  lemma {:induction false} UndefinedErrorsExact(names: seq<string>, d: Diagnostic)
    ensures d in UndefinedErrors(names) <==> exists i | 0 <= i < |names| :: d == Error(UndefinedNonTerminal(names[i]))
  {
    if names != [] {
      var front := names[..|names| - 1];
      UndefinedErrorsExact(front, d);
      assert forall i | 0 <= i < |front| :: front[i] == names[i];
    }
  }

  /** An undefined non-terminal makes the diagnostics hold an error. */
  lemma UndefinedHasErrors(before: seq<Diagnostic>, names: seq<string>)
    requires names != []
    ensures HasErrors(before + UndefinedErrors(names))
  {
    var all := before + UndefinedErrors(names);
    assert all[|all| - 1] == Error(UndefinedNonTerminal(names[|names| - 1]));
  }

  /**
   * The checks on the productions themselves, production by production: a
   * lexical state that is not defined is an error, and a left-recursive
   * production a warning.
   */
  function ProductionLevel(ps: Productions, states: seq<LexicalStates.LexicalStateData>, order: seq<string>): (r: seq<Diagnostic>)
    requires Closed(ps) && forall k | 0 <= k < |order| :: order[k] in ps
    ensures forall d :: d in r <==> exists k | 0 <= k < |order| :: ProductionReports(ps, states, order[k], d)
  {
    if order == [] then []
    else
      var front := order[..|order| - 1];
      assert forall k | 0 <= k < |front| :: front[k] == order[k];
      ProductionLevel(ps, states, front) + ProductionDiagnostics(ps, states, order[|order| - 1])
  }

  /** The state error, then the left-recursion warning, of the production named n. */
  function ProductionDiagnostics(ps: Productions, states: seq<LexicalStates.LexicalStateData>, n: string): (r: seq<Diagnostic>)
    requires Closed(ps) && n in ps
    ensures forall d :: d in r <==> ProductionReports(ps, states, n, d)
  {
    var p := ps[n];
    (if p.lexicalState.Some? && !StateDefined(states, p.lexicalState.value)
     then [Error(UndefinedLexicalState(p.lexicalState.value))] else []) +
    (if IsLeftRecursive(ps, n) then [Warning(LeftRecursive(n))] else [])
  }

  lemma ProductionLevelStep(ps: Productions, states: seq<LexicalStates.LexicalStateData>, order: seq<string>, k: nat)
    requires Closed(ps) && forall j | 0 <= j < |order| :: order[j] in ps
    requires k < |order|
    ensures var p := ps[order[k]];
      ProductionLevel(ps, states, order[..k + 1]) == ProductionLevel(ps, states, order[..k]) +
      (if p.lexicalState.Some? && !StateDefined(states, p.lexicalState.value)
       then [Error(UndefinedLexicalState(p.lexicalState.value))] else []) +
      (if IsLeftRecursive(ps, order[k]) then [Warning(LeftRecursive(order[k]))] else [])
  {
    assert order[..k + 1][..k] == order[..k];
  }

  /** What the production named n is reported for. */
  ghost predicate ProductionReports(ps: Productions, states: seq<LexicalStates.LexicalStateData>, n: string, d: Diagnostic)
    requires Closed(ps) && n in ps
  {
    (ps[n].lexicalState.Some? && !StateDefined(states, ps[n].lexicalState.value) &&
     d == Error(UndefinedLexicalState(ps[n].lexicalState.value))) ||
    (IsLeftRecursive(ps, n) && d == Warning(LeftRecursive(n)))
  }

  /** The passes after the checks on the productions themselves, in order. */
  const LatePasses: seq<NodePass> := [SpecifiedStatePass, UnreachablePass, LoopPass, OptionalPass, LookBehindPass, UpToPass]

  /**
   * Everything the checks on the expansions report, pass by pass in the
   * order doChecks makes them; the first exception ends the checks.
   */
  function ExpansionChecks(ps: Productions, states: seq<LexicalStates.LexicalStateData>, jc: JavaChars,
                           order: seq<string>): Result<seq<Diagnostic>>
    requires Closed(ps) && forall k | 0 <= k < |order| :: order[k] in ps
  {
    var scanAhead := GrammarChecks(ScanAheadPass, ps, states, jc, order);
    var upToHere := Then(scanAhead, GrammarChecks(UpToHerePass, ps, states, jc, order));
    var productions := Then(upToHere, Ok(ProductionLevel(ps, states, order)));
    PassChain(productions, LatePasses, ps, states, jc, order)
  }

  /** The results so far, followed by the given passes in order. */
  function PassChain(so: Result<seq<Diagnostic>>, passes: seq<NodePass>, ps: Productions,
                 states: seq<LexicalStates.LexicalStateData>, jc: JavaChars, order: seq<string>): Result<seq<Diagnostic>>
    requires Closed(ps) && forall k | 0 <= k < |order| :: order[k] in ps
    decreases |passes|
  {
    if passes == [] then so
    else PassChain(Then(so, GrammarChecks(passes[0], ps, states, jc, order)), passes[1..], ps, states, jc, order)
  }

  /** An exception ends the chain. */
  lemma {:induction false} PassChainThrown(x: string, passes: seq<NodePass>, ps: Productions,
                                       states: seq<LexicalStates.LexicalStateData>, jc: JavaChars, order: seq<string>)
    requires Closed(ps) && forall k | 0 <= k < |order| :: order[k] in ps
    ensures PassChain(Thrown(x), passes, ps, states, jc, order) == Thrown(x)
  {
    if passes != [] {
      PassChainThrown(x, passes[1..], ps, states, jc, order);
    }
  }

  /** One pass over every expansion node of production p, in document order. */
  method RunProductionPass(pass: NodePass, ps: Productions, states: seq<LexicalStates.LexicalStateData>, jc: JavaChars,
                           p: Production) returns (ds: seq<Diagnostic>, thrown: Option<string>)
    requires Closed(ps) && Defined(ps, p.expansion)
    ensures var r := ProductionChecks(pass, ps, states, jc, p);
      (r.Ok? <==> thrown.None?) && (r.Ok? ==> ds == r.value) && (r.Thrown? ==> thrown == Some(r.exception))
  {
    PathsAreNodes(p);
    var qs := NodePaths(p.expansion);
    ds := [];
    assert qs[..0] == [];
    for j := 0 to |qs|
      invariant PathChecks(pass, ps, states, jc, p, qs[..j]) == Ok(ds)
    {
      var r := NodeChecks(pass, ps, states, jc, p, qs[j]);
      PathStep(pass, ps, states, jc, p, qs, j);
      if r.Thrown? {
        PathThrown(pass, ps, states, jc, p, qs, j + 1, r.exception);
        return ds, Some(r.exception);
      }
      ds := ds + r.value;
    }
    assert qs[..|qs|] == qs;
    return ds, None;
  }

  /** Once a prefix of the paths has thrown, the pass over all of them throws the same. */
  lemma {:induction false} PathThrown(pass: NodePass, ps: Productions, states: seq<LexicalStates.LexicalStateData>, jc: JavaChars,
                                      p: Production, qs: seq<Path>, m: nat, x: string)
    requires Closed(ps) && Defined(ps, p.expansion) && forall k | 0 <= k < |qs| :: IsNode(p, qs[k])
    requires m <= |qs| && PathChecks(pass, ps, states, jc, p, qs[..m]) == Thrown(x)
    ensures PathChecks(pass, ps, states, jc, p, qs) == Thrown(x)
    decreases |qs|
  {
    if m < |qs| {
      var front := qs[..|qs| - 1];
      assert front[..m] == qs[..m];
      PathThrown(pass, ps, states, jc, p, front, m, x);
    } else {
      assert qs[..m] == qs;
    }
  }

  /** One more path: the pass so far, then that node's checks. */
  lemma PathStep(pass: NodePass, ps: Productions, states: seq<LexicalStates.LexicalStateData>, jc: JavaChars,
                 p: Production, qs: seq<Path>, j: nat)
    requires Closed(ps) && Defined(ps, p.expansion) && forall k | 0 <= k < |qs| :: IsNode(p, qs[k])
    requires j < |qs|
    ensures PathChecks(pass, ps, states, jc, p, qs[..j + 1]) ==
      Then(PathChecks(pass, ps, states, jc, p, qs[..j]), NodeChecks(pass, ps, states, jc, p, qs[j]))
  {
    assert qs[..j + 1][..j] == qs[..j];
  }

  /** One more production: the pass so far, then that production's nodes. */
  lemma GrammarStep(pass: NodePass, ps: Productions, states: seq<LexicalStates.LexicalStateData>, jc: JavaChars,
                    order: seq<string>, k: nat)
    requires Closed(ps) && forall j | 0 <= j < |order| :: order[j] in ps
    requires k < |order|
    ensures GrammarChecks(pass, ps, states, jc, order[..k + 1]) ==
      Then(GrammarChecks(pass, ps, states, jc, order[..k]), ProductionChecks(pass, ps, states, jc, ps[order[k]]))
  {
    assert order[..k + 1][..k] == order[..k];
  }

  /** Once a prefix of the productions has thrown, the pass over all of them throws the same. */
  lemma {:induction false} GrammarThrown(pass: NodePass, ps: Productions, states: seq<LexicalStates.LexicalStateData>, jc: JavaChars,
                                         order: seq<string>, m: nat, x: string)
    requires Closed(ps) && forall k | 0 <= k < |order| :: order[k] in ps
    requires m <= |order| && GrammarChecks(pass, ps, states, jc, order[..m]) == Thrown(x)
    ensures GrammarChecks(pass, ps, states, jc, order) == Thrown(x)
    decreases |order|
  {
    if m < |order| {
      var front := order[..|order| - 1];
      assert front[..m] == order[..m];
      GrammarThrown(pass, ps, states, jc, front, m, x);
    } else {
      assert order[..m] == order;
    }
  }

  /** The set of the lexical states' objects, which the literal tables live in. */
  ghost function StateObjects(states: seq<LexicalStates.LexicalStateData>): set<object>
  {
    set k | 0 <= k < |states| :: states[k]
  }

  /** The labels the named-token table files expressions under: a reference or an unlabelled expression has none (""). */
  function SpecLabels(specs: seq<RegexpSpec>): (r: seq<string>)
    reads set k | 0 <= k < |specs| :: specs[k].regexp
    ensures |r| == |specs|
  {
    seq(|specs|, k requires 0 <= k < |specs| reads set j | 0 <= j < |specs| :: specs[j].regexp =>
      if !specs[k].regexp.IsRef() then specs[k].regexp.explicitLabel else "")
  }

  function SpecRegexps(specs: seq<RegexpSpec>): (r: seq<RegularExpression>)
    ensures |r| == |specs|
  {
    seq(|specs|, k requires 0 <= k < |specs| => specs[k].regexp)
  }

  /** The expressions of the token productions, as objects. */
  ghost function SpecObjects(tps: seq<TokenProduction>): set<RegularExpression>
  {
    set t, k | 0 <= t < |tps| && 0 <= k < |tps[t].specs| :: tps[t].specs[k].regexp
  }

  /** Every literal filed in a lexical state's tables is public. */
  ghost predicate PublicTables(lsd: LexicalStates.LexicalStateData)
    reads lsd
  {
    (forall image | image in lsd.caseSensitiveTokenTable :: !lsd.caseSensitiveTokenTable[image].isPrivate) &&
    (forall image | image in lsd.caseInsensitiveTokenTable :: !lsd.caseInsensitiveTokenTable[image].isPrivate)
  }

  ghost predicate TablesPublic(states: seq<LexicalStates.LexicalStateData>)
    reads StateObjects(states)
  {
    forall k | 0 <= k < |states| :: PublicTables(states[k])
  }

  /** What looking a string literal up in one lexical state led to. */
  datatype LiteralOutcome =
    | Added              // not there: filed, and registered if it had no ordinal yet
    | Known              // there, and the production is explicit: nothing happens
    | OtherKind(kind: string)  // there as a token of another kind: an error
    | PrivateKnown       // there as a private expression of this production: an error
    | Shared             // there: the literal takes its ordinal and leaves the production

  /** What looking a literal up in a lexical state leads to, given what the state's tables hold for its image. */
  function Classify(already: Option<RegularExpression>, explicit: bool, privates: set<RegularExpression>): LiteralOutcome
  {
    if already.None? then Added
    else if explicit then Known
    else if already.value.tokenKind.Some? && already.value.tokenKind.value != "TOKEN" then OtherKind(already.value.tokenKind.value)
    else if already.value in privates then PrivateKnown
    else Shared
  }

  /** The error one outcome adds for the literal image. */
  function OutcomeError(image: string, o: LiteralOutcome): seq<Diagnostic>
  {
    match o
    case OtherKind(kind) => [Error(LiteralOfOtherKind(image, kind))]
    case PrivateKnown => [Error(LiteralIsPrivate(image))]
    case _ => []
  }

  /** The errors of the outcomes in the lexical states, in order. */
  function OutcomeErrors(image: string, os: seq<LiteralOutcome>): seq<Diagnostic>
  {
    if os == [] then [] else OutcomeErrors(image, os[..|os| - 1]) + OutcomeError(image, os[|os| - 1])
  }

  lemma {:induction false} OutcomeErrorsStep(image: string, os: seq<LiteralOutcome>, o: LiteralOutcome)
    ensures OutcomeErrors(image, os + [o]) == OutcomeErrors(image, os) + OutcomeError(image, o)
  {
    assert (os + [o])[..|os|] == os;
  }

  /** The outcomes only ever call for literal errors, and for errors about another kind when no private expression was met. */
  lemma {:induction false} OutcomeErrorsKinds(image: string, os: seq<LiteralOutcome>)
    ensures LiteralErrors(OutcomeErrors(image, os))
    ensures PrivateKnown !in os ==> OtherKindErrors(OutcomeErrors(image, os))
  {
    if os != [] {
      OutcomeErrorsKinds(image, os[..|os| - 1]);
      assert os[..|os| - 1] + [os[|os| - 1]] == os;
    }
  }

  /** The lexical state of that name (getLexicalState). */
  function StateNamed(states: seq<LexicalStates.LexicalStateData>, name: string): LexicalStates.LexicalStateData
    requires StateDefined(states, name)
  {
    states[IndexOfState(states, name)]
  }

  /** The i-th name is the first of the names to denote its lexical state. */
  predicate FirstVisit(states: seq<LexicalStates.LexicalStateData>, names: seq<string>, i: nat)
    requires i < |names| && forall j | 0 <= j < |names| :: StateDefined(states, names[j])
  {
    forall j | 0 <= j < i :: StateNamed(states, names[j]) != StateNamed(states, names[i])
  }

  /** No name before the i-th denotes the lexical state o. */
  predicate Unvisited(states: seq<LexicalStates.LexicalStateData>, names: seq<string>, i: nat, o: LexicalStates.LexicalStateData)
    requires i <= |names| && forall j | 0 <= j < |names| :: StateDefined(states, names[j])
  {
    forall j | 0 <= j < i :: StateNamed(states, names[j]) != o
  }

  /** What each lexical state's tables hold for the image. */
  ghost function Lookups(states: seq<LexicalStates.LexicalStateData>, image: string, toUpper: string -> string): (r: seq<Option<RegularExpression>>)
    reads StateObjects(states)
    ensures |r| == |states|
  {
    seq(|states|, k requires 0 <= k < |states| reads StateObjects(states) => states[k].GetStringLiteral(image, toUpper))
  }

  /** The lexical states no name before the i-th denotes still hold what entry says for the image. */
  ghost predicate Untouched(states: seq<LexicalStates.LexicalStateData>, names: seq<string>, i: nat, image: string,
                            toUpper: string -> string, entry: seq<Option<RegularExpression>>)
    requires i <= |names| && forall j | 0 <= j < |names| :: StateDefined(states, names[j])
    reads StateObjects(states)
  {
    |entry| == |states| &&
    forall k | 0 <= k < |states| && Unvisited(states, names, i, states[k]) :: states[k].GetStringLiteral(image, toUpper) == entry[k]
  }

  /** Each outcome is what its lookup leads to. */
  predicate Outcomes(found: seq<Option<RegularExpression>>, outcomes: seq<LiteralOutcome>, explicit: bool, privates: set<RegularExpression>)
    requires |found| == |outcomes|
  {
    forall j | 0 <= j < |found| :: outcomes[j] == Classify(found[j], explicit, privates)
  }

  lemma {:induction false} OutcomesStep(found: seq<Option<RegularExpression>>, outcomes: seq<LiteralOutcome>, explicit: bool, privates: set<RegularExpression>,
                     already: Option<RegularExpression>)
    requires |found| == |outcomes| && Outcomes(found, outcomes, explicit, privates)
    ensures Outcomes(found + [already], outcomes + [Classify(already, explicit, privates)], explicit, privates)
  {
  }

  /** For each of the first names that is the first to denote its lexical state, found holds what entry says for that state. */
  predicate FirstFound(states: seq<LexicalStates.LexicalStateData>, names: seq<string>, entry: seq<Option<RegularExpression>>,
                       found: seq<Option<RegularExpression>>)
    requires |found| <= |names| && |entry| == |states| && forall j | 0 <= j < |names| :: StateDefined(states, names[j])
  {
    forall j | 0 <= j < |found| && FirstVisit(states, names, j) :: found[j] == entry[IndexOfState(states, names[j])]
  }

  lemma {:induction false} FirstFoundStep(states: seq<LexicalStates.LexicalStateData>, names: seq<string>, entry: seq<Option<RegularExpression>>,
                       found: seq<Option<RegularExpression>>, already: Option<RegularExpression>)
    requires |found| < |names| && |entry| == |states| && forall j | 0 <= j < |names| :: StateDefined(states, names[j])
    requires FirstFound(states, names, entry, found)
    requires FirstVisit(states, names, |found|) ==> already == entry[IndexOfState(states, names[|found|])]
    ensures FirstFound(states, names, entry, found + [already])
  {
  }
  /**
   * The literal has been looked up in the lexical states of the first
   * |outcomes| names: found and outcomes say what each lookup met and led
   * to, removed whether some state shared it, ds the errors so far.
   */
  predicate Progress(states: seq<LexicalStates.LexicalStateData>, names: seq<string>, image: string, entry: seq<Option<RegularExpression>>,
                     explicit: bool, privates: set<RegularExpression>, noPrivate: bool,
                     removed: bool, ds: seq<Diagnostic>, found: seq<Option<RegularExpression>>, outcomes: seq<LiteralOutcome>)
    requires |entry| == |states| && forall j | 0 <= j < |names| :: StateDefined(states, names[j])
  {
    |found| == |outcomes| <= |names| &&
    Outcomes(found, outcomes, explicit, privates) &&
    FirstFound(states, names, entry, found) &&
    (removed <==> Shared in outcomes) && (removed ==> !explicit) &&
    ds == OutcomeErrors(image, outcomes) &&
    (noPrivate ==> PrivateKnown !in outcomes)
  }

  lemma {:induction false} ProgressStep(states: seq<LexicalStates.LexicalStateData>, names: seq<string>, image: string,
                                        entry: seq<Option<RegularExpression>>, explicit: bool, privates: set<RegularExpression>,
                                        noPrivate: bool, removed: bool, ds: seq<Diagnostic>, found: seq<Option<RegularExpression>>,
                                        outcomes: seq<LiteralOutcome>, already: Option<RegularExpression>, outcome: LiteralOutcome)
    requires |entry| == |states| && forall j | 0 <= j < |names| :: StateDefined(states, names[j])
    requires Progress(states, names, image, entry, explicit, privates, noPrivate, removed, ds, found, outcomes)
    requires |found| < |names| && outcome == Classify(already, explicit, privates)
    requires FirstVisit(states, names, |found|) ==> already == entry[IndexOfState(states, names[|found|])]
    requires noPrivate ==> outcome != PrivateKnown
    ensures Progress(states, names, image, entry, explicit, privates, noPrivate,
                     removed || outcome == Shared, ds + OutcomeError(image, outcome), found + [already], outcomes + [outcome])
  {
    OutcomeErrorsStep(image, outcomes, outcome);
    FirstFoundStep(states, names, entry, found, already);
    OutcomesStep(found, outcomes, explicit, privates, already);
  }


  /** Whether the literal consolidation records an expression's label under its ordinal: a public non-reference. */
  predicate Recordable(s: RegexpSpec)
  {
    !s.regexp.IsRef() && !s.regexp.isPrivate
  }

  /** The private expressions among the first k, which the consolidation has remembered by then. */
  function PrivatesBefore(specs: seq<RegexpSpec>, k: nat): set<RegularExpression>
    requires k <= |specs|
  {
    set j | 0 <= j < k && !specs[j].regexp.IsRef() && specs[j].regexp.isPrivate :: specs[j].regexp
  }

  /** The expressions a token production keeps of its first |outcomes|: all but the literals some lexical state shared. */
  function KeptSpecs(specs: seq<RegexpSpec>, outcomes: seq<seq<LiteralOutcome>>): seq<RegexpSpec>
    requires |outcomes| <= |specs|
  {
    if outcomes == [] then []
    else
      var n := |outcomes| - 1;
      KeptSpecs(specs, outcomes[..n]) + (if Shared in outcomes[n] then [] else [specs[n]])
  }

  /** The errors of the first |outcomes| expressions' outcomes, expression by expression. */
  function SpecErrors(specs: seq<RegexpSpec>, outcomes: seq<seq<LiteralOutcome>>): seq<Diagnostic>
    requires |outcomes| <= |specs|
  {
    if outcomes == [] then []
    else
      var n := |outcomes| - 1;
      SpecErrors(specs, outcomes[..n]) +
      (if specs[n].regexp.Image().Some? then OutcomeErrors(specs[n].regexp.Image().value, outcomes[n]) else [])
  }

  /** The token-name table after the first |ords| public non-references' labels are recorded under their ordinals, in order. */
  function RecordLabels(names0: map<int, string>, specs: seq<RegexpSpec>, ords: seq<int>, labels: seq<string>): map<int, string>
    requires |ords| == |labels| <= |specs|
  {
    if ords == [] then names0
    else
      var n := |ords| - 1;
      var m := RecordLabels(names0, specs, ords[..n], labels[..n]);
      if Recordable(specs[n]) && labels[n] != "" then m[ords[n] := labels[n]] else m
  }

  lemma {:induction false} PrivatesStep(specs: seq<RegexpSpec>, k: nat)
    requires k < |specs|
    ensures PrivatesBefore(specs, k + 1) ==
      PrivatesBefore(specs, k) + (if !specs[k].regexp.IsRef() && specs[k].regexp.isPrivate then {specs[k].regexp} else {})
  {
  }

  /** One more expression is kept unless it is shared. */
  lemma KeptSpecStep(specs: seq<RegexpSpec>, outcomes: seq<seq<LiteralOutcome>>, o: seq<LiteralOutcome>,
                 kept: seq<RegexpSpec>, keep: bool)
    requires |outcomes| < |specs| && kept == KeptSpecs(specs, outcomes) && (keep <==> Shared !in o)
    ensures kept + (if keep then [specs[|outcomes|]] else []) == KeptSpecs(specs, outcomes + [o])
  {
    assert (outcomes + [o])[..|outcomes|] == outcomes;
  }

  /** One more expression adds the errors of its outcomes. */
  lemma SpecErrorsStep(specs: seq<RegexpSpec>, outcomes: seq<seq<LiteralOutcome>>, o: seq<LiteralOutcome>,
                   ds: seq<Diagnostic>, more: seq<Diagnostic>)
    requires |outcomes| < |specs| && ds == SpecErrors(specs, outcomes)
    requires var s := specs[|outcomes|];
      more == if s.regexp.Image().Some? then OutcomeErrors(s.regexp.Image().value, o) else []
    ensures ds + more == SpecErrors(specs, outcomes + [o])
  {
    assert (outcomes + [o])[..|outcomes|] == outcomes;
  }

  /** One more public non-reference with a label records it under its ordinal; the old keys stay. */
  lemma RecordLabelsStep(names0: map<int, string>, specs: seq<RegexpSpec>, ords: seq<int>, labels: seq<string>,
                   names: map<int, string>, ord: int, lab: string, names': map<int, string>)
    requires |ords| == |labels| < |specs| && names == RecordLabels(names0, specs, ords, labels)
    requires names' == if Recordable(specs[|ords|]) && lab != "" then names[ord := lab] else names
    ensures names' == RecordLabels(names0, specs, ords + [ord], labels + [lab])
    ensures names.Keys <= names'.Keys
  {
    assert (ords + [ord])[..|ords|] == ords;
    assert (labels + [lab])[..|labels|] == labels;
  }

  /**
   * found and outcomes are, for the first |outcomes| expressions of a token
   * production and lexical state by lexical state, what its string literals
   * met in the tables and what that led to: one entry per lexical state for
   * a public literal, none for any other expression.
   */
  predicate Classified(tp: TokenProduction, found: seq<seq<Option<RegularExpression>>>, outcomes: seq<seq<LiteralOutcome>>)
  {
    |found| == |outcomes| <= |tp.specs| &&
    forall k | 0 <= k < |outcomes| ::
      |found[k]| == |outcomes[k]| &&
      (if Recordable(tp.specs[k]) && tp.specs[k].regexp.Image().Some? then |outcomes[k]| == |tp.lexicalStateNames|
       else outcomes[k] == []) &&
      Outcomes(found[k], outcomes[k], tp.explicit, PrivatesBefore(tp.specs, k))
  }


  /** The per-expression records of the first |xs| token productions have the right shape. */
  predicate Shaped<T>(tps: seq<TokenProduction>, xs: seq<seq<T>>)
  {
    |xs| <= |tps| && forall t | 0 <= t < |xs| :: |xs[t]| == |tps[t].specs|
  }

  /** The first |outcomes| token productions, each less the literals some lexical state shared. */
  function AllKept(tps: seq<TokenProduction>, outcomes: seq<seq<seq<LiteralOutcome>>>): (r: seq<TokenProduction>)
    requires Shaped(tps, outcomes)
    ensures |r| == |outcomes|
  {
    seq(|outcomes|, t requires 0 <= t < |outcomes| => tps[t].(specs := KeptSpecs(tps[t].specs, outcomes[t])))
  }

  /** The consolidation's errors over the first |outcomes| token productions, production by production. */
  function AllErrors(tps: seq<TokenProduction>, outcomes: seq<seq<seq<LiteralOutcome>>>): seq<Diagnostic>
    requires Shaped(tps, outcomes)
  {
    if outcomes == [] then []
    else
      var n := |outcomes| - 1;
      AllErrors(tps, outcomes[..n]) + SpecErrors(tps[n].specs, outcomes[n])
  }

  /** The token-name table after the labels of the first |ords| productions are recorded, production by production. */
  function RecordAll(names0: map<int, string>, tps: seq<TokenProduction>, ords: seq<seq<int>>, labels: seq<seq<string>>): map<int, string>
    requires Shaped(tps, ords) && Shaped(tps, labels) && |labels| == |ords|
  {
    if ords == [] then names0
    else
      var n := |ords| - 1;
      RecordLabels(RecordAll(names0, tps, ords[..n], labels[..n]), tps[n].specs, ords[n], labels[n])
  }

  /** One more token production extends the kept productions by itself less its shared literals. */
  lemma {:induction false} KeptStep(tps: seq<TokenProduction>, outcomes: seq<seq<seq<LiteralOutcome>>>, o: seq<seq<LiteralOutcome>>)
    requires Shaped(tps, outcomes) && |outcomes| < |tps| && |o| == |tps[|outcomes|].specs|
    ensures Shaped(tps, outcomes + [o])
    ensures AllKept(tps, outcomes + [o]) == AllKept(tps, outcomes) + [tps[|outcomes|].(specs := KeptSpecs(tps[|outcomes|].specs, o))]
  {
  }

  /** One more token production extends the errors by those of its outcomes. */
  lemma {:induction false} ErrorsStep(tps: seq<TokenProduction>, outcomes: seq<seq<seq<LiteralOutcome>>>, o: seq<seq<LiteralOutcome>>)
    requires Shaped(tps, outcomes) && |outcomes| < |tps| && |o| == |tps[|outcomes|].specs|
    ensures Shaped(tps, outcomes + [o])
    ensures AllErrors(tps, outcomes + [o]) == AllErrors(tps, outcomes) + SpecErrors(tps[|outcomes|].specs, o)
  {
    assert (outcomes + [o])[..|outcomes|] == outcomes;
  }

  /** One more token production records its own labels on top of the earlier ones. */
  lemma {:induction false} RecordStep(names0: map<int, string>, tps: seq<TokenProduction>,
                   ords: seq<seq<int>>, os: seq<int>, labels: seq<seq<string>>, ls: seq<string>)
    requires Shaped(tps, ords) && Shaped(tps, labels) && |labels| == |ords| < |tps|
    requires |os| == |tps[|ords|].specs| && |ls| == |tps[|ords|].specs|
    ensures Shaped(tps, ords + [os]) && Shaped(tps, labels + [ls])
    ensures RecordAll(names0, tps, ords + [os], labels + [ls]) ==
      RecordLabels(RecordAll(names0, tps, ords, labels), tps[|ords|].specs, os, ls)
  {
    assert (ords + [os])[..|ords|] == ords;
    assert (labels + [ls])[..|ords|] == labels;
  }

  /** The kept expressions are expressions of the production, and every expression no state shared is kept. */
  lemma {:induction false} KeptIn(specs: seq<RegexpSpec>, outcomes: seq<seq<LiteralOutcome>>)
    requires |outcomes| <= |specs|
    ensures forall s | s in KeptSpecs(specs, outcomes) :: s in specs
    ensures forall j | 0 <= j < |outcomes| && Shared !in outcomes[j] :: specs[j] in KeptSpecs(specs, outcomes)
  {
    if outcomes != [] {
      var n := |outcomes| - 1;
      KeptIn(specs, outcomes[..n]);
      assert forall j | 0 <= j < n :: outcomes[..n][j] == outcomes[j];
    }
  }

  /** A token production less its shared literals is pruned of removable expressions only. */
  lemma KeptPruned(tp: TokenProduction, found: seq<seq<Option<RegularExpression>>>, outcomes: seq<seq<LiteralOutcome>>)
    requires Classified(tp, found, outcomes) && |outcomes| == |tp.specs|
    ensures Pruned(tp, tp.(specs := KeptSpecs(tp.specs, outcomes)))
  {
    KeptIn(tp.specs, outcomes);
    forall s | s in tp.specs && s !in KeptSpecs(tp.specs, outcomes)
      ensures Removable(tp, s)
    {
      var j :| 0 <= j < |tp.specs| && tp.specs[j] == s;
      var i :| 0 <= i < |outcomes[j]| && outcomes[j][i] == Shared;
      assert outcomes[j][i] == Classify(found[j][i], tp.explicit, PrivatesBefore(tp.specs, j));
    }
  }

  /** The consolidation's errors are literal errors, and only about another kind when no lookup met a private expression. */
  /** No lookup among these outcomes met a private expression. */
  predicate NoneKnownPrivate(outcomes: seq<seq<LiteralOutcome>>)
  {
    forall j | 0 <= j < |outcomes| :: PrivateKnown !in outcomes[j]
  }

  lemma {:induction false} NoneKnownPrivateStep(outcomes: seq<seq<LiteralOutcome>>, o: seq<LiteralOutcome>)
    requires NoneKnownPrivate(outcomes) && PrivateKnown !in o
    ensures NoneKnownPrivate(outcomes + [o])
  {
    assert forall j | 0 <= j < |outcomes| :: (outcomes + [o])[j] == outcomes[j];
  }

  lemma {:induction false} SpecErrorsKinds(specs: seq<RegexpSpec>, outcomes: seq<seq<LiteralOutcome>>)
    requires |outcomes| <= |specs|
    ensures LiteralErrors(SpecErrors(specs, outcomes))
    ensures NoneKnownPrivate(outcomes) ==> OtherKindErrors(SpecErrors(specs, outcomes))
  {
    if outcomes != [] {
      var n := |outcomes| - 1;
      SpecErrorsKinds(specs, outcomes[..n]);
      assert forall j | 0 <= j < n :: outcomes[..n][j] == outcomes[j];
      if specs[n].regexp.Image().Some? {
        OutcomeErrorsKinds(specs[n].regexp.Image().value, outcomes[n]);
      }
    }
  }

  /**
   * The first |outcomes| expressions of a token production are consolidated:
   * kept, names and ds are what they add up to, labels0 the explicit labels
   * the expressions had on entry, regs the registered expressions.
   */
  predicate ProductionProgress(tp: TokenProduction, names0: map<int, string>, labels0: seq<string>, regs: seq<RegularExpression>,
                               noPrivate: bool, kept: seq<RegexpSpec>, names: map<int, string>, ds: seq<Diagnostic>,
                               found: seq<seq<Option<RegularExpression>>>, outcomes: seq<seq<LiteralOutcome>>,
                               ords: seq<int>, labels: seq<string>)
    requires |labels0| == |tp.specs|
  {
    Classified(tp, found, outcomes) && |ords| == |outcomes| && |labels| == |outcomes| &&
    var n := |outcomes|;
    kept == KeptSpecs(tp.specs, outcomes) &&
    ds == SpecErrors(tp.specs, outcomes) &&
    names == RecordLabels(names0, tp.specs, ords, labels) &&
    LabelsTied(tp.specs, labels0, ords, labels) &&
    Registered(tp.specs, regs, ords) &&
    (noPrivate ==> NoneKnownPrivate(outcomes)) &&
    names0.Keys <= names.Keys
  }

  /** Each of the first |labels| public non-references was recorded with the label its explicit label and ordinal give. */
  predicate LabelsTied(specs: seq<RegexpSpec>, labels0: seq<string>, ords: seq<int>, labels: seq<string>)
    requires |labels0| == |specs| && |ords| == |labels| <= |specs|
  {
    forall j | 0 <= j < |labels| && Recordable(specs[j]) :: labels[j] == LabelOf(labels0[j], ords[j])
  }

  /** Each of the first |ords| public non-literals sits at its ordinal among the registered expressions. */
  predicate Registered(specs: seq<RegexpSpec>, regs: seq<RegularExpression>, ords: seq<int>)
    requires |ords| <= |specs|
  {
    forall j | 0 <= j < |ords| && Recordable(specs[j]) && specs[j].regexp.Image().None? ::
      0 <= ords[j] < |regs| && regs[ords[j]] == specs[j].regexp
  }

  lemma {:induction false} ClassifiedStep(tp: TokenProduction, found: seq<seq<Option<RegularExpression>>>, outcomes: seq<seq<LiteralOutcome>>,
                                          f: seq<Option<RegularExpression>>, o: seq<LiteralOutcome>)
    requires Classified(tp, found, outcomes) && |outcomes| < |tp.specs| && |f| == |o|
    requires var s := tp.specs[|outcomes|];
      if Recordable(s) && s.regexp.Image().Some? then |o| == |tp.lexicalStateNames| else o == []
    requires Outcomes(f, o, tp.explicit, PrivatesBefore(tp.specs, |outcomes|))
    ensures Classified(tp, found + [f], outcomes + [o])
  {
    var k := |outcomes|;
    assert forall j | 0 <= j < k :: (outcomes + [o])[j] == outcomes[j] && (found + [f])[j] == found[j];
  }

  lemma {:induction false} LabelsTiedStep(specs: seq<RegexpSpec>, labels0: seq<string>, ords: seq<int>, labels: seq<string>, ord: int, lab: string)
    requires |labels0| == |specs| && |ords| == |labels| < |specs| && LabelsTied(specs, labels0, ords, labels)
    requires Recordable(specs[|labels|]) ==> lab == LabelOf(labels0[|labels|], ord)
    ensures LabelsTied(specs, labels0, ords + [ord], labels + [lab])
  {
    assert forall j | 0 <= j < |labels| :: (labels + [lab])[j] == labels[j] && (ords + [ord])[j] == ords[j];
  }

  lemma {:induction false} RegisteredStep(specs: seq<RegexpSpec>, regs: seq<RegularExpression>, regs': seq<RegularExpression>,
                                          ords: seq<int>, ord: int)
    requires |ords| < |specs| && regs <= regs' && Registered(specs, regs, ords)
    requires Recordable(specs[|ords|]) && specs[|ords|].regexp.Image().None? ==> 0 <= ord < |regs'| && regs'[ord] == specs[|ords|].regexp
    ensures Registered(specs, regs', ords + [ord])
  {
    assert forall j | 0 <= j < |ords| :: (ords + [ord])[j] == ords[j];
    assert forall i | 0 <= i < |regs| :: regs'[i] == regs[i];
  }

  lemma ProductionProgressStep(tp: TokenProduction, names0: map<int, string>, labels0: seq<string>,
                               regs: seq<RegularExpression>, regs': seq<RegularExpression>, noPrivate: bool,
                               kept: seq<RegexpSpec>, names: map<int, string>, ds: seq<Diagnostic>,
                               found: seq<seq<Option<RegularExpression>>>, outcomes: seq<seq<LiteralOutcome>>,
                               ords: seq<int>, labels: seq<string>,
                               keep: bool, names': map<int, string>, more: seq<Diagnostic>,
                               f: seq<Option<RegularExpression>>, o: seq<LiteralOutcome>, ord: int, lab: string)
    requires |labels0| == |tp.specs| && |outcomes| < |tp.specs| && regs <= regs'
    requires ProductionProgress(tp, names0, labels0, regs, noPrivate, kept, names, ds, found, outcomes, ords, labels)
    requires var k := |outcomes|; var s := tp.specs[k];
      |f| == |o| &&
      (if Recordable(s) && s.regexp.Image().Some? then |o| == |tp.lexicalStateNames| else o == []) &&
      Outcomes(f, o, tp.explicit, PrivatesBefore(tp.specs, k)) &&
      (keep <==> Shared !in o) &&
      more == (if s.regexp.Image().Some? then OutcomeErrors(s.regexp.Image().value, o) else []) &&
      names' == (if Recordable(s) && lab != "" then names[ord := lab] else names) &&
      (Recordable(s) ==> lab == LabelOf(labels0[k], ord)) &&
      (Recordable(s) && s.regexp.Image().None? ==> 0 <= ord < |regs'| && regs'[ord] == s.regexp) &&
      (noPrivate ==> PrivateKnown !in o)
    ensures ProductionProgress(tp, names0, labels0, regs', noPrivate, kept + (if keep then [tp.specs[|outcomes|]] else []),
                               names', ds + more, found + [f], outcomes + [o], ords + [ord], labels + [lab])
  {
    var k := |outcomes|;
    ClassifiedStep(tp, found, outcomes, f, o);
    KeptSpecStep(tp.specs, outcomes, o, kept, keep);
    SpecErrorsStep(tp.specs, outcomes, o, ds, more);
    RecordLabelsStep(names0, tp.specs, ords, labels, names, ord, lab, names');
    LabelsTiedStep(tp.specs, labels0, ords, labels, ord, lab);
    RegisteredStep(tp.specs, regs, regs', ords, ord);
    if noPrivate {
      NoneKnownPrivateStep(outcomes, o);
    }
  }


  /** Once every expression is consolidated, the records describe the whole production. */
  lemma ProductionDone(tp: TokenProduction, names0: map<int, string>, labels0: seq<string>, regs: seq<RegularExpression>,
                       noPrivate: bool, kept: seq<RegexpSpec>, names: map<int, string>, ds: seq<Diagnostic>,
                       found: seq<seq<Option<RegularExpression>>>, outcomes: seq<seq<LiteralOutcome>>,
                       ords: seq<int>, labels: seq<string>)
    requires |labels0| == |tp.specs| && |outcomes| == |tp.specs|
    requires ProductionProgress(tp, names0, labels0, regs, noPrivate, kept, names, ds, found, outcomes, ords, labels)
    ensures Classified(tp, found, outcomes) && |ords| == |tp.specs| && |labels| == |tp.specs|
    ensures kept == KeptSpecs(tp.specs, outcomes)
    ensures ds == SpecErrors(tp.specs, outcomes)
    ensures names == RecordLabels(names0, tp.specs, ords, labels)
    ensures forall k | 0 <= k < |tp.specs| && Recordable(tp.specs[k]) :: labels[k] == LabelOf(labels0[k], ords[k])
    ensures forall k | 0 <= k < |tp.specs| && Recordable(tp.specs[k]) && tp.specs[k].regexp.Image().None? ::
      0 <= ords[k] < |regs| && regs[ords[k]] == tp.specs[k].regexp
    ensures Pruned(tp, tp.(specs := kept))
    ensures names0.Keys <= names.Keys
    ensures LiteralErrors(ds)
    ensures noPrivate ==> OtherKindErrors(ds)
  {
    KeptPruned(tp, found, outcomes);
    SpecErrorsKinds(tp.specs, outcomes);
  }

  /** Each of the first |outcomes| token productions of all is classified in full. */
  predicate AllClassified(all: seq<TokenProduction>, found: seq<seq<seq<Option<RegularExpression>>>>,
                          outcomes: seq<seq<seq<LiteralOutcome>>>)
  {
    |found| == |outcomes| <= |all| &&
    forall u | 0 <= u < |outcomes| :: Classified(all[u], found[u], outcomes[u]) && |outcomes[u]| == |all[u].specs|
  }

  /** Each public non-reference of the first |labels| token productions was recorded with the label its explicit label and ordinal give. */
  predicate AllLabelsTied(all: seq<TokenProduction>, labels0: seq<seq<string>>, ords: seq<seq<int>>, labels: seq<seq<string>>)
    requires |labels0| == |all| && Shaped(all, ords) && Shaped(all, labels) && |ords| == |labels|
  {
    forall u, k | 0 <= u < |labels| && 0 <= k < |all[u].specs| && Recordable(all[u].specs[k]) ::
      |labels0[u]| == |all[u].specs| && labels[u][k] == LabelOf(labels0[u][k], ords[u][k])
  }

  lemma {:induction false} AllClassifiedStep(all: seq<TokenProduction>, found: seq<seq<seq<Option<RegularExpression>>>>,
                                             outcomes: seq<seq<seq<LiteralOutcome>>>,
                                             f: seq<seq<Option<RegularExpression>>>, o: seq<seq<LiteralOutcome>>)
    requires AllClassified(all, found, outcomes) && |outcomes| < |all|
    requires Classified(all[|outcomes|], f, o) && |o| == |all[|outcomes|].specs|
    ensures AllClassified(all, found + [f], outcomes + [o])
  {
    assert forall u | 0 <= u < |outcomes| :: (outcomes + [o])[u] == outcomes[u] && (found + [f])[u] == found[u];
  }

  lemma {:induction false} AllLabelsTiedStep(all: seq<TokenProduction>, labels0: seq<seq<string>>, ords: seq<seq<int>>, labels: seq<seq<string>>,
                                             os: seq<int>, ls: seq<string>)
    requires |labels0| == |all| && Shaped(all, ords) && Shaped(all, labels) && |ords| == |labels| < |all|
    requires |os| == |all[|ords|].specs| && |ls| == |all[|ords|].specs|
    requires AllLabelsTied(all, labels0, ords, labels)
    requires forall k | 0 <= k < |os| && Recordable(all[|ords|].specs[k]) ::
      |labels0[|ords|]| == |os| && ls[k] == LabelOf(labels0[|ords|][k], os[k])
    ensures Shaped(all, ords + [os]) && Shaped(all, labels + [ls])
    ensures AllLabelsTied(all, labels0, ords + [os], labels + [ls])
  {
    assert forall u | 0 <= u < |ords| :: (ords + [os])[u] == ords[u] && (labels + [ls])[u] == labels[u];
  }

  /** Both kinds of error lists are closed under concatenation. */
  lemma ErrorKindsAppend(ds: seq<Diagnostic>, more: seq<Diagnostic>)
    ensures LiteralErrors(ds) && LiteralErrors(more) ==> LiteralErrors(ds + more)
    ensures OtherKindErrors(ds) && OtherKindErrors(more) ==> OtherKindErrors(ds + more)
  {
  }

  /**
   * The first |outcomes| token productions of all are consolidated: tps, names
   * and ds are what they add up to, labels0 the explicit labels the
   * expressions had on entry.
   */
  predicate LiteralsProgress(all: seq<TokenProduction>, names0: map<int, string>, labels0: seq<seq<string>>, noPrivate: bool,
                             tps: seq<TokenProduction>, names: map<int, string>, ds: seq<Diagnostic>,
                             found: seq<seq<seq<Option<RegularExpression>>>>, outcomes: seq<seq<seq<LiteralOutcome>>>,
                             ords: seq<seq<int>>, labels: seq<seq<string>>)
    requires |labels0| == |all|
  {
    AllClassified(all, found, outcomes) &&
    |ords| == |outcomes| && |labels| == |outcomes| && Shaped(all, outcomes) && Shaped(all, ords) && Shaped(all, labels) &&
    tps == AllKept(all, outcomes) &&
    ds == AllErrors(all, outcomes) &&
    names == RecordAll(names0, all, ords, labels) &&
    AllLabelsTied(all, labels0, ords, labels) &&
    names0.Keys <= names.Keys &&
    LiteralErrors(ds) && (noPrivate ==> OtherKindErrors(ds))
  }

  lemma LiteralsProgressStep(all: seq<TokenProduction>, names0: map<int, string>, labels0: seq<seq<string>>, noPrivate: bool,
                             tps: seq<TokenProduction>, names: map<int, string>, ds: seq<Diagnostic>,
                             found: seq<seq<seq<Option<RegularExpression>>>>, outcomes: seq<seq<seq<LiteralOutcome>>>,
                             ords: seq<seq<int>>, labels: seq<seq<string>>,
                             kept: seq<RegexpSpec>, names': map<int, string>, more: seq<Diagnostic>,
                             f: seq<seq<Option<RegularExpression>>>, o: seq<seq<LiteralOutcome>>, os: seq<int>, ls: seq<string>)
    requires |labels0| == |all| && |outcomes| < |all|
    requires LiteralsProgress(all, names0, labels0, noPrivate, tps, names, ds, found, outcomes, ords, labels)
    requires var tp := all[|outcomes|];
      Classified(tp, f, o) && |o| == |tp.specs| && |os| == |tp.specs| && |ls| == |tp.specs| &&
      kept == KeptSpecs(tp.specs, o) && more == SpecErrors(tp.specs, o) && names' == RecordLabels(names, tp.specs, os, ls) &&
      (forall k | 0 <= k < |os| && Recordable(tp.specs[k]) :: |labels0[|outcomes|]| == |os| && ls[k] == LabelOf(labels0[|outcomes|][k], os[k])) &&
      names.Keys <= names'.Keys && LiteralErrors(more) && (noPrivate ==> OtherKindErrors(more))
    ensures LiteralsProgress(all, names0, labels0, noPrivate, tps + [all[|outcomes|].(specs := kept)], names', ds + more,
                             found + [f], outcomes + [o], ords + [os], labels + [ls])
  {
    AllClassifiedStep(all, found, outcomes, f, o);
    KeptStep(all, outcomes, o);
    ErrorsStep(all, outcomes, o);
    RecordStep(names0, all, ords, os, labels, ls);
    AllLabelsTiedStep(all, labels0, ords, labels, os, ls);
    ErrorKindsAppend(ds, more);
  }

  /** The errors the literal consolidation can add. */
  predicate LiteralErrors(ds: seq<Diagnostic>)
  {
    forall d | d in ds :: d.Error? && (d.check.LiteralOfOtherKind? || d.check.LiteralIsPrivate?)
  }

  /** Only errors about literals defined as another kind of token. */
  predicate OtherKindErrors(ds: seq<Diagnostic>)
  {
    forall d | d in ds :: d.Error? && d.check.LiteralOfOtherKind?
  }

  predicate AllPrivate(rs: set<RegularExpression>)
  {
    forall r | r in rs :: r.isPrivate
  }

  /** What the literal consolidation may remove from a token production: a public string literal of a production that is not explicit. */
  predicate Removable(tp: TokenProduction, s: RegexpSpec)
  {
    !tp.explicit && s.regexp.Image().Some? && !s.regexp.isPrivate
  }

  /** after is before less some of its removable expressions. */
  predicate Pruned(before: TokenProduction, after: TokenProduction)
  {
    after == before.(specs := after.specs) &&
    (forall s | s in after.specs :: s in before.specs) &&
    (forall s | s in before.specs && s !in after.specs :: Removable(before, s))
  }

  /** Every lexical state a token production names exists. */
  predicate StatesDefined(tps: seq<TokenProduction>, states: seq<LexicalStates.LexicalStateData>)
  {
    forall t, i | 0 <= t < |tps| && 0 <= i < |tps[t].lexicalStateNames| :: StateDefined(states, tps[t].lexicalStateNames[i])
  }

  lemma SpecInObjects(tps: seq<TokenProduction>, s: RegexpSpec)
    requires s in AllSpecs(tps)
    ensures s.regexp in SpecObjects(tps)
  {
    var t :| 0 <= t < |tps| && s in tps[t].specs;
    var i :| 0 <= i < |tps[t].specs| && tps[t].specs[i] == s;
  }

  /** Every named expression belongs to a token production, so it has a kind. */
  predicate KindsKnown(named: map<string, RegularExpression>)
  {
    forall l | l in named :: named[l].tokenKind.Some?
  }

  /** Each token production keeps only expressions it had before. */
  predicate Shrunk(before: seq<TokenProduction>, after: seq<TokenProduction>)
  {
    |before| == |after| &&
    forall t, s | 0 <= t < |after| && s in after[t].specs :: s in before[t].specs
  }

  lemma ShrunkTrans(a: seq<TokenProduction>, b: seq<TokenProduction>, c: seq<TokenProduction>)
    requires Shrunk(a, b) && Shrunk(b, c)
    ensures Shrunk(a, c)
  {
  }

  lemma PrunedShrunk(before: seq<TokenProduction>, after: seq<TokenProduction>)
    requires |before| == |after|
    requires forall t | 0 <= t < |after| :: Pruned(before[t], after[t])
    ensures Shrunk(before, after)
  {
  }

  lemma StripRefsShrunk(tps: seq<TokenProduction>)
    ensures Shrunk(tps, StripRefs(tps)) && NoRefsLeft(StripRefs(tps)) && NonRefsKept(tps, StripRefs(tps))
  {
  }

  /** No token production holds a reference. */
  predicate NoRefsLeft(tps: seq<TokenProduction>)
  {
    forall t, s | 0 <= t < |tps| && s in tps[t].specs :: !s.regexp.IsRef()
  }

  /** Every expression that is not a reference is still in its token production. */
  predicate NonRefsKept(before: seq<TokenProduction>, after: seq<TokenProduction>)
  {
    |before| == |after| &&
    forall t, s | 0 <= t < |before| && s in before[t].specs && !s.regexp.IsRef() :: s in after[t].specs
  }

  /** Pruning the productions only drops expressions. */
  lemma SpecObjectsShrink(before: seq<TokenProduction>, after: seq<TokenProduction>)
    requires |before| == |after|
    requires forall t | 0 <= t < |after| :: Pruned(before[t], after[t])
    ensures SpecObjects(after) <= SpecObjects(before)
  {
    forall r | r in SpecObjects(after) ensures r in SpecObjects(before) {
      var t, k :| 0 <= t < |after| && 0 <= k < |after[t].specs| && after[t].specs[k].regexp == r;
      assert after[t].specs[k] in before[t].specs;
      var i :| 0 <= i < |before[t].specs| && before[t].specs[i] == after[t].specs[k];
    }
  }

  /** Every expression of a token production has the production's kind. */
  predicate SpecKindsKnown(tps: seq<TokenProduction>)
  {
    forall t, k | 0 <= t < |tps| && 0 <= k < |tps[t].specs| :: tps[t].specs[k].regexp.tokenKind.Some?
  }

  /** Naming the expressions of the token productions keeps every filed expression a non-reference with a kind. */
  lemma NamedFromSpecs(tps: seq<TokenProduction>, named0: map<string, RegularExpression>)
    requires SpecKindsKnown(tps) && KindsKnown(named0) && NoRefsNamed(named0)
    ensures var specs := AllSpecs(tps);
      var named := NameAll(SpecLabels(specs), SpecRegexps(specs), named0).named;
      KindsKnown(named) && NoRefsNamed(named)
  {
    var specs := AllSpecs(tps);
    var labels, regs := SpecLabels(specs), SpecRegexps(specs);
    var named := NameAll(labels, regs, named0).named;
    forall l | l in named ensures named[l].tokenKind.Some? && !named[l].IsRef() {
      NameAllValues(labels, regs, named0, l);
      if named[l] !in named0.Values {
        var k :| 0 <= k < |labels| && labels[k] == l && l != "" && regs[k] == named[l];
        assert specs[k] in specs;
      }
    }
  }

  /** No reference is filed in the named-token table. */
  predicate NoRefsNamed(named: map<string, RegularExpression>)
  {
    forall l | l in named :: !named[l].IsRef()
  }

  /** Whether any of the diagnostics is an error (getErrorCount() > 0). */
  predicate HasErrors(ds: seq<Diagnostic>)
  {
    exists i | 0 <= i < |ds| :: ds[i].Error?
  }

  /** The token productions without their top-level references. */
  function StripRefs(tps: seq<TokenProduction>): (r: seq<TokenProduction>)
    ensures |r| == |tps|
    ensures forall t | 0 <= t < |tps| :: r[t] == tps[t].(specs := r[t].specs)
    ensures forall t, s | 0 <= t < |tps| && s in r[t].specs :: s in tps[t].specs && !s.regexp.IsRef()
    ensures forall t, s | 0 <= t < |tps| && s in tps[t].specs && !s.regexp.IsRef() :: s in r[t].specs
  {
    seq(|tps|, t requires 0 <= t < |tps| => tps[t].(specs := NonRefs(tps[t].specs)))
  }

  /** The expressions that are not references, in order. */
  function NonRefs(specs: seq<RegexpSpec>): (r: seq<RegexpSpec>)
    ensures forall s | s in r :: s in specs && !s.regexp.IsRef()
    ensures forall s | s in specs && !s.regexp.IsRef() :: s in r
  {
    if specs == [] then []
    else
      var last := specs[|specs| - 1];
      NonRefs(specs[..|specs| - 1]) + (if last.regexp.IsRef() then [] else [last])
  }

  /** One self-referential-loop error per reported reference name, in order. */
  function LoopErrors(reported: seq<string>): (r: seq<Diagnostic>)
    ensures |r| == |reported| && forall i | 0 <= i < |r| :: r[i] == Error(SelfReferentialLoop(reported[i]))
  {
    seq(|reported|, i requires 0 <= i < |reported| => Error(SelfReferentialLoop(reported[i])))
  }

  /** The references of the grammar productions: always checked. */
  function BnfSites(names: seq<string>): (r: seq<RefSite>)
    ensures |r| == |names| && forall i | 0 <= i < |names| :: r[i] == RefSite(names[i], true)
  {
    seq(|names|, i requires 0 <= i < |names| => RefSite(names[i], true))
  }

  class SanityChecker {
    /** The grammar productions, by name, and their names in document order. */
    const ps: Productions
    const order: seq<string>
    const lexerData: LexerData
    const jc: JavaChars
    /** The names of the grammar's extra tokens (getExtraTokens). */
    const extraTokens: set<string>
    /** The token names the grammar productions refer to, in order. */
    const bnfRefs: seq<string>
    var tokenProductions: seq<TokenProduction>
    /** The grammar's errors and warnings, in the order they were added. */
    var diagnostics: seq<Diagnostic>
    /** The grammar's named-token table (addNamedToken / getNamedToken). */
    var namedTokens: map<string, RegularExpression>
    /** The grammar's token names by ordinal (addTokenName). */
    var tokenNames: map<int, string>

    constructor (ps: Productions, order: seq<string>, lexerData: LexerData, jc: JavaChars, extraTokens: set<string>,
                 bnfRefs: seq<string>, tokenProductions: seq<TokenProduction>, diagnostics: seq<Diagnostic>)
      ensures this.ps == ps && this.order == order && this.lexerData == lexerData && this.jc == jc
      ensures this.extraTokens == extraTokens && this.bnfRefs == bnfRefs
      ensures this.tokenProductions == tokenProductions && this.diagnostics == diagnostics
      ensures namedTokens == map[] && tokenNames == map[]
    {
      this.ps := ps;
      this.order := order;
      this.lexerData := lexerData;
      this.jc := jc;
      this.extraTokens := extraTokens;
      this.bnfRefs := bnfRefs;
      this.tokenProductions := tokenProductions;
      this.diagnostics := diagnostics;
      namedTokens := map[];
      tokenNames := map[];
    }

    /** `order` names every production, and only productions. */
    ghost predicate Listed()
    {
      forall n :: n in ps <==> n in order
    }

    predicate InPs()
    {
      forall k | 0 <= k < |order| :: order[k] in ps
    }

    /** The first check: every non-terminal that names no production is an error; found says whether there was one. */
    method ReportUndefined() returns (ds: seq<Diagnostic>, found: bool)
      requires InPs()
      ensures ds == UndefinedErrors(UndefinedInGrammar(ps, order))
      ensures found <==> UndefinedInGrammar(ps, order) != []
    {
      var undefined := UndefinedInGrammar(ps, order);
      ds := [];
      for i := 0 to |undefined|
        invariant ds == UndefinedErrors(undefined[..i])
      {
        assert undefined[..i + 1][..i] == undefined[..i];
        ds := ds + [Error(UndefinedNonTerminal(undefined[i]))];
      }
      assert undefined[..|undefined|] == undefined;
      found := |undefined| > 0;
    }

    /**
     * One pass over every expansion node of every production: what it
     * reports, or the exception that ends it.
     */
    method RunNodePass(pass: NodePass) returns (ds: seq<Diagnostic>, thrown: Option<string>)
      requires Closed(ps) && InPs()
      ensures var r := GrammarChecks(pass, ps, lexerData.lexicalStates, jc, order);
        (r.Ok? <==> thrown.None?) && (r.Ok? ==> ds == r.value) && (r.Thrown? ==> thrown == Some(r.exception))
    {
      var states := lexerData.lexicalStates;
      ds := [];
      assert order[..0] == [];
      for k := 0 to |order|
        invariant GrammarChecks(pass, ps, states, jc, order[..k]) == Ok(ds)
      {
        GrammarStep(pass, ps, states, jc, order, k);
        var more;
        more, thrown := RunProductionPass(pass, ps, states, jc, ps[order[k]]);
        if thrown.Some? {
          GrammarThrown(pass, ps, states, jc, order, k + 1, thrown.value);
          return;
        }
        ds := ds + more;
      }
      assert order[..|order|] == order;
      return ds, None;
    }

    /** The checks on the productions themselves: their lexical states and left recursion. */
    method CheckProductions() returns (ds: seq<Diagnostic>)
      requires Closed(ps) && InPs()
      ensures ds == ProductionLevel(ps, lexerData.lexicalStates, order)
    {
      var states := lexerData.lexicalStates;
      ds := [];
      assert order[..0] == [];
      for k := 0 to |order|
        invariant ds == ProductionLevel(ps, states, order[..k])
      {
        var n := order[k];
        var p := ps[n];
        var undefinedState: seq<Diagnostic> := [];
        if p.lexicalState.Some? {
          var lsd := lexerData.GetLexicalState(p.lexicalState.value);
          if lsd.None? {
            undefinedState := [Error(UndefinedLexicalState(p.lexicalState.value))];
          }
        }
        var leftRecursive: seq<Diagnostic> := [];
        if IsLeftRecursive(ps, n) {
          leftRecursive := [Warning(LeftRecursive(n))];
        }
        ProductionLevelStep(ps, states, order, k);
        ds := ds + undefinedState + leftRecursive;
      }
      assert order[..|order|] == order;
    }

    /**
     * The checks on the expansions, from the scan-ahead check to the UPTO
     * check; an exception ends them.
     */
    method CheckExpansions() returns (ds: seq<Diagnostic>, thrown: Option<string>)
      requires Closed(ps) && InPs()
      ensures var r := ExpansionChecks(ps, lexerData.lexicalStates, jc, order);
        (r.Ok? <==> thrown.None?) && (r.Ok? ==> ds == r.value) && (r.Thrown? ==> thrown == Some(r.exception))
    {
      ghost var states := lexerData.lexicalStates;
      var more;
      ds, thrown := RunNodePass(ScanAheadPass);
      if thrown.Some? {
        PassChainThrown(thrown.value, LatePasses, ps, states, jc, order);
        return;
      }
      more, thrown := RunNodePass(UpToHerePass);
      if thrown.Some? {
        PassChainThrown(thrown.value, LatePasses, ps, states, jc, order);
        return;
      }
      ds := ds + more;
      more := CheckProductions();
      ds := ds + more;
      for i := 0 to |LatePasses|
        invariant thrown.None?
        invariant PassChain(Ok(ds), LatePasses[i..], ps, states, jc, order) == ExpansionChecks(ps, states, jc, order)
      {
        more, thrown := RunNodePass(LatePasses[i]);
        if thrown.Some? {
          PassChainThrown(thrown.value, LatePasses[i + 1..], ps, states, jc, order);
          return;
        }
        ds := ds + more;
      }
      assert LatePasses[|LatePasses|..] == [];
    }

    /** The next-state check, then the empty-match check, on every expression of the token productions. */
    method CheckSpecs() returns (ds: seq<Diagnostic>)
      ensures var specs := AllSpecs(tokenProductions);
        ds == NextStateChecks(lexerData.lexicalStates, specs) + EmptyMatchChecks(specs)
    {
      var specs := AllSpecs(tokenProductions);
      var states := lexerData.lexicalStates;
      var next: seq<Diagnostic> := [];
      assert specs[..0] == [];
      for k := 0 to |specs|
        invariant next == NextStateChecks(states, specs[..k])
      {
        var found: seq<Diagnostic> := [];
        var nextState := specs[k].nextState;
        if nextState.Some? {
          var lsd := lexerData.GetLexicalState(nextState.value);
          if lsd.None? {
            found := [Error(UndefinedLexicalState(nextState.value))];
          }
        }
        NextStateStep(states, specs, k);
        next := next + found;
      }
      var empty: seq<Diagnostic> := [];
      for k := 0 to |specs|
        invariant empty == EmptyMatchChecks(specs[..k])
      {
        var found: seq<Diagnostic> := [];
        var re := specs[k].regexp;
        if re.tree.Some? && MatchesEmptyString(re.tree.value) {
          found := [Error(RegexpMatchesEmpty(k))];
        }
        EmptyMatchStep(specs, k);
        empty := empty + found;
      }
      assert specs[..|specs|] == specs;
      ds := next + empty;
    }

    /**
     * Filing every labelled expression of the token productions under its
     * label: the new named-token table, and an error for each label filed
     * again.
     */
    method NameTokens() returns (named: map<string, RegularExpression>, ds: seq<Diagnostic>)
      ensures var specs := AllSpecs(tokenProductions);
        Naming(named, ds) == NameAll(SpecLabels(specs), SpecRegexps(specs), namedTokens)
    {
      var specs := AllSpecs(tokenProductions);
      ghost var labels := SpecLabels(specs);
      ghost var regs := SpecRegexps(specs);
      named, ds := namedTokens, [];
      assert labels[..0] == [] && regs[..0] == [];
      for k := 0 to |specs|
        invariant Naming(named, ds) == NameAll(labels[..k], regs[..k], namedTokens)
      {
        assert labels[..k + 1][..k] == labels[..k] && regs[..k + 1][..k] == regs[..k];
        var re := specs[k].regexp;
        if !re.IsRef() && re.explicitLabel != "" {
          var l := re.GetLabel();
          var previous := if l in named then Some(named[l]) else None;
          named := named[l := re];
          if previous.Some? {
            ds := ds + [Error(MultiplyDefinedToken(l))];
          }
        }
      }
      assert labels[..|specs|] == labels && regs[..|specs|] == regs;
    }

    /**
     * One string literal of a token production in one of its lexical states:
     * a literal not yet there is filed (and registered when it has no ordinal
     * yet); one already there is, for a production that is not explicit, an
     * error when it is of another kind or private, and otherwise shared.
     */
    method LiteralInState(re: RegularExpression, image: string, name: string, explicit: bool,
                          privates: set<RegularExpression>) returns (outcome: LiteralOutcome)
      requires re.Image() == Some(image) && !re.isPrivate
      requires StateDefined(lexerData.lexicalStates, name)
      modifies lexerData, re, lexerData.lexicalStates[IndexOfState(lexerData.lexicalStates, name)]
      ensures lexerData.lexicalStates == old(lexerData.lexicalStates)
      ensures old(lexerData.regularExpressions) <= lexerData.regularExpressions
      ensures old(TablesPublic(lexerData.lexicalStates)) ==> TablesPublic(lexerData.lexicalStates)
      ensures forall r: RegularExpression | old(allocated(r)) :: r.explicitLabel == old(r.explicitLabel)
      ensures var lsd := lexerData.lexicalStates[IndexOfState(lexerData.lexicalStates, name)];
        var already := old(lsd.GetStringLiteral(image, jc.toUpper));
        outcome == Classify(already, explicit, privates) &&
        (already.None? ==> lsd.GetStringLiteral(image, jc.toUpper) == Some(re)) &&
        (already.None? && old(re.ordinal) == 0 ==>
          lexerData.regularExpressions == old(lexerData.regularExpressions) + [re] &&
          re.ordinal == |old(lexerData.regularExpressions)|) &&
        (already.None? && old(re.ordinal) != 0 ==> lexerData.regularExpressions == old(lexerData.regularExpressions)) &&
        (already.Some? ==> lexerData.regularExpressions == old(lexerData.regularExpressions)) &&
        (outcome == Shared ==> re.ordinal == old(already.value.ordinal))
      ensures old(TablesPublic(lexerData.lexicalStates)) && outcome == PrivateKnown ==> exists p | p in privates :: !p.isPrivate
      ensures outcome != Added && outcome != Shared ==> re.ordinal == old(re.ordinal)
      ensures outcome == Added && old(re.ordinal) != 0 ==> re.ordinal == old(re.ordinal)
    {
      var found := lexerData.GetLexicalState(name);
      var lsd := found.value;
      var already := lsd.GetStringLiteral(image, jc.toUpper);
      if already.None? {
        if re.ordinal == 0 {
          lexerData.AddRegularExpression(re);
        }
        lsd.AddStringLiteral(re, jc.toUpper);
        return Added;
      } else if !explicit {
        var a := already.value;
        if a.tokenKind.Some? && a.tokenKind.value != "TOKEN" {
          return OtherKind(a.tokenKind.value);
        } else if a in privates {
          return PrivateKnown;
        } else {
          re.SetOrdinal(a.ordinal);
          return Shared;
        }
      }
      return Known;
    }

    /**
     * The literal in the lexical state of the i-th name: what the state held
     * for it (already, which is what it held on entry when no earlier name
     * denotes the same state) and what that led to; every other state is
     * left as it was.
     */
    method LiteralStep(re: RegularExpression, image: string, stateNames: seq<string>, i: nat, explicit: bool,
                       privates: set<RegularExpression>, ghost entry: seq<Option<RegularExpression>>)
      returns (outcome: LiteralOutcome, ghost already: Option<RegularExpression>)
      requires re.Image() == Some(image) && !re.isPrivate
      requires i < |stateNames| && forall j | 0 <= j < |stateNames| :: StateDefined(lexerData.lexicalStates, stateNames[j])
      requires Untouched(lexerData.lexicalStates, stateNames, i, image, jc.toUpper, entry)
      modifies lexerData, re, StateObjects(lexerData.lexicalStates)
      ensures lexerData.lexicalStates == old(lexerData.lexicalStates)
      ensures old(lexerData.regularExpressions) <= lexerData.regularExpressions
      ensures old(TablesPublic(lexerData.lexicalStates)) ==> TablesPublic(lexerData.lexicalStates)
      ensures forall r: RegularExpression | old(allocated(r)) :: r.explicitLabel == old(r.explicitLabel)
      ensures outcome == Classify(already, explicit, privates)
      ensures FirstVisit(lexerData.lexicalStates, stateNames, i) ==>
        already == entry[IndexOfState(lexerData.lexicalStates, stateNames[i])]
      ensures Untouched(lexerData.lexicalStates, stateNames, i + 1, image, jc.toUpper, entry)
      ensures old(TablesPublic(lexerData.lexicalStates)) && AllPrivate(privates) ==> outcome != PrivateKnown
    {
      ghost var states := lexerData.lexicalStates;
      var k := IndexOfState(states, stateNames[i]);
      assert states[k] in StateObjects(states);
      already := states[k].GetStringLiteral(image, jc.toUpper);
      outcome := LiteralInState(re, image, stateNames[i], explicit, privates);
      assert forall m | 0 <= m < |states| && Unvisited(states, stateNames, i + 1, states[m]) ::
        Unvisited(states, stateNames, i, states[m]) && states[m] != states[k];
    }

    /**
     * The loop of ConsolidateSpec: the literal in the lexical state of each
     * name in turn, starting from the tables entry describes.
     */
    method LiteralInStates(re: RegularExpression, image: string, stateNames: seq<string>, explicit: bool,
                           privates: set<RegularExpression>, ghost entry: seq<Option<RegularExpression>>)
      returns (removed: bool, ds: seq<Diagnostic>, ghost found: seq<Option<RegularExpression>>, ghost outcomes: seq<LiteralOutcome>)
      requires re.Image() == Some(image) && !re.isPrivate
      requires forall i | 0 <= i < |stateNames| :: StateDefined(lexerData.lexicalStates, stateNames[i])
      requires Untouched(lexerData.lexicalStates, stateNames, 0, image, jc.toUpper, entry)
      modifies lexerData, re, StateObjects(lexerData.lexicalStates)
      ensures lexerData.lexicalStates == old(lexerData.lexicalStates)
      ensures old(lexerData.regularExpressions) <= lexerData.regularExpressions
      ensures old(TablesPublic(lexerData.lexicalStates)) ==> TablesPublic(lexerData.lexicalStates)
      ensures forall r: RegularExpression | old(allocated(r)) :: r.explicitLabel == old(r.explicitLabel)
      ensures |found| == |stateNames| && |outcomes| == |stateNames|
      ensures Outcomes(found, outcomes, explicit, privates)
      ensures FirstFound(lexerData.lexicalStates, stateNames, entry, found)
      ensures removed <==> Shared in outcomes
      ensures removed ==> !explicit
      ensures ds == OutcomeErrors(image, outcomes)
      ensures old(TablesPublic(lexerData.lexicalStates)) && AllPrivate(privates) ==> PrivateKnown !in outcomes
    {
      ghost var states := lexerData.lexicalStates;
      ghost var regs0 := lexerData.regularExpressions;
      ghost var public := TablesPublic(states);
      ghost var noPrivate := public && AllPrivate(privates);
      removed, ds, found, outcomes := false, [], [], [];
      for i := 0 to |stateNames|
        invariant lexerData.lexicalStates == states
        invariant regs0 <= lexerData.regularExpressions
        invariant public ==> TablesPublic(states)
        invariant forall r: RegularExpression | old(allocated(r)) :: r.explicitLabel == old(r.explicitLabel)
        invariant Untouched(states, stateNames, i, image, jc.toUpper, entry)
        invariant |found| == i
        invariant Progress(states, stateNames, image, entry, explicit, privates, noPrivate, removed, ds, found, outcomes)
      {
        var outcome;
        ghost var already;
        outcome, already := LiteralStep(re, image, stateNames, i, explicit, privates, entry);
        ProgressStep(states, stateNames, image, entry, explicit, privates, noPrivate, removed, ds, found, outcomes, already, outcome);
        found, outcomes := found + [already], outcomes + [outcome];
        ds := ds + OutcomeError(image, outcome);
        removed := removed || outcome == Shared;
      }
    }

    /**
     * A string literal of a token production, in each of the production's
     * lexical states in turn. found holds what each state's tables held for
     * the image when the literal was looked up there, which for the first
     * name of each state is what they held on entry; the literal leaves the
     * production when some state shares it, and each state adds the error
     * its outcome calls for.
     */
    method ConsolidateSpec(re: RegularExpression, stateNames: seq<string>, explicit: bool, privates: set<RegularExpression>)
      returns (removed: bool, ds: seq<Diagnostic>, ghost found: seq<Option<RegularExpression>>, ghost outcomes: seq<LiteralOutcome>)
      requires re.Image().Some? && !re.isPrivate
      requires forall i | 0 <= i < |stateNames| :: StateDefined(lexerData.lexicalStates, stateNames[i])
      modifies lexerData, re, StateObjects(lexerData.lexicalStates)
      ensures lexerData.lexicalStates == old(lexerData.lexicalStates)
      ensures old(lexerData.regularExpressions) <= lexerData.regularExpressions
      ensures old(TablesPublic(lexerData.lexicalStates)) ==> TablesPublic(lexerData.lexicalStates)
      ensures forall r: RegularExpression | old(allocated(r)) :: r.explicitLabel == old(r.explicitLabel)
      ensures |found| == |stateNames| && |outcomes| == |stateNames|
      ensures forall i | 0 <= i < |stateNames| :: outcomes[i] == Classify(found[i], explicit, privates)
      ensures forall i | 0 <= i < |stateNames| && FirstVisit(lexerData.lexicalStates, stateNames, i) ::
        found[i] == old(StateNamed(lexerData.lexicalStates, stateNames[i]).GetStringLiteral(re.Image().value, jc.toUpper))
      ensures removed <==> Shared in outcomes
      ensures ds == OutcomeErrors(re.Image().value, outcomes)
      ensures removed ==> !explicit
      ensures LiteralErrors(ds)
      ensures old(TablesPublic(lexerData.lexicalStates)) && AllPrivate(privates) ==> PrivateKnown !in outcomes && OtherKindErrors(ds)
    {
      ghost var states := lexerData.lexicalStates;
      ghost var regs0 := lexerData.regularExpressions;
      ghost var public := TablesPublic(states);
      var image := re.Image().value;
      ghost var entry := Lookups(states, image, jc.toUpper);
      assert forall k | 0 <= k < |states| :: entry[k] == old(states[k].GetStringLiteral(image, jc.toUpper));
      removed, ds, found, outcomes := LiteralInStates(re, image, stateNames, explicit, privates, entry);
      OutcomeErrorsKinds(image, outcomes);
      assert forall i | 0 <= i < |stateNames| :: StateNamed(states, stateNames[i]) == states[IndexOfState(states, stateNames[i])];
      OutcomeErrorsKinds(image, outcomes);
    }

    /**
     * The k-th expression of a token production: a reference or a private
     * expression is left alone; any other is registered when it is not a
     * string literal, looked up in every lexical state of the production
     * when it is, and its label (lab) is recorded under its ordinal (ord).
     * keep says whether it stays in the production, more what errors it adds.
     */
    method ConsolidateOne(tp: TokenProduction, k: nat, privates: set<RegularExpression>, names: map<int, string>)
      returns (keep: bool, names': map<int, string>, more: seq<Diagnostic>,
               ghost f: seq<Option<RegularExpression>>, ghost o: seq<LiteralOutcome>, ghost ord: int, ghost lab: string)
      requires k < |tp.specs|
      requires forall i | 0 <= i < |tp.lexicalStateNames| :: StateDefined(lexerData.lexicalStates, tp.lexicalStateNames[i])
      modifies lexerData, StateObjects(lexerData.lexicalStates), tp.specs[k].regexp
      ensures lexerData.lexicalStates == old(lexerData.lexicalStates)
      ensures old(lexerData.regularExpressions) <= lexerData.regularExpressions
      ensures old(TablesPublic(lexerData.lexicalStates)) ==> TablesPublic(lexerData.lexicalStates)
      ensures forall r: RegularExpression | old(allocated(r)) :: r.explicitLabel == old(r.explicitLabel)
      ensures var s := tp.specs[k];
        |f| == |o| &&
        (if Recordable(s) && s.regexp.Image().Some? then |o| == |tp.lexicalStateNames| else o == []) &&
        Outcomes(f, o, tp.explicit, privates) &&
        (keep <==> Shared !in o) &&
        more == (if s.regexp.Image().Some? then OutcomeErrors(s.regexp.Image().value, o) else []) &&
        names' == (if Recordable(s) && lab != "" then names[ord := lab] else names) &&
        (Recordable(s) ==> lab == LabelOf(old(s.regexp.explicitLabel), ord)) &&
        (Recordable(s) && s.regexp.Image().None? ==>
          0 <= ord < |lexerData.regularExpressions| && lexerData.regularExpressions[ord] == s.regexp)
      ensures old(TablesPublic(lexerData.lexicalStates)) && AllPrivate(privates) ==> PrivateKnown !in o
    {
      var re := tp.specs[k].regexp;
      keep, names', more, f, o, ord, lab := true, names, [], [], [], 0, "";
      if !re.IsRef() && !re.isPrivate {
        var removed := false;
        if re.Image().None? {
          lexerData.AddRegularExpression(re);
        } else {
          removed, more, f, o := ConsolidateSpec(re, tp.lexicalStateNames, tp.explicit, privates);
        }
        var l := re.GetLabel();
        ord, lab := re.ordinal, l;
        if l != "" {
          names' := names[re.ordinal := l];
        }
        keep := !removed;
      }
    }

    /** ConsolidateOne on the k-th expression of a token production, and what the first k + 1 then add up to. */
    method ConsolidateStep(tp: TokenProduction, k: nat, privates: set<RegularExpression>,
                           ghost names0: map<int, string>, ghost labels0: seq<string>, ghost noPrivate: bool,
                           kept: seq<RegexpSpec>, names: map<int, string>, ds: seq<Diagnostic>,
                           ghost found: seq<seq<Option<RegularExpression>>>, ghost outcomes: seq<seq<LiteralOutcome>>,
                           ghost ords: seq<int>, ghost labels: seq<string>)
      returns (kept': seq<RegexpSpec>, names': map<int, string>, ds': seq<Diagnostic>,
               ghost found': seq<seq<Option<RegularExpression>>>, ghost outcomes': seq<seq<LiteralOutcome>>,
               ghost ords': seq<int>, ghost labels': seq<string>)
      requires k == |outcomes| < |tp.specs| && |labels0| == |tp.specs|
      requires forall i | 0 <= i < |tp.lexicalStateNames| :: StateDefined(lexerData.lexicalStates, tp.lexicalStateNames[i])
      requires privates == PrivatesBefore(tp.specs, k) && AllPrivate(privates)
      requires !tp.specs[k].regexp.IsRef() ==> labels0[k] == tp.specs[k].regexp.explicitLabel
      requires noPrivate ==> TablesPublic(lexerData.lexicalStates)
      requires ProductionProgress(tp, names0, labels0, lexerData.regularExpressions, noPrivate, kept, names, ds, found, outcomes, ords, labels)
      modifies lexerData, StateObjects(lexerData.lexicalStates), tp.specs[k].regexp
      ensures lexerData.lexicalStates == old(lexerData.lexicalStates)
      ensures old(lexerData.regularExpressions) <= lexerData.regularExpressions
      ensures old(TablesPublic(lexerData.lexicalStates)) ==> TablesPublic(lexerData.lexicalStates)
      ensures forall r: RegularExpression | old(allocated(r)) :: r.explicitLabel == old(r.explicitLabel)
      ensures |outcomes'| == k + 1
      ensures ProductionProgress(tp, names0, labels0, lexerData.regularExpressions, noPrivate, kept', names', ds', found', outcomes', ords', labels')
    {
      var keep, more;
      ghost var f, o, ord, lab;
      keep, names', more, f, o, ord, lab := ConsolidateOne(tp, k, privates, names);
      ProductionProgressStep(tp, names0, labels0, old(lexerData.regularExpressions), lexerData.regularExpressions, noPrivate,
                             kept, names, ds, found, outcomes, ords, labels, keep, names', more, f, o, ord, lab);
      kept' := if keep then kept + [tp.specs[k]] else kept;
      ds' := ds + more;
      found', outcomes', ords', labels' := found + [f], outcomes + [o], ords + [ord], labels + [lab];
    }

    /**
     * The expressions of one token production in order: private ones are
     * remembered, every other goes through ConsolidateOne. For the k-th
     * expression, found[k] and outcomes[k] are what its lookups met and led
     * to, ords[k] and labels[k] the ordinal and label it was recorded with.
     * kept is the production's expressions less the literals some state
     * shared, names the table with the labels recorded, ds the errors of the
     * outcomes in order.
     */
    method ConsolidateProduction(tp: TokenProduction, names0: map<int, string>)
      returns (kept: seq<RegexpSpec>, names: map<int, string>, ds: seq<Diagnostic>,
               ghost found: seq<seq<Option<RegularExpression>>>, ghost outcomes: seq<seq<LiteralOutcome>>,
               ghost ords: seq<int>, ghost labels: seq<string>)
      requires forall i | 0 <= i < |tp.lexicalStateNames| :: StateDefined(lexerData.lexicalStates, tp.lexicalStateNames[i])
      modifies lexerData, StateObjects(lexerData.lexicalStates), set k | 0 <= k < |tp.specs| :: tp.specs[k].regexp
      ensures lexerData.lexicalStates == old(lexerData.lexicalStates)
      ensures old(lexerData.regularExpressions) <= lexerData.regularExpressions
      ensures old(TablesPublic(lexerData.lexicalStates)) ==> TablesPublic(lexerData.lexicalStates)
      ensures forall r: RegularExpression | old(allocated(r)) :: r.explicitLabel == old(r.explicitLabel)
      ensures Classified(tp, found, outcomes) && |outcomes| == |tp.specs| && |ords| == |tp.specs| && |labels| == |tp.specs|
      ensures kept == KeptSpecs(tp.specs, outcomes)
      ensures ds == SpecErrors(tp.specs, outcomes)
      ensures names == RecordLabels(names0, tp.specs, ords, labels)
      ensures forall k | 0 <= k < |tp.specs| && Recordable(tp.specs[k]) ::
        labels[k] == LabelOf(old(tp.specs[k].regexp.explicitLabel), ords[k])
      ensures forall k | 0 <= k < |tp.specs| && Recordable(tp.specs[k]) && tp.specs[k].regexp.Image().None? ::
        0 <= ords[k] < |lexerData.regularExpressions| && lexerData.regularExpressions[ords[k]] == tp.specs[k].regexp
      ensures Pruned(tp, tp.(specs := kept))
      ensures names0.Keys <= names.Keys
      ensures LiteralErrors(ds)
      ensures old(TablesPublic(lexerData.lexicalStates)) ==> OtherKindErrors(ds)
    {
      ghost var public := TablesPublic(lexerData.lexicalStates);
      ghost var labels0 := SpecLabels(tp.specs);
      assert forall k | 0 <= k < |tp.specs| && Recordable(tp.specs[k]) :: labels0[k] == old(tp.specs[k].regexp.explicitLabel);
      kept, names, ds, found, outcomes, ords, labels := ConsolidateSpecs(tp, names0, labels0, public);
      ProductionDone(tp, names0, labels0, lexerData.regularExpressions, public, kept, names, ds, found, outcomes, ords, labels);
    }

    /** The loop of ConsolidateProduction over the production's expressions, in order. */
    method ConsolidateSpecs(tp: TokenProduction, names0: map<int, string>, ghost labels0: seq<string>, ghost public: bool)
      returns (kept: seq<RegexpSpec>, names: map<int, string>, ds: seq<Diagnostic>,
               ghost found: seq<seq<Option<RegularExpression>>>, ghost outcomes: seq<seq<LiteralOutcome>>,
               ghost ords: seq<int>, ghost labels: seq<string>)
      requires forall i | 0 <= i < |tp.lexicalStateNames| :: StateDefined(lexerData.lexicalStates, tp.lexicalStateNames[i])
      requires labels0 == SpecLabels(tp.specs) && (public ==> TablesPublic(lexerData.lexicalStates))
      modifies lexerData, StateObjects(lexerData.lexicalStates), set k | 0 <= k < |tp.specs| :: tp.specs[k].regexp
      ensures lexerData.lexicalStates == old(lexerData.lexicalStates)
      ensures old(lexerData.regularExpressions) <= lexerData.regularExpressions
      ensures public ==> TablesPublic(lexerData.lexicalStates)
      ensures forall r: RegularExpression | old(allocated(r)) :: r.explicitLabel == old(r.explicitLabel)
      ensures |outcomes| == |tp.specs|
      ensures ProductionProgress(tp, names0, labels0, lexerData.regularExpressions, public, kept, names, ds, found, outcomes, ords, labels)
    {
      ghost var states := lexerData.lexicalStates;
      var privates: set<RegularExpression> := {};
      kept, names, ds := [], names0, [];
      found, outcomes, ords, labels := [], [], [], [];
      for k := 0 to |tp.specs|
        invariant lexerData.lexicalStates == states
        invariant old(lexerData.regularExpressions) <= lexerData.regularExpressions
        invariant public ==> TablesPublic(states)
        invariant forall r: RegularExpression | old(allocated(r)) :: r.explicitLabel == old(r.explicitLabel)
        invariant privates == PrivatesBefore(tp.specs, k) && AllPrivate(privates)
        invariant |outcomes| == k
        invariant ProductionProgress(tp, names0, labels0, lexerData.regularExpressions, public, kept, names, ds, found, outcomes, ords, labels)
      {
        kept, names, ds, found, outcomes, ords, labels :=
          ConsolidateStep(tp, k, privates, names0, labels0, public, kept, names, ds, found, outcomes, ords, labels);
        if !tp.specs[k].regexp.IsRef() && tp.specs[k].regexp.isPrivate {
          privates := privates + {tp.specs[k].regexp};
        }
        PrivatesStep(tp.specs, k);
      }
    }

    /**
     * One pass of the loop over the token productions: the next production is
     * consolidated and its kept expressions, errors, outcomes, ordinals and
     * labels are appended.
     */
    method ConsolidateNext(all: seq<TokenProduction>, t: nat, names0: map<int, string>, ghost labels0: seq<seq<string>>,
                           ghost public: bool, tps: seq<TokenProduction>, names: map<int, string>, ds: seq<Diagnostic>,
                           ghost found: seq<seq<seq<Option<RegularExpression>>>>, ghost outcomes: seq<seq<seq<LiteralOutcome>>>,
                           ghost ords: seq<seq<int>>, ghost labels: seq<seq<string>>)
      returns (tps': seq<TokenProduction>, names': map<int, string>, ds': seq<Diagnostic>,
               ghost found': seq<seq<seq<Option<RegularExpression>>>>, ghost outcomes': seq<seq<seq<LiteralOutcome>>>,
               ghost ords': seq<seq<int>>, ghost labels': seq<seq<string>>)
      requires StatesDefined(all, lexerData.lexicalStates)
      requires |labels0| == |all| && t == |outcomes| < |all| && labels0[t] == SpecLabels(all[t].specs)
      requires public ==> TablesPublic(lexerData.lexicalStates)
      requires LiteralsProgress(all, names0, labels0, public, tps, names, ds, found, outcomes, ords, labels)
      modifies lexerData, StateObjects(lexerData.lexicalStates), SpecObjects(all)
      ensures lexerData.lexicalStates == old(lexerData.lexicalStates)
      ensures old(lexerData.regularExpressions) <= lexerData.regularExpressions
      ensures public ==> TablesPublic(lexerData.lexicalStates)
      ensures forall r: RegularExpression | old(allocated(r)) :: r.explicitLabel == old(r.explicitLabel)
      ensures |outcomes'| == |outcomes| + 1
      ensures LiteralsProgress(all, names0, labels0, public, tps', names', ds', found', outcomes', ords', labels')
    {
      var tp := all[t];
      assert forall k | 0 <= k < |tp.specs| :: tp.specs[k].regexp in SpecObjects(all);
      var kept, more;
      ghost var f, o, os, ls;
      kept, names', more, f, o, os, ls := ConsolidateProduction(tp, names);
      LiteralsProgressStep(all, names0, labels0, public, tps, names, ds, found, outcomes, ords, labels,
                           kept, names', more, f, o, os, ls);
      tps', ds' := tps + [tp.(specs := kept)], ds + more;
      found', outcomes', ords', labels' := found + [f], outcomes + [o], ords + [os], labels + [ls];
    }

    /**
     * The literal consolidation over every token production, production by
     * production: each production less the literals some lexical state
     * shared, the token-name table with every public non-reference's label
     * recorded under its ordinal, and the errors of the outcomes in order.
     * The literal tables only ever hold public expressions, so a literal is
     * never reported as defined by a private expression.
     */
    method ConsolidateLiterals()
      returns (tps: seq<TokenProduction>, names: map<int, string>, ds: seq<Diagnostic>,
               ghost found: seq<seq<seq<Option<RegularExpression>>>>, ghost outcomes: seq<seq<seq<LiteralOutcome>>>,
               ghost ords: seq<seq<int>>, ghost labels: seq<seq<string>>)
      requires StatesDefined(tokenProductions, lexerData.lexicalStates)
      modifies lexerData, StateObjects(lexerData.lexicalStates), SpecObjects(tokenProductions)
      ensures lexerData.lexicalStates == old(lexerData.lexicalStates)
      ensures old(lexerData.regularExpressions) <= lexerData.regularExpressions
      ensures old(TablesPublic(lexerData.lexicalStates)) ==> TablesPublic(lexerData.lexicalStates)
      ensures |found| == |tokenProductions| && |outcomes| == |tokenProductions|
      ensures forall t | 0 <= t < |tokenProductions| :: Classified(tokenProductions[t], found[t], outcomes[t])
      ensures |ords| == |tokenProductions| && |labels| == |tokenProductions|
      ensures Shaped(tokenProductions, outcomes) && Shaped(tokenProductions, ords) && Shaped(tokenProductions, labels)
      ensures tps == AllKept(tokenProductions, outcomes)
      ensures ds == AllErrors(tokenProductions, outcomes)
      ensures names == RecordAll(tokenNames, tokenProductions, ords, labels)
      ensures forall t, k | 0 <= t < |tokenProductions| && 0 <= k < |tokenProductions[t].specs| && Recordable(tokenProductions[t].specs[k]) ::
        labels[t][k] == LabelOf(old(tokenProductions[t].specs[k].regexp.explicitLabel), ords[t][k])
      ensures forall t | 0 <= t < |tps| :: Pruned(tokenProductions[t], tps[t])
      ensures tokenNames.Keys <= names.Keys
      ensures LiteralErrors(ds)
      ensures old(TablesPublic(lexerData.lexicalStates)) ==> OtherKindErrors(ds)
    {
      ghost var public := TablesPublic(lexerData.lexicalStates);
      var all := tokenProductions;
      ghost var labels0 := seq(|all|, t requires 0 <= t < |all| reads SpecObjects(all) =>
        SpecLabels(all[t].specs));
      tps, names, ds, found, outcomes, ords, labels := ConsolidateAll(all, tokenNames, labels0, public);
      forall t | 0 <= t < |tps|
        ensures Pruned(all[t], tps[t])
      {
        KeptPruned(all[t], found[t], outcomes[t]);
      }
    }

    /** The loop of ConsolidateLiterals over the token productions all, in order. */
    method ConsolidateAll(all: seq<TokenProduction>, names0: map<int, string>, ghost labels0: seq<seq<string>>, ghost public: bool)
      returns (tps: seq<TokenProduction>, names: map<int, string>, ds: seq<Diagnostic>,
               ghost found: seq<seq<seq<Option<RegularExpression>>>>, ghost outcomes: seq<seq<seq<LiteralOutcome>>>,
               ghost ords: seq<seq<int>>, ghost labels: seq<seq<string>>)
      requires StatesDefined(all, lexerData.lexicalStates)
      requires |labels0| == |all| && forall t | 0 <= t < |all| :: labels0[t] == SpecLabels(all[t].specs)
      requires public ==> TablesPublic(lexerData.lexicalStates)
      modifies lexerData, StateObjects(lexerData.lexicalStates), SpecObjects(all)
      ensures lexerData.lexicalStates == old(lexerData.lexicalStates)
      ensures old(lexerData.regularExpressions) <= lexerData.regularExpressions
      ensures public ==> TablesPublic(lexerData.lexicalStates)
      ensures |outcomes| == |all|
      ensures LiteralsProgress(all, names0, labels0, public, tps, names, ds, found, outcomes, ords, labels)
    {
      ghost var states := lexerData.lexicalStates;
      tps, names, ds := [], names0, [];
      found, outcomes, ords, labels := [], [], [], [];
      for t := 0 to |all|
        invariant lexerData.lexicalStates == states
        invariant old(lexerData.regularExpressions) <= lexerData.regularExpressions
        invariant public ==> TablesPublic(states)
        invariant forall r: RegularExpression | old(allocated(r)) :: r.explicitLabel == old(r.explicitLabel)
        invariant |outcomes| == t
        invariant LiteralsProgress(all, names0, labels0, public, tps, names, ds, found, outcomes, ords, labels)
      {
        assert labels0[t] == SpecLabels(all[t].specs);
        tps, names, ds, found, outcomes, ords, labels :=
          ConsolidateNext(all, t, names0, labels0, public, tps, names, ds, found, outcomes, ords, labels);
      }
    }

    /**
     * The references to token names, those of the token productions and then
     * those of the grammar productions, each checked against the named-token
     * table.
     */
    method CheckReferences() returns (ds: seq<Diagnostic>)
      requires KindsKnown(namedTokens)
      ensures ds == RefChecks(namedTokens, extraTokens, RefSitesOf(tokenProductions) + BnfSites(bnfRefs))
    {
      var sites := RefSitesOf(tokenProductions) + BnfSites(bnfRefs);
      ds := [];
      assert sites[..0] == [];
      for k := 0 to |sites|
        invariant ds == RefChecks(namedTokens, extraTokens, sites[..k])
      {
        var l := sites[k].tokenName;
        var found: seq<Diagnostic> := [];
        if l !in extraTokens {
          if l !in namedTokens {
            found := [Error(UndefinedTokenName(l))];
          } else if sites[k].checked {
            var referenced := namedTokens[l];
            if referenced.isPrivate {
              found := [Error(RefersToPrivate(l))];
            } else if referenced.tokenKind.value != "TOKEN" {
              found := [Error(RefersToNonToken(l))];
            }
          }
        }
        assert found == RefCheck(namedTokens, extraTokens, sites[k]);
        RefChecksStep(namedTokens, extraTokens, sites, k);
        ds := ds + found;
      }
      assert sites[..|sites|] == sites;
    }

    /**
     * Every top-level reference of the token productions takes the ordinal of
     * the expression its name is filed under. A reference nested inside an
     * expression keeps the target its tree was built with.
     */
    method ResolveReferences()
      requires NoRefsNamed(namedTokens)
      modifies SpecObjects(tokenProductions)
      ensures forall s | s in AllSpecs(tokenProductions) && s.regexp.IsRef() && s.regexp.tree.value.name in namedTokens ::
        s.regexp.ordinal == namedTokens[s.regexp.tree.value.name].ordinal
      ensures forall r | r in SpecObjects(tokenProductions) && !r.IsRef() :: r.ordinal == old(r.ordinal)
    {
      var specs := AllSpecs(tokenProductions);
      forall j | 0 <= j < |specs| ensures allocated(specs[j].regexp) {
        assert specs[j] in specs;
        var t :| 0 <= t < |tokenProductions| && specs[j] in tokenProductions[t].specs;
        var i :| 0 <= i < |tokenProductions[t].specs| && tokenProductions[t].specs[i] == specs[j];
        assert allocated(tokenProductions[t].specs[i].regexp);
      }
      for k := 0 to |specs|
        invariant forall j | 0 <= j < k && specs[j].regexp.IsRef() && specs[j].regexp.tree.value.name in namedTokens ::
          specs[j].regexp.ordinal == namedTokens[specs[j].regexp.tree.value.name].ordinal
        invariant forall r | r in SpecObjects(tokenProductions) && !r.IsRef() :: r.ordinal == old(r.ordinal)
      {
        var re := specs[k].regexp;
        if re.IsRef() {
          var l := re.tree.value.name;
          if l in namedTokens {
            SpecInObjects(tokenProductions, specs[k]);
            assert namedTokens[l] != re;
            re.SetOrdinal(namedTokens[l].ordinal);
          }
        }
      }
    }

    /**
     * The search for self-referential loops, from every expression left in
     * the token productions: each reported name names an expression that
     * reaches itself through references, no expression is reported twice,
     * and nothing is reported exactly when no expression the token
     * productions refer to leads to a loop.
     */
    method DetectLoops(tps: seq<TokenProduction>) returns (ds: seq<Diagnostic>)
      ensures forall i | 0 <= i < |ds| ::
        (ds[i].Error? && ds[i].check.SelfReferentialLoop? &&
         var l := ds[i].check.tokenName; l in namedTokens && Reaches(namedTokens, namedTokens[l], namedTokens[l]))
      ensures forall i, j | 0 <= i < j < |ds| ::
        namedTokens[ds[i].check.tokenName] != namedTokens[ds[j].check.tokenName]
      ensures ds == [] <==> NoLoopFromAny(namedTokens, SpecRegexps(AllSpecs(tps)))
    {
      var visitor := new RegexpVisitor(namedTokens);
      visitor.VisitAll(SpecRegexps(AllSpecs(tps)));
      ds := LoopErrors(visitor.reported);
    }

    /**
     * The literal consolidation over every token production, which prunes
     * each one to the expressions it keeps.
     */
    method ConsolidationPhase()
      returns (ghost found: seq<seq<seq<Option<RegularExpression>>>>, ghost outcomes: seq<seq<seq<LiteralOutcome>>>,
               ghost ords: seq<seq<int>>, ghost labels: seq<seq<string>>)
      requires StatesDefined(tokenProductions, lexerData.lexicalStates)
      requires TablesPublic(lexerData.lexicalStates)
      modifies this, lexerData, StateObjects(lexerData.lexicalStates), SpecObjects(tokenProductions)
      ensures |found| == |old(tokenProductions)| && |outcomes| == |old(tokenProductions)|
      ensures forall t | 0 <= t < |old(tokenProductions)| :: Classified(old(tokenProductions)[t], found[t], outcomes[t])
      ensures |ords| == |outcomes| && |labels| == |outcomes|
      ensures Shaped(old(tokenProductions), outcomes) && Shaped(old(tokenProductions), ords) && Shaped(old(tokenProductions), labels)
      ensures tokenProductions == AllKept(old(tokenProductions), outcomes)
      ensures diagnostics == old(diagnostics) + AllErrors(old(tokenProductions), outcomes)
      ensures tokenNames == RecordAll(old(tokenNames), old(tokenProductions), ords, labels)
      ensures forall t, k | 0 <= t < |old(tokenProductions)| && 0 <= k < |old(tokenProductions)[t].specs| && Recordable(old(tokenProductions)[t].specs[k]) ::
        labels[t][k] == LabelOf(old(tokenProductions[t].specs[k].regexp.explicitLabel), ords[t][k])
      ensures OtherKindErrors(diagnostics[|old(diagnostics)|..]) && namedTokens == old(namedTokens)
      ensures SpecObjects(tokenProductions) <= old(SpecObjects(tokenProductions))
      ensures Shrunk(old(tokenProductions), tokenProductions)
    {
      ghost var before := tokenProductions;
      var tps, names, ds;
      tps, names, ds, found, outcomes, ords, labels := ConsolidateLiterals();
      tokenProductions, tokenNames := tps, names;
      diagnostics := diagnostics + ds;
      assert diagnostics[|old(diagnostics)|..] == ds;
      SpecObjectsShrink(before, tps);
      PrunedShrunk(before, tps);
    }

    /**
     * The error-count gate of doChecks: when the diagnostics mid, reached
     * with the token productions midTps, hold an error, nothing more
     * happens; otherwise the reference checks' errors and then the loop
     * errors (loops, empty exactly when no expression left reaches a loop)
     * follow, and the references leave the token productions.
     */
    ghost predicate Gated(mid: seq<Diagnostic>, midTps: seq<TokenProduction>, loops: seq<Diagnostic>)
      reads this
    {
      (HasErrors(mid) ==> diagnostics == mid && tokenProductions == midTps && loops == []) &&
      (!HasErrors(mid) ==>
        KindsKnown(namedTokens) &&
        diagnostics == mid + RefChecks(namedTokens, extraTokens, RefSitesOf(midTps) + BnfSites(bnfRefs)) + loops &&
        tokenProductions == StripRefs(midTps) &&
        (loops == [] <==> NoLoopFromAny(namedTokens, SpecRegexps(AllSpecs(tokenProductions)))))
    }

    /**
     * The checks made only when no error has been reported: the references,
     * their resolution, their removal from the token productions, and the
     * search for self-referential loops, whose errors (loops) are empty
     * exactly when no expression left reaches a loop.
     */
    method ReferencePhase() returns (ghost loops: seq<Diagnostic>)
      requires KindsKnown(namedTokens) && NoRefsNamed(namedTokens)
      modifies this, SpecObjects(tokenProductions)
      ensures tokenProductions == StripRefs(old(tokenProductions)) && namedTokens == old(namedTokens)
      ensures Shrunk(old(tokenProductions), tokenProductions)
      ensures NoRefsLeft(tokenProductions) && NonRefsKept(old(tokenProductions), tokenProductions)
      ensures diagnostics == old(diagnostics) + RefChecks(namedTokens, extraTokens, RefSitesOf(old(tokenProductions)) + BnfSites(bnfRefs)) + loops
      ensures loops == [] <==> NoLoopFromAny(namedTokens, SpecRegexps(AllSpecs(tokenProductions)))
      ensures forall s | s in AllSpecs(old(tokenProductions)) && s.regexp.IsRef() && s.regexp.tree.value.name in namedTokens ::
        s.regexp.ordinal == namedTokens[s.regexp.tree.value.name].ordinal
    {
      ResolveAndReport();
      StripReferences();
      loops := SearchLoops();
    }

    /** The reference checks, whose errors are added, then the resolution of the references. */
    method ResolveAndReport()
      requires KindsKnown(namedTokens) && NoRefsNamed(namedTokens)
      modifies this, SpecObjects(tokenProductions)
      ensures tokenProductions == old(tokenProductions) && namedTokens == old(namedTokens)
      ensures diagnostics == old(diagnostics) + RefChecks(namedTokens, extraTokens, RefSitesOf(tokenProductions) + BnfSites(bnfRefs))
      ensures forall s | s in AllSpecs(tokenProductions) && s.regexp.IsRef() && s.regexp.tree.value.name in namedTokens ::
        s.regexp.ordinal == namedTokens[s.regexp.tree.value.name].ordinal
    {
      var ds := CheckReferences();
      diagnostics := diagnostics + ds;
      ResolveReferences();
    }

    /** The references leave the token productions. */
    method StripReferences()
      modifies this
      ensures tokenProductions == StripRefs(old(tokenProductions))
      ensures namedTokens == old(namedTokens) && diagnostics == old(diagnostics)
      ensures Shrunk(old(tokenProductions), tokenProductions)
      ensures NoRefsLeft(tokenProductions) && NonRefsKept(old(tokenProductions), tokenProductions)
    {
      StripRefsShrunk(tokenProductions);
      tokenProductions := StripRefs(tokenProductions);
    }

    /** The search for self-referential loops, whose errors (loops) are added. */
    method SearchLoops() returns (ghost loops: seq<Diagnostic>)
      modifies this
      ensures tokenProductions == old(tokenProductions) && namedTokens == old(namedTokens)
      ensures diagnostics == old(diagnostics) + loops
      ensures loops == [] <==> NoLoopFromAny(namedTokens, SpecRegexps(AllSpecs(tokenProductions)))
    {
      var ds := DetectLoops(tokenProductions);
      diagnostics, loops := diagnostics + ds, ds;
    }

    /**
     * The next-state and empty-match checks, then the new named-token table:
     * their errors are added in that order.
     */
    method NamingPhase()
      requires SpecKindsKnown(tokenProductions)
      requires KindsKnown(namedTokens) && NoRefsNamed(namedTokens)
      modifies this
      ensures var specs := AllSpecs(tokenProductions);
        var n := NameAll(SpecLabels(specs), SpecRegexps(specs), old(namedTokens));
        namedTokens == n.named &&
        diagnostics == old(diagnostics) + (NextStateChecks(lexerData.lexicalStates, specs) + EmptyMatchChecks(specs)) + n.errors
      ensures KindsKnown(namedTokens) && NoRefsNamed(namedTokens)
      ensures tokenProductions == old(tokenProductions)
    {
      var specDs := CheckSpecs();
      var named, nameDs := NameTokens();
      NamedFromSpecs(tokenProductions, namedTokens);
      ghost var specs := AllSpecs(tokenProductions);
      ghost var labels := SpecLabels(specs);
      namedTokens, diagnostics := named, diagnostics + specDs + nameDs;
      assert SpecLabels(specs) == labels;
    }

    /**
     * Everything doChecks does after the expansion checks: the naming phase
     * and the literal consolidation, which leave the diagnostics mid and the
     * token productions midTps; then, only when mid holds no error, the
     * reference phase, whose loop errors are loops.
     */
    method TokenAndReferenceChecks() returns (ghost mid: seq<Diagnostic>, ghost midTps: seq<TokenProduction>, ghost loops: seq<Diagnostic>)
      requires StatesDefined(tokenProductions, lexerData.lexicalStates)
      requires TablesPublic(lexerData.lexicalStates)
      requires SpecKindsKnown(tokenProductions)
      requires KindsKnown(namedTokens) && NoRefsNamed(namedTokens)
      modifies this, lexerData, StateObjects(lexerData.lexicalStates), SpecObjects(tokenProductions)
      ensures old(diagnostics) <= mid && Shrunk(old(tokenProductions), midTps)
      ensures Gated(mid, midTps, loops)
      ensures old(diagnostics) <= diagnostics
      ensures Shrunk(old(tokenProductions), tokenProductions)
    {
      NamingPhase();
      ghost var tps0 := tokenProductions;
      ghost var _, _, _, _ := ConsolidationPhase();
      mid, midTps := diagnostics, tokenProductions;
      loops := GatedReferencePhase();
      ShrunkTrans(tps0, midTps, tokenProductions);
    }

    /** The error-count gate: the reference phase runs only when no error has been reported. */
    method GatedReferencePhase() returns (ghost loops: seq<Diagnostic>)
      requires KindsKnown(namedTokens) && NoRefsNamed(namedTokens)
      modifies this, SpecObjects(tokenProductions)
      ensures Gated(old(diagnostics), old(tokenProductions), loops)
      ensures old(diagnostics) <= diagnostics && Shrunk(old(tokenProductions), tokenProductions)
    {
      loops := [];
      if !HasErrors(diagnostics) {
        loops := ReferencePhase();
      }
    }

    /**
     * doChecks: the undefined non-terminal check (which ends the checks when
     * it reports anything), the checks on the expansions (an exception ends
     * them), the checks on the token productions, and then, only when no
     * error has been reported so far, the reference phase.
     */
    method DoChecks()
      returns (thrown: Option<string>, ghost mid: seq<Diagnostic>, ghost midTps: seq<TokenProduction>, ghost loops: seq<Diagnostic>)
      requires Listed() && InPs()
      requires StatesDefined(tokenProductions, lexerData.lexicalStates)
      requires TablesPublic(lexerData.lexicalStates)
      requires SpecKindsKnown(tokenProductions)
      requires KindsKnown(namedTokens) && NoRefsNamed(namedTokens)
      modifies this, lexerData, StateObjects(lexerData.lexicalStates), SpecObjects(tokenProductions)
      ensures UndefinedInGrammar(ps, order) != [] ==>
        thrown.None? && diagnostics == old(diagnostics) + UndefinedErrors(UndefinedInGrammar(ps, order)) &&
        tokenProductions == old(tokenProductions) && namedTokens == old(namedTokens)
      ensures UndefinedInGrammar(ps, order) == [] && Closed(ps) ==>
        var r := ExpansionChecks(ps, old(lexerData.lexicalStates), jc, order);
        (r.Thrown? <==> thrown.Some?) && (r.Thrown? ==> thrown == Some(r.exception)) &&
        (r.Ok? ==> old(diagnostics) + r.value <= mid)
      ensures thrown.None? ==> Gated(mid, midTps, loops)
      ensures Shrunk(old(tokenProductions), tokenProductions)
    {
      var ds, found := ReportUndefined();
      diagnostics := diagnostics + ds;
      mid, midTps, loops := diagnostics, tokenProductions, [];
      if found {
        UndefinedHasErrors(old(diagnostics), UndefinedInGrammar(ps, order));
        return None, mid, midTps, loops;
      }
      assert diagnostics == old(diagnostics);
      NothingUndefinedCloses(ps, order);
      thrown, mid, midTps, loops := ClosedChecks();
    }

    /**
     * The checks doChecks makes once every non-terminal is defined: those on
     * the expansions, whose exception ends the checks, then those on the
     * token productions and the gated reference phase.
     */
    method ClosedChecks()
      returns (thrown: Option<string>, ghost mid: seq<Diagnostic>, ghost midTps: seq<TokenProduction>, ghost loops: seq<Diagnostic>)
      requires Closed(ps) && InPs()
      requires StatesDefined(tokenProductions, lexerData.lexicalStates)
      requires TablesPublic(lexerData.lexicalStates)
      requires SpecKindsKnown(tokenProductions)
      requires KindsKnown(namedTokens) && NoRefsNamed(namedTokens)
      modifies this, lexerData, StateObjects(lexerData.lexicalStates), SpecObjects(tokenProductions)
      ensures var r := ExpansionChecks(ps, old(lexerData.lexicalStates), jc, order);
        (r.Thrown? <==> thrown.Some?) && (r.Thrown? ==> thrown == Some(r.exception)) &&
        (r.Ok? ==> old(diagnostics) + r.value <= mid)
      ensures thrown.None? ==> Gated(mid, midTps, loops)
      ensures Shrunk(old(tokenProductions), tokenProductions)
    {
      ghost var r := ExpansionChecks(ps, lexerData.lexicalStates, jc, order);
      var ds;
      ds, thrown := CheckExpansions();
      diagnostics := diagnostics + ds;
      mid, midTps, loops := diagnostics, tokenProductions, [];
      if thrown.Some? {
        return;
      }
      assert diagnostics == old(diagnostics) + r.value;
      mid, midTps, loops := TokenAndReferenceChecks();
    }
  }
}
