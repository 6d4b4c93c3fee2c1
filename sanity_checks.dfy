/**
 * The checks SanityChecker.doChecks makes on the expansions of the grammar's
 * productions, one pass per check: each pass visits every expansion node of
 * every production, in document order, and reports what that node calls for.
 * The passes that ask isAtChoicePoint, or read the first character of a
 * lookbehind name, can throw.
 */
module SanityChecks {
  import opened Util
  import opened Expansions
  import opened ExpansionFacts
  import opened ExpansionContext
  import opened GrammarWalks
  import opened BnfProductions
  import LexicalStates
  import opened LexerDatas

  /** What a diagnostic is about; nodes are named by their production and path. */
  datatype Check =
    | UndefinedNonTerminal(name: string)
    | ScanAheadNotAtChoicePoint(production: string, path: Path)
    | UpToHereNotAtChoicePoint(production: string, path: Path)
    | UndefinedLexicalState(stateName: string)
    | LeftRecursive(production: string)
    | CanMatchEmpty(production: string, path: Path, following: nat)
    | LoopAlwaysFails(production: string, path: Path, star: bool)
    | InfiniteLoop(production: string, path: Path, star: bool)
    | OptionalFailAlwaysTriggered(production: string, path: Path)
    | OptionalAlwaysMatched(production: string, path: Path)
    | LookBehindUndefined(name: string)
    | UpToNotSingleToken(production: string, path: Path)
    | RegexpMatchesEmpty(position: nat)
    | MultiplyDefinedToken(tokenName: string)
    | LiteralOfOtherKind(image: string, kind: string)
    | LiteralIsPrivate(image: string)
    | UndefinedTokenName(tokenName: string)
    | RefersToPrivate(tokenName: string)
    | RefersToNonToken(tokenName: string)
    | SelfReferentialLoop(tokenName: string)

  /** addError / addWarning */
  datatype Diagnostic = Error(check: Check) | Warning(check: Check)

  /** The passes over expansion nodes, in the order doChecks makes them. */
  datatype NodePass =
    | ScanAheadPass | UpToHerePass | SpecifiedStatePass | UnreachablePass
    | LoopPass | OptionalPass | LookBehindPass | UpToPass

  /** lexerData.getLexicalState(name) != null */
  predicate StateDefined(states: seq<LexicalStates.LexicalStateData>, name: string)
  {
    IndexOfState(states, name) >= 0
  }

  /**
   * The unreachable-alternative errors of a choice, from alternative i on:
   * one for each alternative, other than the last, that is always successful,
   * with the number of alternatives after it.
   */
  function Unreachable(ps: Productions, name: string, q: Path, alts: seq<Expansion>, i: nat): (r: seq<Diagnostic>)
    requires Closed(ps) && forall j | 0 <= j < |alts| :: Defined(ps, alts[j])
    ensures forall d :: d in r <==>
      exists j | i <= j < |alts| - 1 :: AlwaysSuccessful(ps, alts[j], {}) &&
        d == Error(CanMatchEmpty(name, q + [Child(j)], |alts| - 1 - j))
    decreases |alts| - i
  {
    if i + 1 >= |alts| then []
    else
      (if AlwaysSuccessful(ps, alts[i], {}) then [Error(CanMatchEmpty(name, q + [Child(i)], |alts| - 1 - i))] else []) +
      Unreachable(ps, name, q, alts, i + 1)
  }

  /**
   * The lookbehind-name errors from name i on: a name that begins like a
   * Java identifier and names no production is reported; an empty name makes
   * codePointAt(0) throw.
   */
  function LookBehindNames(ps: Productions, jc: JavaChars, names: seq<string>, i: nat): (r: Result<seq<Diagnostic>>)
    ensures r.Ok? <==> forall j | i <= j < |names| :: names[j] != ""
    ensures r.Ok? ==> forall d :: d in r.value <==>
      exists j | i <= j < |names| :: jc.isStart(names[j][0]) && names[j] !in ps && d == Error(LookBehindUndefined(names[j]))
    decreases |names| - i
  {
    if i >= |names| then Ok([])
    else if names[i] == "" then Thrown("StringIndexOutOfBoundsException")
    else
      match LookBehindNames(ps, jc, names, i + 1)
      case Thrown(x) => Thrown(x)
      case Ok(rest) =>
        Ok((if jc.isStart(names[i][0]) && names[i] !in ps then [Error(LookBehindUndefined(names[i]))] else []) + rest)
  }

  /** Errors for a node the choice-point question is asked of, by its answer. */
  function AtChoicePointOr(answer: Result<bool>, d: Diagnostic): Result<seq<Diagnostic>>
  {
    match answer
    case Thrown(x) => Thrown(x)
    case Ok(b) => Ok(if b then [] else [d])
  }

  /** What one pass reports at the node at path q of production p. */
  function NodeChecks(pass: NodePass, ps: Productions, states: seq<LexicalStates.LexicalStateData>, jc: JavaChars,
                      p: Production, q: Path): Result<seq<Diagnostic>>
    requires Closed(ps) && Defined(ps, p.expansion) && IsNode(p, q)
  {
    var e := NodeAt(ps, p, q);
    match pass
    case ScanAheadPass =>
      // a sequence with an explicit lookahead must be at a choice point
      if e.Sequence? && e.lookahead.Some? then
        AtChoicePointOr(AtChoicePoint(ps, p, q), Error(ScanAheadNotAtChoicePoint(p.name, q)))
      else Ok([])
    case UpToHerePass =>
      // a unit marked as a scan limit must be in a sequence at a choice point
      if q != [] && Last(q).Child? && (UnitOfParent(ps, p, q); NodeAt(ps, p, Front(q)).Sequence?) &&
         Last(q).index in NodeAt(ps, p, Front(q)).scanLimits then
        AtChoicePointOr(AtChoicePoint(ps, p, Front(q)), Error(UpToHereNotAtChoicePoint(p.name, q)))
      else Ok([])
    case SpecifiedStatePass =>
      var specified := SpecifiedLexicalState(p, q);
      if specified.Some? && !StateDefined(states, specified.value) then
        Ok([Error(UndefinedLexicalState(specified.value))])
      else Ok([])
    case UnreachablePass =>
      if e.Choice? then Ok(Unreachable(ps, p.name, q, e.alternatives, 0)) else Ok([])
    case LoopPass =>
      if (e.ZeroOrMore? || e.OneOrMore?) && AlwaysSuccessful(ps, e.body, {}) then
        Ok([Error(if FailureChild(e.body) then LoopAlwaysFails(p.name, q, e.ZeroOrMore?)
                  else InfiniteLoop(p.name, q, e.ZeroOrMore?))])
      else Ok([])
    case OptionalPass =>
      if e.ZeroOrOne? && AlwaysSuccessful(ps, e.body, {}) then
        Ok([Warning(if FailureChild(e.body) then OptionalFailAlwaysTriggered(p.name, q)
                    else OptionalAlwaysMatched(p.name, q))])
      else Ok([])
    case LookBehindPass =>
      if e.Sequence? && e.lookahead.Some? && e.lookahead.value.lookBehind.Some? then
        LookBehindNames(ps, jc, e.lookahead.value.lookBehind.value, 0)
      else Ok([])
    case UpToPass =>
      if e.Sequence? && e.lookahead.Some? && e.lookahead.value.upTo.Some? &&
         !SingleToken(ps, e.lookahead.value.upTo.value, {}) then
        Ok([Error(UpToNotSingleToken(p.name, q + [IntoUpTo]))])
      else Ok([])
  }

  /** Appending the result of one more step to the results so far; the first exception wins. */
  function Then(before: Result<seq<Diagnostic>>, after: Result<seq<Diagnostic>>): (r: Result<seq<Diagnostic>>)
    ensures r.Ok? <==> before.Ok? && after.Ok?
    ensures r.Ok? ==> r.value == before.value + after.value
  {
    match before
    case Thrown(x) => Thrown(x)
    case Ok(ds) =>
      match after
      case Thrown(y) => Thrown(y)
      case Ok(es) => Ok(ds + es)
  }

  lemma PathsAreNodes(p: Production)
    ensures forall q | q in NodePaths(p.expansion) :: IsNode(p, q)
  {
    forall q | q in NodePaths(p.expansion) ensures IsNode(p, q) {
      NodePathsSound(p.expansion, q);
    }
  }

  /** One pass over the nodes at the paths qs of production p. */
  function PathChecks(pass: NodePass, ps: Productions, states: seq<LexicalStates.LexicalStateData>, jc: JavaChars,
                      p: Production, qs: seq<Path>): Result<seq<Diagnostic>>
    requires Closed(ps) && Defined(ps, p.expansion) && forall k | 0 <= k < |qs| :: IsNode(p, qs[k])
  {
    if qs == [] then Ok([])
    else Then(PathChecks(pass, ps, states, jc, p, qs[..|qs| - 1]), NodeChecks(pass, ps, states, jc, p, qs[|qs| - 1]))
  }

  /** One pass over every node of production p. */
  function ProductionChecks(pass: NodePass, ps: Productions, states: seq<LexicalStates.LexicalStateData>, jc: JavaChars,
                            p: Production): Result<seq<Diagnostic>>
    requires Closed(ps) && Defined(ps, p.expansion)
  {
    PathsAreNodes(p);
    PathChecks(pass, ps, states, jc, p, NodePaths(p.expansion))
  }

  /** One pass over every node of the productions named by `order`, production by production. */
  function GrammarChecks(pass: NodePass, ps: Productions, states: seq<LexicalStates.LexicalStateData>, jc: JavaChars,
                         order: seq<string>): Result<seq<Diagnostic>>
    requires Closed(ps) && forall k | 0 <= k < |order| :: order[k] in ps
  {
    if order == [] then Ok([])
    else Then(GrammarChecks(pass, ps, states, jc, order[..|order| - 1]),
              ProductionChecks(pass, ps, states, jc, ps[order[|order| - 1]]))
  }

  /* ---------------------------------------------------------------------- */
  /* Every node is visited, and only nodes report                            */
  /* ---------------------------------------------------------------------- */

  lemma {:induction false} PathChecksComplete(pass: NodePass, ps: Productions, states: seq<LexicalStates.LexicalStateData>, jc: JavaChars,
                                              p: Production, qs: seq<Path>, k: nat)
    requires Closed(ps) && Defined(ps, p.expansion) && forall j | 0 <= j < |qs| :: IsNode(p, qs[j])
    requires PathChecks(pass, ps, states, jc, p, qs).Ok? && k < |qs|
    ensures NodeChecks(pass, ps, states, jc, p, qs[k]).Ok?
    ensures forall d | d in NodeChecks(pass, ps, states, jc, p, qs[k]).value :: d in PathChecks(pass, ps, states, jc, p, qs).value
  {
    if k < |qs| - 1 {
      PathChecksComplete(pass, ps, states, jc, p, qs[..|qs| - 1], k);
    }
  }

  lemma {:induction false} PathChecksSound(pass: NodePass, ps: Productions, states: seq<LexicalStates.LexicalStateData>, jc: JavaChars,
                                           p: Production, qs: seq<Path>, d: Diagnostic)
    requires Closed(ps) && Defined(ps, p.expansion) && forall j | 0 <= j < |qs| :: IsNode(p, qs[j])
    requires PathChecks(pass, ps, states, jc, p, qs).Ok? && d in PathChecks(pass, ps, states, jc, p, qs).value
    ensures exists k | 0 <= k < |qs| ::
      NodeChecks(pass, ps, states, jc, p, qs[k]).Ok? && d in NodeChecks(pass, ps, states, jc, p, qs[k]).value
  {
    var front := PathChecks(pass, ps, states, jc, p, qs[..|qs| - 1]);
    if d in front.value {
      PathChecksSound(pass, ps, states, jc, p, qs[..|qs| - 1], d);
      var k :| 0 <= k < |qs| - 1 && NodeChecks(pass, ps, states, jc, p, qs[..|qs| - 1][k]).Ok? &&
        d in NodeChecks(pass, ps, states, jc, p, qs[..|qs| - 1][k]).value;
      assert qs[..|qs| - 1][k] == qs[k];
    }
  }

  /**
   * A pass that completes reports, for every node of every production of the
   * grammar, everything that node calls for.
   */
  lemma {:induction false} GrammarChecksComplete(pass: NodePass, ps: Productions, states: seq<LexicalStates.LexicalStateData>, jc: JavaChars,
                                                 order: seq<string>, k: nat, q: Path)
    requires Closed(ps) && forall j | 0 <= j < |order| :: order[j] in ps
    requires GrammarChecks(pass, ps, states, jc, order).Ok? && k < |order| && IsNode(ps[order[k]], q)
    ensures NodeChecks(pass, ps, states, jc, ps[order[k]], q).Ok?
    ensures forall d | d in NodeChecks(pass, ps, states, jc, ps[order[k]], q).value ::
      d in GrammarChecks(pass, ps, states, jc, order).value
  {
    if k < |order| - 1 {
      GrammarChecksComplete(pass, ps, states, jc, order[..|order| - 1], k, q);
    } else {
      var p := ps[order[k]];
      PathsAreNodes(p);
      NodePathsComplete(p.expansion, q);
      var j :| 0 <= j < |NodePaths(p.expansion)| && NodePaths(p.expansion)[j] == q;
      PathChecksComplete(pass, ps, states, jc, p, NodePaths(p.expansion), j);
    }
  }

  /** Everything a completed pass reports is reported by some node of some production of the grammar. */
  lemma {:induction false} GrammarChecksSound(pass: NodePass, ps: Productions, states: seq<LexicalStates.LexicalStateData>, jc: JavaChars,
                                              order: seq<string>, d: Diagnostic)
    requires Closed(ps) && forall j | 0 <= j < |order| :: order[j] in ps
    requires GrammarChecks(pass, ps, states, jc, order).Ok? && d in GrammarChecks(pass, ps, states, jc, order).value
    ensures exists k, q | 0 <= k < |order| && q in NodePaths(ps[order[k]].expansion) ::
      IsNode(ps[order[k]], q) && NodeChecks(pass, ps, states, jc, ps[order[k]], q).Ok? &&
      d in NodeChecks(pass, ps, states, jc, ps[order[k]], q).value
  {
    var front := order[..|order| - 1];
    var p := ps[order[|order| - 1]];
    if d in GrammarChecks(pass, ps, states, jc, front).value {
      GrammarChecksSound(pass, ps, states, jc, front, d);
      var k, q :| 0 <= k < |front| && q in NodePaths(ps[front[k]].expansion) &&
        IsNode(ps[front[k]], q) && NodeChecks(pass, ps, states, jc, ps[front[k]], q).Ok? &&
        d in NodeChecks(pass, ps, states, jc, ps[front[k]], q).value;
      assert front[k] == order[k];
    } else {
      PathsAreNodes(p);
      PathChecksSound(pass, ps, states, jc, p, NodePaths(p.expansion), d);
      var j :| 0 <= j < |NodePaths(p.expansion)| && NodeChecks(pass, ps, states, jc, p, NodePaths(p.expansion)[j]).Ok? &&
        d in NodeChecks(pass, ps, states, jc, p, NodePaths(p.expansion)[j]).value;
      assert NodePaths(p.expansion)[j] in NodePaths(p.expansion);
    }
  }

  /** Only the choice-point passes and the lookbehind pass can throw. */
  lemma {:induction false} OtherPassesComplete(pass: NodePass, ps: Productions, states: seq<LexicalStates.LexicalStateData>, jc: JavaChars,
                                               order: seq<string>)
    requires Closed(ps) && forall j | 0 <= j < |order| :: order[j] in ps
    requires pass !in {ScanAheadPass, UpToHerePass, LookBehindPass}
    ensures GrammarChecks(pass, ps, states, jc, order).Ok?
  {
    if order != [] {
      OtherPassesComplete(pass, ps, states, jc, order[..|order| - 1]);
      var p := ps[order[|order| - 1]];
      PathsAreNodes(p);
      NodeChecksOk(pass, ps, states, jc, p, NodePaths(p.expansion));
    }
  }

  lemma {:induction false} NodeChecksOk(pass: NodePass, ps: Productions, states: seq<LexicalStates.LexicalStateData>, jc: JavaChars,
                                        p: Production, qs: seq<Path>)
    requires Closed(ps) && Defined(ps, p.expansion) && forall k | 0 <= k < |qs| :: IsNode(p, qs[k])
    requires pass !in {ScanAheadPass, UpToHerePass, LookBehindPass}
    ensures PathChecks(pass, ps, states, jc, p, qs).Ok?
  {
    if qs != [] {
      NodeChecksOk(pass, ps, states, jc, p, qs[..|qs| - 1]);
    }
  }
}
