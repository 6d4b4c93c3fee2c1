/**
 * The checks SanityChecker.doChecks makes on the token productions: lexical
 * states named as next states, expressions that match the empty string,
 * token names defined more than once, and references to token names.
 */
module TokenChecks {
  import opened Util
  import opened Regexps
  import LexicalStates
  import opened SanityChecks

  /** The expressions of the token productions, production by production (descendants(RegexpSpec.class)). */
  function AllSpecs(tps: seq<TokenProduction>): (r: seq<RegexpSpec>)
    ensures forall t, k | 0 <= t < |tps| && 0 <= k < |tps[t].specs| :: tps[t].specs[k] in r
    ensures forall s | s in r :: exists t | 0 <= t < |tps| :: s in tps[t].specs
  {
    if tps == [] then [] else AllSpecs(tps[..|tps| - 1]) + tps[|tps| - 1].specs
  }

  /** A next state that names no lexical state is reported, once per expression that names it. */
  function NextStateChecks(states: seq<LexicalStates.LexicalStateData>, specs: seq<RegexpSpec>): (r: seq<Diagnostic>)
    ensures forall d :: d in r <==>
      exists k | 0 <= k < |specs| :: specs[k].nextState.Some? && !StateDefined(states, specs[k].nextState.value) &&
        d == Error(UndefinedLexicalState(specs[k].nextState.value))
  {
    if specs == [] then []
    else
      var s := specs[|specs| - 1];
      var front := NextStateChecks(states, specs[..|specs| - 1]);
      assert forall k | 0 <= k < |specs| - 1 :: specs[..|specs| - 1][k] == specs[k];
      front + (if s.nextState.Some? && !StateDefined(states, s.nextState.value)
               then [Error(UndefinedLexicalState(s.nextState.value))] else [])
  }

  /** An expression that can match the empty string is reported, by its position among all expressions. */
  function EmptyMatchChecks(specs: seq<RegexpSpec>): (r: seq<Diagnostic>)
    ensures forall d :: d in r <==>
      exists k | 0 <= k < |specs| :: specs[k].regexp.tree.Some? && MatchesEmptyString(specs[k].regexp.tree.value) &&
        d == Error(RegexpMatchesEmpty(k))
  {
    if specs == [] then []
    else
      var s := specs[|specs| - 1];
      var front := EmptyMatchChecks(specs[..|specs| - 1]);
      assert forall k | 0 <= k < |specs| - 1 :: specs[..|specs| - 1][k] == specs[k];
      front + (if s.regexp.tree.Some? && MatchesEmptyString(s.regexp.tree.value)
               then [Error(RegexpMatchesEmpty(|specs| - 1))] else [])
  }

  lemma NextStateStep(states: seq<LexicalStates.LexicalStateData>, specs: seq<RegexpSpec>, k: nat)
    requires k < |specs|
    ensures NextStateChecks(states, specs[..k + 1]) == NextStateChecks(states, specs[..k]) +
      (if specs[k].nextState.Some? && !StateDefined(states, specs[k].nextState.value)
       then [Error(UndefinedLexicalState(specs[k].nextState.value))] else [])
  {
    assert specs[..k + 1][..k] == specs[..k];
  }

  lemma EmptyMatchStep(specs: seq<RegexpSpec>, k: nat)
    requires k < |specs|
    ensures EmptyMatchChecks(specs[..k + 1]) == EmptyMatchChecks(specs[..k]) +
      (if specs[k].regexp.tree.Some? && MatchesEmptyString(specs[k].regexp.tree.value)
       then [Error(RegexpMatchesEmpty(k))] else [])
  {
    assert specs[..k + 1][..k] == specs[..k];
  }

  /* ---------------------------------------------------------------------- */
  /* Named tokens                                                            */
  /* ---------------------------------------------------------------------- */

  /** The named-token table and the errors after naming a run of expressions. */
  datatype Naming = Naming(named: map<string, RegularExpression>, errors: seq<Diagnostic>)

  /**
   * Naming the expressions regs, whose labels are labels ("" for a reference
   * or an expression without a label): each labelled expression is filed
   * under its label, and a label already filed is an error.
   */
  function NameAll(labels: seq<string>, regs: seq<RegularExpression>, named0: map<string, RegularExpression>): Naming
    requires |labels| == |regs|
  {
    if labels == [] then Naming(named0, [])
    else
      var n := |labels| - 1;
      var before := NameAll(labels[..n], regs[..n], named0);
      if labels[n] == "" then before
      else
        Naming(before.named[labels[n] := regs[n]],
               before.errors + (if labels[n] in before.named then [Error(MultiplyDefinedToken(labels[n]))] else []))
  }

  /** A filed expression was either in the table before or is the expression of an occurrence of its label. */
  lemma {:induction false} NameAllValues(labels: seq<string>, regs: seq<RegularExpression>,
                                         named0: map<string, RegularExpression>, l: string)
    requires |labels| == |regs| && l in NameAll(labels, regs, named0).named
    ensures var v := NameAll(labels, regs, named0).named[l];
      v in named0.Values || exists k | 0 <= k < |labels| :: labels[k] == l && l != "" && regs[k] == v
  {
    if labels != [] {
      var n := |labels| - 1;
      var before := NameAll(labels[..n], regs[..n], named0);
      if labels[n] == l && l != "" {
      } else {
        NameAllValues(labels[..n], regs[..n], named0, l);
        var v := before.named[l];
        if v !in named0.Values {
          var k :| 0 <= k < n && labels[..n][k] == l && l != "" && regs[..n][k] == v;
          assert labels[k] == l && regs[k] == v;
        }
      }
    }
  }

  /** How many times l occurs in labels. */
  function Count(labels: seq<string>, l: string): nat
  {
    if labels == [] then 0
    else Count(labels[..|labels| - 1], l) + (if labels[|labels| - 1] == l then 1 else 0)
  }

  lemma {:induction false} CountPositive(labels: seq<string>, l: string)
    ensures Count(labels, l) > 0 <==> l in labels
  {
    if labels != [] {
      CountPositive(labels[..|labels| - 1], l);
      assert labels == labels[..|labels| - 1] + [labels[|labels| - 1]];
    }
  }

  /** A label is in the table exactly when it was there before or labels some expression. */
  lemma {:induction false} NameAllKeys(labels: seq<string>, regs: seq<RegularExpression>,
                                       named0: map<string, RegularExpression>, l: string)
    requires |labels| == |regs|
    ensures l in NameAll(labels, regs, named0).named <==> l in named0 || (l != "" && l in labels)
  {
    if labels != [] {
      var n := |labels| - 1;
      NameAllKeys(labels[..n], regs[..n], named0, l);
      assert labels == labels[..n] + [labels[n]];
    }
  }

  /** A label ends up naming the last expression that carries it. */
  lemma {:induction false} NameAllLast(labels: seq<string>, regs: seq<RegularExpression>,
                                       named0: map<string, RegularExpression>, k: nat)
    requires |labels| == |regs| && k < |labels| && labels[k] != ""
    requires forall j | k < j < |labels| :: labels[j] != labels[k]
    ensures labels[k] in NameAll(labels, regs, named0).named
    ensures NameAll(labels, regs, named0).named[labels[k]] == regs[k]
  {
    var n := |labels| - 1;
    if k < n {
      NameAllLast(labels[..n], regs[..n], named0, k);
    }
  }

  /**
   * A label is reported as multiply defined exactly when it is defined at
   * least twice, counting a definition already in the table.
   */
  lemma {:induction false} NameAllErrors(labels: seq<string>, regs: seq<RegularExpression>,
                                         named0: map<string, RegularExpression>, l: string)
    requires |labels| == |regs|
    ensures Error(MultiplyDefinedToken(l)) in NameAll(labels, regs, named0).errors <==>
      l != "" && Count(labels, l) + (if l in named0 then 1 else 0) >= 2
  {
    if labels != [] {
      var n := |labels| - 1;
      var front := labels[..n];
      NameAllErrors(front, regs[..n], named0, l);
      NameAllKeys(front, regs[..n], named0, l);
      CountPositive(front, l);
      if l == "" {
        NameAllNoEmpty(labels, regs, named0);
      }
    }
  }

  lemma {:induction false} NameAllNoEmpty(labels: seq<string>, regs: seq<RegularExpression>, named0: map<string, RegularExpression>)
    requires |labels| == |regs|
    ensures Error(MultiplyDefinedToken("")) !in NameAll(labels, regs, named0).errors
  {
    if labels != [] {
      NameAllNoEmpty(labels[..|labels| - 1], regs[..|labels| - 1], named0);
    }
  }

  /* ---------------------------------------------------------------------- */
  /* References                                                              */
  /* ---------------------------------------------------------------------- */

  /**
   * A reference to a token name: `checked` unless it is inside an explicit
   * token production (a reference inside a grammar production is checked).
   */
  datatype RefSite = RefSite(tokenName: string, checked: bool)

  /** The references inside the token productions, in order. */
  function RefSitesOf(tps: seq<TokenProduction>): seq<RefSite>
  {
    if tps == [] then []
    else RefSitesOf(tps[..|tps| - 1]) + SpecRefSites(tps[|tps| - 1].specs, !tps[|tps| - 1].explicit)
  }

  function SpecRefSites(specs: seq<RegexpSpec>, checked: bool): seq<RefSite>
  {
    if specs == [] then []
    else
      var names := RefNamesOf(specs[|specs| - 1].regexp);
      SpecRefSites(specs[..|specs| - 1], checked) + seq(|names|, i requires 0 <= i < |names| => RefSite(names[i], checked))
  }

  /**
   * What a reference is reported for: an extra token name never; a name with
   * no expression is undefined; a checked reference to a private expression,
   * or to one whose production is not of kind TOKEN, is an error.
   */
  function RefCheck(named: map<string, RegularExpression>, extra: set<string>, site: RefSite): (r: seq<Diagnostic>)
    requires forall l | l in named :: named[l].tokenKind.Some?
    ensures |r| <= 1
    ensures r != [] <==>
      (site.tokenName !in extra &&
       (site.tokenName !in named ||
        (site.checked && (named[site.tokenName].isPrivate || named[site.tokenName].tokenKind != Some("TOKEN")))))
  {
    var l := site.tokenName;
    if l in extra then []
    else if l !in named then [Error(UndefinedTokenName(l))]
    else if !site.checked then []
    else if named[l].isPrivate then [Error(RefersToPrivate(l))]
    else if named[l].tokenKind.value != "TOKEN" then [Error(RefersToNonToken(l))]
    else []
  }

  function RefChecks(named: map<string, RegularExpression>, extra: set<string>, sites: seq<RefSite>): (r: seq<Diagnostic>)
    requires forall l | l in named :: named[l].tokenKind.Some?
    ensures forall d :: d in r <==> exists k | 0 <= k < |sites| :: d in RefCheck(named, extra, sites[k])
  {
    if sites == [] then []
    else
      var front := RefChecks(named, extra, sites[..|sites| - 1]);
      assert forall k | 0 <= k < |sites| - 1 :: sites[..|sites| - 1][k] == sites[k];
      front + RefCheck(named, extra, sites[|sites| - 1])
  }

  lemma RefChecksStep(named: map<string, RegularExpression>, extra: set<string>, sites: seq<RefSite>, k: nat)
    requires forall l | l in named :: named[l].tokenKind.Some?
    requires k < |sites|
    ensures RefChecks(named, extra, sites[..k + 1]) == RefChecks(named, extra, sites[..k]) + RefCheck(named, extra, sites[k])
  {
    assert sites[..k + 1][..k] == sites[..k];
  }

  /** A reference to an extra token name is never reported, whatever it names. */
  lemma ExtraNamesAccepted(named: map<string, RegularExpression>, extra: set<string>, sites: seq<RefSite>, l: string)
    requires forall n | n in named :: named[n].tokenKind.Some?
    requires l in extra
    ensures forall d | d in RefChecks(named, extra, sites) ::
      d != Error(UndefinedTokenName(l)) && d != Error(RefersToPrivate(l)) && d != Error(RefersToNonToken(l))
  {
    forall d | d in RefChecks(named, extra, sites)
      ensures d != Error(UndefinedTokenName(l)) && d != Error(RefersToPrivate(l)) && d != Error(RefersToNonToken(l))
    {
      var k :| 0 <= k < |sites| && d in RefCheck(named, extra, sites[k]);
    }
  }
}
