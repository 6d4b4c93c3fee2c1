/**
 * Walking every expansion node of a grammar (descendants(Expansion.class)):
 * the paths of all nodes of a production in document order, and the names of
 * the non-terminals that have no production. Once no non-terminal is
 * undefined, the grammar is closed and the analyses of ExpansionFacts apply.
 */
module GrammarWalks {
  import opened Util
  import opened Expansions
  import opened ExpansionContext

  /** Every path of qs, with s put in front. */
  function Under(s: Step, qs: seq<Path>): (r: seq<Path>)
    ensures |r| == |qs| && forall k :: 0 <= k < |qs| ==> r[k] == [s] + qs[k]
  {
    seq(|qs|, k requires 0 <= k < |qs| => [s] + qs[k])
  }

  /**
   * The paths of every node of e, relative to e, in document order: the node
   * itself, then its lookahead's nested and UPTO expansions, then its children.
   */
  function NodePaths(e: Expansion): seq<Path>
    decreases Size(e), 1
  {
    [[]] +
    (if e.Sequence? && e.lookahead.Some? && e.lookahead.value.nested.Some? then
       NestedSmaller(e); Under(IntoLookahead, NodePaths(e.lookahead.value.nested.value))
     else []) +
    (if e.Sequence? && e.lookahead.Some? && e.lookahead.value.upTo.Some? then
       NestedSmaller(e); Under(IntoUpTo, NodePaths(e.lookahead.value.upTo.value))
     else []) +
    ChildPaths(e, 0)
  }

  function ChildPaths(e: Expansion, i: nat): seq<Path>
    decreases Size(e), 0, |Children(e)| - i
  {
    if i >= |Children(e)| then []
    else Under(Child(i), NodePaths(Children(e)[i])) + ChildPaths(e, i + 1)
  }

  /** What either part holds, their concatenation holds. */
  lemma InEither<T>(a: seq<T>, b: seq<T>, x: T)
    requires x in a || x in b
    ensures x in a + b
  {
  }

  /** Following a path that starts with step s is entering through s and following the rest. */
  lemma {:induction false} AtCons(e: Expansion, s: Step, rest: Path)
    ensures At(e, [s] + rest) == (match Enter(e, s) case None => None case Some(c) => At(c, rest))
    decreases |rest|
  {
    if rest != [] {
      assert Front([s] + rest) == [s] + Front(rest);
      assert Last([s] + rest) == Last(rest);
      AtCons(e, s, Front(rest));
    }
  }

  /** Every listed path leads to a node. */
  lemma {:induction false} NodePathsSound(e: Expansion, q: Path)
    requires q in NodePaths(e)
    ensures At(e, q).Some?
    decreases Size(e), 1
  {
    if q != [] {
      var nested := if e.Sequence? && e.lookahead.Some? && e.lookahead.value.nested.Some? then
        Under(IntoLookahead, NodePaths(e.lookahead.value.nested.value)) else [];
      var upTo := if e.Sequence? && e.lookahead.Some? && e.lookahead.value.upTo.Some? then
        Under(IntoUpTo, NodePaths(e.lookahead.value.upTo.value)) else [];
      assert NodePaths(e) == [[]] + nested + upTo + ChildPaths(e, 0);
      if q in nested {
        NestedSmaller(e);
        EnteredSound(e, IntoLookahead, e.lookahead.value.nested.value, q);
      } else if q in upTo {
        NestedSmaller(e);
        EnteredSound(e, IntoUpTo, e.lookahead.value.upTo.value, q);
      } else {
        ChildPathsSound(e, 0, q);
      }
    }
  }

  /** A listed path of a node entered through step s, with s put in front, leads to a node. */
  lemma {:induction false} EnteredSound(e: Expansion, s: Step, c: Expansion, q: Path)
    requires Enter(e, s) == Some(c) && Size(c) < Size(e) && q in Under(s, NodePaths(c))
    ensures At(e, q).Some?
    decreases Size(e), 0, 0
  {
    var k :| 0 <= k < |NodePaths(c)| && Under(s, NodePaths(c))[k] == q;
    NodePathsSound(c, q[1..]);
    assert q == [s] + q[1..];
    AtCons(e, s, q[1..]);
  }

  lemma {:induction false} ChildPathsSound(e: Expansion, i: nat, q: Path)
    requires q in ChildPaths(e, i)
    ensures At(e, q).Some?
    decreases Size(e), 0, |Children(e)| - i
  {
    var here := Under(Child(i), NodePaths(Children(e)[i]));
    if q in here {
      EnteredSound(e, Child(i), Children(e)[i], q);
    } else {
      ChildPathsSound(e, i + 1, q);
    }
  }

  /** Every path that leads to a node is listed. */
  lemma {:induction false} NodePathsComplete(e: Expansion, q: Path)
    requires At(e, q).Some?
    ensures q in NodePaths(e)
    decreases Size(e), 1
  {
    var nested := if e.Sequence? && e.lookahead.Some? && e.lookahead.value.nested.Some? then
      Under(IntoLookahead, NodePaths(e.lookahead.value.nested.value)) else [];
    var upTo := if e.Sequence? && e.lookahead.Some? && e.lookahead.value.upTo.Some? then
      Under(IntoUpTo, NodePaths(e.lookahead.value.upTo.value)) else [];
    assert NodePaths(e) == [[]] + nested + upTo + ChildPaths(e, 0);
    if q == [] {
      assert NodePaths(e)[0] == q;
    } else {
      var s, rest := q[0], q[1..];
      assert q == [s] + rest;
      AtCons(e, s, rest);
      match s
      case IntoLookahead =>
        NestedSmaller(e);
        EnteredComplete(e, s, e.lookahead.value.nested.value, rest);
        assert q in nested;
      case IntoUpTo =>
        NestedSmaller(e);
        EnteredComplete(e, s, e.lookahead.value.upTo.value, rest);
        assert q in upTo;
      case Child(j) =>
        ChildPathsComplete(e, 0, j, rest);
    }
  }

  /** A path from a node entered through step s, with s put in front, is among that node's listed paths. */
  lemma {:induction false} EnteredComplete(e: Expansion, s: Step, c: Expansion, rest: Path)
    requires Enter(e, s) == Some(c) && Size(c) < Size(e) && At(c, rest).Some?
    ensures [s] + rest in Under(s, NodePaths(c))
    decreases Size(e), 0, 0
  {
    NodePathsComplete(c, rest);
    var k :| 0 <= k < |NodePaths(c)| && NodePaths(c)[k] == rest;
    assert Under(s, NodePaths(c))[k] == [s] + rest;
  }

  lemma {:induction false} ChildPathsComplete(e: Expansion, i: nat, j: nat, rest: Path)
    requires i <= j < |Children(e)| && At(Children(e)[j], rest).Some?
    ensures [Child(j)] + rest in ChildPaths(e, i)
    decreases Size(e), 0, |Children(e)| - i
  {
    var here, later := Under(Child(i), NodePaths(Children(e)[i])), ChildPaths(e, i + 1);
    assert ChildPaths(e, i) == here + later;
    if i == j {
      EnteredComplete(e, Child(j), Children(e)[j], rest);
    } else {
      ChildPathsComplete(e, i + 1, j, rest);
    }
    InEither(here, later, [Child(j)] + rest);
  }

  /** descendants(Expansion.class), by path: q is listed exactly when it leads to a node. */
  lemma NodePathsExact(e: Expansion, q: Path)
    ensures q in NodePaths(e) <==> At(e, q).Some?
  {
    if q in NodePaths(e) { NodePathsSound(e, q); }
    if At(e, q).Some? { NodePathsComplete(e, q); }
  }

  /* ---------------------------------------------------------------------- */
  /* Undefined non-terminals                                                 */
  /* ---------------------------------------------------------------------- */

  /** The names of the non-terminals below e, lookahead expansions included, that name no production. */
  function UndefinedNames(ps: Productions, e: Expansion): seq<string>
    decreases Size(e), 1
  {
    match e
    case Sequence(us, la, _, _) =>
      (if la.Some? && la.value.nested.Some? then NestedSmaller(e); UndefinedNames(ps, la.value.nested.value) else []) +
      (if la.Some? && la.value.upTo.Some? then NestedSmaller(e); UndefinedNames(ps, la.value.upTo.value) else []) +
      UndefinedInAll(ps, e, 0)
    case NonTerminal(n, _) => if n in ps then [] else [n]
    case _ => UndefinedInAll(ps, e, 0)
  }

  function UndefinedInAll(ps: Productions, e: Expansion, i: nat): seq<string>
    decreases Size(e), 0, |Children(e)| - i
  {
    if i >= |Children(e)| then [] else UndefinedNames(ps, Children(e)[i]) + UndefinedInAll(ps, e, i + 1)
  }

  /** Every reported name is the name of an undefined non-terminal. */
  lemma {:induction false} UndefinedNamesUndefined(ps: Productions, e: Expansion)
    ensures forall n | n in UndefinedNames(ps, e) :: n !in ps
    decreases Size(e), 1
  {
    match e
    case Sequence(us, la, _, _) =>
      if la.Some? { NestedSmaller(e); }
      if la.Some? && la.value.nested.Some? { UndefinedNamesUndefined(ps, la.value.nested.value); }
      if la.Some? && la.value.upTo.Some? { UndefinedNamesUndefined(ps, la.value.upTo.value); }
      UndefinedInAllUndefined(ps, e, 0);
    case NonTerminal(n, _) =>
    case _ => UndefinedInAllUndefined(ps, e, 0);
  }

  lemma {:induction false} UndefinedInAllUndefined(ps: Productions, e: Expansion, i: nat)
    ensures forall n | n in UndefinedInAll(ps, e, i) :: n !in ps
    decreases Size(e), 0, |Children(e)| - i
  {
    if i < |Children(e)| {
      UndefinedNamesUndefined(ps, Children(e)[i]);
      UndefinedInAllUndefined(ps, e, i + 1);
    }
  }

  /** With nothing undefined below e, and e's sites among the grammar's, e is defined. */
  lemma {:induction false} NothingUndefinedIsDefined(ps: Productions, e: Expansion)
    requires UndefinedNames(ps, e) == [] && SitesIn(e) <= AllSites(ps)
    ensures Defined(ps, e)
    decreases Size(e), 1
  {
    match e
    case Sequence(us, la, _, _) =>
      if la.Some? { NestedSmaller(e); }
      if la.Some? && la.value.nested.Some? { NothingUndefinedIsDefined(ps, la.value.nested.value); }
      if la.Some? && la.value.upTo.Some? { NothingUndefinedIsDefined(ps, la.value.upTo.value); }
      ChildrenSites(e);
      forall i | 0 <= i < |us| ensures Defined(ps, us[i]) {
        NothingUndefinedInAll(ps, e, 0, i);
      }
    case Choice(alts) =>
      ChildrenSites(e);
      forall i | 0 <= i < |alts| ensures Defined(ps, alts[i]) {
        NothingUndefinedInAll(ps, e, 0, i);
      }
    case ZeroOrMore(b) => ChildrenSites(e); NothingUndefinedInAll(ps, e, 0, 0);
    case OneOrMore(b) => ChildrenSites(e); NothingUndefinedInAll(ps, e, 0, 0);
    case ZeroOrOne(b) => ChildrenSites(e); NothingUndefinedInAll(ps, e, 0, 0);
    case Parens(b) => ChildrenSites(e); NothingUndefinedInAll(ps, e, 0, 0);
    case NonTerminal(n, _) =>
    case Terminal(_) =>
    case Empty(_) =>
  }

  lemma {:induction false} NothingUndefinedInAll(ps: Productions, e: Expansion, i: nat, j: nat)
    requires UndefinedInAll(ps, e, i) == [] && i <= j < |Children(e)| && SitesIn(e) <= AllSites(ps)
    ensures Defined(ps, Children(e)[j])
    decreases Size(e), 0, |Children(e)| - i
  {
    ChildrenSites(e);
    if i == j {
      NothingUndefinedIsDefined(ps, Children(e)[j]);
    } else {
      NothingUndefinedInAll(ps, e, i + 1, j);
    }
  }

  /** A non-terminal of the grammar that names no production is reported. */
  lemma {:induction false} UndefinedReported(ps: Productions, e: Expansion, q: Path)
    requires At(e, q).Some? && At(e, q).value.NonTerminal? && At(e, q).value.name !in ps
    ensures At(e, q).value.name in UndefinedNames(ps, e)
    decreases |q|
  {
    if q == [] {
    } else {
      var s, rest := q[0], q[1..];
      assert q == [s] + rest;
      AtCons(e, s, rest);
      var c := Enter(e, s).value;
      UndefinedReported(ps, c, rest);
      match s
      case IntoLookahead =>
      case IntoUpTo =>
      case Child(j) =>
        UndefinedInAllHas(ps, e, 0, j, At(e, q).value.name);
    }
  }

  lemma {:induction false} UndefinedInAllHas(ps: Productions, e: Expansion, i: nat, j: nat, n: string)
    requires i <= j < |Children(e)| && n in UndefinedNames(ps, Children(e)[j])
    ensures n in UndefinedInAll(ps, e, i)
    decreases |Children(e)| - i
  {
    if i < j {
      UndefinedInAllHas(ps, e, i + 1, j, n);
    }
  }

  /** The undefined names of the productions listed in `order`, production by production. */
  function UndefinedInGrammar(ps: Productions, order: seq<string>): seq<string>
    requires forall k | 0 <= k < |order| :: order[k] in ps
  {
    if order == [] then []
    else UndefinedInGrammar(ps, order[..|order| - 1]) + UndefinedNames(ps, ps[order[|order| - 1]].expansion)
  }

  /** A grammar whose walk finds nothing undefined is closed. */
  lemma {:induction false} NothingUndefinedCloses(ps: Productions, order: seq<string>)
    requires forall n :: n in ps <==> n in order
    requires UndefinedInGrammar(ps, order) == []
    ensures Closed(ps)
  {
    forall n | n in ps ensures Defined(ps, ps[n].expansion) {
      var k :| 0 <= k < |order| && order[k] == n;
      UndefinedInPrefix(ps, order, k);
      assert SitesIn(ps[n].expansion) <= AllSites(ps);
      NothingUndefinedIsDefined(ps, ps[n].expansion);
    }
  }

  lemma {:induction false} UndefinedInPrefix(ps: Productions, order: seq<string>, k: nat)
    requires forall j | 0 <= j < |order| :: order[j] in ps
    requires UndefinedInGrammar(ps, order) == [] && k < |order|
    ensures UndefinedNames(ps, ps[order[k]].expansion) == []
  {
    if k < |order| - 1 {
      UndefinedInPrefix(ps, order[..|order| - 1], k);
    }
  }
}
