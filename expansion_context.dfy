/**
 * The queries of Expansion that look upwards or sideways in the tree: whether
 * a node is at a choice point, what follows it, whether it ends a loop, and
 * the decision tables built on them. A node is addressed by the path of steps
 * from its production's root expansion; the production itself is the root's
 * parent, and a sequence's Lookahead node is the parent of its nested and UPTO
 * expansions.
 */
module ExpansionContext {
  import opened Util
  import opened Expansions
  import opened ExpansionFacts
  import opened TokenSets
  import opened ExpansionLemmas
  import BnfProductions

  /** One step down: to a child expansion, or through the sequence's Lookahead to its nested or UPTO expansion. */
  datatype Step = Child(index: nat) | IntoLookahead | IntoUpTo

  type Path = seq<Step>

  function Front(path: Path): Path
    requires path != []
  {
    path[..|path| - 1]
  }

  function Last(path: Path): Step
    requires path != []
  {
    path[|path| - 1]
  }

  function Enter(e: Expansion, s: Step): Option<Expansion>
  {
    match s
    case Child(i) => if i < |Children(e)| then Some(Children(e)[i]) else None
    case IntoLookahead =>
      if e.Sequence? && e.lookahead.Some? && e.lookahead.value.nested.Some? then Some(e.lookahead.value.nested.value)
      else None
    case IntoUpTo =>
      if e.Sequence? && e.lookahead.Some? && e.lookahead.value.upTo.Some? then Some(e.lookahead.value.upTo.value)
      else None
  }

  /** The node a path leads to from the root, if the path exists. */
  function At(root: Expansion, path: Path): Option<Expansion>
    decreases |path|
  {
    if path == [] then Some(root)
    else
      match At(root, Front(path))
      case None => None
      case Some(q) => Enter(q, Last(path))
  }

  predicate IsNode(p: Production, path: Path)
  {
    At(p.expansion, path).Some?
  }

  lemma {:induction false} AtDefined(ps: Productions, root: Expansion, path: Path)
    requires Defined(ps, root) && At(root, path).Some?
    ensures Defined(ps, At(root, path).value)
    decreases |path|
  {
    if path != [] {
      AtDefined(ps, root, Front(path));
      ChildrenDefined(ps, At(root, Front(path)).value);
    }
  }

  function NodeAt(ps: Productions, p: Production, path: Path): (r: Expansion)
    requires Defined(ps, p.expansion) && IsNode(p, path)
    ensures Defined(ps, r) && At(p.expansion, path) == Some(r)
  {
    AtDefined(ps, p.expansion, path);
    At(p.expansion, path).value
  }

  /** A node whose last step is Child(k) of a sequence is that sequence's unit k. */
  lemma UnitOfParent(ps: Productions, p: Production, path: Path)
    requires Defined(ps, p.expansion) && IsNode(p, path) && path != [] && Last(path).Child?
    ensures IsNode(p, Front(path))
    ensures Last(path).index < |Children(NodeAt(ps, p, Front(path)))|
    ensures NodeAt(ps, p, path) == Children(NodeAt(ps, p, Front(path)))[Last(path).index]
  {
  }

  /** The path to unit j of the node at parentPath. */
  lemma ChildIsNode(p: Production, parentPath: Path, j: nat)
    requires IsNode(p, parentPath) && j < |Children(At(p.expansion, parentPath).value)|
    ensures IsNode(p, parentPath + [Child(j)])
    ensures Front(parentPath + [Child(j)]) == parentPath && Last(parentPath + [Child(j)]) == Child(j)
    ensures At(p.expansion, parentPath + [Child(j)]) == Some(Children(At(p.expansion, parentPath).value)[j])
  {
    assert Front(parentPath + [Child(j)]) == parentPath;
  }

  /** isInsideLookahead: some ancestor is a Lookahead node. */
  predicate InsideLookahead(path: Path)
  {
    exists i | 0 <= i < |path| :: !path[i].Child?
  }

  /** getSpecifiedLexicalState: only the production's root expansion has one, the production's. */
  function SpecifiedLexicalState(p: Production, path: Path): (r: Option<string>)
    ensures r.Some? <==> path == [] && p.lexicalState.Some?
    ensures r.Some? ==> r == p.lexicalState
  {
    if path == [] then p.lexicalState else None
  }

  /* ---------------------------------------------------------------------- */
  /* isAtChoicePoint / getNonSuperfluousParent / getScanToEnd                */
  /* ---------------------------------------------------------------------- */

  /** A node whose parent decides between going in and not: a choice, a repetition, or the production. */
  predicate DecisionParent(ps: Productions, p: Production, path: Path)
    requires Defined(ps, p.expansion) && IsNode(p, path)
  {
    path == [] ||
    (Last(path).Child? &&
     var parent := NodeAt(ps, p, Front(path));
     parent.Choice? || parent.OneOrMore? || parent.ZeroOrMore? || parent.ZeroOrOne?)
  }

  /**
   * isAtChoicePoint. Parentheses are looked through: a node directly in
   * parentheses is at a choice point when the parentheses are a unit of a
   * sequence at a choice point and every unit before them has maximum size 0.
   * The grandparent is cast to a sequence, which throws when it is not one.
   */
  function AtChoicePoint(ps: Productions, p: Production, path: Path): Result<bool>
    requires Closed(ps) && Defined(ps, p.expansion) && IsNode(p, path)
    decreases |path|
  {
    if DecisionParent(ps, p, path) then Ok(true)
    else if !Last(path).Child? then Ok(false)
    else
      var parentPath := Front(path);
      if !NodeAt(ps, p, parentPath).Parens? then Ok(false)
      else if parentPath == [] || !Last(parentPath).Child? || !NodeAt(ps, p, Front(parentPath)).Sequence? then
        Thrown("ClassCastException")
      else
        var gpPath := Front(parentPath);
        UnitOfParent(ps, p, parentPath);
        match AtChoicePoint(ps, p, gpPath)
        case Thrown(x) => Thrown(x)
        case Ok(b) =>
          var gp := NodeAt(ps, p, gpPath);
          var k := Last(parentPath).index;
          Ok(b && forall j | 0 <= j < k :: MaxSize(ps, gp.units[j], {}) <= 0)
  }

  /**
   * A node at a choice point sits, through parentheses that begin sequences,
   * below a decision parent: some prefix of its path (itself or an ancestor)
   * has a choice, a repetition or the production as its parent.
   */
  lemma {:induction false} ChoicePointHasDecisionAncestor(ps: Productions, p: Production, path: Path)
    requires Closed(ps) && Defined(ps, p.expansion) && IsNode(p, path)
    requires AtChoicePoint(ps, p, path) == Ok(true)
    ensures exists m | 0 <= m <= |path| :: IsNode(p, path[..m]) && DecisionParent(ps, p, path[..m])
    decreases |path|
  {
    if DecisionParent(ps, p, path) {
      assert path[..|path|] == path;
    } else {
      var gpPath := Front(Front(path));
      assert IsNode(p, gpPath);
      ChoicePointHasDecisionAncestor(ps, p, gpPath);
      var m :| 0 <= m <= |gpPath| && IsNode(p, gpPath[..m]) && DecisionParent(ps, p, gpPath[..m]);
      assert gpPath[..m] == path[..m];
    }
  }

  /** A unit of a sequence is never itself at a choice point; nor is a lookahead expansion. */
  lemma SequenceUnitNotChoicePoint(ps: Productions, p: Production, path: Path)
    requires Closed(ps) && Defined(ps, p.expansion) && IsNode(p, path) && path != []
    requires !Last(path).Child? || NodeAt(ps, p, Front(path)).Sequence?
    ensures AtChoicePoint(ps, p, path) == Ok(false)
  {
  }

  /** What getNonSuperfluousParent returns: the production, a Lookahead, or an expansion node. */
  datatype Holder = ProductionHolder | LookaheadHolder | ExpansionHolder(path: Path)

  /**
   * getNonSuperfluousParent: the parent, unless it is superfluous
   * parentheses; then the grandparent, cast to a sequence, is asked in turn.
   */
  function NonSuperfluousParent(p: Production, path: Path): (r: Result<Holder>)
    requires IsNode(p, path)
    ensures r.Ok? && r.value.ExpansionHolder? ==>
              |r.value.path| < |path| && r.value.path == path[..|r.value.path|] && IsNode(p, r.value.path)
    decreases |path|
  {
    if path == [] then Ok(ProductionHolder)
    else if !Last(path).Child? then Ok(LookaheadHolder)
    else
      var parentPath := Front(path);
      if !Superfluous(At(p.expansion, parentPath).value) then Ok(ExpansionHolder(parentPath))
      else if parentPath == [] || !Last(parentPath).Child? || !At(p.expansion, Front(parentPath)).value.Sequence? then
        Thrown("ClassCastException")
      else
        var r := NonSuperfluousParent(p, Front(parentPath));
        assert r.Ok? && r.value.ExpansionHolder? ==> r.value.path == path[..|r.value.path|];
        r
  }

  /** Superfluous parentheses hold only a sequence, so anything else has its own parent as the non-superfluous one. */
  lemma NonSuperfluousParentOfNonSequence(ps: Productions, p: Production, path: Path)
    requires Defined(ps, p.expansion) && IsNode(p, path) && path != [] && Last(path).Child?
    requires !NodeAt(ps, p, path).Sequence?
    ensures NonSuperfluousParent(p, path) == Ok(ExpansionHolder(Front(path)))
  {
    UnitOfParent(ps, p, path);
  }

  /**
   * ExpansionSequence.firstNonEmpty from unit i on: the first unit that cannot
   * be empty, looking inside superfluous parentheses; the result is the path
   * relative to the sequence.
   */
  function FirstNonEmptyFrom(ps: Productions, e: Expansion, i: nat): (r: Option<Path>)
    requires Closed(ps) && Defined(ps, e) && e.Sequence? && i <= |e.units|
    ensures r.None? <==> forall j | i <= j < |e.units| :: Empties(ps, e.units[j])
    ensures r.Some? ==> |r.value| >= 1 && r.value[0].Child? && i <= r.value[0].index < |e.units|
    ensures r.Some? ==> forall j | i <= j < r.value[0].index :: Empties(ps, e.units[j])
    ensures r.Some? && |r.value| == 1 ==> !Empties(ps, e.units[r.value[0].index])
    decreases SizeAll(e.units), |e.units| - i
  {
    if i == |e.units| then None
    else
      var u := e.units[i];
      assert Defined(ps, u);
      if Superfluous(u) then
        SizeAllBound(e.units);
        assert Size(u) == 2 + SizeAll(u.body.units) + SizeLa(u.body.lookahead);
        assert Empties(ps, u) == Empties(ps, u.body);
        SequenceEmptiesAll(ps, u.body);
        match FirstNonEmptyFrom(ps, u.body, 0)
        case Some(rel) =>
          assert ([Child(i), Child(0)] + rel)[0] == Child(i);
          Some([Child(i), Child(0)] + rel)
        case None => FirstNonEmptyFrom(ps, e, i + 1)
      else if !Empties(ps, u) then Some([Child(i)])
      else FirstNonEmptyFrom(ps, e, i + 1)
  }

  lemma SequenceEmptiesAll(ps: Productions, e: Expansion)
    requires Closed(ps) && Defined(ps, e) && e.Sequence?
    ensures Empties(ps, e) <==> forall j | 0 <= j < |e.units| :: Empties(ps, e.units[j])
  {
    AllEmptiesIff(ps, e.units);
  }

  lemma {:induction false} AllEmptiesIff(ps: Productions, us: seq<Expansion>)
    requires Closed(ps) && forall j | 0 <= j < |us| :: Defined(ps, us[j])
    ensures AllPossiblyEmpty(ps, us, {}) <==> forall j | 0 <= j < |us| :: Empties(ps, us[j])
  {
    if us != [] {
      AllEmptiesIff(ps, us[1..]);
      assert forall j | 1 <= j < |us| :: us[j] == us[1..][j - 1];
    }
  }

  function FirstNonEmpty(ps: Productions, e: Expansion): Option<Path>
    requires Closed(ps) && Defined(ps, e) && e.Sequence?
  {
    FirstNonEmptyFrom(ps, e, 0)
  }

  /** beginsSequence: the parent is a sequence and every unit before this one can be empty. */
  predicate BeginsSequence(ps: Productions, p: Production, path: Path)
    requires Closed(ps) && Defined(ps, p.expansion) && IsNode(p, path)
  {
    path != [] && Last(path).Child? &&
    var parent := NodeAt(ps, p, Front(path));
    parent.Sequence? &&
    forall j | 0 <= j < Last(path).index && j < |parent.units| :: Empties(ps, parent.units[j])
  }

  /** beginsSequence as the source writes it: a loop over the parent's units until this one or a non-empty one. */
  method GetBeginsSequence(ps: Productions, p: Production, path: Path) returns (result: bool)
    requires Closed(ps) && Defined(ps, p.expansion) && IsNode(p, path)
    ensures result == BeginsSequence(ps, p, path)
  {
    if path == [] || !Last(path).Child? {
      return false;
    }
    UnitOfParent(ps, p, path);
    var parent := NodeAt(ps, p, Front(path));
    if !parent.Sequence? {
      return false;
    }
    var k := Last(path).index;
    var i := 0;
    while i < |parent.units|
      invariant 0 <= i <= k
      invariant forall j | 0 <= j < i :: Empties(ps, parent.units[j])
    {
      if i == k {
        return true;
      }
      assert Defined(ps, parent.units[i]);
      if !Empties(ps, parent.units[i]) {
        return false;
      }
      i := i + 1;
    }
    return true;
  }

  /**
   * NonTerminal.getScanToEnd: inside a lookahead, always; otherwise the
   * non-superfluous parent is cast to a sequence, and the non-terminal is
   * scanned to its end unless that sequence is at a choice point with no
   * explicit numerical lookahead or scan limit and the non-terminal is its
   * first non-empty unit.
   */
  function ScanToEnd(ps: Productions, p: Production, path: Path): Result<bool>
    requires Closed(ps) && Defined(ps, p.expansion) && IsNode(p, path) && NodeAt(ps, p, path).NonTerminal?
  {
    if InsideLookahead(path) then Ok(true)
    else
      match NonSuperfluousParent(p, path)
      case Thrown(x) => Thrown(x)
      case Ok(h) =>
        if !h.ExpansionHolder? || !NodeAt(ps, p, h.path).Sequence? then Thrown("ClassCastException")
        else
          var parent := NodeAt(ps, p, h.path);
          match AtChoicePoint(ps, p, h.path)
          case Thrown(x) => Thrown(x)
          case Ok(cp) =>
            if !cp then Ok(true)
            else
              var la := LookaheadFound(ps, parent);
              if (la.Some? && la.value.amount.Some?) || HasExplicitScanLimit(parent) then Ok(true)
              else
                var f := FirstNonEmpty(ps, parent);
                Ok(f.None? || h.path + f.value != path)
  }

  /** Inside a lookahead a non-terminal is always scanned to its end. */
  lemma ScanToEndInsideLookahead(ps: Productions, p: Production, path: Path)
    requires Closed(ps) && Defined(ps, p.expansion) && IsNode(p, path) && NodeAt(ps, p, path).NonTerminal?
    requires InsideLookahead(path)
    ensures ScanToEnd(ps, p, path) == Ok(true)
  {
  }

  /**
   * A non-terminal is not scanned to its end only when it begins its parent
   * sequence, cannot itself be empty, and that sequence is at a choice point.
   */
  lemma ScanToEndFalse(ps: Productions, p: Production, path: Path)
    requires Closed(ps) && Defined(ps, p.expansion) && IsNode(p, path) && NodeAt(ps, p, path).NonTerminal?
    requires ScanToEnd(ps, p, path) == Ok(false)
    ensures !InsideLookahead(path)
    ensures BeginsSequence(ps, p, path)
    ensures !Empties(ps, NodeAt(ps, p, path))
    ensures AtChoicePoint(ps, p, Front(path)) == Ok(true)
  {
    assert path != [];
    assert !path[|path| - 1].Child? ==> InsideLookahead(path);
    NonSuperfluousParentOfNonSequence(ps, p, path);
    UnitOfParent(ps, p, path);
    var q := Front(path);
    var parent := NodeAt(ps, p, q);
    var f := FirstNonEmpty(ps, parent);
    assert f.Some? && q + f.value == path;
    assert |f.value| == 1;
    assert f.value[0] == path[|q|] == Last(path);
  }

  /* ---------------------------------------------------------------------- */
  /* getFollowingExpansion / getFollowSet / isBeforeLexicalStateSwitch       */
  /* ---------------------------------------------------------------------- */

  /** getFollowingExpansion: the next unit of the parent sequence, else what follows the parent. */
  function Following(p: Production, path: Path): Option<Path>
    requires IsNode(p, path)
    decreases |path|
  {
    if path == [] || !Last(path).Child? then None
    else
      var parent := At(p.expansion, Front(path)).value;
      var k := Last(path).index;
      if parent.Sequence? && k + 1 < |parent.units| then Some(Front(path) + [Child(k + 1)])
      else Following(p, Front(path))
  }

  /** The paths of children from..to-1 of the node at parentPath. */
  function Siblings(parentPath: Path, from: nat, to: nat): (r: seq<Path>)
    ensures |r| == if from <= to then to - from else 0
    ensures forall i | 0 <= i < |r| :: r[i] == parentPath + [Child(from + i)]
  {
    if from <= to then seq(to - from, i requires 0 <= i < to - from => parentPath + [Child(from + i)]) else []
  }

  lemma SiblingsAreNodes(p: Production, parentPath: Path, from: nat, to: nat)
    requires IsNode(p, parentPath) && to <= |Children(At(p.expansion, parentPath).value)|
    ensures forall i | 0 <= i < |Siblings(parentPath, from, to)| :: IsNode(p, Siblings(parentPath, from, to)[i])
  {
    var sibs := Siblings(parentPath, from, to);
    forall i | 0 <= i < |sibs|
      ensures IsNode(p, sibs[i])
    {
      assert sibs[i] == parentPath + [Child(from + i)];
      ChildIsNode(p, parentPath, from + i);
    }
  }

  /** Every expansion that getFollowingExpansion yields, in order, when applied repeatedly. */
  function Chain(p: Production, path: Path): seq<Path>
    requires IsNode(p, path)
    decreases |path|
  {
    if path == [] || !Last(path).Child? then []
    else
      var parentPath := Front(path);
      var parent := At(p.expansion, parentPath).value;
      var n := if parent.Sequence? then |parent.units| else 0;
      SiblingsAreNodes(p, parentPath, Last(path).index + 1, n);
      Siblings(parentPath, Last(path).index + 1, n) + Chain(p, parentPath)
  }

  /** Every path of the chain leads to a node. */
  lemma {:induction false} ChainNodes(p: Production, path: Path)
    requires IsNode(p, path)
    ensures forall i | 0 <= i < |Chain(p, path)| :: IsNode(p, Chain(p, path)[i])
    decreases |path|
  {
    if path != [] && Last(path).Child? {
      var parentPath := Front(path);
      var parent := At(p.expansion, parentPath).value;
      var n := if parent.Sequence? then |parent.units| else 0;
      SiblingsAreNodes(p, parentPath, Last(path).index + 1, n);
      ChainNodes(p, parentPath);
      var sibs, up := Siblings(parentPath, Last(path).index + 1, n), Chain(p, parentPath);
      assert Chain(p, path) == sibs + up;
      forall i | 0 <= i < |sibs + up| ensures IsNode(p, (sibs + up)[i]) {
        if i >= |sibs| {
          assert (sibs + up)[i] == up[i - |sibs|];
        }
      }
    }
  }

  /** The number of units of a sequence node; 0 for any other node. */
  function UnitCount(e: Expansion): nat
  {
    if e.Sequence? then |e.units| else 0
  }

  /** Chain and Following of child j, in terms of its parent. */
  lemma {:induction false} ChainOfChild(p: Production, parentPath: Path, j: nat)
    requires IsNode(p, parentPath) && j < |Children(At(p.expansion, parentPath).value)|
    ensures IsNode(p, parentPath + [Child(j)])
    ensures Chain(p, parentPath + [Child(j)]) ==
              Siblings(parentPath, j + 1, UnitCount(At(p.expansion, parentPath).value)) + Chain(p, parentPath)
    ensures Following(p, parentPath + [Child(j)]) ==
              if j + 1 < UnitCount(At(p.expansion, parentPath).value) then Some(parentPath + [Child(j + 1)])
              else Following(p, parentPath)
  {
    ChildChain(p, parentPath, j);
    ChildFollowing(p, parentPath, j);
  }

  /** The chain of child j: its later siblings, then its parent's chain. */
  lemma ChildChain(p: Production, parentPath: Path, j: nat)
    requires IsNode(p, parentPath) && j < |Children(At(p.expansion, parentPath).value)|
    ensures IsNode(p, parentPath + [Child(j)])
    ensures Chain(p, parentPath + [Child(j)]) ==
              Siblings(parentPath, j + 1, UnitCount(At(p.expansion, parentPath).value)) + Chain(p, parentPath)
  {
    ChildIsNode(p, parentPath, j);
  }

  /** The node after child j: its next sibling, or past the last one the node after its parent. */
  lemma ChildFollowing(p: Production, parentPath: Path, j: nat)
    requires IsNode(p, parentPath) && j < |Children(At(p.expansion, parentPath).value)|
    ensures IsNode(p, parentPath + [Child(j)])
    ensures Following(p, parentPath + [Child(j)]) ==
              if j + 1 < UnitCount(At(p.expansion, parentPath).value) then Some(parentPath + [Child(j + 1)])
              else Following(p, parentPath)
  {
    ChildIsNode(p, parentPath, j);
  }

  /** Inside a sequence, the next unit follows, and its chain is the rest of this unit's. */
  lemma {:induction false} ChainStepSibling(p: Production, parentPath: Path, k: nat)
    requires IsNode(p, parentPath) && k + 1 < UnitCount(At(p.expansion, parentPath).value)
    ensures IsNode(p, parentPath + [Child(k)]) && IsNode(p, parentPath + [Child(k + 1)])
    ensures Following(p, parentPath + [Child(k)]) == Some(parentPath + [Child(k + 1)])
    ensures Chain(p, parentPath + [Child(k)]) != []
    ensures Chain(p, parentPath + [Child(k)])[0] == parentPath + [Child(k + 1)]
    ensures Chain(p, parentPath + [Child(k + 1)]) == Chain(p, parentPath + [Child(k)])[1..]
  {
    ChildFollowing(p, parentPath, k);
    ChainHead(p, parentPath, k);
    ChainTail(p, parentPath, k);
  }

  /** A node with units is a sequence, and its units are its children. */
  lemma UnitsAreChildren(e: Expansion)
    requires UnitCount(e) > 0
    ensures e.Sequence? && Children(e) == e.units && UnitCount(e) == |e.units|
  {
  }

  /** Inside a sequence, the chain of unit k starts with unit k + 1. */
  lemma ChainHead(p: Production, parentPath: Path, k: nat)
    requires IsNode(p, parentPath) && k + 1 < UnitCount(At(p.expansion, parentPath).value)
    ensures IsNode(p, parentPath + [Child(k)])
    ensures Chain(p, parentPath + [Child(k)]) != []
    ensures Chain(p, parentPath + [Child(k)])[0] == parentPath + [Child(k + 1)]
  {
    var n := UnitCount(At(p.expansion, parentPath).value);
    ChildChain(p, parentPath, k);
    SiblingsTail(parentPath, k + 1, n);
    DropAppend(Siblings(parentPath, k + 1, n), Chain(p, parentPath));
  }

  /** Inside a sequence, the chain of unit k + 1 is the chain of unit k without its head. */
  lemma ChainTail(p: Production, parentPath: Path, k: nat)
    requires IsNode(p, parentPath) && k + 1 < UnitCount(At(p.expansion, parentPath).value)
    ensures IsNode(p, parentPath + [Child(k)]) && IsNode(p, parentPath + [Child(k + 1)])
    ensures Chain(p, parentPath + [Child(k)]) != []
    ensures Chain(p, parentPath + [Child(k + 1)]) == Chain(p, parentPath + [Child(k)])[1..]
  {
    var n := UnitCount(At(p.expansion, parentPath).value);
    UnitsAreChildren(At(p.expansion, parentPath).value);
    ChildChain(p, parentPath, k);
    ChildChain(p, parentPath, k + 1);
    SiblingsTail(parentPath, k + 1, n);
    DropAppend(Siblings(parentPath, k + 1, n), Chain(p, parentPath));
  }

  /** Dropping the first element of s + up drops it from s. */
  lemma DropAppend<T>(s: seq<T>, up: seq<T>)
    requires s != []
    ensures (s + up)[0] == s[0] && (s + up)[1..] == s[1..] + up
  {
  }

  /** The siblings from `from` on are that sibling and the ones after it. */
  lemma SiblingsTail(parentPath: Path, from: nat, to: nat)
    requires from < to
    ensures Siblings(parentPath, from, to) != [] && Siblings(parentPath, from, to)[0] == parentPath + [Child(from)]
    ensures Siblings(parentPath, from, to)[1..] == Siblings(parentPath, from + 1, to)
  {
  }

  /** Past the last unit of its parent, a node has its parent's chain and following node. */
  lemma {:induction false} ChainPastLast(p: Production, parentPath: Path, k: nat)
    requires IsNode(p, parentPath) && k < |Children(At(p.expansion, parentPath).value)|
    requires UnitCount(At(p.expansion, parentPath).value) <= k + 1
    ensures IsNode(p, parentPath + [Child(k)])
    ensures Chain(p, parentPath + [Child(k)]) == Chain(p, parentPath)
    ensures Following(p, parentPath + [Child(k)]) == Following(p, parentPath)
  {
    ChainOfChild(p, parentPath, k);
    assert Siblings(parentPath, k + 1, UnitCount(At(p.expansion, parentPath).value)) == [];
  }

  /** Following is the head of the chain, and the chain of what follows is the rest of it. */
  lemma {:induction false} ChainStep(p: Production, path: Path)
    requires IsNode(p, path)
    ensures Following(p, path).None? <==> Chain(p, path) == []
    ensures Following(p, path).Some? ==>
              IsNode(p, Following(p, path).value) &&
              Following(p, path).value == Chain(p, path)[0] &&
              Chain(p, Following(p, path).value) == Chain(p, path)[1..]
    decreases |path|
  {
    if path != [] && Last(path).Child? {
      var parentPath := Front(path);
      var k := Last(path).index;
      assert path == parentPath + [Child(k)];
      var n := UnitCount(At(p.expansion, parentPath).value);
      if k + 1 < n {
        ChainStepSibling(p, parentPath, k);
      } else {
        ChainPastLast(p, parentPath, k);
        ChainStep(p, parentPath);
      }
    }
  }

  /** The expansions a sequence of paths leads to. */
  function Nodes(ps: Productions, p: Production, chain: seq<Path>): (r: seq<Expansion>)
    requires Defined(ps, p.expansion) && forall i | 0 <= i < |chain| :: IsNode(p, chain[i])
    ensures |r| == |chain| && forall i | 0 <= i < |r| :: r[i] == NodeAt(ps, p, chain[i]) && Defined(ps, r[i])
  {
    seq(|chain|, i requires 0 <= i < |chain| => NodeAt(ps, p, chain[i]))
  }

  lemma NodesTail(ps: Productions, p: Production, chain: seq<Path>)
    requires Defined(ps, p.expansion) && chain != [] && forall i | 0 <= i < |chain| :: IsNode(p, chain[i])
    ensures Nodes(ps, p, chain[1..]) == Nodes(ps, p, chain)[1..]
  {
  }

  /** The successive following expansions of a node, as getFollowingExpansion yields them. */
  function FollowingExpansions(ps: Productions, p: Production, path: Path): seq<Expansion>
    requires Defined(ps, p.expansion) && IsNode(p, path)
  {
    ChainNodes(p, path);
    Nodes(ps, p, Chain(p, path))
  }

  /** One step of the do-while loops: the next following expansion heads the list, the rest follow it. */
  lemma FollowingStep(ps: Productions, p: Production, path: Path)
    requires Defined(ps, p.expansion) && IsNode(p, path)
    ensures Following(p, path).None? <==> FollowingExpansions(ps, p, path) == []
    ensures Following(p, path).Some? ==>
              IsNode(p, Following(p, path).value) &&
              FollowingExpansions(ps, p, path)[0] == NodeAt(ps, p, Following(p, path).value) &&
              FollowingExpansions(ps, p, Following(p, path).value) == FollowingExpansions(ps, p, path)[1..]
  {
    ChainStep(p, path);
    ChainNodes(p, path);
    if Following(p, path).Some? {
      NodesTail(ps, p, Chain(p, path));
    }
  }

  /** isAtEndOfLoop: a loop itself, or every later sibling can be empty and the parent ends a loop. */
  predicate AtEndOfLoop(ps: Productions, p: Production, path: Path)
    requires Closed(ps) && Defined(ps, p.expansion) && IsNode(p, path)
    decreases |path|
  {
    var e := NodeAt(ps, p, path);
    if e.ZeroOrMore? || e.OneOrMore? then true
    else if path == [] || !Last(path).Child? then false
    else
      UnitOfParent(ps, p, path);
      var parent := NodeAt(ps, p, Front(path));
      var k := Last(path).index;
      if parent.Sequence? && exists j | k < j < |parent.units| :: !Empties(ps, parent.units[j]) then false
      else AtEndOfLoop(ps, p, Front(path))
  }

  /** firstLoopAncestor: the nearest `*` or `+` node among this node and its expansion ancestors. */
  function FirstLoopAncestor(p: Production, path: Path): (r: Option<Path>)
    requires IsNode(p, path)
    ensures r.Some? ==> |r.value| <= |path| && r.value == path[..|r.value|] && IsNode(p, r.value)
    ensures r.Some? ==> At(p.expansion, r.value).value.ZeroOrMore? || At(p.expansion, r.value).value.OneOrMore?
    decreases |path|
  {
    var e := At(p.expansion, path).value;
    if e.ZeroOrMore? || e.OneOrMore? then
      assert path[..|path|] == path;
      Some(path)
    else if path == [] || !Last(path).Child? then None
    else
      var r := FirstLoopAncestor(p, Front(path));
      assert r.Some? ==> r.value == path[..|r.value|];
      r
  }

  /** At the end of a loop there is always a loop ancestor, so getFollowSet never dereferences a missing one. */
  lemma {:induction false} EndOfLoopHasLoopAncestor(ps: Productions, p: Production, path: Path)
    requires Closed(ps) && Defined(ps, p.expansion) && IsNode(p, path)
    requires AtEndOfLoop(ps, p, path)
    ensures FirstLoopAncestor(p, path).Some?
    decreases |path|
  {
    var e := NodeAt(ps, p, path);
    if !(e.ZeroOrMore? || e.OneOrMore?) {
      UnitOfParent(ps, p, path);
      EndOfLoopHasLoopAncestor(ps, p, Front(path));
    }
  }

  /** The tokens getFollowSet collects, and whether it ran out of following expansions. */
  datatype Follow = Follow(tokens: set<nat>, incomplete: bool)

  /** The FIRST set of the enclosing loop, when at the end of one. */
  function LoopFirst(ps: Productions, p: Production, path: Path): set<nat>
    requires Closed(ps) && Defined(ps, p.expansion) && IsNode(p, path)
  {
    if AtEndOfLoop(ps, p, path) then
      EndOfLoopHasLoopAncestor(ps, p, path);
      First(ps, NodeAt(ps, p, FirstLoopAncestor(p, path).value), {})
    else {}
  }

  /**
   * getFollowSet: the enclosing loop's FIRST set at the end of a loop, and the
   * FIRST sets of the following expansions up to and including the first that
   * cannot be empty; incomplete when every following expansion can be empty.
   */
  function FollowSet(ps: Productions, p: Production, path: Path): Follow
    requires Closed(ps) && Defined(ps, p.expansion) && IsNode(p, path)
  {
    var fs := FollowingExpansions(ps, p, path);
    Follow(LoopFirst(ps, p, path) + FirstAll(ps, fs, {}), AllPossiblyEmpty(ps, fs, {}))
  }

  /**
   * The follow set holds exactly the enclosing loop's FIRST set (at the end of
   * a loop) and the FIRST set of every following expansion reached through
   * possibly-empty ones; it is incomplete exactly when every following
   * expansion can be empty, including when there is none.
   */
  lemma FollowSetMembers(ps: Productions, p: Production, path: Path, t: nat)
    requires Closed(ps) && Defined(ps, p.expansion) && IsNode(p, path)
    ensures AtEndOfLoop(ps, p, path) ==> FirstLoopAncestor(p, path).Some?
    ensures var fs := FollowingExpansions(ps, p, path);
            t in FollowSet(ps, p, path).tokens <==>
              (AtEndOfLoop(ps, p, path) && t in First(ps, NodeAt(ps, p, FirstLoopAncestor(p, path).value), {})) ||
              exists i | 0 <= i < |fs| :: t in First(ps, fs[i], {}) && forall j | 0 <= j < i :: Empties(ps, fs[j])
    ensures var fs := FollowingExpansions(ps, p, path);
            FollowSet(ps, p, path).incomplete <==> forall j | 0 <= j < |fs| :: Empties(ps, fs[j])
  {
    if AtEndOfLoop(ps, p, path) {
      EndOfLoopHasLoopAncestor(ps, p, path);
    }
    var fs := FollowingExpansions(ps, p, path);
    SequenceFirstSet(ps, fs, {}, t);
    AllPossiblyEmptyIff(ps, fs, {});
  }

  /** A fresh token set holding FIRST of e: getFirstSet as the source returns it. */
  method GetFirstSet(ps: Productions, e: Expansion) returns (s: TokenSet)
    requires Closed(ps) && Defined(ps, e)
    ensures fresh(s) && s.bits == First(ps, e, {}) && !s.incomplete
  {
    s := new TokenSet(false);
    s.bits := First(ps, e, {});
  }

  /**
   * getFollowSet: the enclosing loop's FIRST set at the end of a loop, then
   * what the following expansions contribute.
   */
  method GetFollowSet(ps: Productions, p: Production, path: Path) returns (result: TokenSet)
    requires Closed(ps) && Defined(ps, p.expansion) && IsNode(p, path)
    ensures fresh(result)
    ensures result.bits == FollowSet(ps, p, path).tokens && result.incomplete == FollowSet(ps, p, path).incomplete
  {
    result := new TokenSet(false);
    if AtEndOfLoop(ps, p, path) {
      EndOfLoopHasLoopAncestor(ps, p, path);
      var loopFirst := GetFirstSet(ps, NodeAt(ps, p, FirstLoopAncestor(p, path).value));
      result.Or(loopFirst);
    }
    AddFollowing(ps, p, path, result);
  }

  /**
   * The do-while loop of getFollowSet: the FIRST sets of the following
   * expansions are added up to and including the first that cannot be empty;
   * the set is marked incomplete when they run out.
   */
  method AddFollowing(ps: Productions, p: Production, path: Path, result: TokenSet)
    requires Closed(ps) && Defined(ps, p.expansion) && IsNode(p, path) && !result.incomplete
    modifies result
    ensures result.bits == old(result.bits) + FirstAll(ps, FollowingExpansions(ps, p, path), {})
    ensures result.incomplete == AllPossiblyEmpty(ps, FollowingExpansions(ps, p, path), {})
  {
    ghost var start := result.bits;
    ghost var all := FollowingExpansions(ps, p, path);
    var following := path;
    ghost var rest := all;
    while true
      invariant IsNode(p, following) && rest == FollowingExpansions(ps, p, following)
      invariant !result.incomplete
      invariant result.bits + FirstAll(ps, rest, {}) == start + FirstAll(ps, all, {})
      invariant AllPossiblyEmpty(ps, rest, {}) == AllPossiblyEmpty(ps, all, {})
      decreases |rest|
    {
      FollowingStep(ps, p, following);
      var next := Following(p, following);
      if next.None? {
        result.SetIncomplete(true);
        break;
      }
      var e := NodeAt(ps, p, next.value);
      FirstAllUnfold(ps, rest);
      var fs := GetFirstSet(ps, e);
      result.Or(fs);
      following := next.value;
      rest := rest[1..];
      if !Empties(ps, e) {
        break;
      }
    }
  }

  /** The FIRST set and the emptiness of a nonempty list, in terms of its head and tail. */
  lemma FirstAllUnfold(ps: Productions, us: seq<Expansion>)
    requires Closed(ps) && us != [] && forall i | 0 <= i < |us| :: Defined(ps, us[i])
    ensures FirstAll(ps, us, {}) == First(ps, us[0], {}) + (if Empties(ps, us[0]) then FirstAll(ps, us[1..], {}) else {})
    ensures AllPossiblyEmpty(ps, us, {}) == (Empties(ps, us[0]) && AllPossiblyEmpty(ps, us[1..], {}))
  {
  }

  /** isBeforeLexicalStateSwitch along the following expansions: None when they run out. */
  function SwitchAhead(ps: Productions, es: seq<Expansion>): Option<bool>
    requires Closed(ps) && forall i | 0 <= i < |es| :: Defined(ps, es[i])
  {
    if es == [] then None
    else if SwitchesState(ps, es[0], {}) then Some(true)
    else if !Empties(ps, es[0]) then Some(false)
    else SwitchAhead(ps, es[1..])
  }

  /**
   * The answer is true iff some following expansion switches lexical state
   * with only possibly-empty expansions before it, and unknown iff every
   * following expansion is possibly empty and none switches.
   */
  lemma {:induction false} SwitchAheadMeaning(ps: Productions, es: seq<Expansion>)
    requires Closed(ps) && forall i | 0 <= i < |es| :: Defined(ps, es[i])
    ensures SwitchAhead(ps, es) == Some(true) <==>
              exists i | 0 <= i < |es| :: SwitchesState(ps, es[i], {}) && forall j | 0 <= j < i :: Empties(ps, es[j])
    ensures SwitchAhead(ps, es).None? <==> forall j | 0 <= j < |es| :: Empties(ps, es[j]) && !SwitchesState(ps, es[j], {})
  {
    SequenceSwitchesState(ps, es, {});
    SwitchAheadUnits(ps, es);
  }

  lemma {:induction false} SwitchAheadUnits(ps: Productions, es: seq<Expansion>)
    requires Closed(ps) && forall i | 0 <= i < |es| :: Defined(ps, es[i])
    ensures SwitchAhead(ps, es) == Some(true) <==> UnitsSwitchState(ps, es, {})
    ensures SwitchAhead(ps, es).None? <==> forall j | 0 <= j < |es| :: Empties(ps, es[j]) && !SwitchesState(ps, es[j], {})
  {
    if es != [] {
      SwitchAheadUnits(ps, es[1..]);
      assert forall j | 1 <= j < |es| :: es[j] == es[1..][j - 1];
    }
  }

  /** isBeforeLexicalStateSwitch: the do-while loop over following expansions. */
  method IsBeforeLexicalStateSwitch(ps: Productions, p: Production, path: Path) returns (result: Option<bool>)
    requires Closed(ps) && Defined(ps, p.expansion) && IsNode(p, path)
    ensures result == SwitchAhead(ps, FollowingExpansions(ps, p, path))
  {
    var following := path;
    ghost var rest := FollowingExpansions(ps, p, path);
    while true
      invariant IsNode(p, following) && rest == FollowingExpansions(ps, p, following)
      invariant SwitchAhead(ps, rest) == SwitchAhead(ps, FollowingExpansions(ps, p, path))
      decreases |rest|
    {
      FollowingStep(ps, p, following);
      var next := Following(p, following);
      if next.None? {
        return None;
      }
      following := next.value;
      rest := rest[1..];
      var e := NodeAt(ps, p, following);
      if SwitchesState(ps, e, {}) {
        return Some(true);
      }
      if !Empties(ps, e) {
        return Some(false);
      }
    }
  }

  /* ---------------------------------------------------------------------- */
  /* getPreceding / getRequiresRecoverMethod                                 */
  /* ---------------------------------------------------------------------- */

  /** The nearest unit before position k with a positive maximum size. */
  function PrecedingIndex(ps: Productions, e: Expansion, k: nat): (r: Option<nat>)
    requires Closed(ps) && Defined(ps, e) && e.Sequence? && k <= |e.units|
    ensures r.Some? ==> r.value < k && MaxSize(ps, e.units[r.value], {}) > 0
    ensures r.Some? ==> forall j | r.value < j < k :: MaxSize(ps, e.units[j], {}) <= 0
    ensures r.None? ==> forall j | 0 <= j < k :: MaxSize(ps, e.units[j], {}) <= 0
    decreases k
  {
    if k == 0 then None
    else
      assert Defined(ps, e.units[k - 1]);
      if MaxSize(ps, e.units[k - 1], {}) > 0 then Some(k - 1) else PrecedingIndex(ps, e, k - 1)
  }

  /** getPreceding: only a unit of a sequence has one. */
  function Preceding(ps: Productions, p: Production, path: Path): (r: Option<Path>)
    requires Closed(ps) && Defined(ps, p.expansion) && IsNode(p, path)
    ensures r.Some? ==> path != [] && Last(path).Child? && IsNode(p, r.value) &&
                        r.value != [] && Front(r.value) == Front(path) && Last(r.value).Child?
  {
    if path == [] || !Last(path).Child? then None
    else
      UnitOfParent(ps, p, path);
      var parent := NodeAt(ps, p, Front(path));
      if !parent.Sequence? then None
      else
        match PrecedingIndex(ps, parent, Last(path).index)
        case None => None
        case Some(j) =>
          ChildIsNode(p, Front(path), j);
          Some(Front(path) + [Child(j)])
  }

  /** getPreceding as the source writes it: a loop walking back from this unit. */
  method GetPreceding(ps: Productions, p: Production, path: Path) returns (result: Option<Path>)
    requires Closed(ps) && Defined(ps, p.expansion) && IsNode(p, path)
    ensures result == Preceding(ps, p, path)
  {
    if path == [] || !Last(path).Child? {
      return None;
    }
    UnitOfParent(ps, p, path);
    var parent := NodeAt(ps, p, Front(path));
    if !parent.Sequence? {
      return None;
    }
    var index := Last(path).index;
    while index > 0
      invariant 0 <= index <= Last(path).index
      invariant PrecedingIndex(ps, parent, index) == PrecedingIndex(ps, parent, Last(path).index)
    {
      assert Defined(ps, parent.units[index - 1]);
      if MaxSize(ps, parent.units[index - 1], {}) > 0 {
        ChildIsNode(p, Front(path), index - 1);
        return Some(Front(path) + [Child(index - 1)]);
      }
      index := index - 1;
    }
    return None;
  }

  /** isTolerantParsing: the unit is marked for fault-tolerant parsing in its sequence. */
  predicate Tolerant(ps: Productions, p: Production, path: Path)
    requires Closed(ps) && Defined(ps, p.expansion) && IsNode(p, path)
  {
    path != [] && Last(path).Child? &&
    var parent := NodeAt(ps, p, Front(path));
    parent.Sequence? && Last(path).index in parent.tolerant
  }

  /**
   * getRequiresRecoverMethod: never inside a lookahead or in a production that
   * is only for lookahead; always for a tolerant expansion or a production's
   * root; otherwise when the preceding unit is tolerant and is not a token.
   */
  predicate RequiresRecoverMethod(ps: Productions, p: Production, path: Path)
    requires Closed(ps) && Defined(ps, p.expansion) && IsNode(p, path)
  {
    if InsideLookahead(path) then false
    else if BnfProductions.OnlyForLookahead(p) then false
    else if Tolerant(ps, p, path) || path == [] then true
    else
      var pre := Preceding(ps, p, path);
      pre.Some? && Tolerant(ps, p, pre.value) && !NodeAt(ps, p, pre.value).Terminal?
  }

  /**
   * A unit whose nearest earlier token-consuming sibling is a tolerant
   * non-token unit needs a recover method, outside lookahead and outside
   * lookahead-only productions.
   */
  lemma RecoverAfterTolerantUnit(ps: Productions, p: Production, path: Path, j: nat)
    requires Closed(ps) && Defined(ps, p.expansion) && IsNode(p, path)
    requires !InsideLookahead(path) && !BnfProductions.OnlyForLookahead(p)
    requires path != [] && Last(path).Child? && NodeAt(ps, p, Front(path)).Sequence?
    requires j < Last(path).index && j in NodeAt(ps, p, Front(path)).tolerant
    requires MaxSize(ps, NodeAt(ps, p, Front(path)).units[j], {}) > 0
    requires forall i | j < i < Last(path).index :: MaxSize(ps, NodeAt(ps, p, Front(path)).units[i], {}) <= 0
    requires !NodeAt(ps, p, Front(path)).units[j].Terminal?
    ensures RequiresRecoverMethod(ps, p, path)
  {
    UnitOfParent(ps, p, path);
    var parent := NodeAt(ps, p, Front(path));
    var r := PrecedingIndex(ps, parent, Last(path).index);
    assert MaxSize(ps, parent.units[j], {}) > 0;
    assert r == Some(j);
    ChildIsNode(p, Front(path), j);
    var pre := Front(path) + [Child(j)];
    assert Preceding(ps, p, path) == Some(pre);
    assert Tolerant(ps, p, pre);
  }

  /** Nothing in a lookahead-only production, and nothing inside a lookahead, needs a recover method. */
  lemma NoRecoverForLookahead(ps: Productions, p: Production, path: Path)
    requires Closed(ps) && Defined(ps, p.expansion) && IsNode(p, path)
    requires InsideLookahead(path) || BnfProductions.OnlyForLookahead(p)
    ensures !RequiresRecoverMethod(ps, p, path)
  {
  }

  /* ---------------------------------------------------------------------- */
  /* getHasImplicitSyntacticLookahead / getRequiresPredicateMethod           */
  /* ---------------------------------------------------------------------- */

  /** getHasImplicitSyntacticLookahead: the ordered decision chain. */
  function ImplicitSyntacticLookahead(ps: Productions, p: Production, path: Path): Result<bool>
    requires Closed(ps) && Defined(ps, p.expansion) && IsNode(p, path)
  {
    match AtChoicePoint(ps, p, path)
    case Thrown(x) => Thrown(x)
    case Ok(cp) =>
      var e := NodeAt(ps, p, path);
      var la := LookaheadFound(ps, e);
      if !cp then Ok(false)
      else if la.Some? && la.value.nested.Some? then Ok(false)
      else if AlwaysSuccessful(ps, e, {}) then Ok(false)
      else if HasScanLimit(ps, e) then Ok(true)
      else if la.Some? && la.value.amount.Some? && LookaheadAmount(ps, e) <= 1 then Ok(false)
      else if MaxSize(ps, e, {}) <= 1 then Ok(false)
      else Ok(la.Some? && Amount(la.value) > 1)
  }

  /**
   * An implicit syntactic lookahead is used exactly at a choice point, for an
   * expansion that is not always successful and has no separate lookahead
   * expansion, when it has a scan limit or when it can consume more than one
   * token under a lookahead of more than one token.
   */
  lemma ImplicitSyntacticLookaheadMeaning(ps: Productions, p: Production, path: Path)
    requires Closed(ps) && Defined(ps, p.expansion) && IsNode(p, path)
    ensures var e := NodeAt(ps, p, path);
            var la := LookaheadFound(ps, e);
            ImplicitSyntacticLookahead(ps, p, path) == Ok(true) <==>
              AtChoicePoint(ps, p, path) == Ok(true) &&
              !(la.Some? && la.value.nested.Some?) &&
              !AlwaysSuccessful(ps, e, {}) &&
              (HasScanLimit(ps, e) || (MaxSize(ps, e, {}) > 1 && la.Some? && Amount(la.value) > 1))
  {
    var e := NodeAt(ps, p, path);
    var la := LookaheadFound(ps, e);
    if AtChoicePoint(ps, p, path) != Ok(true) {
      assert ImplicitSyntacticLookahead(ps, p, path) != Ok(true);
    } else if la.Some? && la.value.amount.Some? {
      assert LookaheadAmount(ps, e) == Amount(la.value) == la.value.amount.value;
    }
  }

  /** getRequiresPredicateMethod: the ordered decision chain. */
  function RequiresPredicateMethod(ps: Productions, p: Production, path: Path): Result<bool>
    requires Closed(ps) && Defined(ps, p.expansion) && IsNode(p, path)
  {
    if InsideLookahead(path) then Ok(false)
    else
      match AtChoicePoint(ps, p, path)
      case Thrown(x) => Thrown(x)
      case Ok(cp) =>
        var e := NodeAt(ps, p, path);
        if !cp then Ok(false)
        else if LookaheadFound(ps, e).Some? then Ok(true)
        else if Empties(ps, e) then Ok(false)
        else if ImplicitSyntacticLookahead(ps, p, path) == Ok(true) then Ok(true)
        else if HasTokenActivation(ps, e, {}) || SpecifiedLexicalState(p, path).Some? then Ok(true)
        else if SwitchesState(ps, e, {}) then Ok(true)
        else Ok(HasGlobalSemanticActions(e))
  }

  /**
   * Outside a lookahead, an expansion that cannot be empty and has an implicit
   * syntactic lookahead needs a predicate method; so does any expansion at a
   * choice point with a lookahead of its own. A possibly-empty expansion needs
   * one only when it has a lookahead.
   */
  lemma PredicateMethodCases(ps: Productions, p: Production, path: Path)
    requires Closed(ps) && Defined(ps, p.expansion) && IsNode(p, path)
    ensures !InsideLookahead(path) && !Empties(ps, NodeAt(ps, p, path)) &&
            ImplicitSyntacticLookahead(ps, p, path) == Ok(true) ==>
              RequiresPredicateMethod(ps, p, path) == Ok(true)
    ensures !InsideLookahead(path) && AtChoicePoint(ps, p, path) == Ok(true) &&
            LookaheadFound(ps, NodeAt(ps, p, path)).Some? ==>
              RequiresPredicateMethod(ps, p, path) == Ok(true)
    ensures RequiresPredicateMethod(ps, p, path) == Ok(true) && Empties(ps, NodeAt(ps, p, path)) ==>
              LookaheadFound(ps, NodeAt(ps, p, path)).Some?
    ensures InsideLookahead(path) ==> RequiresPredicateMethod(ps, p, path) == Ok(false)
  {
    if ImplicitSyntacticLookahead(ps, p, path) == Ok(true) {
      ImplicitSyntacticLookaheadMeaning(ps, p, path);
    }
  }
}
