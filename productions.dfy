/**
 * BNFProduction: the derived names of a production, its FIRST and FINAL sets
 * (computed from its expansion on first request and kept), and whether it is
 * left-recursive.
 */
module BnfProductions {
  import opened Util
  import opened Expansions
  import opened ExpansionFacts

  /** Tree-building annotation node names that do not name a node type. */
  predicate ReservedNodeName(s: string)
  {
    s == "abstract" || s == "interface" || s == "void" || s == "scan"
  }

  /** getNodeName: the annotation's node name unless it is absent or reserved, else the production name. */
  function NodeName(p: Production): (r: string)
    ensures r == p.name || p.annotation == Some(Some(r))
    ensures r == p.name || !ReservedNodeName(r)
    ensures forall a :: p.annotation == Some(Some(a)) && !ReservedNodeName(a) ==> r == a
  {
    if p.annotation.Some? && p.annotation.value.Some? && !ReservedNodeName(p.annotation.value.value) then
      p.annotation.value.value
    else p.name
  }

  /** isOnlyForLookahead: the annotation names the node "scan". */
  predicate OnlyForLookahead(p: Production)
  {
    p.annotation == Some(Some("scan"))
  }

  /** A production that exists only for lookahead builds no node of its own name. */
  lemma OnlyForLookaheadKeepsName(p: Production)
    requires OnlyForLookahead(p)
    ensures NodeName(p) == p.name
  {
  }

  /** getReturnType: the node name when implicit, else the declared type, else "void". */
  function ReturnType(p: Production): (r: string)
    ensures p.implicitReturnType ==> r == NodeName(p)
    ensures !p.implicitReturnType ==> p.returnType == Some(r) || (p.returnType.None? && r == "void")
  {
    if p.implicitReturnType then NodeName(p)
    else if p.returnType.Some? then p.returnType.value
    else "void"
  }

  /** An implicit return type is a node type: never "void" nor another reserved word,
      unless the production itself carries such a name. */
  lemma ImplicitReturnTypeIsNodeType(p: Production)
    requires p.implicitReturnType && !ReservedNodeName(p.name)
    ensures !ReservedNodeName(ReturnType(p)) && ReturnType(p) != "void"
  {
  }

  function ModifierText(t: ModifierToken): string
    requires t != OtherToken
  {
    match t
    case PrivateToken => "private"
    case ProtectedToken => "protected"
    case PackageToken => ""
  }

  /** getAccessModifier: the first PRIVATE, PROTECTED or PACKAGE token decides; "public" without one. */
  method AccessModifier(p: Production) returns (r: string)
    ensures (forall k | 0 <= k < |p.modifiers| :: p.modifiers[k] == OtherToken) ==> r == "public"
    ensures forall k | 0 <= k < |p.modifiers| ::
              p.modifiers[k] != OtherToken && (forall j | 0 <= j < k :: p.modifiers[j] == OtherToken) ==>
              r == ModifierText(p.modifiers[k])
  {
    var i := 0;
    while i < |p.modifiers|
      invariant 0 <= i <= |p.modifiers|
      invariant forall j | 0 <= j < i :: p.modifiers[j] == OtherToken
    {
      var t := p.modifiers[i];
      if t == PrivateToken {
        return "private";
      } else if t == ProtectedToken {
        return "protected";
      } else if t == PackageToken {
        return "";
      }
      i := i + 1;
    }
    return "public";
  }

  /** getFirstSetVarName */
  function FirstSetVarName(p: Production): string
  {
    p.name + "_FIRST_SET"
  }

  /** Productions with different names have different FIRST set variables. */
  lemma FirstSetVarNamesDistinct(p: Production, q: Production)
    requires FirstSetVarName(p) == FirstSetVarName(q)
    ensures p.name == q.name
  {
    var s := FirstSetVarName(p);
    assert |p.name| == |s| - 10 == |q.name|;
    assert p.name == s[..|p.name|] == q.name;
  }

  /** isLeftRecursive: the expansion potentially starts with the production itself. */
  predicate IsLeftRecursive(ps: Productions, name: string)
    requires Closed(ps) && name in ps
  {
    StartsWith(ps, name, ps[name].expansion, {}).found
  }

  /** A production whose expansion begins with a reference to itself is left-recursive. */
  lemma DirectLeftRecursion(ps: Productions, name: string)
    requires Closed(ps) && name in ps
    requires ps[name].expansion.Sequence? && |ps[name].expansion.units| > 0
    requires ps[name].expansion.units[0].NonTerminal? && ps[name].expansion.units[0].name == name
    ensures IsLeftRecursive(ps, name)
  {
    var us := ps[name].expansion.units;
    assert StartsWith(ps, name, us[0], {}).found;
  }

  /** A production whose expansion begins with a token is not left-recursive. */
  lemma TokenFirstNotLeftRecursive(ps: Productions, name: string)
    requires Closed(ps) && name in ps
    requires ps[name].expansion.Sequence? && |ps[name].expansion.units| > 0
    requires ps[name].expansion.units[0].Terminal?
    ensures !IsLeftRecursive(ps, name)
  {
    var us := ps[name].expansion.units;
    assert !Empties(ps, us[0]);
    assert StartsWith(ps, name, us[0], {}) == Probe(false, {}, {});
    assert UnitsStartWith(ps, name, us, {}) == Probe(false, {}, {});
  }

  /**
   * A production node of the grammar: FIRST and FINAL are computed from the
   * expansion on the first request and the same sets are returned afterwards.
   */
  class BNFProduction {
    const production: Production
    var firstSet: Option<set<nat>>
    var finalSet: Option<set<nat>>

    /** The cached sets, if present, are those of the production's expansion. */
    predicate Valid(ps: Productions)
      reads this
      requires Closed(ps) && Defined(ps, production.expansion)
    {
      (firstSet.Some? ==> firstSet.value == First(ps, production.expansion, {})) &&
      (finalSet.Some? ==> finalSet.value == FinalSet(ps, production.expansion, {}))
    }

    constructor (p: Production)
      ensures production == p && firstSet.None? && finalSet.None?
    {
      production := p;
      firstSet := None;
      finalSet := None;
    }

    method GetFirstSet(ps: Productions) returns (r: set<nat>)
      requires Closed(ps) && Defined(ps, production.expansion) && Valid(ps)
      modifies this
      ensures Valid(ps) && firstSet == Some(r) && finalSet == old(finalSet)
      ensures r == First(ps, production.expansion, {})
      ensures old(firstSet).Some? ==> r == old(firstSet).value
    {
      if firstSet.None? {
        firstSet := Some(First(ps, production.expansion, {}));
      }
      r := firstSet.value;
    }

    method GetFinalSet(ps: Productions) returns (r: set<nat>)
      requires Closed(ps) && Defined(ps, production.expansion) && Valid(ps)
      modifies this
      ensures Valid(ps) && finalSet == Some(r) && firstSet == old(firstSet)
      ensures r == FinalSet(ps, production.expansion, {})
      ensures old(finalSet).Some? ==> r == old(finalSet).value
    {
      if finalSet.None? {
        finalSet := Some(FinalSet(ps, production.expansion, {}));
      }
      r := finalSet.value;
    }
  }
}
