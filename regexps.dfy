/**
 * Regular expressions of token productions: the tree the NFA builder walks,
 * and the RegularExpression object that carries the mutable bookkeeping
 * (label, ordinal, generated class name, lexical-state switch).
 */
module Regexps {
  import opened Util
  import opened CharRanges

  /**
   * The regular-expression tree. A reference carries the expression it was
   * resolved to; references are resolved (and checked to be acyclic) before
   * any NFA is built, so a finite tree is all the builder ever sees.
   */
  datatype Regexp =
    | CharacterList(descriptors: seq<CharRange>, negated: bool)
    | StringLiteral(image: string)
    | RegexpChoice(choices: seq<Regexp>)
    | RegexpSequence(units: seq<Regexp>)
    | ZeroOrMoreRegexp(body: Regexp)
    | OneOrMoreRegexp(body: Regexp)
    | ZeroOrOneRegexp(body: Regexp)
    | RepetitionRange(min: nat, max: int, hasMax: bool, body: Regexp)
    | RegexpRef(name: string, target: Regexp)

  /** The number of optional copies the repetition range appends: max - min when positive. */
  function OptionalCopies(min: nat, max: int): nat
  {
    if max > min then max - min else 0
  }

  function Copies(n: nat, re: Regexp): (r: seq<Regexp>)
    ensures |r| == n && forall i :: 0 <= i < n ==> r[i] == re
  {
    if n == 0 then [] else Copies(n - 1, re) + [re]
  }

  /**
   * The sequence a repetition range {min,max} is rewritten to: min mandatory
   * copies, then one (...)* copy when the range is unbounded (max == -1),
   * then max - min (...)? copies.
   */
  function Desugar(min: nat, max: int, hasMax: bool, body: Regexp): (r: Regexp)
    ensures r.RegexpSequence?
    ensures |r.units| == min + (if hasMax && max == -1 then 1 else 0) + OptionalCopies(min, max)
  {
    RegexpSequence(
      Copies(min, body)
      + (if hasMax && max == -1 then [ZeroOrMoreRegexp(body)] else [])
      + Copies(OptionalCopies(min, max), ZeroOrOneRegexp(body)))
  }

  /** The units of a desugared range, one by one. */
  lemma DesugarUnits(min: nat, max: int, hasMax: bool, body: Regexp)
    ensures var units := Desugar(min, max, hasMax, body).units;
      var star := if hasMax && max == -1 then 1 else 0;
      (forall i :: 0 <= i < min ==> units[i] == body) &&
      (star == 1 ==> units[min] == ZeroOrMoreRegexp(body)) &&
      (forall i :: min + star <= i < |units| ==> units[i] == ZeroOrOneRegexp(body))
  {
  }

  /** A height that shrinks from a repetition range to its rewritten sequence. */
  function Height(re: Regexp): (n: nat)
    ensures n >= 1
  {
    match re
    case CharacterList(_, _) => 1
    case StringLiteral(_) => 1
    case RegexpChoice(cs) => 1 + MaxHeight(cs)
    case RegexpSequence(us) => 1 + MaxHeight(us)
    case ZeroOrMoreRegexp(b) => 1 + Height(b)
    case OneOrMoreRegexp(b) => 1 + Height(b)
    case ZeroOrOneRegexp(b) => 1 + Height(b)
    case RepetitionRange(_, _, _, b) => 3 + Height(b)
    case RegexpRef(_, t) => 1 + Height(t)
  }

  /** The greatest height in a list, 0 for the empty list. */
  function MaxHeight(rs: seq<Regexp>): (m: nat)
    ensures forall i :: 0 <= i < |rs| ==> Height(rs[i]) <= m
  {
    if rs == [] then 0
    else
      var h, rest := Height(rs[|rs| - 1]), MaxHeight(rs[..|rs| - 1]);
      assert forall i :: 0 <= i < |rs| - 1 ==> rs[i] == rs[..|rs| - 1][i];
      if h < rest then rest else h
  }

  lemma {:induction false} MaxHeightBound(rs: seq<Regexp>, bound: nat)
    requires forall i :: 0 <= i < |rs| ==> Height(rs[i]) <= bound
    ensures MaxHeight(rs) <= bound
  {
    if rs != [] {
      MaxHeightBound(rs[..|rs| - 1], bound);
    }
  }

  /** The rewritten sequence of a repetition range is lower than the range. */
  lemma DesugarLower(min: nat, max: int, hasMax: bool, body: Regexp)
    ensures Height(Desugar(min, max, hasMax, body)) < Height(RepetitionRange(min, max, hasMax, body))
  {
    var units := Desugar(min, max, hasMax, body).units;
    DesugarUnits(min, max, hasMax, body);
    MaxHeightBound(units, Height(body) + 1);
  }

  /**
   * A regular expression of the grammar. `explicitLabel` is the explicit label ("" when
   * there is none); `tokenKind` is the kind (TOKEN, SKIP, MORE, UNPARSED) of the
   * token production it appears in, None when it appears in no token production;
   * `tree` is None only for the end-of-file expression.
   */
  class RegularExpression {
    var explicitLabel: string
    var ordinal: int
    var generatedClassName: string
    var newLexicalState: Option<string>
    const isPrivate: bool
    const ignoreCase: bool
    const tokenKind: Option<string>
    const tree: Option<Regexp>

    constructor (explicitLabel: string, isPrivate: bool, ignoreCase: bool, tokenKind: Option<string>, tree: Option<Regexp>)
      ensures this.explicitLabel == explicitLabel && ordinal == 0 && generatedClassName == "Token" && newLexicalState == None
      ensures this.isPrivate == isPrivate && this.ignoreCase == ignoreCase
      ensures this.tokenKind == tokenKind && this.tree == tree
    {
      this.explicitLabel := explicitLabel;
      ordinal := 0;
      generatedClassName := "Token";
      newLexicalState := None;
      this.isPrivate := isPrivate;
      this.ignoreCase := ignoreCase;
      this.tokenKind := tokenKind;
      this.tree := tree;
    }

    /** A string literal's image; None for every other kind of expression. */
    function Image(): Option<string>
    {
      if tree.Some? && tree.value.StringLiteral? then Some(tree.value.image) else None
    }

    predicate IsChoice()
    {
      tree.Some? && tree.value.RegexpChoice?
    }

    predicate IsRef()
    {
      tree.Some? && tree.value.RegexpRef?
    }

    /** getLabel: the explicit label, else "EOF" for ordinal 0, else the ordinal in decimal. */
    function GetLabel(): (r: string)
      reads this
      ensures explicitLabel != "" ==> r == explicitLabel
      ensures explicitLabel == "" && ordinal == 0 ==> r == "EOF"
      ensures explicitLabel == "" && ordinal > 0 ==> r == NatToString(ordinal)
      ensures r != ""
    {
      LabelOf(explicitLabel, ordinal)
    }

    method SetOrdinal(id: int)
      modifies this
      ensures ordinal == id
      ensures explicitLabel == old(explicitLabel) && generatedClassName == old(generatedClassName)
      ensures newLexicalState == old(newLexicalState)
    {
      ordinal := id;
    }

    method SetLabel(l: string)
      modifies this
      ensures explicitLabel == l
      ensures ordinal == old(ordinal) && generatedClassName == old(generatedClassName)
      ensures newLexicalState == old(newLexicalState)
    {
      explicitLabel := l;
    }

    method SetNewLexicalState(name: Option<string>)
      modifies this
      ensures newLexicalState == name
      ensures explicitLabel == old(explicitLabel) && ordinal == old(ordinal) && generatedClassName == old(generatedClassName)
    {
      newLexicalState := name;
    }

    /** getGeneratedClassName: the default "Token" is replaced, once, by the label. */
    method GetGeneratedClassName() returns (name: string)
      modifies this
      ensures name == NextClassName(old(generatedClassName), old(GetLabel()))
      ensures generatedClassName == name
      ensures explicitLabel == old(explicitLabel) && ordinal == old(ordinal) && newLexicalState == old(newLexicalState)
    {
      if generatedClassName == "Token" {
        generatedClassName := GetLabel();
      }
      name := generatedClassName;
    }
  }

  /** The label of an expression with that explicit label ("" for none) and ordinal. */
  function LabelOf(explicitLabel: string, ordinal: int): string
  {
    if explicitLabel != "" then explicitLabel
    else if ordinal == 0 then "EOF"
    else IntToString(ordinal)
  }

  /** The generated class name after one getGeneratedClassName call that saw `newLabel`. */
  function NextClassName(current: string, newLabel: string): string
  {
    if current == "Token" then newLabel else current
  }

  /** getGeneratedClassName is stable: once it has returned a name other than the
      default, later calls return that name whatever the label has become. */
  lemma ClassNameStable(current: string, label1: string, label2: string)
    requires NextClassName(current, label1) != "Token"
    ensures NextClassName(NextClassName(current, label1), label2) == NextClassName(current, label1)
  {
  }

  /** A regular expression as a token production lists it, with the lexical state
      (by name) that matching it switches to. */
  datatype RegexpSpec = RegexpSpec(regexp: RegularExpression, nextState: Option<string>)

  /** A token production: its kind (TOKEN, SKIP, MORE, UNPARSED), whether it ignores
      case, the lexical states it belongs to, its regular expressions, and whether
      it is explicit (written in the grammar rather than made up for a literal). */
  datatype TokenProduction = TokenProduction(
    kind: string, ignoreCase: bool, lexicalStateNames: seq<string>, specs: seq<RegexpSpec>, explicit: bool)

  /**
   * matchesEmptyString: whether the expression matches the empty string. A
   * character list never does; a literal does when its image is empty; a
   * reference answers for the expression it refers to.
   */
  predicate MatchesEmptyString(re: Regexp)
  {
    match re
    case CharacterList(_, _) => false
    case StringLiteral(image) => image == ""
    case RegexpChoice(cs) => exists i | 0 <= i < |cs| :: MatchesEmptyString(cs[i])
    case RegexpSequence(us) => forall i | 0 <= i < |us| :: MatchesEmptyString(us[i])
    case ZeroOrMoreRegexp(_) => true
    case OneOrMoreRegexp(b) => MatchesEmptyString(b)
    case ZeroOrOneRegexp(_) => true
    case RepetitionRange(min, _, _, b) => min == 0 || MatchesEmptyString(b)
    case RegexpRef(_, t) => MatchesEmptyString(t)
  }

  /** The sequence a repetition range is rewritten to matches the empty string exactly when the range does. */
  lemma DesugarKeepsEmptiness(min: nat, max: int, hasMax: bool, body: Regexp)
    ensures MatchesEmptyString(Desugar(min, max, hasMax, body)) <==> MatchesEmptyString(RepetitionRange(min, max, hasMax, body))
  {
    var units := Desugar(min, max, hasMax, body).units;
    DesugarUnits(min, max, hasMax, body);
    if min > 0 {
      assert units[0] == body;
    }
  }

  /** The names of the references in an expression, in document order; a reference's target is not entered. */
  function RefNames(re: Regexp): seq<string>
  {
    match re
    case RegexpChoice(cs) => RefNamesAll(cs)
    case RegexpSequence(us) => RefNamesAll(us)
    case ZeroOrMoreRegexp(b) => RefNames(b)
    case OneOrMoreRegexp(b) => RefNames(b)
    case ZeroOrOneRegexp(b) => RefNames(b)
    case RepetitionRange(_, _, _, b) => RefNames(b)
    case RegexpRef(n, _) => [n]
    case _ => []
  }

  function RefNamesAll(rs: seq<Regexp>): seq<string>
  {
    if rs == [] then [] else RefNames(rs[0]) + RefNamesAll(rs[1..])
  }

  /** The reference names in a regular expression object's tree. */
  function RefNamesOf(r: RegularExpression): seq<string>
  {
    if r.tree.Some? then RefNames(r.tree.value) else []
  }
}
