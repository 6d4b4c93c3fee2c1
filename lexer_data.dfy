/**
 * LexerData: the registry of every regular expression of the grammar, in which
 * an expression's ordinal is its position in the list, and of the lexical states.
 * It answers token names, counts and kind classifications, gives non-identifier
 * labels a usable name, and warns about choice alternatives that can never match.
 */
module LexerDatas {
  import opened Util
  import opened TokenSets
  import opened Regexps
  import opened LexicalStates

  /** No other position of the list holds the expression at position i. */
  predicate Unshared(rs: seq<RegularExpression>, i: nat)
    requires i < |rs|
  {
    forall j | 0 <= j < |rs| && j != i :: rs[j] != rs[i]
  }

  /** No expression appears twice in the list. */
  predicate Distinct(rs: seq<RegularExpression>)
  {
    forall i | 0 <= i < |rs| :: Unshared(rs, i)
  }

  /** Appending an expression the list does not hold keeps it without repeats. */
  lemma DistinctAppend(rs: seq<RegularExpression>, re: RegularExpression)
    requires Distinct(rs) && re !in rs
    ensures Distinct(rs + [re])
  {
    var rs' := rs + [re];
    forall i | 0 <= i < |rs'| ensures Unshared(rs', i) {
      if i < |rs| {
        assert Unshared(rs, i);
      }
    }
  }

  /** Every ordinal in the list is a valid bit index. */
  predicate NonNegativeOrdinals(rs: seq<RegularExpression>)
    reads rs
  {
    forall i :: 0 <= i < |rs| ==> rs[i].ordinal >= 0
  }

  /** The current label of each expression, in list order. */
  function LabelsOf(rs: seq<RegularExpression>): (r: seq<string>)
    reads rs
    ensures |r| == |rs| && forall i {:trigger r[i]} :: 0 <= i < |rs| ==> r[i] == rs[i].GetLabel()
  {
    seq(|rs|, i requires 0 <= i < |rs| reads rs => rs[i].GetLabel())
  }

  /** The ordinal and the lexical state switched to of each expression, in list order. */
  ghost function NumberingOf(rs: seq<RegularExpression>): (r: seq<(int, Option<string>)>)
    reads rs
    ensures |r| == |rs| && forall i {:trigger r[i]} :: 0 <= i < |rs| ==> r[i] == (rs[i].ordinal, rs[i].newLexicalState)
  {
    seq(|rs|, i requires 0 <= i < |rs| reads rs => (rs[i].ordinal, rs[i].newLexicalState))
  }

  /** The string-literal image of each expression, in list order. */
  function ImagesOf(rs: seq<RegularExpression>): (r: seq<Option<string>>)
    ensures |r| == |rs| && forall i {:trigger r[i]} :: 0 <= i < |rs| ==> r[i] == rs[i].Image()
  {
    seq(|rs|, i requires 0 <= i < |rs| => rs[i].Image())
  }

  /**
   * The ordinals of the expressions whose token production has kind `kind`;
   * with kind None, of the expressions that sit in no token production.
   */
  function OrdinalsOfKind(rs: seq<RegularExpression>, kind: Option<string>): (r: set<nat>)
    requires NonNegativeOrdinals(rs)
    reads rs
  {
    if rs == [] then {}
    else
      var last := rs[|rs| - 1];
      OrdinalsOfKind(rs[..|rs| - 1], kind) + (if last.tokenKind == kind then {last.ordinal as nat} else {})
  }

  /** An ordinal is classified under `kind` exactly when some expression of that kind carries it. */
  lemma {:induction false} OrdinalsOfKindMembers(rs: seq<RegularExpression>, kind: Option<string>, o: nat)
    requires NonNegativeOrdinals(rs)
    ensures o in OrdinalsOfKind(rs, kind) <==> exists i :: 0 <= i < |rs| && rs[i].tokenKind == kind && rs[i].ordinal == o
  {
    if rs != [] {
      var init := rs[..|rs| - 1];
      OrdinalsOfKindMembers(init, kind, o);
      assert forall i :: 0 <= i < |init| ==> init[i] == rs[i];
      if o in OrdinalsOfKind(init, kind) {
        var i :| 0 <= i < |init| && init[i].tokenKind == kind && init[i].ordinal == o;
        assert rs[i].tokenKind == kind && rs[i].ordinal == o;
      }
    }
  }

  /** One more expression adds its own ordinal, when it has the kind. */
  lemma OrdinalsOfKindStep(rs: seq<RegularExpression>, kind: Option<string>, k: nat)
    requires NonNegativeOrdinals(rs) && k < |rs|
    ensures OrdinalsOfKind(rs[..k + 1], kind)
      == OrdinalsOfKind(rs[..k], kind) + (if rs[k].tokenKind == kind then {rs[k].ordinal as nat} else {})
  {
    assert rs[..k + 1][..k] == rs[..k];
  }

  // ---------------------------------------------------------------------------
  // Lexical states

  /** The first position of a lexical state called `name`, or -1. */
  function IndexOfState(states: seq<LexicalStateData>, name: string): (i: int)
    ensures -1 <= i < |states|
    ensures i >= 0 ==> states[i].name == name && forall j :: 0 <= j < i ==> states[j].name != name
    ensures i == -1 <==> forall j :: 0 <= j < |states| ==> states[j].name != name
  {
    if states == [] then -1
    else if states[0].name == name then 0
    else
      var k := IndexOfState(states[1..], name);
      assert forall j :: 1 <= j < |states| ==> states[j] == states[1..][j - 1];
      if k < 0 then -1 else k + 1
  }

  /** The last position of a lexical state that holds `re`, or -1. */
  function LastHolding(states: seq<LexicalStateData>, re: RegularExpression): (i: int)
    reads states
    ensures -1 <= i < |states|
    ensures i >= 0 ==> re in states[i].regularExpressions
    ensures forall j :: i < j < |states| ==> re !in states[j].regularExpressions
  {
    if states == [] then -1
    else if re in states[|states| - 1].regularExpressions then |states| - 1
    else LastHolding(states[..|states| - 1], re)
  }

  /** The last lexical state holding `re`, else `otherwise`. */
  function LastHolder(states: seq<LexicalStateData>, re: RegularExpression, otherwise: LexicalStateData): LexicalStateData
    reads states
  {
    var i := LastHolding(states, re);
    if i >= 0 then states[i] else otherwise
  }

  /** The lexical state getLexicalState answers: the last one holding `re`, else the first. */
  function OwningState(states: seq<LexicalStateData>, re: RegularExpression): LexicalStateData
    requires |states| > 0
    reads states
  {
    LastHolder(states, re, states[0])
  }

  /** An alternative of `choice` that an earlier, public token of the same lexical state always beats. */
  predicate Shadowed(states: seq<LexicalStateData>, alt: RegularExpression, choice: RegularExpression)
    requires |states| > 0
    reads states, alt, choice
  {
    !alt.isPrivate && 0 < alt.ordinal < choice.ordinal && OwningState(states, alt) == OwningState(states, choice)
  }

  // ---------------------------------------------------------------------------
  // Labels

  /** What Character.isJavaIdentifierStart/Part and String.toUpperCase answer. */
  datatype JavaChars = JavaChars(isStart: char -> bool, isPart: char -> bool, toUpper: string -> string)

  /** isJavaIdentifier: non-empty, an identifier-start first, identifier-parts throughout.
      Strings are sequences of code points, so a supplementary character is one element. */
  predicate JavaIdentifier(s: string, jc: JavaChars)
  {
    |s| > 0 && jc.isStart(s[0]) && forall i :: 0 <= i < |s| ==> jc.isPart(s[i])
  }

  /** The fallback label of position i. */
  function TokenLabel(i: nat): string
  {
    "_TOKEN_" + NatToString(i)
  }

  /** The label position i receives when its current label is not an identifier:
      the upper-cased image of a string literal when that is an identifier no
      expression uses yet, the fallback label otherwise. */
  function FreshLabel(labels: seq<string>, i: nat, image: Option<string>, jc: JavaChars): string
  {
    if image.Some? && JavaIdentifier(jc.toUpper(image.value), jc) && jc.toUpper(image.value) !in labels
    then jc.toUpper(image.value)
    else TokenLabel(i)
  }

  /** ensureStringLabels from position i on, over the current labels. */
  function Relabel(labels: seq<string>, images: seq<Option<string>>, i: nat, jc: JavaChars): (r: seq<string>)
    requires |images| == |labels| && i <= |labels|
    ensures |r| == |labels|
    decreases |labels| - i
  {
    if i == |labels| then labels
    else
      var next := if JavaIdentifier(labels[i], jc) then labels else labels[i := FreshLabel(labels, i, images[i], jc)];
      Relabel(next, images, i + 1, jc)
  }

  /** One turn of the relabelling walk. */
  lemma RelabelStep(labels: seq<string>, images: seq<Option<string>>, i: nat, jc: JavaChars, next: seq<string>)
    requires |images| == |labels| && i < |labels|
    requires next == if JavaIdentifier(labels[i], jc) then labels else labels[i := FreshLabel(labels, i, images[i], jc)]
    ensures Relabel(labels, images, i, jc) == Relabel(next, images, i + 1, jc)
  {
  }

  /** Positions before the one relabelling starts at keep their labels. */
  lemma {:induction false} RelabelKeepsPrefix(labels: seq<string>, images: seq<Option<string>>, i: nat, jc: JavaChars)
    requires |images| == |labels| && i <= |labels|
    ensures Relabel(labels, images, i, jc)[..i] == labels[..i]
    decreases |labels| - i
  {
    if i < |labels| {
      var next := if JavaIdentifier(labels[i], jc) then labels else labels[i := FreshLabel(labels, i, images[i], jc)];
      var r := Relabel(next, images, i + 1, jc);
      assert Relabel(labels, images, i, jc) == r;
      RelabelKeepsPrefix(next, images, i + 1, jc);
      assert r[..i] == r[..i + 1][..i] == next[..i + 1][..i] == labels[..i];
    }
  }

  /**
   * Each position keeps an identifier label; any other label is replaced by the
   * fresh label chosen against the labels as they stand when the walk reaches
   * it: the new labels before it and the old ones from it on.
   */
  lemma {:induction false} RelabelAt(labels: seq<string>, images: seq<Option<string>>, i: nat, jc: JavaChars, k: nat)
    requires |images| == |labels| && i <= k < |labels|
    ensures var r := Relabel(labels, images, i, jc);
      r[k] == if JavaIdentifier(labels[k], jc) then labels[k]
              else FreshLabel(r[..k] + labels[k..], k, images[k], jc)
    decreases |labels| - i
  {
    var r := Relabel(labels, images, i, jc);
    var next := if JavaIdentifier(labels[i], jc) then labels else labels[i := FreshLabel(labels, i, images[i], jc)];
    assert r == Relabel(next, images, i + 1, jc);
    if k == i {
      RelabelKeepsPrefix(next, images, i + 1, jc);
      assert r[k] == next[k] by {
        assert r[..i + 1][k] == next[..i + 1][k];
      }
      RelabelKeepsPrefix(labels, images, i, jc);
      assert r[..k] + labels[k..] == labels;
    } else {
      RelabelAt(next, images, i + 1, jc, k);
      assert next[k..] == labels[k..];
    }
  }

  /** The fallback labels are Java identifiers whenever '_', the letters of "TOKEN" and the digits are. */
  lemma TokenLabelIsIdentifier(i: nat, jc: JavaChars)
    requires jc.isStart('_') && forall c :: c in "_TOKEN0123456789" ==> jc.isPart(c)
    ensures JavaIdentifier(TokenLabel(i), jc)
  {
    var s := TokenLabel(i);
    forall j | 0 <= j < |s|
      ensures jc.isPart(s[j])
    {
      if j >= 7 {
        assert s[j] == NatToString(i)[j - 7];
        assert '0' <= s[j] <= '9';
        assert s[j] in "_TOKEN0123456789";
      } else {
        assert s[j] in "_TOKEN_";
      }
    }
  }

  /** After ensureStringLabels every label is a Java identifier. */
  lemma AllLabelsIdentifiers(labels: seq<string>, images: seq<Option<string>>, jc: JavaChars)
    requires |images| == |labels|
    requires jc.isStart('_') && forall c :: c in "_TOKEN0123456789" ==> jc.isPart(c)
    ensures forall k :: 0 <= k < |labels| ==> JavaIdentifier(Relabel(labels, images, 0, jc)[k], jc)
  {
    var r := Relabel(labels, images, 0, jc);
    forall k | 0 <= k < |labels|
      ensures JavaIdentifier(r[k], jc)
    {
      RelabelAt(labels, images, 0, jc, k);
      TokenLabelIsIdentifier(k, jc);
    }
  }

  /** Two literals whose upper-cased images agree: the later one cannot take the
      label the earlier one already took. */
  lemma ImageLabelsUnique(labels: seq<string>, images: seq<Option<string>>, jc: JavaChars, j: nat, k: nat)
    requires |images| == |labels| && j < k < |labels|
    requires !JavaIdentifier(labels[j], jc) && !JavaIdentifier(labels[k], jc)
    requires images[j].Some? && images[k].Some? && jc.toUpper(images[j].value) == jc.toUpper(images[k].value)
    requires Relabel(labels, images, 0, jc)[j] == jc.toUpper(images[j].value)
    ensures Relabel(labels, images, 0, jc)[k] == TokenLabel(k)
  {
    var r := Relabel(labels, images, 0, jc);
    RelabelAt(labels, images, 0, jc, k);
    assert (r[..k] + labels[k..])[j] == r[j];
  }

  // ---------------------------------------------------------------------------

  class LexerData {
    var regularExpressions: seq<RegularExpression>
    var lexicalStates: seq<LexicalStateData>
    /** The grammar's extra token names, numbered after the expressions. */
    const extraTokenNames: seq<string>

    /** Every expression's ordinal is its position in the list. */
    ghost predicate Positional()
      reads this, regularExpressions
    {
      forall i :: 0 <= i < |regularExpressions| ==> regularExpressions[i].ordinal == i
    }

    /** The constructor registers the end-of-file expression, labelled "EOF", at ordinal 0. */
    constructor (extraTokenNames: seq<string>)
      ensures |regularExpressions| == 1 && fresh(regularExpressions[0])
      ensures regularExpressions[0].ordinal == 0 && regularExpressions[0].GetLabel() == "EOF"
      ensures regularExpressions[0].tokenKind == None && regularExpressions[0].tree == None
      ensures !regularExpressions[0].isPrivate
      ensures lexicalStates == [] && this.extraTokenNames == extraTokenNames
      ensures Positional() && Distinct(regularExpressions)
    {
      var eof := new RegularExpression("", false, false, None, None);
      eof.SetLabel("EOF");
      regularExpressions := [eof];
      lexicalStates := [];
      this.extraTokenNames := extraTokenNames;
    }

    /** The token names, by ordinal: the labels, then the extra names. This is
        the universe a TokenSet of this grammar names its members from. */
    function TokenNames(): (names: seq<string>)
      reads this, regularExpressions
      ensures |names| == |regularExpressions| + |extraTokenNames|
    {
      LabelsOf(regularExpressions) + extraTokenNames
    }

    /** getTokenCount: the size of the name universe. */
    function GetTokenCount(): (n: int)
      reads this, regularExpressions
      ensures n == |TokenNames()|
    {
      |regularExpressions| + |extraTokenNames|
    }

    /**
     * getTokenName: an expression's label below the expression count, an extra
     * name above it; an ordinal outside both lists is an index error.
     */
    function GetTokenName(ordinal: int): (r: Result<string>)
      reads this, regularExpressions
      ensures r.Ok? <==> 0 <= ordinal < GetTokenCount()
      ensures r.Ok? ==> r.value == TokenNames()[ordinal]
      ensures 0 <= ordinal < |regularExpressions| ==> r == Ok(regularExpressions[ordinal].GetLabel())
    {
      var n := |regularExpressions|;
      if ordinal < 0 then Thrown("IndexOutOfBoundsException")
      else if ordinal < n then Ok(regularExpressions[ordinal].GetLabel())
      else if ordinal - n < |extraTokenNames| then Ok(extraTokenNames[ordinal - n])
      else Thrown("IndexOutOfBoundsException")
    }

    /** addLexicalState: a fresh, empty lexical state is appended. */
    method AddLexicalState(name: string)
      modifies this
      ensures |lexicalStates| == |old(lexicalStates)| + 1 && lexicalStates[..|old(lexicalStates)|] == old(lexicalStates)
      ensures var lsd := lexicalStates[|lexicalStates| - 1];
        fresh(lsd) && lsd.name == name && lsd.Valid() && lsd.IsEmpty() && lsd.tokenProductions == []
      ensures regularExpressions == old(regularExpressions)
    {
      var lsd := new LexicalStateData(name);
      lexicalStates := lexicalStates + [lsd];
    }

    /** getLexicalStateIndex: the first position with that name, or -1. */
    method GetLexicalStateIndex(name: string) returns (i: int)
      ensures i == IndexOfState(lexicalStates, name)
    {
      var k := 0;
      while k < |lexicalStates|
        invariant 0 <= k <= |lexicalStates|
        invariant forall j :: 0 <= j < k ==> lexicalStates[j].name != name
      {
        if lexicalStates[k].name == name {
          return k;
        }
        k := k + 1;
      }
      return -1;
    }

    /** getLexicalState: the first state with that name, or none. */
    method GetLexicalState(name: string) returns (r: Option<LexicalStateData>)
      ensures r.Some? <==> IndexOfState(lexicalStates, name) >= 0
      ensures r.Some? ==> r.value == lexicalStates[IndexOfState(lexicalStates, name)]
    {
      for k := 0 to |lexicalStates|
        invariant forall j :: 0 <= j < k ==> lexicalStates[j].name != name
      {
        if lexicalStates[k].name == name {
          return Some(lexicalStates[k]);
        }
      }
      return None;
    }

    /**
     * RegularExpression.getLexicalState: the last lexical state whose registered
     * expressions hold `re`, the first lexical state when none does; with no
     * lexical state at all, the lookup of the first one fails.
     */
    method GetLexicalStateOf(re: RegularExpression) returns (r: Result<LexicalStateData>)
      ensures |lexicalStates| == 0 ==> r.Thrown?
      ensures |lexicalStates| > 0 ==> r == Ok(OwningState(lexicalStates, re))
    {
      if |lexicalStates| == 0 {
        return Thrown("IndexOutOfBoundsException");
      }
      var result := lexicalStates[0];
      for k := 0 to |lexicalStates|
        invariant result == LastHolder(lexicalStates[..k], re, lexicalStates[0])
      {
        if lexicalStates[k].ContainsRegularExpression(re) {
          result := lexicalStates[k];
        }
        assert lexicalStates[..k + 1][..k] == lexicalStates[..k];
      }
      assert lexicalStates[..|lexicalStates|] == lexicalStates;
      return Ok(result);
    }

    /** addRegularExpression: the expression's ordinal becomes the old list size, and it is appended. */
    method AddRegularExpression(re: RegularExpression)
      modifies this, re
      ensures regularExpressions == old(regularExpressions) + [re] && re.ordinal == |old(regularExpressions)|
      ensures re.explicitLabel == old(re.explicitLabel) && re.newLexicalState == old(re.newLexicalState)
      ensures lexicalStates == old(lexicalStates)
      ensures old(Positional()) && re !in old(regularExpressions) ==> Positional()
      ensures Distinct(old(regularExpressions)) && re !in old(regularExpressions) ==> Distinct(regularExpressions)
    {
      ghost var added := Distinct(regularExpressions) && re !in regularExpressions;
      if added {
        DistinctAppend(regularExpressions, re);
      }
      re.SetOrdinal(|regularExpressions|);
      regularExpressions := regularExpressions + [re];
    }

    /** getTokensOfKind: the ordinals of the expressions of token productions of that kind. */
    method GetTokensOfKind(kind: string) returns (result: TokenSet)
      requires NonNegativeOrdinals(regularExpressions)
      ensures fresh(result) && !result.incomplete
      ensures result.bits == OrdinalsOfKind(regularExpressions, Some(kind))
    {
      result := new TokenSet(false);
      for k := 0 to |regularExpressions|
        invariant fresh(result) && !result.incomplete
        invariant result.bits == OrdinalsOfKind(regularExpressions[..k], Some(kind))
      {
        var re := regularExpressions[k];
        OrdinalsOfKindStep(regularExpressions, Some(kind), k);
        if re.tokenKind == Some(kind) {
          result.Set(re.ordinal);
        }
      }
      assert regularExpressions[..|regularExpressions|] == regularExpressions;
    }

    /** getRegularTokens: the TOKEN-kind ordinals and those of the expressions in no token production. */
    method GetRegularTokens() returns (result: TokenSet)
      requires NonNegativeOrdinals(regularExpressions)
      ensures fresh(result) && !result.incomplete
      ensures result.bits == OrdinalsOfKind(regularExpressions, Some("TOKEN")) + OrdinalsOfKind(regularExpressions, None)
    {
      result := GetTokensOfKind("TOKEN");
      ghost var tokens := OrdinalsOfKind(regularExpressions, Some("TOKEN"));
      for k := 0 to |regularExpressions|
        invariant fresh(result) && !result.incomplete
        invariant result.bits == tokens + OrdinalsOfKind(regularExpressions[..k], None)
      {
        var re := regularExpressions[k];
        OrdinalsOfKindStep(regularExpressions, None, k);
        if re.tokenKind == None {
          result.Set(re.ordinal);
        }
      }
      assert regularExpressions[..|regularExpressions|] == regularExpressions;
    }

    /** With ordinals equal to positions, the kind classification answers by position. */
    lemma KindByPosition(kind: Option<string>, i: nat)
      requires Positional()
      ensures i in OrdinalsOfKind(regularExpressions, kind) <==>
        i < |regularExpressions| && regularExpressions[i].tokenKind == kind
    {
      OrdinalsOfKindMembers(regularExpressions, kind, i);
    }

    /** regexpLabelAlreadyUsed: some expression carries that label now. */
    method LabelAlreadyUsed(candidate: string) returns (used: bool)
      ensures used <==> candidate in LabelsOf(regularExpressions)
    {
      for k := 0 to |regularExpressions|
        invariant candidate !in LabelsOf(regularExpressions)[..k]
      {
        if candidate == regularExpressions[k].GetLabel() {
          assert LabelsOf(regularExpressions)[k] == candidate;
          return true;
        }
      }
      assert LabelsOf(regularExpressions)[..|regularExpressions|] == LabelsOf(regularExpressions);
      return false;
    }

    /** ensureStringLabels: each expression whose label is not a Java identifier is relabelled, in list order. */
    method EnsureStringLabels(jc: JavaChars)
      requires Distinct(regularExpressions)
      modifies regularExpressions
      ensures LabelsOf(regularExpressions) == Relabel(old(LabelsOf(regularExpressions)), ImagesOf(regularExpressions), 0, jc)
      ensures NumberingOf(regularExpressions) == old(NumberingOf(regularExpressions))
    {
      var rs := regularExpressions;
      var images := ImagesOf(rs);
      ghost var labels0 := LabelsOf(rs);
      ghost var numbering0 := NumberingOf(rs);
      ghost var target := Relabel(labels0, images, 0, jc);
      ghost var labels := labels0;
      for i := 0 to |rs|
        invariant regularExpressions == rs
        invariant labels == LabelsOf(rs) && |labels| == |images|
        invariant Relabel(labels, images, i, jc) == target
        invariant NumberingOf(rs) == numbering0
      {
        RelabelOne(i, images, jc);
        labels := LabelsOf(rs);
      }
    }

    /** One turn of ensureStringLabels: position i is relabelled when its label is not an identifier. */
    method RelabelOne(i: nat, images: seq<Option<string>>, jc: JavaChars)
      requires i < |regularExpressions| && Unshared(regularExpressions, i) && images == ImagesOf(regularExpressions)
      modifies regularExpressions[i]
      ensures Relabel(LabelsOf(regularExpressions), images, i + 1, jc) == Relabel(old(LabelsOf(regularExpressions)), images, i, jc)
      ensures NumberingOf(regularExpressions) == old(NumberingOf(regularExpressions))
    {
      ghost var before := LabelsOf(regularExpressions);
      var isId := IsJavaIdentifier(regularExpressions[i].GetLabel(), jc);
      if !isId {
        var chosen := ChooseLabel(i, jc);
        Rename(i, chosen);
      }
      RelabelStep(before, images, i, jc, LabelsOf(regularExpressions));
    }

    /** The expression at position i takes label l; no other label, ordinal or switch changes. */
    method Rename(i: nat, l: string)
      requires i < |regularExpressions| && Unshared(regularExpressions, i) && l != ""
      modifies regularExpressions[i]
      ensures LabelsOf(regularExpressions) == old(LabelsOf(regularExpressions))[i := l]
      ensures NumberingOf(regularExpressions) == old(NumberingOf(regularExpressions))
    {
      var rs := regularExpressions;
      ghost var before := LabelsOf(rs);
      ghost var numbering := NumberingOf(rs);
      rs[i].SetLabel(l);
      assert forall k :: 0 <= k < |rs| ==> LabelsOf(rs)[k] == before[i := l][k];
      assert forall k :: 0 <= k < |rs| ==> NumberingOf(rs)[k] == numbering[k];
    }

    /** The label ensureStringLabels gives position i: its upper-cased image when that is an
        identifier no expression uses yet, "_TOKEN_" and the position otherwise. */
    method ChooseLabel(i: nat, jc: JavaChars) returns (chosen: string)
      requires i < |regularExpressions|
      ensures chosen == FreshLabel(LabelsOf(regularExpressions), i, regularExpressions[i].Image(), jc)
      ensures chosen != ""
    {
      chosen := "_TOKEN_" + NatToString(i);
      var image := regularExpressions[i].Image();
      if image.Some? {
        var s := jc.toUpper(image.value);
        var sId := IsJavaIdentifier(s, jc);
        if sId {
          var used := LabelAlreadyUsed(s);
          if !used {
            chosen := s;
          }
        }
      }
    }

    /** isJavaIdentifier, walking the code points. */
    static method IsJavaIdentifier(s: string, jc: JavaChars) returns (b: bool)
      ensures b == JavaIdentifier(s, jc)
    {
      if |s| == 0 {
        return false;
      }
      for i := 0 to |s|
        invariant i > 0 ==> jc.isStart(s[0])
        invariant forall j :: 0 <= j < i ==> jc.isPart(s[j])
      {
        if i == 0 && !jc.isStart(s[i]) {
          return false;
        }
        if !jc.isPart(s[i]) {
          return false;
        }
      }
      return true;
    }

    /**
     * checkUnmatchability: one warning for each alternative of the choice that is
     * public, has an ordinal strictly between 0 and the choice's, and lives in the
     * choice's lexical state. The result lists the warned alternatives' positions.
     */
    method CheckUnmatchability(choice: RegularExpression, alternatives: seq<RegularExpression>)
      returns (warned: seq<nat>)
      requires |lexicalStates| > 0
      ensures forall k: nat :: k in warned <==> k < |alternatives| && Shadowed(lexicalStates, alternatives[k], choice)
      ensures forall a, b :: 0 <= a < b < |warned| ==> warned[a] < warned[b]
    {
      warned := [];
      for k := 0 to |alternatives|
        invariant forall j: nat :: j in warned <==> j < k && Shadowed(lexicalStates, alternatives[j], choice)
        invariant forall j :: j in warned ==> j < k
        invariant forall a, b :: 0 <= a < b < |warned| ==> warned[a] < warned[b]
      {
        var alt := alternatives[k];
        if !alt.isPrivate && alt.ordinal > 0 && alt.ordinal < choice.ordinal {
          var altState := GetLexicalStateOf(alt);
          var choiceState := GetLexicalStateOf(choice);
          if altState.value == choiceState.value {
            assert forall a :: 0 <= a < |warned| ==> warned[a] in warned;
            warned := warned + [k];
          }
        }
      }
    }
  }
}
