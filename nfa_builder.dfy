/**
 * The NFA builder: a visitor that turns the tree of one regular expression into
 * a fragment of NFA states (a start state and an end state) in the state arena
 * of a lexical state, and the per-lexical-state driver (process,
 * processTokenProduction) that runs it over every token production.
 */
module NfaBuilders {
  import opened Util
  import opened CharRanges
  import opened NfaStates
  import opened Regexps
  import opened LexicalStates

  /** Every character class in the expression has well-formed ranges inside the code-point space. */
  predicate RegexpOk(re: Regexp)
  {
    match re
    case CharacterList(d, _) => WellFormed(d) && forall i :: 0 <= i < |d| ==> d[i].right < CODE_POINT_LIMIT
    case StringLiteral(_) => true
    case RegexpChoice(cs) => forall i :: 0 <= i < |cs| ==> RegexpOk(cs[i])
    case RegexpSequence(us) => forall i :: 0 <= i < |us| ==> RegexpOk(us[i])
    case ZeroOrMoreRegexp(b) => RegexpOk(b)
    case OneOrMoreRegexp(b) => RegexpOk(b)
    case ZeroOrOneRegexp(b) => RegexpOk(b)
    case RepetitionRange(_, _, _, b) => RegexpOk(b)
    case RegexpRef(_, t) => RegexpOk(t)
  }

  /** The sequence a repetition range is rewritten to is as well-formed as the range. */
  lemma DesugarOk(min: nat, max: int, hasMax: bool, body: Regexp)
    requires RegexpOk(RepetitionRange(min, max, hasMax, body))
    ensures RegexpOk(Desugar(min, max, hasMax, body))
  {
    DesugarUnits(min, max, hasMax, body);
  }

  /** The number of states visiting the expression creates. */
  function StateCount(re: Regexp): nat
    decreases Height(re), 1
  {
    match re
    case CharacterList(_, _) => 2
    case StringLiteral(image) => |image| + 1
    case RegexpChoice(cs) => if |cs| == 1 then StateCount(cs[0]) else 2 + SumCounts(cs)
    case RegexpSequence(us) => (if |us| == 1 then StateCount(us[0]) else 0) + 2 + SumCounts(us)
    case ZeroOrMoreRegexp(b) => 2 + StateCount(b)
    case OneOrMoreRegexp(b) => 2 + StateCount(b)
    case ZeroOrOneRegexp(b) => 2 + StateCount(b)
    case RepetitionRange(min, max, hasMax, b) =>
      DesugarLower(min, max, hasMax, b);
      StateCount(Desugar(min, max, hasMax, b))
    case RegexpRef(_, t) => StateCount(t)
  }

  function SumCounts(rs: seq<Regexp>): nat
    decreases MaxHeight(rs), 2, |rs|
  {
    if rs == [] then 0 else SumCounts(rs[..|rs| - 1]) + StateCount(rs[|rs| - 1])
  }

  lemma SumCountsStep(rs: seq<Regexp>, i: nat)
    requires i < |rs|
    ensures SumCounts(rs[..i + 1]) == SumCounts(rs[..i]) + StateCount(rs[i])
  {
    assert rs[..i + 1][..i] == rs[..i];
  }

  /**
   * Whether visiting the expression throws a NullPointerException: the first
   * thing visited is an empty sequence, which wires the builder's end state to
   * its final state, and the builder has no end state yet (`endNull`).
   */
  function Throws(re: Regexp, endNull: bool): bool
    decreases Height(re)
  {
    match re
    case CharacterList(_, _) => false
    case StringLiteral(_) => false
    case RegexpChoice(cs) => |cs| > 0 && Throws(cs[0], endNull)
    case RegexpSequence(us) => if us == [] then endNull else Throws(us[0], endNull)
    case ZeroOrMoreRegexp(b) => Throws(b, endNull)
    case OneOrMoreRegexp(b) => Throws(b, endNull)
    case ZeroOrOneRegexp(b) => Throws(b, endNull)
    case RepetitionRange(min, max, hasMax, b) =>
      DesugarLower(min, max, hasMax, b);
      Throws(Desugar(min, max, hasMax, b), endNull)
    case RegexpRef(_, t) => Throws(t, endNull)
  }

  /** Once the builder holds an end state, no visit throws. */
  lemma {:induction false} NoThrowOnceBuilt(re: Regexp)
    ensures !Throws(re, false)
    decreases Height(re)
  {
    match re
    case CharacterList(_, _) =>
    case StringLiteral(_) =>
    case RegexpChoice(cs) =>
      if |cs| > 0 {
        NoThrowOnceBuilt(cs[0]);
      }
    case RegexpSequence(us) =>
      if us != [] {
        NoThrowOnceBuilt(us[0]);
      }
    case ZeroOrMoreRegexp(b) => NoThrowOnceBuilt(b);
    case OneOrMoreRegexp(b) => NoThrowOnceBuilt(b);
    case ZeroOrOneRegexp(b) => NoThrowOnceBuilt(b);
    case RepetitionRange(min, max, hasMax, b) =>
      DesugarLower(min, max, hasMax, b);
      NoThrowOnceBuilt(Desugar(min, max, hasMax, b));
    case RegexpRef(_, t) => NoThrowOnceBuilt(t);
  }

  /** A state as the NfaState constructor leaves it, as far as the later passes care:
      not a composite, not numbered, accepting nothing, not closed. */
  predicate Plain(st: NfaState)
  {
    st.members == None && st.index == -1 && st.tokenType == None && !st.closureDone
  }

  /** b is a with (possibly) more epsilon moves and nothing else changed. */
  predicate MoreMoves(a: NfaState, b: NfaState)
  {
    b == a.(epsilonMoves := b.epsilonMoves) && a.epsilonMoves <= b.epsilonMoves
  }

  /**
   * What a visit does to the arena: it appends plain states; of the states it
   * found, it changes only the builder's end state `end0`, and that one only by
   * adding epsilon moves.
   */
  ghost predicate Frame(states0: seq<NfaState>, end0: Option<StateId>, states: seq<NfaState>)
  {
    |states0| <= |states|
    && (forall i :: 0 <= i < |states0| ==> MoreMoves(states0[i], states[i]))
    && (forall i :: 0 <= i < |states0| && states[i] != states0[i] ==> end0 == Some(i))
    && (forall i :: |states0| <= i < |states| ==> Plain(states[i]))
  }

  /** A visit that did not throw: a frame of `count` new states, with a start and an
      end among them, the end still as the constructor left it. */
  ghost predicate Built(states0: seq<NfaState>, end0: Option<StateId>, states: seq<NfaState>,
                        start: Option<StateId>, end: Option<StateId>, count: nat)
  {
    Frame(states0, end0, states)
    && |states| == |states0| + count
    && start.Some? && |states0| <= start.value < |states|
    && end.Some? && |states0| <= end.value < |states|
    && states[end.value] == FreshState()
  }

  lemma FrameRefl(states: seq<NfaState>, end0: Option<StateId>)
    ensures Frame(states, end0, states)
  {
  }

  /** Frames compose when the second one's end state is the first one's, or one of its new states. */
  lemma FrameTrans(s0: seq<NfaState>, e0: Option<StateId>, s1: seq<NfaState>, e1: Option<StateId>, s2: seq<NfaState>)
    requires Frame(s0, e0, s1) && Frame(s1, e1, s2)
    requires e1 == e0 || e1.None? || |s0| <= e1.value
    ensures Frame(s0, e0, s2)
  {
    forall i | 0 <= i < |s0|
      ensures MoreMoves(s0[i], s2[i])
    {
      assert MoreMoves(s0[i], s1[i]) && MoreMoves(s1[i], s2[i]);
    }
    forall i | |s0| <= i < |s2|
      ensures Plain(s2[i])
    {
      if i < |s1| {
        assert Plain(s1[i]) && MoreMoves(s1[i], s2[i]);
      }
    }
  }

  /** Appending a fresh state keeps the frame. */
  lemma FrameNewState(s0: seq<NfaState>, e0: Option<StateId>, s: seq<NfaState>)
    requires Frame(s0, e0, s)
    ensures Frame(s0, e0, s + [FreshState()])
  {
    assert forall i :: 0 <= i < |s| ==> (s + [FreshState()])[i] == s[i];
  }

  /** The arena after x.addEpsilonMove(t). */
  function Linked(states: seq<NfaState>, x: StateId, t: StateId): (r: seq<NfaState>)
    requires x < |states|
    ensures |r| == |states| && r[x].epsilonMoves == states[x].epsilonMoves + {t}
  {
    states[x := states[x].(epsilonMoves := states[x].epsilonMoves + {t})]
  }

  /** An epsilon move added to a new state, or to the end state, keeps the frame. */
  lemma FrameEpsilon(s0: seq<NfaState>, e0: Option<StateId>, s: seq<NfaState>, x: StateId, t: StateId)
    requires Frame(s0, e0, s) && x < |s|
    requires |s0| <= x || e0 == Some(x)
    ensures Frame(s0, e0, Linked(s, x, t))
  {
  }

  /** A state the frame found and that was not the end state is untouched. */
  lemma FrameKeeps(s0: seq<NfaState>, e0: Option<StateId>, s: seq<NfaState>, x: StateId)
    requires Frame(s0, e0, s) && x < |s0| && e0 != Some(x)
    ensures s[x] == s0[x]
  {
  }

  /** Within a frame, epsilon moves only grow. */
  lemma FrameGrows(s0: seq<NfaState>, e0: Option<StateId>, s: seq<NfaState>, x: StateId)
    requires Frame(s0, e0, s) && x < |s0|
    ensures s0[x].epsilonMoves <= s[x].epsilonMoves
  {
    assert MoreMoves(s0[x], s[x]);
  }

  /** Replacing a new state by another plain state keeps the frame. */
  lemma FrameReplaceNew(s0: seq<NfaState>, e0: Option<StateId>, s: seq<NfaState>, x: StateId, st: NfaState)
    requires Frame(s0, e0, s) && |s0| <= x < |s| && Plain(st)
    ensures Frame(s0, e0, s[x := st])
  {
  }

  /** Consecutive pairs of a move list, extended by one range. */
  lemma {:induction false} PairsAppend(moves: seq<nat>, left: nat, right: nat)
    requires |moves| % 2 == 0
    ensures Pairs(moves + [left, right]) == Pairs(moves) + [CharRange(left, right)]
    decreases |moves|
  {
    if moves != [] {
      assert (moves + [left, right])[2..] == moves[2..] + [left, right];
      PairsAppend(moves[2..], left, right);
    }
  }

  /** The starts of the fragments built for the alternatives of a choice. */
  function Starts(parts: seq<(StateId, StateId)>): set<StateId>
  {
    set k | 0 <= k < |parts| :: parts[k].0
  }

  lemma StartsAppend(parts: seq<(StateId, StateId)>, p: (StateId, StateId))
    ensures Starts(parts + [p]) == Starts(parts) + {p.0}
  {
    var q := parts + [p];
    assert forall k :: 0 <= k < |parts| ==> q[k] == parts[k];
    assert q[|parts|] == p;
  }

  /**
   * The loop of visit(RegexpChoice) after i alternatives, on the arena `states`
   * with the builder's end state `end`: the start state s moves on epsilon to each
   * alternative's start, each alternative's end to the final state f.
   */
  ghost predicate ChoiceShape(cs: seq<Regexp>, i: nat, parts: seq<(StateId, StateId)>, s: StateId, f: StateId,
                              S0: seq<NfaState>, E0: Option<StateId>, states: seq<NfaState>, end: Option<StateId>)
  {
    i <= |cs| && |parts| == i && s == |S0| && f == s + 1
    && (E0.Some? ==> E0.value < |S0|)
    && |states| == s + 2 + SumCounts(cs[..i])
    && Frame(S0, E0, states)
    && (i == 0 ==> end == E0)
    && (i > 0 ==> end == Some(parts[i - 1].1))
    && (end.Some? ==> end.value < |states|)
    && states[s] == FreshState().(epsilonMoves := Starts(parts))
    && states[f] == FreshState()
    && forall k :: 0 <= k < i ==>
         s + 2 <= parts[k].0 < |states| && s + 2 <= parts[k].1 < |states|
         && f in states[parts[k].1].epsilonMoves
  }

  /** One more alternative: its fragment (a, b) is built, then s is linked to a and b to f. */
  lemma ChoiceStep(cs: seq<Regexp>, i: nat, parts: seq<(StateId, StateId)>, s: StateId, f: StateId,
                   S0: seq<NfaState>, E0: Option<StateId>, before: seq<NfaState>, endBefore: Option<StateId>,
                   mid: seq<NfaState>, a: StateId, b: StateId)
    requires i < |cs| && ChoiceShape(cs, i, parts, s, f, S0, E0, before, endBefore)
    requires Built(before, endBefore, mid, Some(a), Some(b), StateCount(cs[i]))
    ensures s < |mid| && b < |mid|
    ensures ChoiceShape(cs, i + 1, parts + [(a, b)], s, f, S0, E0, Linked(Linked(mid, s, a), b, f), Some(b))
  {
    ChoiceMid(cs, i, parts, s, f, S0, E0, before, endBefore, mid, a, b);
    var m1 := Linked(mid, s, a);
    FrameEpsilon(S0, E0, mid, s, a);
    FrameEpsilon(S0, E0, m1, b, f);
    StartsAppend(parts, (a, b));
  }

  /** What building the next alternative's fragment keeps of the choice built so far. */
  lemma ChoiceMid(cs: seq<Regexp>, i: nat, parts: seq<(StateId, StateId)>, s: StateId, f: StateId,
                  S0: seq<NfaState>, E0: Option<StateId>, before: seq<NfaState>, endBefore: Option<StateId>,
                  mid: seq<NfaState>, a: StateId, b: StateId)
    requires i < |cs| && ChoiceShape(cs, i, parts, s, f, S0, E0, before, endBefore)
    requires Built(before, endBefore, mid, Some(a), Some(b), StateCount(cs[i]))
    ensures Frame(S0, E0, mid) && |mid| == s + 2 + SumCounts(cs[..i + 1])
    ensures mid[s] == before[s] && mid[f] == before[f]
    ensures forall k :: 0 <= k < i ==>
              s + 2 <= parts[k].0 < |mid| && s + 2 <= parts[k].1 < |mid| && f in mid[parts[k].1].epsilonMoves
  {
    FrameTrans(S0, E0, before, endBefore, mid);
    FrameKeeps(before, endBefore, mid, s);
    FrameKeeps(before, endBefore, mid, f);
    forall k | 0 <= k < i
      ensures f in mid[parts[k].1].epsilonMoves
    {
      FrameGrows(before, endBefore, mid, parts[k].1);
    }
    SumCountsStep(cs, i);
  }

  /** The shape visit(RegexpChoice) leaves between its start and end states. */
  ghost predicate ChoiceWired(cs: seq<Regexp>, parts: seq<(StateId, StateId)>, states: seq<NfaState>,
                              start: StateId, end: StateId)
  {
    end == start + 1 && |parts| == |cs| && end < |states|
    && states[start] == FreshState().(epsilonMoves := Starts(parts))
    && forall k :: 0 <= k < |parts| ==>
         start + 2 <= parts[k].0 < |states| && start + 2 <= parts[k].1 < |states|
         && end in states[parts[k].1].epsilonMoves
  }

  /**
   * The loop of visit(RegexpSequence) after i units: s moves on epsilon to the
   * first unit's start, each unit's end to the next unit's start. `end1` is the
   * builder's end state when the loop began, `prevStart`/`prevEnd` the last unit's.
   */
  ghost predicate SequenceShape(us: seq<Regexp>, i: nat, parts: seq<(StateId, StateId)>, s: StateId, f: StateId,
                                end1: Option<StateId>, prevStart: Option<StateId>, prevEnd: Option<StateId>,
                                S0: seq<NfaState>, E0: Option<StateId>, states: seq<NfaState>, end: Option<StateId>)
  {
    i <= |us| && |parts| == i && |S0| <= s && f == s + 1
    && (E0.Some? ==> E0.value < |S0|)
    && |states| == s + 2 + SumCounts(us[..i])
    && Frame(S0, E0, states)
    && (end1 == E0 || (end1.Some? && |S0| <= end1.value < s))
    && states[f] == FreshState()
    && (i == 0 ==> end == end1 && prevStart.None? && states[s] == FreshState())
    && (i > 0 ==>
          end == Some(parts[i - 1].1) && prevStart == Some(parts[i - 1].0) && prevEnd == Some(parts[i - 1].1)
          && states[s] == FreshState().(epsilonMoves := {parts[0].0}))
    && (end.Some? ==> end.value < |states|)
    && (forall k :: 0 <= k < i ==> s + 2 <= parts[k].0 < |states| && s + 2 <= parts[k].1 < |states|)
    && (forall k :: 0 <= k < i - 1 ==> parts[k + 1].0 in states[parts[k].1].epsilonMoves)
  }

  /** One more unit: its fragment (a, b) is built, then linked after s or after the previous unit. */
  lemma SequenceStep(us: seq<Regexp>, i: nat, parts: seq<(StateId, StateId)>, s: StateId, f: StateId,
                     end1: Option<StateId>, prevStart: Option<StateId>, prevEnd: Option<StateId>,
                     S0: seq<NfaState>, E0: Option<StateId>, before: seq<NfaState>, endBefore: Option<StateId>,
                     mid: seq<NfaState>, a: StateId, b: StateId, x: StateId)
    requires i < |us| && SequenceShape(us, i, parts, s, f, end1, prevStart, prevEnd, S0, E0, before, endBefore)
    requires Built(before, endBefore, mid, Some(a), Some(b), StateCount(us[i]))
    requires (prevStart.None? && x == s) || (prevStart.Some? && prevEnd == Some(x))
    ensures x < |mid|
    ensures SequenceShape(us, i + 1, parts + [(a, b)], s, f, end1, Some(a), Some(b), S0, E0, Linked(mid, x, a), Some(b))
  {
    SequenceMid(us, i, parts, s, f, end1, prevStart, prevEnd, S0, E0, before, endBefore, mid, a, b);
    var parts' := parts + [(a, b)];
    assert parts'[i] == (a, b);
    FrameEpsilon(S0, E0, mid, x, a);
  }

  /** What building the next unit's fragment keeps of the sequence built so far. */
  lemma SequenceMid(us: seq<Regexp>, i: nat, parts: seq<(StateId, StateId)>, s: StateId, f: StateId,
                    end1: Option<StateId>, prevStart: Option<StateId>, prevEnd: Option<StateId>,
                    S0: seq<NfaState>, E0: Option<StateId>, before: seq<NfaState>, endBefore: Option<StateId>,
                    mid: seq<NfaState>, a: StateId, b: StateId)
    requires i < |us| && SequenceShape(us, i, parts, s, f, end1, prevStart, prevEnd, S0, E0, before, endBefore)
    requires Built(before, endBefore, mid, Some(a), Some(b), StateCount(us[i]))
    ensures Frame(S0, E0, mid) && |mid| == s + 2 + SumCounts(us[..i + 1])
    ensures mid[s] == before[s] && mid[f] == before[f]
    ensures forall k :: 0 <= k < i ==> s + 2 <= parts[k].0 < |mid| && s + 2 <= parts[k].1 < |mid|
    ensures forall k :: 0 <= k < i - 1 ==> parts[k + 1].0 in mid[parts[k].1].epsilonMoves
  {
    FrameTrans(S0, E0, before, endBefore, mid);
    FrameKeeps(before, endBefore, mid, s);
    FrameKeeps(before, endBefore, mid, f);
    forall k | 0 <= k < i - 1
      ensures parts[k + 1].0 in mid[parts[k].1].epsilonMoves
    {
      FrameGrows(before, endBefore, mid, parts[k].1);
    }
    SumCountsStep(us, i);
  }


  /** The shape visit(RegexpSequence) leaves between its start and end states. */
  ghost predicate SequenceWired(us: seq<Regexp>, parts: seq<(StateId, StateId)>, states: seq<NfaState>,
                                start: StateId, end: StateId, end0: Option<StateId>)
  {
    end == start + 1 && |parts| == |us| && end < |states|
    && (forall k :: 0 <= k < |parts| ==>
          start + 2 <= parts[k].0 < |states| && start + 2 <= parts[k].1 < |states|)
    && (us == [] ==>
          states[start] == FreshState()
          && end0.Some? && end0.value < |states| && end in states[end0.value].epsilonMoves)
    && (us != [] ==>
          states[start] == FreshState().(epsilonMoves := {parts[0].0})
          && end in states[parts[|us| - 1].1].epsilonMoves)
    && (forall k :: 0 <= k < |parts| - 1 ==> parts[k + 1].0 in states[parts[k].1].epsilonMoves)
  }

  /** The last unit's end (the previous end state, for no units) linked to f. */
  lemma SequenceDone(us: seq<Regexp>, parts: seq<(StateId, StateId)>, s: StateId, f: StateId,
                     end1: Option<StateId>, prevStart: Option<StateId>, prevEnd: Option<StateId>,
                     S0: seq<NfaState>, E0: Option<StateId>, states: seq<NfaState>, end: StateId)
    requires SequenceShape(us, |us|, parts, s, f, end1, prevStart, prevEnd, S0, E0, states, Some(end))
    requires us == [] ==> end1 == E0
    ensures end < |states| && (|S0| <= end || E0 == Some(end))
    ensures Frame(S0, E0, Linked(states, end, f)) && Linked(states, end, f)[f] == FreshState()
    ensures |states| == s + 2 + SumCounts(us)
    ensures SequenceWired(us, parts, Linked(states, end, f), s, f, E0)
  {
    assert us[..|us|] == us;
    FrameEpsilon(S0, E0, states, end, f);
  }

  /** The arena after a literal step: the last state rewritten, one fresh state appended. */
  lemma LiteralShape(before: seq<NfaState>, grown: seq<NfaState>, x: StateId, st: NfaState)
    requires x < |before| && |grown| == |before| + 1 && grown[|before|] == FreshState()
    requires forall k :: 0 <= k < |before| && k != x ==> grown[k] == before[k]
    ensures grown[x := st] == before[x := st] + [FreshState()]
  {
  }

  /** Setting the next state of a chain under construction, and adding a fresh one,
      extends the prefix that agrees with the intended chain. */
  lemma UpdatedPrefix(before: seq<NfaState>, after: seq<NfaState>, first: nat, want: seq<NfaState>, i: nat)
    requires i < |want| && first + i + 1 == |before|
    requires forall k :: 0 <= k < i ==> before[first + k] == want[k]
    requires after == before[first + i := want[i]] + [FreshState()]
    ensures forall k :: 0 <= k < i + 1 ==> after[first + k] == want[k]
  {
    forall k | 0 <= k < i + 1 ensures after[first + k] == want[k] {
      if k < i {
        assert after[first + k] == before[first + k];
      }
    }
  }

  /**
   * NfaBuilder: `start` and `end` are the fragment built by the latest visit
   * (None, Java's null, before the first one). The case maps stand for
   * Character.toUpperCase / toLowerCase; `grammarIgnoreCase` is the grammar's
   * global IGNORE_CASE option.
   */
  class NfaBuilder {
    var start: Option<StateId>
    var end: Option<StateId>
    const ignoreCase: bool
    const grammarIgnoreCase: bool
    const cm: CaseMap
    const lexicalState: LexicalStateData

    constructor (lexicalState: LexicalStateData, ignoreCase: bool, grammarIgnoreCase: bool, cm: CaseMap)
      ensures this.lexicalState == lexicalState && this.ignoreCase == ignoreCase
      ensures this.grammarIgnoreCase == grammarIgnoreCase && this.cm == cm
      ensures start == None && end == None
    {
      this.lexicalState := lexicalState;
      this.ignoreCase := ignoreCase;
      this.grammarIgnoreCase := grammarIgnoreCase;
      this.cm := cm;
      start := None;
      end := None;
    }

    /** A consistent arena whose every state is registered. */
    ghost predicate Inv()
      reads lexicalState
    {
      lexicalState.Valid() && lexicalState.Registered()
    }

    /** What every visit needs: a consistent arena, an end state (if any) inside it. */
    ghost predicate Ready(re: Regexp)
      reads this, lexicalState
    {
      Inv() && ValidCaseMap(cm) && RegexpOk(re) && (end.Some? ==> end.value < |lexicalState.states|)
    }

    /** The state a string literal's character leaves: it moves on that character
        (and its case variants when case is ignored) to the next state. */
    function LiteralState(c: char, next: StateId): NfaState
    {
      FreshState().(moveRanges := CharMoves(c as nat, grammarIgnoreCase || ignoreCase, cm), nextState := Some(next))
    }

    // -------------------------------------------------------------------
    // Steps on the arena, each keeping the frame of the visit under way
    // (S0: the arena when it began, E0: the builder's end state then).
    // -------------------------------------------------------------------

    /** Two new NfaState(lexicalState): a start and a final state. */
    method NewPair(ghost S0: seq<NfaState>, ghost E0: Option<StateId>) returns (s: StateId, f: StateId)
      requires Inv() && Frame(S0, E0, lexicalState.states)
      modifies lexicalState
      ensures Inv() && lexicalState.Others() == old(lexicalState.Others())
      ensures s == old(|lexicalState.states|) && f == s + 1
      ensures lexicalState.states == old(lexicalState.states) + [FreshState(), FreshState()]
      ensures Frame(S0, E0, lexicalState.states)
    {
      FrameNewState(S0, E0, lexicalState.states);
      s := lexicalState.NewState();
      FrameNewState(S0, E0, lexicalState.states);
      f := lexicalState.NewState();
    }

    /** x.addEpsilonMove(t), on a state the visit created or on the builder's end state. */
    method Link(x: StateId, t: StateId, ghost S0: seq<NfaState>, ghost E0: Option<StateId>)
      requires Inv() && Frame(S0, E0, lexicalState.states)
      requires x < |lexicalState.states| && t < |lexicalState.states| && (|S0| <= x || E0 == Some(x))
      modifies lexicalState
      ensures Inv() && lexicalState.Others() == old(lexicalState.Others())
      ensures lexicalState.states == Linked(old(lexicalState.states), x, t)
      ensures Frame(S0, E0, lexicalState.states)
    {
      FrameEpsilon(S0, E0, lexicalState.states, x, t);
      lexicalState.AddEpsilonMove(x, t);
    }

    /**
     * The epsilon moves of the three loop visits around a body (bs, be) between a
     * start s and a final state f: s to bs, s to f when the body can be skipped,
     * be to f, and be back to bs when the body repeats.
     */
    method WireRepeat(s: StateId, f: StateId, bs: StateId, be: StateId, skip: bool, repeat: bool,
                      ghost S0: seq<NfaState>, ghost E0: Option<StateId>)
      requires Inv() && Frame(S0, E0, lexicalState.states)
      requires |S0| <= s < |lexicalState.states| && f < |lexicalState.states|
      requires bs < |lexicalState.states| && |S0| <= be < |lexicalState.states| && s != be
      modifies lexicalState
      ensures Inv() && lexicalState.Others() == old(lexicalState.Others())
      ensures Frame(S0, E0, lexicalState.states)
      ensures |lexicalState.states| == old(|lexicalState.states|)
      ensures lexicalState.states[s] == old(lexicalState.states[s]).(epsilonMoves :=
                old(lexicalState.states[s].epsilonMoves) + {bs} + (if skip then {f} else {}))
      ensures lexicalState.states[be] == old(lexicalState.states[be]).(epsilonMoves :=
                old(lexicalState.states[be].epsilonMoves) + {f} + (if repeat then {bs} else {}))
      ensures forall i :: 0 <= i < |lexicalState.states| && i != s && i != be ==>
                lexicalState.states[i] == old(lexicalState.states[i])
    {
      Link(s, bs, S0, E0);
      if skip {
        Link(s, f, S0, E0);
      }
      Link(be, f, S0, E0);
      if repeat {
        Link(be, bs, S0, E0);
      }
    }

    /** The loop of visit(CharacterList): each range is added to the start state's moves. */
    method AddRanges(s: StateId, ranges: seq<CharRange>, ghost S0: seq<NfaState>, ghost E0: Option<StateId>)
      returns (ghost moves: seq<nat>)
      requires Inv() && Frame(S0, E0, lexicalState.states)
      requires |S0| <= s < |lexicalState.states| && lexicalState.states[s] == FreshState()
      modifies lexicalState
      ensures Inv() && lexicalState.Others() == old(lexicalState.Others())
      ensures Frame(S0, E0, lexicalState.states)
      ensures |moves| % 2 == 0 && Pairs(moves) == ranges
      ensures lexicalState.states == old(lexicalState.states)[s := FreshState().(moveRanges := moves)]
    {
      moves := [];
      var i := 0;
      while i < |ranges|
        invariant 0 <= i <= |ranges|
        invariant Inv() && lexicalState.Others() == old(lexicalState.Others())
        invariant Frame(S0, E0, lexicalState.states)
        invariant |moves| % 2 == 0 && Pairs(moves) == ranges[..i]
        invariant lexicalState.states == old(lexicalState.states)[s := FreshState().(moveRanges := moves)]
      {
        PairsAppend(moves, ranges[i].left, ranges[i].right);
        assert ranges[..i + 1] == ranges[..i] + [ranges[i]];
        FrameReplaceNew(S0, E0, lexicalState.states, s,
          FreshState().(moveRanges := moves + [ranges[i].left, ranges[i].right]));
        lexicalState.AddRange(s, ranges[i].left, ranges[i].right);
        moves := moves + [ranges[i].left, ranges[i].right];
        i := i + 1;
      }
      assert ranges[..i] == ranges;
    }

    /** One character of visit(RegexpStringLiteral): the last state moves on c to a new state. */
    method LiteralStep(state: StateId, c: char, ghost S0: seq<NfaState>, ghost E0: Option<StateId>)
      returns (e: StateId)
      requires Inv() && Frame(S0, E0, lexicalState.states)
      requires |S0| <= state && state + 1 == |lexicalState.states| && lexicalState.states[state] == FreshState()
      modifies lexicalState
      ensures Inv() && lexicalState.Others() == old(lexicalState.Others())
      ensures Frame(S0, E0, lexicalState.states)
      ensures e == state + 1
      ensures lexicalState.states == old(lexicalState.states)[state := LiteralState(c, e)] + [FreshState()]
    {
      ghost var moves := CharMoves(c as nat, grammarIgnoreCase || ignoreCase, cm);
      ghost var before := lexicalState.states;
      FrameReplaceNew(S0, E0, lexicalState.states, state, FreshState().(moveRanges := moves));
      lexicalState.SetCharMove(state, c as nat, grammarIgnoreCase || ignoreCase, cm);
      FrameNewState(S0, E0, lexicalState.states);
      e := lexicalState.NewState();
      FrameReplaceNew(S0, E0, lexicalState.states, state, LiteralState(c, e));
      ghost var grown := lexicalState.states;
      lexicalState.SetNextState(state, e);
      LiteralShape(before, grown, state, LiteralState(c, e));
    }

    // -------------------------------------------------------------------
    // The visits
    // -------------------------------------------------------------------

    /** visit(RegularExpression): dispatch on the kind of expression. */
    method Visit(re: Regexp) returns (threw: bool)
      requires Ready(re)
      modifies this, lexicalState
      decreases Height(re), 4
      ensures Inv() && lexicalState.Others() == old(lexicalState.Others())
      ensures threw == Throws(re, old(end).None?)
      ensures Frame(old(lexicalState.states), old(end), lexicalState.states)
      ensures !threw ==> Built(old(lexicalState.states), old(end), lexicalState.states, start, end, StateCount(re))
    {
      match re
      case CharacterList(d, negated) =>
        ghost var moves;
        moves := VisitCharacterList(d, negated);
        threw := false;
      case StringLiteral(image) =>
        VisitStringLiteral(image);
        threw := false;
      case RegexpChoice(cs) =>
        ghost var parts;
        threw, parts := VisitChoice(cs);
      case RegexpSequence(us) =>
        ghost var parts;
        threw, parts := VisitSequence(us);
      case ZeroOrMoreRegexp(b) =>
        ghost var inner;
        threw, inner := VisitZeroOrMore(b);
      case OneOrMoreRegexp(b) =>
        ghost var inner;
        threw, inner := VisitOneOrMore(b);
      case ZeroOrOneRegexp(b) =>
        ghost var inner;
        threw, inner := VisitZeroOrOne(b);
      case RepetitionRange(min, max, hasMax, b) =>
        threw := VisitRepetitionRange(min, max, hasMax, b);
      case RegexpRef(_, t) =>
        threw := Visit(t);
    }

    /**
     * visit(CharacterList): a start state moving on the class's code points, as the
     * canonical ranges of orderedRanges, to a fresh end state. Only the builder's
     * own ignoreCase makes the class case-neutral.
     */
    method VisitCharacterList(d: seq<CharRange>, negated: bool) returns (ghost moves: seq<nat>)
      requires Ready(CharacterList(d, negated))
      modifies this, lexicalState
      decreases Height(CharacterList(d, negated)), 1
      ensures Inv() && lexicalState.Others() == old(lexicalState.Others())
      ensures Built(old(lexicalState.states), old(end), lexicalState.states, start, end, 2)
      ensures start == Some(old(|lexicalState.states|)) && end == Some(start.value + 1)
      ensures lexicalState.states[start.value] == FreshState().(moveRanges := moves, nextState := end)
      ensures |moves| % 2 == 0 && Canonical(Pairs(moves))
      ensures RangesToSet(Pairs(moves)) == ClassSet(d, negated, ignoreCase, cm)
    {
      var ranges := OrderedRanges(d, negated, ignoreCase, cm);
      ghost var S0 := lexicalState.states;
      FrameRefl(S0, end);
      var s, e := NewPair(S0, end);
      moves := AddRanges(s, ranges, S0, old(end));
      FrameReplaceNew(S0, old(end), lexicalState.states, s, FreshState().(moveRanges := moves, nextState := Some(e)));
      lexicalState.SetNextState(s, e);
      start, end := Some(s), Some(e);
    }

    /** The states of a literal's chain, from `first` on. */
    ghost function LiteralChain(image: string, first: StateId): (r: seq<NfaState>)
      ensures |r| == |image| && forall k :: 0 <= k < |image| ==> r[k] == LiteralState(image[k], first + k + 1)
    {
      seq(|image|, k requires 0 <= k < |image| => LiteralState(image[k], first + k + 1))
    }

    /** The first i characters of the literal each have their state, from `first` on. */
    ghost predicate LiteralSoFar(states: seq<NfaState>, first: StateId, image: string, i: nat)
    {
      i <= |image| && first + i <= |states|
      && forall k :: 0 <= k < i ==> states[first + k] == LiteralChain(image, first)[k]
    }

    lemma LiteralSoFarStep(before: seq<NfaState>, after: seq<NfaState>, first: StateId, image: string, i: nat)
      requires i < |image| && LiteralSoFar(before, first, image, i) && first + i + 1 == |before|
      requires after == before[first + i := LiteralState(image[i], first + i + 1)] + [FreshState()]
      ensures LiteralSoFar(after, first, image, i + 1)
    {
      var want := LiteralChain(image, first);
      UpdatedPrefix(before, after, first, want, i);
    }

    /**
     * visit(RegexpStringLiteral): a chain of |image| + 1 states, the k-th moving on
     * the k-th character to the next one; the start is the first and the end the
     * last. Here the grammar's IGNORE_CASE also makes the moves case-neutral.
     */
    method VisitStringLiteral(image: string)
      requires Ready(StringLiteral(image))
      modifies this, lexicalState
      decreases Height(StringLiteral(image)), 1
      ensures Inv() && lexicalState.Others() == old(lexicalState.Others())
      ensures Built(old(lexicalState.states), old(end), lexicalState.states, start, end, |image| + 1)
      ensures start == Some(old(|lexicalState.states|)) && end == Some(start.value + |image|)
      ensures forall k :: 0 <= k < |image| ==>
        lexicalState.states[start.value + k] == LiteralState(image[k], start.value + k + 1)
    {
      ghost var S0 := lexicalState.states;
      FrameRefl(S0, end);
      FrameNewState(S0, end, S0);
      var first := lexicalState.NewState();
      var state := first;
      start, end := Some(first), Some(first);
      var i := 0;
      while i < |image|
        invariant 0 <= i <= |image|
        invariant Inv() && lexicalState.Others() == old(lexicalState.Others())
        invariant first == |S0| && state == first + i && |lexicalState.states| == state + 1
        invariant start == Some(first) && end == Some(state)
        invariant Frame(S0, old(end), lexicalState.states)
        invariant lexicalState.states[state] == FreshState()
        invariant LiteralSoFar(lexicalState.states, first, image, i)
      {
        ghost var before := lexicalState.states;
        var e := LiteralStep(state, image[i], S0, old(end));
        LiteralSoFarStep(before, lexicalState.states, first, image, i);
        end := Some(e);
        state := e;
        i := i + 1;
      }
      ghost var chain := LiteralChain(image, first);
      forall k | 0 <= k < |image| ensures lexicalState.states[first + k] == LiteralState(image[k], first + k + 1) {
        assert lexicalState.states[first + k] == chain[k];
      }
    }

    /** One alternative of visit(RegexpChoice): visit it, then wire it between s and f. */
    method ChoiceAlternative(cs: seq<Regexp>, i: nat, s: StateId, f: StateId, ghost parts: seq<(StateId, StateId)>,
                             ghost S0: seq<NfaState>, ghost E0: Option<StateId>)
      returns (threw: bool, ghost parts': seq<(StateId, StateId)>)
      requires i < |cs| && Inv() && ChoiceShape(cs, i, parts, s, f, S0, E0, lexicalState.states, end)
      requires ValidCaseMap(cm) && RegexpOk(RegexpChoice(cs))
      modifies this, lexicalState
      decreases Height(RegexpChoice(cs)), 0
      ensures Inv() && lexicalState.Others() == old(lexicalState.Others())
      ensures Frame(S0, E0, lexicalState.states)
      ensures threw == Throws(cs[i], old(end).None?)
      ensures !threw ==> ChoiceShape(cs, i + 1, parts', s, f, S0, E0, lexicalState.states, end)
    {
      ghost var before := lexicalState.states;
      ghost var endBefore := end;
      threw := Visit(cs[i]);
      FrameTrans(S0, E0, before, endBefore, lexicalState.states);
      parts' := parts;
      if threw {
        return;
      }
      ChoiceStep(cs, i, parts, s, f, S0, E0, before, endBefore, lexicalState.states, start.value, end.value);
      Link(s, start.value, S0, E0);
      Link(end.value, f, S0, E0);
      parts' := parts + [(start.value, end.value)];
    }

    /**
     * visit(RegexpChoice): a single alternative is visited on its own; otherwise a
     * start state with an epsilon move to each alternative's start, and each
     * alternative's end with an epsilon move to a shared final state. `parts` are
     * the alternatives' (start, end) states, in order.
     */
    method VisitChoice(cs: seq<Regexp>) returns (threw: bool, ghost parts: seq<(StateId, StateId)>)
      requires Ready(RegexpChoice(cs))
      modifies this, lexicalState
      decreases Height(RegexpChoice(cs)), 2
      ensures Inv() && lexicalState.Others() == old(lexicalState.Others())
      ensures threw == Throws(RegexpChoice(cs), old(end).None?)
      ensures Frame(old(lexicalState.states), old(end), lexicalState.states)
      ensures !threw ==> Built(old(lexicalState.states), old(end), lexicalState.states, start, end,
                               StateCount(RegexpChoice(cs)))
      ensures !threw && |cs| != 1 ==> start == Some(old(|lexicalState.states|))
      ensures !threw && |cs| != 1 ==> ChoiceWired(cs, parts, lexicalState.states, start.value, end.value)
    {
      parts := [];
      if |cs| == 1 {
        threw := Visit(cs[0]);
        return;
      }
      threw, parts := ChoiceAlternatives(cs);
    }

    /** visit(RegexpChoice) of other than one alternative: the start and final states, then each
        alternative wired between them. */
    method ChoiceAlternatives(cs: seq<Regexp>) returns (threw: bool, ghost parts: seq<(StateId, StateId)>)
      requires Ready(RegexpChoice(cs)) && |cs| != 1
      modifies this, lexicalState
      decreases Height(RegexpChoice(cs)), 1
      ensures Inv() && lexicalState.Others() == old(lexicalState.Others())
      ensures threw == Throws(RegexpChoice(cs), old(end).None?)
      ensures Frame(old(lexicalState.states), old(end), lexicalState.states)
      ensures !threw ==> Built(old(lexicalState.states), old(end), lexicalState.states, start, end,
                               StateCount(RegexpChoice(cs)))
      ensures !threw ==> start == Some(old(|lexicalState.states|))
      ensures !threw ==> ChoiceWired(cs, parts, lexicalState.states, start.value, end.value)
    {
      parts := [];
      ghost var S0 := lexicalState.states;
      FrameRefl(S0, end);
      var s, f := NewPair(S0, end);
      threw := false;
      var i := 0;
      while i < |cs|
        invariant Inv() && ChoiceShape(cs, i, parts, s, f, S0, old(end), lexicalState.states, end) && !threw
        invariant lexicalState.Others() == old(lexicalState.Others())
        invariant i > 0 ==> !Throws(cs[0], old(end).None?)
      {
        NoThrowOnceBuilt(cs[i]);
        threw, parts := ChoiceAlternative(cs, i, s, f, parts, S0, old(end));
        if threw {
          return;
        }
        i := i + 1;
      }
      assert cs[..i] == cs;
      start, end := Some(s), Some(f);
    }

    /** One unit of visit(RegexpSequence): visit it, then link it after the previous unit
        (after s, for the first). */
    method SequenceUnit(us: seq<Regexp>, i: nat, s: StateId, f: StateId,
                        prevStart: Option<StateId>, prevEnd: Option<StateId>, ghost parts: seq<(StateId, StateId)>,
                        ghost end1: Option<StateId>, ghost S0: seq<NfaState>, ghost E0: Option<StateId>)
      returns (threw: bool, ghost parts': seq<(StateId, StateId)>)
      requires i < |us| && Inv()
      requires SequenceShape(us, i, parts, s, f, end1, prevStart, prevEnd, S0, E0, lexicalState.states, end)
      requires ValidCaseMap(cm) && RegexpOk(RegexpSequence(us))
      modifies this, lexicalState
      decreases Height(RegexpSequence(us)), 0
      ensures Inv() && lexicalState.Others() == old(lexicalState.Others())
      ensures Frame(S0, E0, lexicalState.states)
      ensures threw == Throws(us[i], old(end).None?)
      ensures !threw ==> SequenceShape(us, i + 1, parts', s, f, end1, start, end, S0, E0, lexicalState.states, end)
    {
      ghost var before := lexicalState.states;
      ghost var endBefore := end;
      threw := Visit(us[i]);
      FrameTrans(S0, E0, before, endBefore, lexicalState.states);
      parts' := parts;
      if threw {
        return;
      }
      var x := if prevStart.None? then s else prevEnd.value;
      SequenceStep(us, i, parts, s, f, end1, prevStart, prevEnd, S0, E0, before, endBefore,
                   lexicalState.states, start.value, end.value, x);
      Link(x, start.value, S0, E0);
      parts' := parts + [(start.value, end.value)];
    }

    /** The loop of visit(RegexpSequence) over all units, after its start and final states exist. */
    method SequenceUnits(us: seq<Regexp>, s: StateId, f: StateId, ghost S0: seq<NfaState>, ghost E0: Option<StateId>)
      returns (threw: bool, ghost parts: seq<(StateId, StateId)>, prevStart: Option<StateId>, prevEnd: Option<StateId>)
      requires Inv() && SequenceShape(us, 0, [], s, f, end, None, None, S0, E0, lexicalState.states, end)
      requires ValidCaseMap(cm) && RegexpOk(RegexpSequence(us))
      modifies this, lexicalState
      decreases Height(RegexpSequence(us)), 1
      ensures Inv() && lexicalState.Others() == old(lexicalState.Others())
      ensures Frame(S0, E0, lexicalState.states)
      ensures threw == (|us| > 0 && Throws(us[0], old(end).None?))
      ensures !threw ==>
        SequenceShape(us, |us|, parts, s, f, old(end), prevStart, prevEnd, S0, E0, lexicalState.states, end)
    {
      ghost var end1 := end;
      parts := [];
      threw := false;
      prevStart, prevEnd := None, None;
      var i := 0;
      while i < |us|
        invariant Inv() && !threw
        invariant SequenceShape(us, i, parts, s, f, end1, prevStart, prevEnd, S0, E0, lexicalState.states, end)
        invariant lexicalState.Others() == old(lexicalState.Others())
        invariant i > 0 ==> !Throws(us[0], old(end).None?)
      {
        NoThrowOnceBuilt(us[i]);
        threw, parts := SequenceUnit(us, i, s, f, prevStart, prevEnd, parts, end1, S0, E0);
        if threw {
          return;
        }
        prevStart, prevEnd := start, end;
        i := i + 1;
      }
    }

    /** The end of visit(RegexpSequence): the last end state is linked to the final state f. */
    method SequenceClose(us: seq<Regexp>, ghost parts: seq<(StateId, StateId)>, s: StateId, f: StateId,
                         ghost end1: Option<StateId>, ghost prevStart: Option<StateId>, ghost prevEnd: Option<StateId>,
                         ghost S0: seq<NfaState>, ghost E0: Option<StateId>)
      requires Inv() && end.Some?
      requires SequenceShape(us, |us|, parts, s, f, end1, prevStart, prevEnd, S0, E0, lexicalState.states, end)
      requires us == [] ==> end1 == E0
      modifies this, lexicalState
      ensures Inv() && lexicalState.Others() == old(lexicalState.Others())
      ensures Frame(S0, E0, lexicalState.states)
      ensures |lexicalState.states| == s + 2 + SumCounts(us) && lexicalState.states[f] == FreshState()
      ensures start == Some(s) && end == Some(f)
      ensures SequenceWired(us, parts, lexicalState.states, s, f, E0)
    {
      SequenceDone(us, parts, s, f, end1, prevStart, prevEnd, S0, E0, lexicalState.states, end.value);
      Link(end.value, f, S0, E0);
      start, end := Some(s), Some(f);
    }

    /**
     * visit(RegexpSequence): a start state with an epsilon move to the first unit's
     * start, each unit's end with an epsilon move to the next unit's start, and the
     * last end (the builder's previous end, for no units) with an epsilon move to a
     * final state. A sequence of one unit visits that unit once more beforehand and
     * leaves the states of that first visit unconnected.
     */
    method VisitSequence(us: seq<Regexp>) returns (threw: bool, ghost parts: seq<(StateId, StateId)>)
      requires Ready(RegexpSequence(us))
      modifies this, lexicalState
      decreases Height(RegexpSequence(us)), 3
      ensures Inv() && lexicalState.Others() == old(lexicalState.Others())
      ensures threw == Throws(RegexpSequence(us), old(end).None?)
      ensures Frame(old(lexicalState.states), old(end), lexicalState.states)
      ensures !threw ==> Built(old(lexicalState.states), old(end), lexicalState.states, start, end,
                               StateCount(RegexpSequence(us)))
      ensures !threw ==> start == Some(old(|lexicalState.states|) + (if |us| == 1 then StateCount(us[0]) else 0))
      ensures !threw ==> SequenceWired(us, parts, lexicalState.states, start.value, end.value, old(end))
    {
      ghost var S0 := lexicalState.states;
      FrameRefl(S0, end);
      parts := [];
      if |us| == 1 {
        threw := Visit(us[0]);
        if threw {
          return;
        }
      }
      threw, parts := SequenceAfterFirst(us, S0, old(end));
    }

    /** visit(RegexpSequence) once a lone unit has had its first visit: the start and final
        states, the units, and the link to the final state. */
    method SequenceAfterFirst(us: seq<Regexp>, ghost S0: seq<NfaState>, ghost E0: Option<StateId>)
      returns (threw: bool, ghost parts: seq<(StateId, StateId)>)
      requires Inv() && ValidCaseMap(cm) && RegexpOk(RegexpSequence(us))
      requires (E0.Some? ==> E0.value < |S0|) && Frame(S0, E0, lexicalState.states)
      requires |us| != 1 ==> lexicalState.states == S0 && end == E0
      requires |us| == 1 ==> Built(S0, E0, lexicalState.states, start, end, StateCount(us[0]))
      modifies this, lexicalState
      decreases Height(RegexpSequence(us)), 2
      ensures Inv() && lexicalState.Others() == old(lexicalState.Others())
      ensures threw == (|us| != 1 && Throws(RegexpSequence(us), E0.None?))
      ensures Frame(S0, E0, lexicalState.states)
      ensures !threw ==> Built(S0, E0, lexicalState.states, start, end, StateCount(RegexpSequence(us)))
      ensures !threw ==> start == Some(|S0| + (if |us| == 1 then StateCount(us[0]) else 0))
      ensures !threw ==> SequenceWired(us, parts, lexicalState.states, start.value, end.value, E0)
    {
      parts := [];
      ghost var end1 := end;
      var s, f := NewPair(S0, E0);
      if |us| > 0 {
        NoThrowOnceBuilt(us[0]);
      }
      var prevStart, prevEnd;
      threw, parts, prevStart, prevEnd := SequenceUnits(us, s, f, S0, E0);
      if threw {
        return;
      }
      if end.None? {
        threw := true;
        return;
      }
      SequenceClose(us, parts, s, f, end1, prevStart, prevEnd, S0, E0);
    }

    /** visit(ZeroOrMoreRegexp): the body between a start and a final state; the start can skip to
        the final state, the body's end can leave to it or loop back to the body's start. */
    method VisitZeroOrMore(b: Regexp) returns (threw: bool, ghost inner: (StateId, StateId))
      requires Ready(ZeroOrMoreRegexp(b))
      modifies this, lexicalState
      decreases Height(ZeroOrMoreRegexp(b)), 1
      ensures Inv() && lexicalState.Others() == old(lexicalState.Others())
      ensures threw == Throws(ZeroOrMoreRegexp(b), old(end).None?)
      ensures Frame(old(lexicalState.states), old(end), lexicalState.states)
      ensures !threw ==> Built(old(lexicalState.states), old(end), lexicalState.states, start, end, StateCount(ZeroOrMoreRegexp(b)))
      ensures !threw ==> start == Some(old(|lexicalState.states|)) && end == Some(start.value + 1)
      ensures !threw ==> start.value + 2 <= inner.0 < |lexicalState.states| && start.value + 2 <= inner.1 < |lexicalState.states|
      ensures !threw ==> lexicalState.states[start.value] == FreshState().(epsilonMoves := {inner.0, end.value})
      ensures !threw ==> lexicalState.states[inner.1].epsilonMoves == {end.value, inner.0}
    {
      ghost var S0 := lexicalState.states;
      FrameRefl(S0, end);
      var s, f := NewPair(S0, end);
      ghost var before := lexicalState.states;
      threw := Visit(b);
      FrameTrans(S0, old(end), before, old(end), lexicalState.states);
      inner := (0, 0);
      if threw {
        return;
      }
      var innerStart, innerEnd := start.value, end.value;
      inner := (innerStart, innerEnd);
      WireRepeat(s, f, innerStart, innerEnd, true, true, S0, old(end));
      start, end := Some(s), Some(f);
    }

    /** visit(OneOrMoreRegexp): as for zero-or-more, except that the start cannot skip the body. */
    method VisitOneOrMore(b: Regexp) returns (threw: bool, ghost inner: (StateId, StateId))
      requires Ready(OneOrMoreRegexp(b))
      modifies this, lexicalState
      decreases Height(OneOrMoreRegexp(b)), 1
      ensures Inv() && lexicalState.Others() == old(lexicalState.Others())
      ensures threw == Throws(OneOrMoreRegexp(b), old(end).None?)
      ensures Frame(old(lexicalState.states), old(end), lexicalState.states)
      ensures !threw ==> Built(old(lexicalState.states), old(end), lexicalState.states, start, end, StateCount(OneOrMoreRegexp(b)))
      ensures !threw ==> start == Some(old(|lexicalState.states|)) && end == Some(start.value + 1)
      ensures !threw ==> start.value + 2 <= inner.0 < |lexicalState.states| && start.value + 2 <= inner.1 < |lexicalState.states|
      ensures !threw ==> lexicalState.states[start.value] == FreshState().(epsilonMoves := {inner.0})
      ensures !threw ==> lexicalState.states[inner.1].epsilonMoves == {inner.0, end.value}
    {
      ghost var S0 := lexicalState.states;
      FrameRefl(S0, end);
      var s, f := NewPair(S0, end);
      ghost var before := lexicalState.states;
      threw := Visit(b);
      FrameTrans(S0, old(end), before, old(end), lexicalState.states);
      inner := (0, 0);
      if threw {
        return;
      }
      var innerStart, innerEnd := start.value, end.value;
      inner := (innerStart, innerEnd);
      WireRepeat(s, f, innerStart, innerEnd, false, true, S0, old(end));
      start, end := Some(s), Some(f);
    }

    /** visit(ZeroOrOneRegexp): as for zero-or-more, except that the body's end does not loop back. */
    method VisitZeroOrOne(b: Regexp) returns (threw: bool, ghost inner: (StateId, StateId))
      requires Ready(ZeroOrOneRegexp(b))
      modifies this, lexicalState
      decreases Height(ZeroOrOneRegexp(b)), 1
      ensures Inv() && lexicalState.Others() == old(lexicalState.Others())
      ensures threw == Throws(ZeroOrOneRegexp(b), old(end).None?)
      ensures Frame(old(lexicalState.states), old(end), lexicalState.states)
      ensures !threw ==> Built(old(lexicalState.states), old(end), lexicalState.states, start, end, StateCount(ZeroOrOneRegexp(b)))
      ensures !threw ==> start == Some(old(|lexicalState.states|)) && end == Some(start.value + 1)
      ensures !threw ==> start.value + 2 <= inner.0 < |lexicalState.states| && start.value + 2 <= inner.1 < |lexicalState.states|
      ensures !threw ==> lexicalState.states[start.value] == FreshState().(epsilonMoves := {inner.0, end.value})
      ensures !threw ==> lexicalState.states[inner.1].epsilonMoves == {end.value}
    {
      ghost var S0 := lexicalState.states;
      FrameRefl(S0, end);
      var s, f := NewPair(S0, end);
      ghost var before := lexicalState.states;
      threw := Visit(b);
      FrameTrans(S0, old(end), before, old(end), lexicalState.states);
      inner := (0, 0);
      if threw {
        return;
      }
      var innerStart, innerEnd := start.value, end.value;
      inner := (innerStart, innerEnd);
      WireRepeat(s, f, innerStart, innerEnd, true, false, S0, old(end));
      start, end := Some(s), Some(f);
    }

    /** visit(RepetitionRange): the rewritten sequence of mandatory and optional copies is visited. */
    method VisitRepetitionRange(min: nat, max: int, hasMax: bool, b: Regexp) returns (threw: bool)
      requires Ready(RepetitionRange(min, max, hasMax, b))
      modifies this, lexicalState
      decreases Height(RepetitionRange(min, max, hasMax, b)), 1
      ensures Inv() && lexicalState.Others() == old(lexicalState.Others())
      ensures threw == Throws(RepetitionRange(min, max, hasMax, b), old(end).None?)
      ensures Frame(old(lexicalState.states), old(end), lexicalState.states)
      ensures !threw ==> Built(old(lexicalState.states), old(end), lexicalState.states, start, end,
                               StateCount(RepetitionRange(min, max, hasMax, b)))
    {
      DesugarLower(min, max, hasMax, b);
      DesugarOk(min, max, hasMax, b);
      threw := Visit(Desugar(min, max, hasMax, b));
    }
    /**
     * buildStates: the expression's fragment is built, its end state accepts the
     * expression (by ordinal) and the lexical state's initial state gets an epsilon
     * move to its start. `built` is the arena right after the visit.
     */
    method BuildStates(re: RegularExpression) returns (threw: bool, ghost built: seq<NfaState>)
      requires re.tree.Some? && Ready(re.tree.value)
      modifies this, lexicalState
      ensures Inv() && lexicalState.Others() == old(lexicalState.Others())
      ensures threw == Throws(re.tree.value, old(end).None?)
      ensures threw ==> Frame(old(lexicalState.states), old(end), lexicalState.states)
      ensures !threw ==> Built(old(lexicalState.states), old(end), built, start, end, StateCount(re.tree.value))
      ensures !threw ==> (lexicalState.states ==
        Linked(built[end.value := FreshState().(tokenType := Some(re.ordinal))],
               lexicalState.initialState, start.value))
    {
      threw := Visit(re.tree.value);
      built := lexicalState.states;
      if threw {
        return;
      }
      lexicalState.SetType(end.value, re.ordinal);
      lexicalState.AddEpsilonMove(lexicalState.initialState, start.value);
    }
  }

  /** A spec whose expression processTokenProduction visits: a public one, with a tree the builder accepts. */
  predicate SpecOk(spec: RegexpSpec)
  {
    spec.regexp.isPrivate || (spec.regexp.tree.Some? && RegexpOk(spec.regexp.tree.value))
  }

  /** The builder throws on the spec's expression (a fresh builder has no end state). */
  predicate SpecThrows(spec: RegexpSpec)
  {
    !spec.regexp.isPrivate && spec.regexp.tree.Some? && Throws(spec.regexp.tree.value, true)
  }

  /** The public expressions of the specs, in order. */
  function PublicOf(specs: seq<RegexpSpec>): (r: seq<RegularExpression>)
    ensures forall k :: 0 <= k < |r| ==> !r[k].isPrivate && exists j :: 0 <= j < |specs| && specs[j].regexp == r[k]
    ensures forall j :: 0 <= j < |specs| && !specs[j].regexp.isPrivate ==> specs[j].regexp in r
  {
    if specs == [] then []
    else
      var last := specs[|specs| - 1];
      PublicOf(specs[..|specs| - 1]) + (if last.regexp.isPrivate then [] else [last.regexp])
  }

  /** The public choice expressions of the specs, in order: what processTokenProduction returns. */
  function ChoicesOf(specs: seq<RegexpSpec>): (r: seq<RegularExpression>)
    ensures forall k :: 0 <= k < |r| ==>
      !r[k].isPrivate && r[k].IsChoice() && exists j :: 0 <= j < |specs| && specs[j].regexp == r[k]
    ensures forall j :: 0 <= j < |specs| && !specs[j].regexp.isPrivate && specs[j].regexp.IsChoice() ==>
      specs[j].regexp in r
  {
    if specs == [] then []
    else
      var last := specs[|specs| - 1];
      ChoicesOf(specs[..|specs| - 1]) + (if last.regexp.isPrivate || !last.regexp.IsChoice() then [] else [last.regexp])
  }

  /** The number of NFA states processTokenProduction adds for the specs. */
  function PublicCount(specs: seq<RegexpSpec>): nat
  {
    if specs == [] then 0
    else
      var last := specs[|specs| - 1];
      PublicCount(specs[..|specs| - 1])
        + (if last.regexp.isPrivate || last.regexp.tree.None? then 0 else StateCount(last.regexp.tree.value))
  }

  /** The lexical state an expression switches to: a next state other than the
      current lexical state's own name is looked up among the known lexical
      states (None when unknown); otherwise the expression keeps what it had. */
  function SwitchTarget(nextState: Option<string>, own: string, known: set<string>, current: Option<string>): Option<string>
  {
    if nextState.Some? && nextState.value != own then
      (if nextState.value in known then nextState else None)
    else current
  }

  /**
   * The body of the processTokenProduction loop for one public spec: the expression
   * is registered, its states are built by a fresh builder, and its new lexical state
   * is set. `accepting` is the new state that accepts it.
   */
  method ProcessSpec(lsd: LexicalStateData, spec: RegexpSpec, ignore: bool, grammarIgnoreCase: bool, cm: CaseMap,
                     known: set<string>)
    returns (threw: bool, ghost accepting: StateId)
    requires lsd.Valid() && lsd.Registered() && ValidCaseMap(cm)
    requires SpecOk(spec) && !spec.regexp.isPrivate
    modifies lsd, spec.regexp
    ensures lsd.Valid() && lsd.Registered()
    ensures lsd.Others() == old(lsd.Others()).(regularExpressions := old(lsd.regularExpressions) + {spec.regexp})
    ensures threw == SpecThrows(spec)
    ensures spec.regexp.ordinal == old(spec.regexp.ordinal) && spec.regexp.explicitLabel == old(spec.regexp.explicitLabel)
    ensures spec.regexp.generatedClassName == old(spec.regexp.generatedClassName)
    ensures !threw ==> |lsd.states| == old(|lsd.states|) + StateCount(spec.regexp.tree.value)
    ensures !threw ==> forall k :: 0 <= k < old(|lsd.states|) && k != lsd.initialState ==>
      lsd.states[k] == old(lsd.states[k])
    ensures !threw ==> (lsd.states[lsd.initialState] ==
      old(lsd.states[lsd.initialState]).(epsilonMoves := lsd.states[lsd.initialState].epsilonMoves))
    ensures !threw ==> old(lsd.states[lsd.initialState].epsilonMoves) <= lsd.states[lsd.initialState].epsilonMoves
    ensures !threw ==> (old(|lsd.states|) <= accepting < |lsd.states|
      && lsd.states[accepting].tokenType == Some(spec.regexp.ordinal))
    ensures !threw ==> (spec.regexp.newLexicalState ==
      SwitchTarget(spec.nextState, lsd.name, known, old(spec.regexp.newLexicalState)))
  {
    var re := spec.regexp;
    lsd.AddRegularExpression(re);
    var builder := new NfaBuilder(lsd, ignore, grammarIgnoreCase, cm);
    ghost var built;
    threw, built := builder.BuildStates(re);
    accepting := 0;
    if threw {
      return;
    }
    accepting := builder.end.value;
    if spec.nextState.Some? && spec.nextState.value != lsd.name {
      var target := if spec.nextState.value in known then spec.nextState else None;
      re.SetNewLexicalState(target);
    }
  }

  /** The specs' expressions are pairwise distinct objects. */
  predicate DistinctRegexps(specs: seq<RegexpSpec>)
  {
    forall i, j :: 0 <= i < j < |specs| ==> specs[i].regexp != specs[j].regexp
  }

  /** The expressions of the specs, as a set: what processTokenProduction may change. */
  function RegexpsOf(specs: seq<RegexpSpec>): set<RegularExpression>
  {
    set k | 0 <= k < |specs| :: specs[k].regexp
  }

  /** The public expressions of the specs, as a set: what processTokenProduction registers. */
  function PublicSet(specs: seq<RegexpSpec>): set<RegularExpression>
  {
    set k | 0 <= k < |specs| && !specs[k].regexp.isPrivate :: specs[k].regexp
  }

  lemma PublicSetStep(specs: seq<RegexpSpec>, i: nat)
    requires i < |specs|
    ensures PublicSet(specs[..i + 1]) ==
      PublicSet(specs[..i]) + (if specs[i].regexp.isPrivate then {} else {specs[i].regexp})
  {
    var a, b := specs[..i + 1], specs[..i];
    forall re | re in PublicSet(a)
      ensures re in PublicSet(b) || (re == specs[i].regexp && !re.isPrivate)
    {
      var k :| 0 <= k < |a| && !a[k].regexp.isPrivate && a[k].regexp == re;
      if k < i {
        assert b[k] == a[k];
      }
    }
    forall re | re in PublicSet(b)
      ensures re in PublicSet(a)
    {
      var k :| 0 <= k < |b| && !b[k].regexp.isPrivate && b[k].regexp == re;
      assert a[k] == b[k];
    }
    if !specs[i].regexp.isPrivate {
      assert a[i] == specs[i];
    }
  }

  /** The states below n0, other than the initial state, are as in S0. */
  ghost predicate KeptBelow(S0: seq<NfaState>, states: seq<NfaState>, initial: StateId)
  {
    |S0| <= |states| && forall k :: 0 <= k < |S0| && k != initial ==> states[k] == S0[k]
  }

  /** Each public spec before i has an accepting state, added after n0, for its ordinal. */
  ghost predicate AcceptingSoFar(specs: seq<RegexpSpec>, i: nat, accepting: seq<StateId>, n0: nat,
                                 states: seq<NfaState>, ords: seq<int>)
  {
    i <= |specs| && |accepting| == i && |ords| == |specs|
    && forall k :: 0 <= k < i && !specs[k].regexp.isPrivate ==>
         n0 <= accepting[k] < |states| && states[accepting[k]].tokenType == Some(ords[k])
  }

  lemma AcceptingStep(specs: seq<RegexpSpec>, i: nat, accepting: seq<StateId>, n0: nat,
                      states: seq<NfaState>, states': seq<NfaState>, ords: seq<int>, initial: StateId, a: StateId)
    requires AcceptingSoFar(specs, i, accepting, n0, states, ords) && i < |specs|
    requires initial < n0 && KeptBelow(states, states', initial)
    requires !specs[i].regexp.isPrivate ==> n0 <= a < |states'| && states'[a].tokenType == Some(ords[i])
    ensures AcceptingSoFar(specs, i + 1, accepting + [a], n0, states', ords)
  {
  }

  /** The state of the processTokenProduction loop after i specs; O0, S0 and nls0 are the
      lexical state's bookkeeping, its arena and the expressions' new lexical states before it. */
  ghost predicate Progress(lsd: LexicalStateData, specs: seq<RegexpSpec>, i: nat, choices: seq<RegularExpression>,
                           accepting: seq<StateId>, O0: Bookkeeping, S0: seq<NfaState>,
                           nls0: seq<Option<string>>, ords: seq<int>, known: set<string>)
    reads lsd, RegexpsOf(specs)
  {
    i <= |specs| && |nls0| == |specs| && |ords| == |specs|
    && lsd.Valid() && lsd.Registered()
    && lsd.Others().(regularExpressions := O0.regularExpressions) == O0
    && lsd.initialState < |S0|
    && (forall k :: 0 <= k < i ==> !SpecThrows(specs[k]))
    && choices == ChoicesOf(specs[..i])
    && lsd.regularExpressions == O0.regularExpressions + PublicSet(specs[..i])
    && |lsd.states| == |S0| + PublicCount(specs[..i])
    && KeptBelow(S0, lsd.states, lsd.initialState)
    && AcceptingSoFar(specs, i, accepting, |S0|, lsd.states, ords)
    && OrdinalsIn(specs) == ords
    && SwitchesIn(specs) == SwitchedBefore(specs, i, lsd.name, known, nls0)
  }

  /** The ordinal of each spec's expression, in order. */
  ghost function OrdinalsIn(specs: seq<RegexpSpec>): (r: seq<int>)
    reads RegexpsOf(specs)
    ensures |r| == |specs| && forall k :: 0 <= k < |specs| ==> r[k] == specs[k].regexp.ordinal
  {
    seq(|specs|, k requires 0 <= k < |specs| reads RegexpsOf(specs) => specs[k].regexp.ordinal)
  }

  /** The lexical state each spec's expression switches to, in order. */
  ghost function SwitchesIn(specs: seq<RegexpSpec>): (r: seq<Option<string>>)
    reads RegexpsOf(specs)
    ensures |r| == |specs| && forall k :: 0 <= k < |specs| ==> r[k] == specs[k].regexp.newLexicalState
  {
    seq(|specs|, k requires 0 <= k < |specs| reads RegexpsOf(specs) => specs[k].regexp.newLexicalState)
  }

  /** The switch targets once the public specs before i have been processed from nls0. */
  ghost function SwitchedBefore(specs: seq<RegexpSpec>, i: nat, own: string, known: set<string>,
                                nls0: seq<Option<string>>): (r: seq<Option<string>>)
    requires |nls0| == |specs|
    ensures |r| == |specs|
    ensures forall k :: 0 <= k < |specs| ==>
      r[k] == if k < i && !specs[k].regexp.isPrivate then SwitchTarget(specs[k].nextState, own, known, nls0[k]) else nls0[k]
  {
    seq(|specs|, k requires 0 <= k < |specs| =>
      if k < i && !specs[k].regexp.isPrivate then SwitchTarget(specs[k].nextState, own, known, nls0[k]) else nls0[k])
  }

  /** One turn of the processTokenProduction loop: a private spec is skipped. */
  method ProcessStep(lsd: LexicalStateData, tp: TokenProduction, i: nat, choices: seq<RegularExpression>,
                     ignore: bool, grammarIgnoreCase: bool, cm: CaseMap, known: set<string>,
                     ghost accepting: seq<StateId>, ghost O0: Bookkeeping, ghost S0: seq<NfaState>,
                     ghost nls0: seq<Option<string>>, ghost ords: seq<int>)
    returns (choices': seq<RegularExpression>, threw: bool, ghost accepting': seq<StateId>)
    requires i < |tp.specs| && ValidCaseMap(cm) && DistinctRegexps(tp.specs) && SpecOk(tp.specs[i])
    requires Progress(lsd, tp.specs, i, choices, accepting, O0, S0, nls0, ords, known)
    modifies lsd, tp.specs[i].regexp
    ensures threw == SpecThrows(tp.specs[i])
    ensures threw ==> lsd.Valid() && lsd.Registered() && lsd.Others().(regularExpressions := O0.regularExpressions) == O0
    ensures !threw ==> Progress(lsd, tp.specs, i + 1, choices', accepting', O0, S0, nls0, ords, known)
  {
    if !tp.specs[i].regexp.isPrivate {
      choices', threw, accepting' := ProcessPublic(lsd, tp, i, choices, ignore, grammarIgnoreCase, cm, known,
                                                   accepting, O0, S0, nls0, ords);
      return;
    }
    assert tp.specs[..i + 1] == tp.specs[..i] + [tp.specs[i]];
    PublicSetStep(tp.specs, i);
    choices', threw, accepting' := choices, false, accepting + [0];
    AcceptingStep(tp.specs, i, accepting, |S0|, lsd.states, lsd.states, ords, lsd.initialState, 0);
  }

  /** One turn of the processTokenProduction loop on a public spec. */
  method ProcessPublic(lsd: LexicalStateData, tp: TokenProduction, i: nat, choices: seq<RegularExpression>,
                       ignore: bool, grammarIgnoreCase: bool, cm: CaseMap, known: set<string>,
                       ghost accepting: seq<StateId>, ghost O0: Bookkeeping, ghost S0: seq<NfaState>,
                       ghost nls0: seq<Option<string>>, ghost ords: seq<int>)
    returns (choices': seq<RegularExpression>, threw: bool, ghost accepting': seq<StateId>)
    requires i < |tp.specs| && ValidCaseMap(cm) && DistinctRegexps(tp.specs) && SpecOk(tp.specs[i])
    requires !tp.specs[i].regexp.isPrivate
    requires Progress(lsd, tp.specs, i, choices, accepting, O0, S0, nls0, ords, known)
    modifies lsd, tp.specs[i].regexp
    ensures threw == SpecThrows(tp.specs[i])
    ensures threw ==> lsd.Valid() && lsd.Registered() && lsd.Others().(regularExpressions := O0.regularExpressions) == O0
    ensures !threw ==> Progress(lsd, tp.specs, i + 1, choices', accepting', O0, S0, nls0, ords, known)
  {
    var spec := tp.specs[i];
    assert tp.specs[..i + 1] == tp.specs[..i] + [spec];
    PublicSetStep(tp.specs, i);
    choices' := choices;
    if spec.regexp.IsChoice() {
      choices' := choices + [spec.regexp];
    }
    ghost var before := lsd.states;
    ghost var a;
    threw, a := ProcessSpecAt(lsd, tp.specs, i, ignore, grammarIgnoreCase, cm, known);
    accepting' := accepting + [a];
    if !threw {
      AcceptingStep(tp.specs, i, accepting, |S0|, before, lsd.states, ords, lsd.initialState, a);
      SwitchedStep(tp.specs, i, lsd.name, known, nls0);
      assert PublicCount(tp.specs[..i + 1]) == PublicCount(tp.specs[..i]) + StateCount(spec.regexp.tree.value);
    }
  }

  /** Processing public spec i switches it from its value in nls0 and leaves the others. */
  lemma SwitchedStep(specs: seq<RegexpSpec>, i: nat, own: string, known: set<string>, nls0: seq<Option<string>>)
    requires i < |specs| && |nls0| == |specs| && !specs[i].regexp.isPrivate
    ensures SwitchedBefore(specs, i + 1, own, known, nls0) ==
      SwitchedBefore(specs, i, own, known, nls0)[i := SwitchTarget(specs[i].nextState, own, known, nls0[i])]
  {
  }

  /** ProcessSpec on the i-th spec: of the specs' expressions, only that one changes, and only its switch. */
  method ProcessSpecAt(lsd: LexicalStateData, specs: seq<RegexpSpec>, i: nat, ignore: bool, grammarIgnoreCase: bool,
                       cm: CaseMap, known: set<string>)
    returns (threw: bool, ghost accepting: StateId)
    requires i < |specs| && DistinctRegexps(specs)
    requires lsd.Valid() && lsd.Registered() && ValidCaseMap(cm)
    requires SpecOk(specs[i]) && !specs[i].regexp.isPrivate
    modifies lsd, specs[i].regexp
    ensures lsd.Valid() && lsd.Registered()
    ensures lsd.Others() == old(lsd.Others()).(regularExpressions := old(lsd.regularExpressions) + {specs[i].regexp})
    ensures threw == SpecThrows(specs[i])
    ensures !threw ==> |lsd.states| == old(|lsd.states|) + StateCount(specs[i].regexp.tree.value)
    ensures !threw ==> forall k :: 0 <= k < old(|lsd.states|) && k != lsd.initialState ==>
      lsd.states[k] == old(lsd.states[k])
    ensures !threw ==> (old(|lsd.states|) <= accepting < |lsd.states|
      && lsd.states[accepting].tokenType == Some(specs[i].regexp.ordinal))
    ensures OrdinalsIn(specs) == old(OrdinalsIn(specs))
    ensures !threw ==>
      SwitchesIn(specs) ==
        old(SwitchesIn(specs))[i := SwitchTarget(specs[i].nextState, lsd.name, known, old(specs[i].regexp.newLexicalState))]
  {
    ghost var ordsBefore := OrdinalsIn(specs);
    ghost var switchesBefore := SwitchesIn(specs);
    threw, accepting := ProcessSpec(lsd, specs[i], ignore, grammarIgnoreCase, cm, known);
    forall k | 0 <= k < |specs| && k != i
      ensures specs[k].regexp != specs[i].regexp
    {
      if k < i {
        assert specs[k].regexp != specs[i].regexp;
      } else {
        assert specs[i].regexp != specs[k].regexp;
      }
    }
    assert OrdinalsIn(specs) == ordsBefore;
    if !threw {
      assert SwitchesIn(specs) == switchesBefore[i := specs[i].regexp.newLexicalState];
    }
  }

  /**
   * processTokenProduction: every public expression of the production, in order, is
   * registered with the lexical state and built into its NFA; the public choices are
   * returned. Case is ignored when the production or the grammar says so. The loop
   * stops at the first expression the builder throws on.
   */
  method ProcessTokenProduction(lsd: LexicalStateData, tp: TokenProduction, grammarIgnoreCase: bool, cm: CaseMap,
                                known: set<string>)
    returns (choices: seq<RegularExpression>, threw: bool)
    requires lsd.Valid() && lsd.Registered() && ValidCaseMap(cm)
    requires DistinctRegexps(tp.specs) && forall k :: 0 <= k < |tp.specs| ==> SpecOk(tp.specs[k])
    modifies lsd, RegexpsOf(tp.specs)
    ensures lsd.Valid() && lsd.Registered()
    ensures lsd.initialState == old(lsd.initialState) && lsd.canonicalSets == old(lsd.canonicalSets)
    ensures lsd.tokenProductions == old(lsd.tokenProductions)
    ensures threw == exists k :: 0 <= k < |tp.specs| && SpecThrows(tp.specs[k])
    ensures !threw ==> choices == ChoicesOf(tp.specs)
    ensures !threw ==> lsd.regularExpressions == old(lsd.regularExpressions) + PublicSet(tp.specs)
    ensures !threw ==> |lsd.states| == old(|lsd.states|) + PublicCount(tp.specs)
    ensures !threw ==> forall k :: 0 <= k < old(|lsd.states|) && k != lsd.initialState ==>
      lsd.states[k] == old(lsd.states[k])
    ensures !threw ==> forall k :: 0 <= k < |tp.specs| && !tp.specs[k].regexp.isPrivate ==>
      (exists a :: old(|lsd.states|) <= a < |lsd.states| && lsd.states[a].tokenType == Some(tp.specs[k].regexp.ordinal))
    ensures !threw ==> forall k :: 0 <= k < |tp.specs| ==>
      var re := tp.specs[k].regexp;
      re.newLexicalState ==
        if re.isPrivate then old(re.newLexicalState)
        else SwitchTarget(tp.specs[k].nextState, lsd.name, known, old(re.newLexicalState))
  {
    var ignore := tp.ignoreCase || grammarIgnoreCase;
    choices := [];
    threw := false;
    ghost var O0 := lsd.Others();
    ghost var S0 := lsd.states;
    ghost var nls0 := SwitchesIn(tp.specs);
    ghost var ords := OrdinalsIn(tp.specs);
    assert SwitchedBefore(tp.specs, 0, lsd.name, known, nls0) == nls0;
    ghost var accepting: seq<StateId> := [];
    var i := 0;
    while i < |tp.specs|
      invariant Progress(lsd, tp.specs, i, choices, accepting, O0, S0, nls0, ords, known)
    {
      choices, threw, accepting := ProcessStep(lsd, tp, i, choices, ignore, grammarIgnoreCase, cm, known,
                                               accepting, O0, S0, nls0, ords);
      if threw {
        return;
      }
      i := i + 1;
    }
    assert tp.specs[..i] == tp.specs;
    assert forall k :: 0 <= k < |tp.specs| ==> SwitchesIn(tp.specs)[k] == tp.specs[k].regexp.newLexicalState;
    forall k | 0 <= k < |tp.specs| && !tp.specs[k].regexp.isPrivate
      ensures exists a :: old(|lsd.states|) <= a < |lsd.states| && lsd.states[a].tokenType == Some(tp.specs[k].regexp.ordinal)
    {
      assert lsd.states[accepting[k]].tokenType == Some(ords[k]);
    }
  }


  /** The expressions of every production: what process may change. */
  function AllRegexps(tps: seq<TokenProduction>): set<RegularExpression>
  {
    set j, k | 0 <= j < |tps| && 0 <= k < |tps[j].specs| :: tps[j].specs[k].regexp
  }

  /** The public choices of every production, production by production: what process returns. */
  function AllChoices(tps: seq<TokenProduction>): (r: seq<RegularExpression>)
    ensures forall j :: 0 <= j < |tps| ==> |ChoicesOf(tps[j].specs)| <= |r|
  {
    if tps == [] then [] else AllChoices(tps[..|tps| - 1]) + ChoicesOf(tps[|tps| - 1].specs)
  }

  /** Some public expression of some production makes the builder throw. */
  predicate AnyThrows(tps: seq<TokenProduction>)
  {
    exists j, k :: 0 <= j < |tps| && 0 <= k < |tps[j].specs| && SpecThrows(tps[j].specs[k])
  }

  /** What process demands of the productions: distinct expressions in each, and trees the builder accepts. */
  predicate ProductionsOk(tps: seq<TokenProduction>)
  {
    forall j :: 0 <= j < |tps| ==>
      DistinctRegexps(tps[j].specs) && forall k :: 0 <= k < |tps[j].specs| ==> SpecOk(tps[j].specs[k])
  }

  /**
   * process: every token production of the lexical state is processed in order and
   * the public choices they return are collected; then the NFA data is generated
   * (epsilon closures, composite states, indices), the initial state getting index 0.
   */
  method Process(lsd: LexicalStateData, grammarIgnoreCase: bool, cm: CaseMap, known: set<string>)
    returns (choices: seq<RegularExpression>, threw: bool)
    requires lsd.Valid() && lsd.Registered() && ValidCaseMap(cm) && ProductionsOk(lsd.tokenProductions)
    modifies lsd, AllRegexps(lsd.tokenProductions)
    ensures lsd.Valid()
    ensures threw == AnyThrows(old(lsd.tokenProductions))
    ensures !threw ==> choices == AllChoices(old(lsd.tokenProductions))
    ensures !threw ==> lsd.states[lsd.initialState].index == 0
    ensures !threw ==> forall s :: s in lsd.allStates ==> lsd.states[s].index >= 0
  {
    var tps := lsd.tokenProductions;
    choices := [];
    threw := false;
    var j := 0;
    while j < |tps|
      invariant 0 <= j <= |tps| && lsd.tokenProductions == tps
      invariant lsd.Valid() && lsd.Registered()
      invariant choices == AllChoices(tps[..j])
      invariant !AnyThrows(tps[..j])
    {
      choices, threw := ProcessNext(lsd, tps, j, choices, grammarIgnoreCase, cm, known);
      if threw {
        return;
      }
      j := j + 1;
    }
    assert tps[..j] == tps;
    lsd.GenerateData();
  }

  /** One turn of the process loop: the j-th production is processed and its choices collected. */
  method ProcessNext(lsd: LexicalStateData, tps: seq<TokenProduction>, j: nat, choices: seq<RegularExpression>,
                     grammarIgnoreCase: bool, cm: CaseMap, known: set<string>)
    returns (choices': seq<RegularExpression>, threw: bool)
    requires j < |tps| && lsd.tokenProductions == tps && ProductionsOk(tps)
    requires lsd.Valid() && lsd.Registered() && ValidCaseMap(cm)
    requires choices == AllChoices(tps[..j]) && !AnyThrows(tps[..j])
    modifies lsd, AllRegexps(tps)
    ensures lsd.tokenProductions == tps && lsd.Valid() && lsd.Registered()
    ensures threw == AnyThrows(tps[..j + 1])
    ensures !threw ==> choices' == AllChoices(tps[..j + 1])
  {
    RegexpsWithin(tps, j);
    var more;
    more, threw := ProcessTokenProduction(lsd, tps[j], grammarIgnoreCase, cm, known);
    AnyThrowsStep(tps, j);
    assert tps[..j + 1][..j] == tps[..j];
    choices' := choices + more;
  }

  lemma RegexpsWithin(tps: seq<TokenProduction>, j: nat)
    requires j < |tps|
    ensures RegexpsOf(tps[j].specs) <= AllRegexps(tps)
  {
    forall re | re in RegexpsOf(tps[j].specs) ensures re in AllRegexps(tps) {
      var k :| 0 <= k < |tps[j].specs| && tps[j].specs[k].regexp == re;
    }
  }

  lemma AnyThrowsStep(tps: seq<TokenProduction>, j: nat)
    requires j < |tps|
    ensures AnyThrows(tps[..j + 1]) <==>
      AnyThrows(tps[..j]) || exists k :: 0 <= k < |tps[j].specs| && SpecThrows(tps[j].specs[k])
  {
    var p, q := tps[..j + 1], tps[..j];
    if AnyThrows(p) {
      var a, k :| 0 <= a < |p| && 0 <= k < |p[a].specs| && SpecThrows(p[a].specs[k]);
      if a < j {
        assert q[a] == p[a];
      }
    }
    if AnyThrows(q) {
      var a, k :| 0 <= a < |q| && 0 <= k < |q[a].specs| && SpecThrows(q[a].specs[k]);
      assert p[a] == q[a];
    }
    if exists k :: 0 <= k < |tps[j].specs| && SpecThrows(tps[j].specs[k]) {
      var k :| 0 <= k < |tps[j].specs| && SpecThrows(tps[j].specs[k]);
      assert p[j] == tps[j];
    }
  }

}
