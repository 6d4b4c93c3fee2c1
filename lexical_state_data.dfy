/**
 * The data of one lexical state: the arena of its NFA states, the cache of
 * canonical composite states, its string-literal tables, and the passes that
 * close, merge and number its states once every token production is built.
 */
module LexicalStates {
  import opened Util
  import opened CharRanges
  import opened NfaStates
  import opened Regexps

  /** Every reference a state holds stays inside the arena, and its ranges come in pairs. */
  ghost predicate StateOk(states: seq<NfaState>, st: NfaState)
  {
    (st.nextState.Some? ==> st.nextState.value < |states|)
    && (forall t :: t in st.epsilonMoves ==> t < |states|)
    && (st.members.Some? ==> forall t :: t in st.members.value ==> t < |states|)
    && |st.moveRanges| % 2 == 0
  }

  ghost predicate ArenaOk(states: seq<NfaState>)
  {
    forall s :: 0 <= s < |states| ==> StateOk(states, states[s])
  }

  /** The composite cache maps each member set to a composite with exactly those members. */
  ghost predicate CacheOk(states: seq<NfaState>, cache: map<set<StateId>, StateId>)
  {
    forall k :: k in cache ==> cache[k] < |states| && states[cache[k]].members == Some(k)
  }

  /** Appending a fresh composite for a set the cache lacks, and caching it, keeps the arena and the cache consistent. */
  lemma AppendComposite(states: seq<NfaState>, cache: map<set<StateId>, StateId>, stateSet: set<StateId>)
    requires ArenaOk(states) && CacheOk(states, cache) && forall t :: t in stateSet ==> t < |states|
    ensures var after := states + [FreshComposite(stateSet)];
      after[..|states|] == states &&
      ArenaOk(after) && CacheOk(after, cache[stateSet := |states|])
  {
    var after := states + [FreshComposite(stateSet)];
    assert forall s :: 0 <= s < |states| ==> after[s] == states[s];
  }

  /** The cache already knows the canonical state of s: asking for it creates nothing. */
  ghost predicate Known(states: seq<NfaState>, cache: map<set<StateId>, StateId>, s: StateId)
    requires s < |states|
  {
    IsComposite(states[s]) || |states[s].epsilonMoves| <= 1 || states[s].epsilonMoves in cache
  }

  /**
   * getCanonicalState: a composite, or a state without epsilon moves, is its own
   * canonical state; a state with one epsilon move stands for its target; any
   * other stands for the cached composite of its epsilon-move set.
   */
  ghost function CanonicalOf(states: seq<NfaState>, cache: map<set<StateId>, StateId>, s: StateId): (c: StateId)
    requires ArenaOk(states) && CacheOk(states, cache)
    requires s < |states| && Known(states, cache, s)
    ensures c < |states|
    ensures IsComposite(states[s]) || states[s].epsilonMoves == {} ==> c == s
    ensures !IsComposite(states[s]) && |states[s].epsilonMoves| == 1 ==> states[s].epsilonMoves == {c}
    ensures !IsComposite(states[s]) && |states[s].epsilonMoves| > 1 ==>
      c == cache[states[s].epsilonMoves] && states[c].members == Some(states[s].epsilonMoves)
  {
    var st := states[s];
    assert StateOk(states, st);
    if IsComposite(st) || st.epsilonMoves == {} then s
    else if |st.epsilonMoves| == 1 then
      var t :| t in st.epsilonMoves;
      assert |st.epsilonMoves - {t}| == 0;
      t
    else cache[st.epsilonMoves]
  }

  /** isMoveCodeNeeded, over a complete cache. */
  ghost function MoveCodeNeeded(states: seq<NfaState>, cache: map<set<StateId>, StateId>, s: StateId): bool
    requires ArenaOk(states) && CacheOk(states, cache)
    requires s < |states| && Known(states, cache, s)
  {
    var st := states[s];
    assert StateOk(states, st);
    if IsComposite(st) then true
    else if IsComposite(states[CanonicalOf(states, cache, s)]) then false
    else if st.nextState.None? then false
    else
      var next := states[st.nextState.value];
      next.tokenType.Some? || next.epsilonMoves != {}
  }

  /** Growing the arena and the cache leaves a known canonical state as it was. */
  lemma CanonicalStable(states: seq<NfaState>, cache: map<set<StateId>, StateId>,
                        states': seq<NfaState>, cache': map<set<StateId>, StateId>, s: StateId)
    requires ArenaOk(states) && CacheOk(states, cache) && ArenaOk(states') && CacheOk(states', cache')
    requires s < |states| <= |states'| && states'[s] == states[s]
    requires forall k :: k in cache ==> k in cache' && cache'[k] == cache[k]
    requires Known(states, cache, s)
    ensures Known(states', cache', s)
    ensures CanonicalOf(states', cache', s) == CanonicalOf(states, cache, s)
  {
  }

  // ---------------------------------------------------------------------
  // Epsilon closure
  // ---------------------------------------------------------------------

  /** The states whose epsilon closure has not been done yet. */
  ghost function NotDoneOf(states: seq<NfaState>): set<StateId>
  {
    set t | t in Below(|states|) && !states[t].closureDone
  }

  /** After doEpsilonClosure: every epsilon move leads to a state that moves on some
      character, and the state is among its own epsilon moves exactly when it moves
      on some character itself. */
  ghost predicate Closed(states: seq<NfaState>, t: StateId)
    requires t < |states|
  {
    (forall u :: u in states[t].epsilonMoves ==> u < |states| && states[u].moveRanges != [])
    && (t in states[t].epsilonMoves <==> states[t].moveRanges != [])
  }

  /** Every target of `before` that moves on some character is still a target. */
  ghost predicate KeepsMoving(before: set<StateId>, after: set<StateId>, states: seq<NfaState>)
  {
    forall u :: u in before && u < |states| && states[u].moveRanges != [] ==> u in after
  }

  /** The parts of a state that closure never touches. */
  ghost predicate SameShape(b: NfaState, a: NfaState)
  {
    a.moveRanges == b.moveRanges && a.nextState == b.nextState && a.index == b.index && a.members == b.members
  }

  /**
   * What closure may do to state t between two arenas: a state already closed, or
   * still not closed, is left alone; a state closed in between is Closed and keeps
   * every target that moves on some character; a type, once set, stays.
   */
  ghost predicate StepOk(before: seq<NfaState>, after: seq<NfaState>, t: StateId)
    requires t < |before| == |after|
  {
    var b, a := before[t], after[t];
    SameShape(b, a)
    && (b.closureDone ==> a == b)
    && (!a.closureDone ==> a == b)
    && (b.tokenType.Some? ==> a.tokenType == b.tokenType)
    && (!b.closureDone && a.closureDone ==> Closed(after, t) && KeepsMoving(b.epsilonMoves, a.epsilonMoves, after))
  }

  ghost predicate ClosureStep(before: seq<NfaState>, after: seq<NfaState>)
  {
    |after| == |before| && forall t :: 0 <= t < |before| ==> StepOk(before, after, t)
  }

  /** Every state already closed, except s, is left alone. */
  ghost predicate DoneKept(before: seq<NfaState>, after: seq<NfaState>, s: StateId)
  {
    |after| == |before| && forall u :: 0 <= u < |before| && u != s && before[u].closureDone ==> after[u] == before[u]
  }

  /** Each state of done is closed and its epsilon moves are among those of s. */
  ghost predicate Absorbs(states: seq<NfaState>, s: StateId, done: set<StateId>)
    requires s < |states|
  {
    forall t :: t in done ==> t < |states| && states[t].closureDone && states[t].epsilonMoves <= states[s].epsilonMoves
  }

  /** The type of s came from its epsilon moves in targets: s has a type exactly when one
      of them (other than s) has one, and then it is the type of one of them. */
  ghost predicate InheritedType(states: seq<NfaState>, s: StateId, targets: set<StateId>)
    requires s < |states|
  {
    ((exists t :: t in targets && t != s && t < |states| && states[t].tokenType.Some?) ==> states[s].tokenType.Some?)
    && (states[s].tokenType.Some? ==>
          exists t :: t in targets && t != s && t < |states| && states[t].tokenType == states[s].tokenType)
  }

  /** Every epsilon move, that moves on some character, of a state of targets is an epsilon move of s. */
  ghost predicate Absorbed(states: seq<NfaState>, s: StateId, targets: set<StateId>)
    requires s < |states|
  {
    forall t, u :: t in targets && t < |states| && u in states[t].epsilonMoves && u < |states| && states[u].moveRanges != []
      ==> u in states[s].epsilonMoves
  }

  /** The end of the closure of s, which keeps those of its epsilon moves that move on
      some character, turns what the loop gathered into the closure's promise. */
  lemma FinishAbsorbs(looped: seq<NfaState>, after: seq<NfaState>, s: StateId, targets: set<StateId>, untyped: bool)
    requires s < |looped| == |after|
    requires forall t :: 0 <= t < |after| && t != s ==> after[t] == looped[t]
    requires forall u :: 0 <= u < |after| ==> after[u].moveRanges == looped[u].moveRanges
    requires after[s].tokenType == looped[s].tokenType
    requires forall u :: u in looped[s].epsilonMoves && u < |looped| && looped[u].moveRanges != [] ==> u in after[s].epsilonMoves
    requires Absorbs(looped, s, targets) && (untyped ==> InheritedType(looped, s, targets))
    ensures Absorbed(after, s, targets) && (untyped ==> InheritedType(after, s, targets))
  {
    if untyped && after[s].tokenType.Some? {
      var w :| w in targets && w != s && w < |looped| && looped[w].tokenType == looped[s].tokenType;
      assert after[w] == looped[w];
    }
  }

  /** One more epsilon move t of s dealt with by the closure loop. */
  lemma AbsorbStep(before: seq<NfaState>, after: seq<NfaState>, s: StateId, done: set<StateId>, t: StateId, untyped: bool)
    requires s < |before| && DoneKept(before, after, s) && Absorbs(before, s, done)
    requires before[s].epsilonMoves <= after[s].epsilonMoves && after[s].closureDone
    requires t < |after| && after[t].closureDone && after[t].epsilonMoves <= after[s].epsilonMoves
    requires before[s].tokenType.Some? ==> after[s].tokenType == before[s].tokenType
    requires before[s].tokenType.None? ==> after[s].tokenType == after[t].tokenType
    requires t == s ==> after[s].tokenType == before[s].tokenType
    requires untyped ==> InheritedType(before, s, done)
    ensures Absorbs(after, s, done + {t})
    ensures untyped ==> InheritedType(after, s, done + {t})
  {
    forall u | u in done && u != s ensures after[u] == before[u] {
    }
    if untyped && after[s].tokenType.Some? && (before[s].tokenType.Some? || t == s) {
      var w :| w in done && w != s && w < |before| && before[w].tokenType == before[s].tokenType;
      assert w in done + {t};
    }
  }

  lemma StepCompose(a: seq<NfaState>, b: seq<NfaState>, c: seq<NfaState>, t: StateId)
    requires t < |a| == |b| == |c|
    requires forall u :: 0 <= u < |b| ==> c[u].moveRanges == b[u].moveRanges
    requires StepOk(a, b, t) && StepOk(b, c, t)
    ensures StepOk(a, c, t)
  {
  }

  lemma StepSame(b: seq<NfaState>, c: seq<NfaState>, t: StateId)
    requires t < |b| == |c| && c[t] == b[t]
    ensures StepOk(b, c, t)
  {
  }

  lemma ClosureStepSameMoves(before: seq<NfaState>, after: seq<NfaState>)
    requires ClosureStep(before, after)
    ensures forall u :: 0 <= u < |before| ==> after[u].moveRanges == before[u].moveRanges
  {
    forall u | 0 <= u < |before| ensures after[u].moveRanges == before[u].moveRanges {
      assert StepOk(before, after, u);
    }
  }

  lemma ClosureStepShrinksNotDone(before: seq<NfaState>, after: seq<NfaState>)
    requires ClosureStep(before, after)
    ensures NotDoneOf(after) <= NotDoneOf(before)
  {
    forall t | t in NotDoneOf(after) ensures t in NotDoneOf(before) {
      assert StepOk(before, after, t);
    }
  }

  // ---------------------------------------------------------------------
  // Merging (addCompositeStates)
  // ---------------------------------------------------------------------

  /** The arena and cache grew from `states` and `cache`: old states and cached sets are
      kept, and every state added is a composite. */
  ghost predicate Extends(states: seq<NfaState>, cache: map<set<StateId>, StateId>,
                          states': seq<NfaState>, cache': map<set<StateId>, StateId>)
  {
    |states| <= |states'| && states'[..|states|] == states
    && (forall k :: k in cache ==> k in cache' && cache'[k] == cache[k])
    && (forall t :: |states| <= t < |states'| ==> IsComposite(states'[t]))
  }

  lemma ExtendsTrans(a: seq<NfaState>, ac: map<set<StateId>, StateId>,
                     b: seq<NfaState>, bc: map<set<StateId>, StateId>,
                     c: seq<NfaState>, cc: map<set<StateId>, StateId>)
    requires Extends(a, ac, b, bc) && Extends(b, bc, c, cc)
    ensures Extends(a, ac, c, cc)
  {
    assert c[..|a|] == c[..|b|][..|a|];
    forall t | |a| <= t < |c| ensures IsComposite(c[t]) {
      if t < |b| {
        assert c[..|b|][t] == c[t];
      }
    }
  }

  /** What addCompositeStates has achieved once the states of `done` are processed,
      starting from the listed states `orig`: each of them has a known canonical state;
      a state that is its own canonical state is listed; the canonical state of each is
      listed or is itself a processed state that was replaced; and every listed state
      was listed at the start or is the canonical state of a processed one. */
  ghost predicate MergedSoFar(states: seq<NfaState>, cache: map<set<StateId>, StateId>,
                              all: set<StateId>, done: set<StateId>, orig: set<StateId>)
    requires ArenaOk(states) && CacheOk(states, cache)
  {
    (forall s :: s in done ==> s < |states| && Known(states, cache, s))
    && (forall s :: s in done && CanonicalOf(states, cache, s) == s ==> s in all)
    && (forall s :: s in done ==>
          var c := CanonicalOf(states, cache, s);
          c in all || (c in done && CanonicalOf(states, cache, c) != c))
    && (forall t :: t in all ==> t in orig || exists s :: s in done && CanonicalOf(states, cache, s) == t)
  }

  /** Growing the arena keeps the canonical states of the processed states. */
  lemma MergedStable(states: seq<NfaState>, cache: map<set<StateId>, StateId>,
                     states': seq<NfaState>, cache': map<set<StateId>, StateId>,
                     done: set<StateId>)
    requires ArenaOk(states) && CacheOk(states, cache) && ArenaOk(states') && CacheOk(states', cache')
    requires Extends(states, cache, states', cache')
    requires forall s :: s in done ==> s < |states| && Known(states, cache, s)
    ensures forall s :: s in done ==>
      Known(states', cache', s) &&
      CanonicalOf(states', cache', s) == CanonicalOf(states, cache, s)
  {
    forall s | s in done
      ensures Known(states', cache', s) && CanonicalOf(states', cache', s) == CanonicalOf(states, cache, s)
    {
      assert states'[..|states|][s] == states[s];
      CanonicalStable(states, cache, states', cache', s);
    }
  }

  /** One iteration of addCompositeStates keeps MergedSoFar: `grown` lists the states
      after getCanonicalState (which may have added the composite `canonical`). */
  lemma MergeStep(states: seq<NfaState>, cache: map<set<StateId>, StateId>, all: set<StateId>,
                  states': seq<NfaState>, cache': map<set<StateId>, StateId>, grown: set<StateId>,
                  done: set<StateId>, orig: set<StateId>, s: StateId, canonical: StateId)
    requires ArenaOk(states) && CacheOk(states, cache) && ArenaOk(states') && CacheOk(states', cache')
    requires Extends(states, cache, states', cache') && MergedSoFar(states, cache, all, done, orig)
    requires s in all && s !in done && s < |states'| && Known(states', cache', s)
    requires canonical == CanonicalOf(states', cache', s)
    requires all <= grown && forall t :: t in grown ==> t in all || t == canonical
    ensures MergedSoFar(states', cache', if canonical != s then grown + {canonical} - {s} else grown, done + {s}, orig)
  {
    var all' := if canonical != s then grown + {canonical} - {s} else grown;
    MergedStable(states, cache, states', cache', done);
    MergeStepFixed(states, cache, all, states', cache', grown, done, s, canonical);
    MergeStepCanonical(states, cache, all, states', cache', grown, done, s, canonical);
    MergeStepOrigin(states, cache, all, states', cache', grown, done, orig, s, canonical);
  }

  /** ... its second conjunct: a processed state that is its own canonical state stays. */
  lemma MergeStepFixed(states: seq<NfaState>, cache: map<set<StateId>, StateId>, all: set<StateId>,
                       states': seq<NfaState>, cache': map<set<StateId>, StateId>, grown: set<StateId>,
                       done: set<StateId>, s: StateId, canonical: StateId)
    requires ArenaOk(states) && CacheOk(states, cache) && ArenaOk(states') && CacheOk(states', cache')
    requires forall d :: d in done ==> d < |states| && Known(states, cache, d)
    requires forall d :: d in done ==>
      d < |states'| && Known(states', cache', d) && CanonicalOf(states', cache', d) == CanonicalOf(states, cache, d)
    requires forall d :: d in done && CanonicalOf(states, cache, d) == d ==> d in all
    requires s in all && s !in done && s < |states'| && Known(states', cache', s)
    requires canonical == CanonicalOf(states', cache', s) && all <= grown
    ensures forall d :: d in done + {s} && CanonicalOf(states', cache', d) == d ==>
      d in (if canonical != s then grown + {canonical} - {s} else grown)
  {
  }

  /** ... its third conjunct: a processed state's canonical state is kept or was merged away. */
  lemma MergeStepCanonical(states: seq<NfaState>, cache: map<set<StateId>, StateId>, all: set<StateId>,
                           states': seq<NfaState>, cache': map<set<StateId>, StateId>, grown: set<StateId>,
                           done: set<StateId>, s: StateId, canonical: StateId)
    requires ArenaOk(states) && CacheOk(states, cache) && ArenaOk(states') && CacheOk(states', cache')
    requires forall d :: d in done ==> d < |states| && Known(states, cache, d)
    requires forall d :: d in done ==>
      d < |states'| && Known(states', cache', d) && CanonicalOf(states', cache', d) == CanonicalOf(states, cache, d)
    requires forall d :: d in done ==>
      var c := CanonicalOf(states, cache, d);
      c in all || (c in done && CanonicalOf(states, cache, c) != c)
    requires s in all && s !in done && s < |states'| && Known(states', cache', s)
    requires canonical == CanonicalOf(states', cache', s) && all <= grown
    ensures forall d :: d in done + {s} ==>
      var c := CanonicalOf(states', cache', d);
      c in (if canonical != s then grown + {canonical} - {s} else grown) ||
      (c in done + {s} && CanonicalOf(states', cache', c) != c)
  {
  }

  /** ... its last conjunct: every state of the list is original or some processed state's canonical state. */
  lemma MergeStepOrigin(states: seq<NfaState>, cache: map<set<StateId>, StateId>, all: set<StateId>,
                        states': seq<NfaState>, cache': map<set<StateId>, StateId>, grown: set<StateId>,
                        done: set<StateId>, orig: set<StateId>, s: StateId, canonical: StateId)
    requires ArenaOk(states) && CacheOk(states, cache) && ArenaOk(states') && CacheOk(states', cache')
    requires forall d :: d in done ==> d < |states| && Known(states, cache, d)
    requires forall d :: d in done ==>
      d < |states'| && Known(states', cache', d) && CanonicalOf(states', cache', d) == CanonicalOf(states, cache, d)
    requires forall t :: t in all ==> t in orig || exists d :: d in done && CanonicalOf(states, cache, d) == t
    requires s < |states'| && Known(states', cache', s) && canonical == CanonicalOf(states', cache', s)
    requires forall t :: t in grown ==> t in all || t == canonical
    ensures forall t :: t in (if canonical != s then grown + {canonical} - {s} else grown) ==>
      t in orig || exists d :: d in done + {s} && CanonicalOf(states', cache', d) == t
  {
    var all' := if canonical != s then grown + {canonical} - {s} else grown;
    forall t | t in all'
      ensures t in orig || exists d :: d in done + {s} && CanonicalOf(states', cache', d) == t
    {
      if t !in orig && t != canonical {
        var d :| d in done && CanonicalOf(states, cache, d) == t;
        assert CanonicalOf(states', cache', d) == t;
      }
    }
  }

  // ---------------------------------------------------------------------
  // Numbering
  // ---------------------------------------------------------------------

  /** The states in `given` hold distinct positive indices. */
  ghost predicate NumberedApart(states: seq<NfaState>, given: set<StateId>)
  {
    (forall a :: a in given ==> a < |states| && 1 <= states[a].index)
    && (forall a, b :: a in given && b in given && a != b ==> states[a].index != states[b].index)
  }

  /** ... and every one of them is below the next index to hand out. */
  ghost predicate NumberedBelow(states: seq<NfaState>, given: set<StateId>, limit: int)
  {
    NumberedApart(states, given) && forall a :: a in given ==> states[a].index < limit
  }

  /** Every state of the group holds an index in [lo, hi): the block one numbering pass hands out. */
  ghost predicate IndexedIn(states: seq<NfaState>, group: set<StateId>, lo: int, hi: int)
  {
    forall a :: a in group ==> a < |states| && lo <= states[a].index < hi
  }

  /** A later pass that renumbers only other states leaves a block where it was. */
  lemma IndexedInKept(before: seq<NfaState>, after: seq<NfaState>, changed: set<StateId>,
                      group: set<StateId>, lo: int, hi: int)
    requires OnlyIndices(before, after, changed) && IndexedIn(before, group, lo, hi) && group !! changed
    ensures IndexedIn(after, group, lo, hi)
  {
  }

  /**
   * The layout indexStates leaves: the composites (except those renumbered as
   * members) hold 1..|composites|, the move states the next |moveStates|
   * indices, and the members numbered by the last pass the block after those.
   */
  ghost predicate Layout(states: seq<NfaState>, composites: set<StateId>, moveStates: set<StateId>, last: set<StateId>)
  {
    IndexedIn(states, composites - last, 1, 1 + |composites|)
    && IndexedIn(states, moveStates, 1 + |composites|, 1 + |composites| + |moveStates|)
    && IndexedIn(states, last, 1 + |composites| + |moveStates|, 1 + |composites| + |moveStates| + |last|)
  }

  /** The states of an allStates taken when the arena held oldLen states, plus those created up to newLen. */
  ghost function Grown(oldAll: set<StateId>, oldLen: nat, newLen: nat): set<StateId>
  {
    oldAll + (Below(newLen) - Below(oldLen))
  }

  /** Every state of pool is in the arena and its canonical state is cached, so that
      isMoveCodeNeeded can be asked of it. */
  ghost predicate ReadyToNumber(pool: set<StateId>, before: seq<NfaState>, cache: map<set<StateId>, StateId>)
  {
    ArenaOk(before) && CacheOk(before, cache) && forall a :: a in pool ==> a < |before| && Known(before, cache, a)
  }

  /** The states the first pass of indexStates numbers: the composites of pool whose index is not 0. */
  ghost predicate CompositesChosen(pool: set<StateId>, before: seq<NfaState>, composites: set<StateId>)
  {
    forall a :: a in composites <==> a in pool && a < |before| && IsComposite(before[a]) && before[a].index != 0
  }

  /**
   * Which states the first two passes of indexStates number: the composites are exactly
   * the composites of pool whose index is not 0, the move states exactly the other
   * states of pool whose index is not 0, that need move code and are no members.
   */
  ghost predicate FirstPassesChose(pool: set<StateId>, before: seq<NfaState>, cache: map<set<StateId>, StateId>,
                                   members: set<StateId>, composites: set<StateId>, moveStates: set<StateId>)
    requires ReadyToNumber(pool, before, cache)
  {
    CompositesChosen(pool, before, composites)
    && (forall a :: a in moveStates <==>
          a in pool && !IsComposite(before[a]) && before[a].index != 0 && MoveCodeNeeded(before, cache, a) && a !in members)
  }

  lemma GrownMembers(oldAll: set<StateId>, oldLen: nat, newLen: nat)
    ensures forall s :: s in Grown(oldAll, oldLen, newLen) <==> s in oldAll || oldLen <= s < newLen
  {
  }

  /** Every member of a composite of pool whose index in before is not 0 is in covered. */
  ghost predicate MembersCovered(pool: set<StateId>, before: seq<NfaState>, covered: set<StateId>)
  {
    forall c, m ::
      (c in pool && c < |before| && before[c].members.Some? && before[c].index != 0 && m in before[c].members.value)
      ==> m in covered
  }

  /** Every state of collected is a member of a composite of pool whose index in before is not 0. */
  ghost predicate MembersFrom(pool: set<StateId>, before: seq<NfaState>, collected: set<StateId>)
  {
    forall m :: m in collected ==>
      exists c :: c in pool && c < |before| && before[c].members.Some? && before[c].index != 0 && m in before[c].members.value
  }

  /** The members collected by the first pass of indexStates: exactly the members of the
      composites of pool whose index in before is not 0. */
  ghost predicate MembersCollected(pool: set<StateId>, before: seq<NfaState>, members: set<StateId>)
  {
    MembersCovered(pool, before, members) && MembersFrom(pool, before, members)
  }

  /** One more state s of the pool looked at by the first pass: its members are collected
      when it is a composite whose index is not 0. */
  lemma CollectStep(pool: set<StateId>, before: seq<NfaState>, members: set<StateId>, s: StateId, members': set<StateId>)
    requires MembersCollected(pool, before, members) && s < |before|
    requires members' == if before[s].members.Some? && before[s].index != 0 then members + before[s].members.value else members
    ensures MembersCollected(pool + {s}, before, members')
  {
    forall m | m in members'
      ensures exists c :: c in pool + {s} && c < |before| && before[c].members.Some? && before[c].index != 0 &&
                          m in before[c].members.value
    {
      if m !in members {
        assert s in pool + {s};
      } else {
        var c :| c in pool && c < |before| && before[c].members.Some? && before[c].index != 0 && m in before[c].members.value;
        assert c in pool + {s};
      }
    }
  }

  lemma MembersCoveredMore(pool: set<StateId>, before: seq<NfaState>, covered: set<StateId>, more: set<StateId>)
    requires MembersCovered(pool, before, covered) && covered <= more
    ensures MembersCovered(pool, before, more)
  {
  }

  /** The last pass renumbers only its members, so the two blocks before it stay. */
  lemma LayoutAfterLastPass(numbered: seq<NfaState>, states: seq<NfaState>,
                            composites: set<StateId>, moveStates: set<StateId>, last: set<StateId>)
    requires IndexedIn(numbered, composites, 1, 1 + |composites|)
    requires IndexedIn(numbered, moveStates, 1 + |composites|, 1 + |composites| + |moveStates|)
    requires OnlyIndices(numbered, states, last) && moveStates !! last
    requires IndexedIn(states, last, 1 + |composites| + |moveStates|, 1 + |composites| + |moveStates| + |last|)
    ensures Layout(states, composites, moveStates, last)
  {
  }

  /** Handing the next index to a state outside a block extends the block by one. */
  lemma IndexedInStep(prev: seq<NfaState>, now: seq<NfaState>, group: set<StateId>, m: StateId, idx: int, lo: int)
    requires m < |prev| && now == prev[m := prev[m].(index := idx)] && m !in group && lo <= idx
    requires IndexedIn(prev, group, lo, idx)
    ensures IndexedIn(now, group + {m}, lo, idx + 1) && |group + {m}| == |group| + 1
  {
  }

  /** Moving m from the states still to do to the ones done. */
  lemma MoveDone(all: set<StateId>, todo: set<StateId>, m: StateId)
    requires m in todo && todo <= all
    ensures (all - todo) + {m} == all - (todo - {m})
  {
  }

  /** The arenas differ at most in the indices of the states in `changed`. */
  ghost predicate OnlyIndices(before: seq<NfaState>, after: seq<NfaState>, changed: set<StateId>)
  {
    |after| == |before|
    && (forall s :: 0 <= s < |before| ==> after[s] == before[s].(index := after[s].index))
    && (forall s :: 0 <= s < |before| && s !in changed ==> after[s] == before[s])
  }

  /** Renumbering states changes no canonical state and no answer of isMoveCodeNeeded. */
  lemma IndicesIrrelevant(before: seq<NfaState>, after: seq<NfaState>, changed: set<StateId>,
                          cache: map<set<StateId>, StateId>, s: StateId)
    requires OnlyIndices(before, after, changed) && ArenaOk(before) && CacheOk(before, cache)
    requires s < |before| && Known(before, cache, s)
    ensures ArenaOk(after) && CacheOk(after, cache) && Known(after, cache, s)
    ensures CanonicalOf(after, cache, s) == CanonicalOf(before, cache, s)
    ensures MoveCodeNeeded(after, cache, s) == MoveCodeNeeded(before, cache, s)
  {
    assert ArenaOk(after) by {
      forall u | 0 <= u < |after| ensures StateOk(after, after[u]) {
        assert StateOk(before, before[u]);
      }
    }
    assert StateOk(before, before[s]);
  }

  /** Renumbering keeps every state of a set known, with the same canonical state. */
  lemma IndicesIrrelevantAll(before: seq<NfaState>, after: seq<NfaState>, changed: set<StateId>,
                             cache: map<set<StateId>, StateId>, ss: set<StateId>)
    requires OnlyIndices(before, after, changed) && ArenaOk(before) && CacheOk(before, cache)
    requires forall s :: s in ss ==> s < |before| && Known(before, cache, s)
    ensures ArenaOk(after) && CacheOk(after, cache)
    ensures forall s :: s in ss ==> Known(after, cache, s)
    ensures forall s :: s in ss ==> CanonicalOf(after, cache, s) == CanonicalOf(before, cache, s)
  {
    forall s | s in ss
      ensures ArenaOk(after) && CacheOk(after, cache) && Known(after, cache, s)
      ensures CanonicalOf(after, cache, s) == CanonicalOf(before, cache, s)
    {
      IndicesIrrelevant(before, after, changed, cache, s);
    }
    ArenaOkIndices(before, after, changed, cache);
  }

  /** Growing the arena by composites keeps every known state known. */
  lemma GrowthKeepsKnown(states: seq<NfaState>, cache: map<set<StateId>, StateId>, all: set<StateId>,
                         states': seq<NfaState>, cache': map<set<StateId>, StateId>, all': set<StateId>)
    requires ArenaOk(states) && CacheOk(states, cache) && ArenaOk(states') && CacheOk(states', cache')
    requires |states| <= |states'| && states'[..|states|] == states
    requires forall k :: k in cache ==> k in cache' && cache'[k] == cache[k]
    requires all' == all + (Below(|states'|) - Below(|states|))
    requires forall s :: |states| <= s < |states'| ==> IsComposite(states'[s])
    requires forall s :: s in all ==> s < |states| && Known(states, cache, s)
    ensures forall s :: 0 <= s < |states| ==> states'[s] == states[s]
    ensures forall s :: s in all' ==> s < |states'| && Known(states', cache', s)
  {
    forall s | 0 <= s < |states| ensures states'[s] == states[s] {
      assert states'[..|states|][s] == states'[s];
    }
    forall s | s in all' ensures s < |states'| && Known(states', cache', s) {
      if s < |states| {
        CanonicalStable(states, cache, states', cache', s);
      }
    }
  }

  lemma ArenaOkIndices(before: seq<NfaState>, after: seq<NfaState>, changed: set<StateId>,
                       cache: map<set<StateId>, StateId>)
    requires OnlyIndices(before, after, changed) && ArenaOk(before) && CacheOk(before, cache)
    ensures ArenaOk(after) && CacheOk(after, cache)
  {
    forall u | 0 <= u < |after| ensures StateOk(after, after[u]) {
      assert StateOk(before, before[u]);
    }
  }

  /** Handing the next index to one more state keeps the numbering apart. */
  lemma NumberOne(states: seq<NfaState>, given: set<StateId>, limit: int, s: StateId)
    requires NumberedBelow(states, given, limit) && limit >= 1 && s < |states|
    ensures NumberedBelow(states[s := states[s].(index := limit)], given + {s}, limit + 1)
  {
  }

  /** Changing one more index. */
  lemma OnlyIndicesStep(before: seq<NfaState>, states: seq<NfaState>, changed: set<StateId>, s: StateId, i: int)
    requires OnlyIndices(before, states, changed) && s < |states|
    ensures OnlyIndices(before, states[s := states[s].(index := i)], changed + {s})
  {
  }

  lemma OnlyIndicesTrans(a: seq<NfaState>, b: seq<NfaState>, c: seq<NfaState>, x: set<StateId>, y: set<StateId>)
    requires OnlyIndices(a, b, x) && OnlyIndices(b, c, y)
    ensures OnlyIndices(a, c, x + y)
  {
  }

  /** Closedness only looks at epsilon moves and move ranges. */
  lemma ClosedPreserved(a: seq<NfaState>, b: seq<NfaState>, t: StateId)
    requires t < |a| <= |b| && Closed(a, t)
    requires forall u :: 0 <= u < |a| ==> b[u].moveRanges == a[u].moveRanges && b[u].epsilonMoves == a[u].epsilonMoves
    ensures Closed(b, t)
  {
  }

  lemma ClosureStepTrans(a: seq<NfaState>, b: seq<NfaState>, c: seq<NfaState>)
    requires ClosureStep(a, b) && ClosureStep(b, c)
    ensures ClosureStep(a, c)
  {
    ClosureStepSameMoves(b, c);
    forall t | 0 <= t < |a| ensures StepOk(a, c, t) {
      assert StepOk(a, b, t) && StepOk(b, c, t);
      StepCompose(a, b, c, t);
    }
  }

  /** The member sets of the composites among `ids`, the initial state's excepted when its index is 0. */
  ghost predicate HoldsMembersOf(states: seq<NfaState>, ids: set<StateId>, members: set<StateId>)
  {
    forall c, m :: c in ids && c < |states| && states[c].members.Some? && m in states[c].members.value ==> m in members
  }

  /** A list of states in ascending index order (getAllNfaStates). */
  ghost predicate ByIndex(states: seq<NfaState>, ids: seq<StateId>)
  {
    (forall i :: 0 <= i < |ids| ==> ids[i] < |states|)
    && forall i, j :: 0 <= i < j < |ids| ==> states[ids[i]].index <= states[ids[j]].index
  }

  /** The fields of a lexical state that building its NFA leaves alone. */
  datatype Bookkeeping = Bookkeeping(
    initialState: StateId, canonicalSets: map<set<StateId>, StateId>,
    regularExpressions: set<RegularExpression>, tokenProductions: seq<TokenProduction>,
    caseSensitiveTokenTable: map<string, RegularExpression>,
    caseInsensitiveTokenTable: map<string, RegularExpression>)

  class LexicalStateData {
    const name: string
    /** Every NFA state ever created for this lexical state; a state's id is its position. */
    var states: seq<NfaState>
    var allStates: set<StateId>
    var initialState: StateId
    var canonicalSets: map<set<StateId>, StateId>
    var caseSensitiveTokenTable: map<string, RegularExpression>
    var caseInsensitiveTokenTable: map<string, RegularExpression>
    var regularExpressions: set<RegularExpression>
    var tokenProductions: seq<TokenProduction>

    ghost predicate Valid()
      reads this
    {
      initialState < |states|
      && (forall s :: s in allStates ==> s < |states|)
      && ArenaOk(states)
      && CacheOk(states, canonicalSets)
    }

    /** The LexicalStateData constructor: its initial state is the first NFA state. */
    constructor (name: string)
      ensures Valid()
      ensures this.name == name && states == [FreshState()] && allStates == {0} && initialState == 0
      ensures canonicalSets == map[] && caseSensitiveTokenTable == map[] && caseInsensitiveTokenTable == map[]
      ensures regularExpressions == {} && tokenProductions == []
    {
      this.name := name;
      states := [FreshState()];
      allStates := {0};
      initialState := 0;
      canonicalSets := map[];
      caseSensitiveTokenTable := map[];
      caseInsensitiveTokenTable := map[];
      regularExpressions := {};
      tokenProductions := [];
    }

    /** isEmpty: no regular expression has been added. */
    predicate IsEmpty()
      reads this
    {
      regularExpressions == {}
    }

    predicate ContainsRegularExpression(re: RegularExpression)
      reads this
    {
      re in regularExpressions
    }

    method AddTokenProduction(tp: TokenProduction)
      modifies this
      ensures tokenProductions == old(tokenProductions) + [tp]
      ensures states == old(states) && allStates == old(allStates) && initialState == old(initialState)
      ensures canonicalSets == old(canonicalSets) && regularExpressions == old(regularExpressions)
      ensures caseSensitiveTokenTable == old(caseSensitiveTokenTable)
      ensures caseInsensitiveTokenTable == old(caseInsensitiveTokenTable)
    {
      tokenProductions := tokenProductions + [tp];
    }

    method AddRegularExpression(re: RegularExpression)
      modifies this
      ensures regularExpressions == old(regularExpressions) + {re}
      ensures ContainsRegularExpression(re) && !IsEmpty()
      ensures forall r: RegularExpression :: ContainsRegularExpression(r) <==> r == re || r in old(regularExpressions)
      ensures states == old(states) && allStates == old(allStates) && initialState == old(initialState)
      ensures canonicalSets == old(canonicalSets) && tokenProductions == old(tokenProductions)
      ensures caseSensitiveTokenTable == old(caseSensitiveTokenTable)
      ensures caseInsensitiveTokenTable == old(caseInsensitiveTokenTable)
    {
      regularExpressions := regularExpressions + {re};
    }

    // -------------------------------------------------------------------
    // String literals
    // -------------------------------------------------------------------

    /** getStringLiteral: the case-sensitive entry for the image, else the
        case-insensitive entry for its upper-case form. */
    function GetStringLiteral(image: string, toUpper: string -> string): (r: Option<RegularExpression>)
      reads this
      ensures image in caseSensitiveTokenTable ==> r == Some(caseSensitiveTokenTable[image])
      ensures image !in caseSensitiveTokenTable && toUpper(image) in caseInsensitiveTokenTable ==>
        r == Some(caseInsensitiveTokenTable[toUpper(image)])
      ensures image !in caseSensitiveTokenTable && toUpper(image) !in caseInsensitiveTokenTable ==> r == None
    {
      if image in caseSensitiveTokenTable then Some(caseSensitiveTokenTable[image])
      else if toUpper(image) in caseInsensitiveTokenTable then Some(caseInsensitiveTokenTable[toUpper(image)])
      else None
    }

    /** addStringLiteral: a literal is filed under its image, or under the upper-case
        form of its image when it ignores case; a later literal replaces an earlier one. */
    method AddStringLiteral(re: RegularExpression, toUpper: string -> string)
      requires re.Image().Some?
      modifies this
      ensures !re.ignoreCase ==>
        caseSensitiveTokenTable == old(caseSensitiveTokenTable)[re.Image().value := re] &&
        caseInsensitiveTokenTable == old(caseInsensitiveTokenTable)
      ensures re.ignoreCase ==>
        caseInsensitiveTokenTable == old(caseInsensitiveTokenTable)[toUpper(re.Image().value) := re] &&
        caseSensitiveTokenTable == old(caseSensitiveTokenTable)
      ensures !re.ignoreCase ==> GetStringLiteral(re.Image().value, toUpper) == Some(re)
      ensures re.ignoreCase ==> forall image :: image !in caseSensitiveTokenTable && toUpper(image) == toUpper(re.Image().value) ==>
        GetStringLiteral(image, toUpper) == Some(re)
      ensures states == old(states) && allStates == old(allStates) && initialState == old(initialState)
      ensures canonicalSets == old(canonicalSets) && regularExpressions == old(regularExpressions)
      ensures tokenProductions == old(tokenProductions)
    {
      var image := re.Image().value;
      if re.ignoreCase {
        caseInsensitiveTokenTable := caseInsensitiveTokenTable[toUpper(image) := re];
      } else {
        caseSensitiveTokenTable := caseSensitiveTokenTable[image := re];
      }
    }

    // -------------------------------------------------------------------
    // Creating and wiring states
    // -------------------------------------------------------------------

    /** Ids created after an arena of n states. */
    ghost function CreatedSince(n: nat): set<StateId>
      reads this
    {
      Below(|states|) - Below(n)
    }

    /** Every state is in allStates: each state registers itself when it is created. */
    ghost predicate Registered()
      reads this
    {
      forall s :: 0 <= s < |states| ==> s in allStates
    }

    /** Everything of the lexical state but its states and allStates. */
    ghost function Others(): Bookkeeping
      reads this
    {
      Bookkeeping(initialState, canonicalSets, regularExpressions, tokenProductions,
                  caseSensitiveTokenTable, caseInsensitiveTokenTable)
    }

    /** new NfaState(lexicalState): a fresh state, registered in allStates. */
    method NewState() returns (id: StateId)
      requires Valid()
      modifies this
      ensures Valid()
      ensures id == old(|states|) && states == old(states) + [FreshState()]
      ensures allStates == old(allStates) + {id}
      ensures initialState == old(initialState) && canonicalSets == old(canonicalSets)
      ensures regularExpressions == old(regularExpressions) && tokenProductions == old(tokenProductions)
      ensures caseSensitiveTokenTable == old(caseSensitiveTokenTable)
      ensures caseInsensitiveTokenTable == old(caseInsensitiveTokenTable)
    {
      id := |states|;
      states := states + [FreshState()];
      allStates := allStates + {id};
      assert forall s :: 0 <= s < id ==> states[s] == old(states)[s];
    }

    /** Replaces state s by st, which keeps its references inside the arena. */
    method Update(s: StateId, st: NfaState)
      requires Valid() && s < |states| && StateOk(states, st) && st.members == states[s].members
      modifies this
      ensures Valid()
      ensures states == old(states)[s := st]
      ensures allStates == old(allStates) && initialState == old(initialState) && canonicalSets == old(canonicalSets)
      ensures regularExpressions == old(regularExpressions) && tokenProductions == old(tokenProductions)
      ensures caseSensitiveTokenTable == old(caseSensitiveTokenTable)
      ensures caseInsensitiveTokenTable == old(caseInsensitiveTokenTable)
    {
      ghost var before := states;
      states := states[s := st];
      assert forall t :: 0 <= t < |states| && t != s ==> states[t] == before[t];
      assert forall k :: k in canonicalSets ==> states[canonicalSets[k]].members == before[canonicalSets[k]].members;
    }

    /** state.index = i */
    method SetIndex(s: StateId, i: int)
      requires Valid() && s < |states|
      modifies this
      ensures Valid()
      ensures states == old(states)[s := old(states)[s].(index := i)]
      ensures allStates == old(allStates) && initialState == old(initialState) && canonicalSets == old(canonicalSets)
      ensures SameTables(old(regularExpressions), old(tokenProductions),
                         old(caseSensitiveTokenTable), old(caseInsensitiveTokenTable))
    {
      assert StateOk(states, states[s]);
      Update(s, states[s].(index := i));
    }

    /** One state handed the next index: the numbering stays apart and only indices change. */
    method NumberNext(s: StateId, idx: int, ghost given: set<StateId>, ghost base: seq<NfaState>, ghost changed: set<StateId>)
      requires Valid() && s < |states| && idx >= 1 && NumberedBelow(states, given, idx)
      requires OnlyIndices(base, states, changed)
      modifies this
      ensures Valid() && states == old(states)[s := old(states)[s].(index := idx)]
      ensures NumberedBelow(states, given + {s}, idx + 1) && OnlyIndices(base, states, changed + {s})
      ensures allStates == old(allStates) && initialState == old(initialState) && canonicalSets == old(canonicalSets)
      ensures SameTables(old(regularExpressions), old(tokenProductions),
                         old(caseSensitiveTokenTable), old(caseInsensitiveTokenTable))
    {
      NumberOne(states, given, idx, s);
      OnlyIndicesStep(base, states, changed, s, idx);
      SetIndex(s, idx);
    }

    /** addRange: the inclusive range [left, right] appended to the state's moves. */
    method AddRange(s: StateId, left: nat, right: nat)
      requires Valid() && s < |states|
      modifies this
      ensures Valid()
      ensures states == old(states)[s := old(states[s]).(moveRanges := old(states[s].moveRanges) + [left, right])]
      ensures allStates == old(allStates) && initialState == old(initialState) && canonicalSets == old(canonicalSets)
      ensures SameTables(old(regularExpressions), old(tokenProductions),
                         old(caseSensitiveTokenTable), old(caseInsensitiveTokenTable))
    {
      assert StateOk(states, states[s]);
      Update(s, states[s].(moveRanges := states[s].moveRanges + [left, right]));
    }

    /** setCharMove: the state moves on the single character c (and, ignoring case,
        on its case variants). */
    method SetCharMove(s: StateId, c: nat, ignoreCase: bool, cm: CaseMap)
      requires Valid() && s < |states|
      modifies this
      ensures Valid()
      ensures states == old(states)[s := old(states[s]).(moveRanges := CharMoves(c, ignoreCase, cm))]
      ensures allStates == old(allStates) && initialState == old(initialState) && canonicalSets == old(canonicalSets)
      ensures SameTables(old(regularExpressions), old(tokenProductions),
                         old(caseSensitiveTokenTable), old(caseInsensitiveTokenTable))
    {
      var moves := CharMoves(c, ignoreCase, cm);
      assert StateOk(states, states[s]);
      Update(s, states[s].(moveRanges := moves));
    }

    method AddEpsilonMove(s: StateId, target: StateId)
      requires Valid() && s < |states| && target < |states|
      modifies this
      ensures Valid()
      ensures states == old(states)[s := old(states[s]).(epsilonMoves := old(states[s].epsilonMoves) + {target})]
      ensures allStates == old(allStates) && initialState == old(initialState) && canonicalSets == old(canonicalSets)
      ensures SameTables(old(regularExpressions), old(tokenProductions),
                         old(caseSensitiveTokenTable), old(caseInsensitiveTokenTable))
    {
      assert StateOk(states, states[s]);
      Update(s, states[s].(epsilonMoves := states[s].epsilonMoves + {target}));
    }

    method SetNextState(s: StateId, next: StateId)
      requires Valid() && s < |states| && next < |states|
      modifies this
      ensures Valid()
      ensures states == old(states)[s := old(states[s]).(nextState := Some(next))]
      ensures allStates == old(allStates) && initialState == old(initialState) && canonicalSets == old(canonicalSets)
      ensures SameTables(old(regularExpressions), old(tokenProductions),
                         old(caseSensitiveTokenTable), old(caseInsensitiveTokenTable))
    {
      assert StateOk(states, states[s]);
      Update(s, states[s].(nextState := Some(next)));
    }

    /** setType: the state accepts the expression with this ordinal. */
    method SetType(s: StateId, ordinal: int)
      requires Valid() && s < |states|
      modifies this
      ensures Valid()
      ensures states == old(states)[s := old(states[s]).(tokenType := Some(ordinal))]
      ensures allStates == old(allStates) && initialState == old(initialState) && canonicalSets == old(canonicalSets)
      ensures SameTables(old(regularExpressions), old(tokenProductions),
                         old(caseSensitiveTokenTable), old(caseInsensitiveTokenTable))
    {
      assert StateOk(states, states[s]);
      Update(s, states[s].(tokenType := Some(ordinal)));
    }

    // -------------------------------------------------------------------
    // Canonical states
    // -------------------------------------------------------------------

    /** The arena and the cache have only grown since (oldStates, oldCache, oldAll),
        and every state added to allStates is a new one. */
    ghost predicate GrewFrom(oldStates: seq<NfaState>, oldCache: map<set<StateId>, StateId>, oldAll: set<StateId>)
      reads this
    {
      |oldStates| <= |states| && states[..|oldStates|] == oldStates
      && (forall k :: k in oldCache ==> k in canonicalSets && canonicalSets[k] == oldCache[k])
      && allStates == oldAll + CreatedSince(|oldStates|)
      && (forall s :: |oldStates| <= s < |states| ==> IsComposite(states[s]))
    }

    /** getCanonicalComposite: a one-state set stands for its state; any other set for
        the composite cached under it, created and cached on first request. */
    method GetCanonicalComposite(stateSet: set<StateId>) returns (r: StateId)
      requires Valid() && forall t :: t in stateSet ==> t < |states|
      modifies this
      ensures Valid() && r < |states|
      ensures |stateSet| == 1 ==> stateSet == {r}
      ensures |stateSet| != 1 ==>
        stateSet in canonicalSets && r == canonicalSets[stateSet] && states[r].members == Some(stateSet)
      ensures |stateSet| == 1 || stateSet in old(canonicalSets) ==>
        states == old(states) && canonicalSets == old(canonicalSets) && allStates == old(allStates)
      ensures |stateSet| != 1 && stateSet !in old(canonicalSets) ==>
        r == old(|states|) && states == old(states) + [FreshComposite(stateSet)]
        && canonicalSets == old(canonicalSets)[stateSet := r] && allStates == old(allStates) + {r}
      ensures GrewFrom(old(states), old(canonicalSets), old(allStates))
      ensures initialState == old(initialState) && regularExpressions == old(regularExpressions)
      ensures tokenProductions == old(tokenProductions)
      ensures caseSensitiveTokenTable == old(caseSensitiveTokenTable)
      ensures caseInsensitiveTokenTable == old(caseInsensitiveTokenTable)
    {
      if |stateSet| == 1 {
        var t :| t in stateSet;
        assert |stateSet - {t}| == 0;
        assert states[..|states|] == states;
        return t;
      }
      if stateSet in canonicalSets {
        assert states[..|states|] == states;
        return canonicalSets[stateSet];
      }
      r := |states|;
      AppendComposite(states, canonicalSets, stateSet);
      states, allStates, canonicalSets := states + [FreshComposite(stateSet)], allStates + {r}, canonicalSets[stateSet := r];
      assert CreatedSince(r) == {r};
    }

    /** getCanonicalState. */
    method GetCanonicalState(s: StateId) returns (r: StateId)
      requires Valid() && s < |states|
      modifies this
      ensures Valid() && s < |states| && Known(states, canonicalSets, s)
      ensures r == CanonicalOf(states, canonicalSets, s)
      ensures old(Known(states, canonicalSets, s)) ==>
        states == old(states) && canonicalSets == old(canonicalSets) && allStates == old(allStates)
      ensures GrewFrom(old(states), old(canonicalSets), old(allStates))
      ensures |states| <= old(|states|) + 1 && (|states| > old(|states|) ==> r == old(|states|))
      ensures initialState == old(initialState) && regularExpressions == old(regularExpressions)
      ensures tokenProductions == old(tokenProductions)
      ensures caseSensitiveTokenTable == old(caseSensitiveTokenTable)
      ensures caseInsensitiveTokenTable == old(caseInsensitiveTokenTable)
    {
      var st := states[s];
      assert StateOk(states, st);
      if IsComposite(st) || st.epsilonMoves == {} {
        assert states[..|states|] == states;
        return s;
      }
      if |st.epsilonMoves| == 1 {
        var t :| t in st.epsilonMoves;
        assert |st.epsilonMoves - {t}| == 0;
        assert states[..|states|] == states;
        return t;
      }
      r := GetCanonicalComposite(st.epsilonMoves);
      assert states[s] == st;
    }

    /** isMoveCodeNeeded (CompositeStateSet overrides it to always answer true). */
    method IsMoveCodeNeeded(s: StateId) returns (r: bool)
      requires Valid() && s < |states|
      modifies this
      ensures Valid() && s < |states| && Known(states, canonicalSets, s)
      ensures r == MoveCodeNeeded(states, canonicalSets, s)
      ensures old(Known(states, canonicalSets, s)) ==>
        states == old(states) && canonicalSets == old(canonicalSets) && allStates == old(allStates)
      ensures GrewFrom(old(states), old(canonicalSets), old(allStates))
      ensures initialState == old(initialState) && regularExpressions == old(regularExpressions)
      ensures tokenProductions == old(tokenProductions)
      ensures caseSensitiveTokenTable == old(caseSensitiveTokenTable)
      ensures caseInsensitiveTokenTable == old(caseInsensitiveTokenTable)
    {
      if IsComposite(states[s]) {
        assert states[..|states|] == states;
        return true;
      }
      var c := GetCanonicalState(s);
      if IsComposite(states[c]) {
        return false;
      }
      var st := states[s];
      assert StateOk(states, st);
      if st.nextState.None? {
        return false;
      }
      var next := states[st.nextState.value];
      r := next.tokenType.Some? || next.epsilonMoves != {};
    }

    // -------------------------------------------------------------------
    // Closure, composites and numbering
    // -------------------------------------------------------------------

    /** Fields the closure, composite and numbering passes never touch. */
    ghost predicate SameTables(oldRes: set<RegularExpression>, oldTps: seq<TokenProduction>,
                               oldSensitive: map<string, RegularExpression>,
                               oldInsensitive: map<string, RegularExpression>)
      reads this
    {
      regularExpressions == oldRes && tokenProductions == oldTps
      && caseSensitiveTokenTable == oldSensitive && caseInsensitiveTokenTable == oldInsensitive
    }

    /** doEpsilonClosure: a state not yet closed is marked closed, then, for each of its
        epsilon moves t, t is closed, lends its type when this state has none, and its
        own epsilon moves are added (and closed); finally the state is added to its own
        epsilon moves and every target that moves on no character is dropped. */
    method DoEpsilonClosure(s: StateId)
      requires Valid() && s < |states|
      modifies this
      ensures Valid() && s < |states|
      ensures ClosureStep(old(states), states)
      ensures states[s].closureDone
      ensures !old(states[s].closureDone) ==> Absorbed(states, s, old(states[s].epsilonMoves))
      ensures !old(states[s].closureDone) && old(states[s].tokenType).None? ==>
        InheritedType(states, s, old(states[s].epsilonMoves))
      ensures allStates == old(allStates) && initialState == old(initialState) && canonicalSets == old(canonicalSets)
      ensures SameTables(old(regularExpressions), old(tokenProductions),
                         old(caseSensitiveTokenTable), old(caseInsensitiveTokenTable))
      decreases NotDoneOf(states)
    {
      if states[s].closureDone {
        return;
      }
      ghost var entry := states;
      assert s in NotDoneOf(entry);
      assert StateOk(states, states[s]);
      Update(s, states[s].(closureDone := true));
      assert NotDoneOf(states) <= NotDoneOf(entry) - {s};
      var todo := states[s].epsilonMoves;
      while todo != {}
        invariant Valid() && |states| == |entry| && s < |states|
        invariant forall t :: t in todo ==> t < |states|
        invariant forall t :: 0 <= t < |entry| && t != s ==> StepOk(entry, states, t)
        invariant SameShape(entry[s], states[s]) && states[s].closureDone
        invariant entry[s].tokenType.Some? ==> states[s].tokenType == entry[s].tokenType
        invariant entry[s].epsilonMoves <= states[s].epsilonMoves
        invariant NotDoneOf(states) <= NotDoneOf(entry) - {s}
        invariant todo <= entry[s].epsilonMoves && Absorbs(states, s, entry[s].epsilonMoves - todo)
        invariant entry[s].tokenType.None? ==> InheritedType(states, s, entry[s].epsilonMoves - todo)
        invariant allStates == old(allStates) && initialState == old(initialState) && canonicalSets == old(canonicalSets)
        invariant SameTables(old(regularExpressions), old(tokenProductions),
                             old(caseSensitiveTokenTable), old(caseInsensitiveTokenTable))
        decreases todo
      {
        var t :| t in todo;
        ghost var prev, done := states, entry[s].epsilonMoves - todo;
        todo := todo - {t};
        CloseAndInherit(s, t, entry);
        AbsorbStep(prev, states, s, done, t, entry[s].tokenType.None?);
        assert entry[s].epsilonMoves - todo == done + {t};
      }
      FinishClosure(s, entry, entry[s].epsilonMoves, entry[s].tokenType.None?);
    }

    /** The end of doEpsilonClosure: the state joins its own epsilon moves, and the
        targets that move on no character are dropped. */
    method FinishClosure(s: StateId, ghost entry: seq<NfaState>, ghost targets: set<StateId>, ghost untyped: bool)
      requires Valid() && |states| == |entry| && s < |states|
      requires Absorbs(states, s, targets) && (untyped ==> InheritedType(states, s, targets))
      requires !entry[s].closureDone
      requires forall t :: 0 <= t < |entry| && t != s ==> StepOk(entry, states, t)
      requires SameShape(entry[s], states[s]) && states[s].closureDone
      requires entry[s].tokenType.Some? ==> states[s].tokenType == entry[s].tokenType
      requires entry[s].epsilonMoves <= states[s].epsilonMoves
      modifies this
      ensures Valid() && ClosureStep(entry, states) && states[s].closureDone
      ensures Absorbed(states, s, targets) && (untyped ==> InheritedType(states, s, targets))
      ensures allStates == old(allStates) && initialState == old(initialState) && canonicalSets == old(canonicalSets)
      ensures SameTables(old(regularExpressions), old(tokenProductions),
                         old(caseSensitiveTokenTable), old(caseInsensitiveTokenTable))
    {
      ghost var looped := states;
      assert StateOk(states, states[s]);
      Update(s, states[s].(epsilonMoves := states[s].epsilonMoves + {s}));
      var kept := set u | u in states[s].epsilonMoves && u < |states| && states[u].moveRanges != [];
      assert StateOk(states, states[s]);
      Update(s, states[s].(epsilonMoves := kept));
      assert forall u :: 0 <= u < |states| ==> states[u].moveRanges == looped[u].moveRanges;
      forall t | 0 <= t < |entry| ensures StepOk(entry, states, t) {
        if t != s {
          StepSame(looped, states, t);
          StepCompose(entry, looped, states, t);
        }
      }
      FinishAbsorbs(looped, states, s, targets, untyped);
    }

    /** One turn of the closure loop of state s (already marked closed) for its
        epsilon move t. */
    method CloseAndInherit(s: StateId, t: StateId, ghost entry: seq<NfaState>)
      requires Valid() && s < |states| && t < |states| && |states| == |entry| && s < |entry|
      requires !entry[s].closureDone
      requires forall u :: 0 <= u < |entry| && u != s ==> StepOk(entry, states, u)
      requires SameShape(entry[s], states[s]) && states[s].closureDone
      requires NotDoneOf(states) <= NotDoneOf(entry) - {s}
      modifies this
      ensures Valid() && |states| == |entry| && s < |states|
      ensures forall u :: 0 <= u < |entry| && u != s ==> StepOk(entry, states, u)
      ensures SameShape(entry[s], states[s]) && states[s].closureDone
      ensures old(states[s].tokenType).Some? ==> states[s].tokenType == old(states[s].tokenType)
      ensures old(states[s].tokenType).None? ==> states[s].tokenType == states[t].tokenType
      ensures t == s ==> states[s].tokenType == old(states[s].tokenType)
      ensures old(states[s].epsilonMoves) <= states[s].epsilonMoves
      ensures states[t].closureDone && states[t].epsilonMoves <= states[s].epsilonMoves
      ensures DoneKept(old(states), states, s)
      ensures NotDoneOf(states) <= NotDoneOf(entry) - {s}
      ensures allStates == old(allStates) && initialState == old(initialState) && canonicalSets == old(canonicalSets)
      ensures SameTables(old(regularExpressions), old(tokenProductions),
                         old(caseSensitiveTokenTable), old(caseInsensitiveTokenTable))
      decreases NotDoneOf(entry), 2
    {
      CloseWithin(t, s, entry);
      if states[s].tokenType.None? {
        assert StateOk(states, states[s]);
        UpdateClosing(s, states[s].(tokenType := states[t].tokenType), entry);
      }
      assert StateOk(states, states[t]);
      AddTargets(s, states[t].epsilonMoves, entry);
    }

    /** The inner loop of doEpsilonClosure: each of targets becomes an epsilon move of s
        and is closed in turn. */
    method AddTargets(s: StateId, targets: set<StateId>, ghost entry: seq<NfaState>)
      requires Valid() && s < |states| && |states| == |entry|
      requires !entry[s].closureDone
      requires forall u :: 0 <= u < |entry| && u != s ==> StepOk(entry, states, u)
      requires SameShape(entry[s], states[s]) && states[s].closureDone
      requires NotDoneOf(states) <= NotDoneOf(entry) - {s}
      requires forall o :: o in targets ==> o < |states|
      modifies this
      ensures Valid() && |states| == |entry|
      ensures forall u :: 0 <= u < |entry| && u != s ==> StepOk(entry, states, u)
      ensures SameShape(entry[s], states[s]) && states[s].closureDone
      ensures states[s].tokenType == old(states[s].tokenType)
      ensures old(states[s].epsilonMoves) + targets <= states[s].epsilonMoves
      ensures DoneKept(old(states), states, s)
      ensures NotDoneOf(states) <= NotDoneOf(entry) - {s}
      ensures allStates == old(allStates) && initialState == old(initialState) && canonicalSets == old(canonicalSets)
      ensures SameTables(old(regularExpressions), old(tokenProductions),
                         old(caseSensitiveTokenTable), old(caseInsensitiveTokenTable))
      decreases NotDoneOf(entry), 1
    {
      var inner := targets;
      while inner != {}
        invariant Valid() && |states| == |entry| && s < |states|
        invariant inner <= targets
        invariant forall u :: 0 <= u < |entry| && u != s ==> StepOk(entry, states, u)
        invariant SameShape(entry[s], states[s]) && states[s].closureDone
        invariant states[s].tokenType == old(states[s].tokenType)
        invariant old(states[s].epsilonMoves) + (targets - inner) <= states[s].epsilonMoves
        invariant DoneKept(old(states), states, s)
        invariant NotDoneOf(states) <= NotDoneOf(entry) - {s}
        invariant allStates == old(allStates) && initialState == old(initialState) && canonicalSets == old(canonicalSets)
        invariant SameTables(old(regularExpressions), old(tokenProductions),
                             old(caseSensitiveTokenTable), old(caseInsensitiveTokenTable))
        decreases inner
      {
        var o :| o in inner;
        inner := inner - {o};
        assert StateOk(states, states[s]);
        UpdateClosing(s, states[s].(epsilonMoves := states[s].epsilonMoves + {o}), entry);
        CloseWithin(o, s, entry);
      }
    }

    /** A change to the state being closed, s, that leaves every other state's step intact. */
    method UpdateClosing(s: StateId, st: NfaState, ghost entry: seq<NfaState>)
      requires Valid() && s < |states| && |states| == |entry|
      requires StateOk(states, st) && SameShape(states[s], st)
      requires forall u :: 0 <= u < |entry| && u != s ==> StepOk(entry, states, u)
      modifies this
      ensures Valid() && states == old(states)[s := st]
      ensures forall u :: 0 <= u < |entry| && u != s ==> StepOk(entry, states, u)
      ensures allStates == old(allStates) && initialState == old(initialState) && canonicalSets == old(canonicalSets)
      ensures regularExpressions == old(regularExpressions) && tokenProductions == old(tokenProductions)
      ensures caseSensitiveTokenTable == old(caseSensitiveTokenTable)
      ensures caseInsensitiveTokenTable == old(caseInsensitiveTokenTable)
    {
      ghost var mid := states;
      Update(s, st);
      assert forall u :: 0 <= u < |states| ==> states[u].moveRanges == mid[u].moveRanges;
      forall u | 0 <= u < |entry| && u != s ensures StepOk(entry, states, u) {
        StepSame(mid, states, u);
        StepCompose(entry, mid, states, u);
      }
    }

    /** The recursive closure of t from inside the closure of s. */
    method CloseWithin(t: StateId, s: StateId, ghost entry: seq<NfaState>)
      requires Valid() && s < |states| && t < |states| && |states| == |entry| && s < |entry|
      requires !entry[s].closureDone
      requires forall u :: 0 <= u < |entry| && u != s ==> StepOk(entry, states, u)
      requires SameShape(entry[s], states[s]) && states[s].closureDone
      requires NotDoneOf(states) <= NotDoneOf(entry) - {s}
      modifies this
      ensures Valid() && |states| == |entry| && s < |states|
      ensures forall u :: 0 <= u < |entry| && u != s ==> StepOk(entry, states, u)
      ensures states[s] == old(states[s]) && states[t].closureDone && DoneKept(old(states), states, s)
      ensures NotDoneOf(states) <= NotDoneOf(entry) - {s}
      ensures allStates == old(allStates) && initialState == old(initialState) && canonicalSets == old(canonicalSets)
      ensures SameTables(old(regularExpressions), old(tokenProductions),
                         old(caseSensitiveTokenTable), old(caseInsensitiveTokenTable))
      decreases NotDoneOf(entry), 0
    {
      ghost var mid := states;
      assert s in NotDoneOf(entry);
      DoEpsilonClosure(t);
      assert StepOk(mid, states, s);
      assert DoneKept(mid, states, s) by {
        forall u | 0 <= u < |mid| ensures mid[u].closureDone ==> states[u] == mid[u] {
          assert StepOk(mid, states, u);
        }
      }
      ClosureStepShrinksNotDone(mid, states);
      ClosureStepSameMoves(mid, states);
      forall u | 0 <= u < |entry| && u != s ensures StepOk(entry, states, u) {
        assert StepOk(mid, states, u);
        StepCompose(entry, mid, states, u);
      }
    }

    /** generateData: close every state, merge states into their canonical
        composites, then number the states. */
    method GenerateData()
      requires Valid()
      requires forall s :: 0 <= s < |states| ==> s in allStates
      modifies this
      ensures Valid()
      ensures forall s :: s in old(allStates) ==>
        s < |states| && states[s].closureDone && (!old(states[s].closureDone) ==> Closed(states, s))
      ensures forall s :: s in allStates ==> states[s].index >= 0
      ensures states[initialState].index == 0
    {
      CloseAllStates();
      ghost var closed := states;
      forall u | u in old(allStates) && !old(states[u].closureDone) ensures Closed(closed, u) {
        assert StepOk(old(states), closed, u);
      }
      AddCompositeStates();
      ghost var merged := states;
      ghost var given, members, before, composites, moveStates := IndexStates();
      forall u | 0 <= u < |closed|
        ensures states[u].moveRanges == closed[u].moveRanges && states[u].epsilonMoves == closed[u].epsilonMoves
        ensures states[u].closureDone == closed[u].closureDone
      {
        assert merged[..|closed|][u] == closed[u];
        assert states[u] == merged[u].(index := states[u].index);
      }
      forall u | u in old(allStates)
        ensures u < |states| && states[u].closureDone && (!old(states[u].closureDone) ==> Closed(states, u))
      {
        if !old(states[u].closureDone) {
          ClosedPreserved(closed, states, u);
        }
      }
    }

    /** The first loop of generateData: doEpsilonClosure on every state of allStates. */
    method CloseAllStates()
      requires Valid()
      modifies this
      ensures Valid() && ClosureStep(old(states), states)
      ensures forall s :: s in allStates ==> states[s].closureDone
      ensures allStates == old(allStates) && initialState == old(initialState) && canonicalSets == old(canonicalSets)
    {
      var todo := allStates;
      while todo != {}
        invariant Valid() && todo <= allStates && allStates == old(allStates)
        invariant initialState == old(initialState) && canonicalSets == old(canonicalSets)
        invariant ClosureStep(old(states), states)
        invariant forall s :: s in allStates && s !in todo ==> states[s].closureDone
        decreases todo
      {
        var s :| s in todo;
        todo := todo - {s};
        ghost var mid := states;
        DoEpsilonClosure(s);
        ClosureStepTrans(old(states), mid, states);
        forall u | u in allStates && u !in todo && u != s ensures states[u].closureDone {
          assert StepOk(mid, states, u);
        }
      }
    }

    /** addCompositeStates: every state of allStates that is not its own canonical state
        is replaced there by its canonical state (which may be created on the way). */
    method AddCompositeStates()
      requires Valid()
      requires forall s :: 0 <= s < |states| ==> s in allStates
      modifies this
      ensures Valid() && Extends(old(states), old(canonicalSets), states, canonicalSets)
      ensures MergedSoFar(states, canonicalSets, allStates, old(allStates), old(allStates))
      ensures forall t :: t in allStates ==> t < |states| && Known(states, canonicalSets, t)
      ensures initialState == old(initialState)
      ensures SameTables(old(regularExpressions), old(tokenProductions),
                         old(caseSensitiveTokenTable), old(caseInsensitiveTokenTable))
    {
      var todo := allStates;
      ghost var done: set<StateId> := {};
      while todo != {}
        invariant Valid() && Extends(old(states), old(canonicalSets), states, canonicalSets)
        invariant todo + done == old(allStates) && todo !! done && todo <= allStates
        invariant MergedSoFar(states, canonicalSets, allStates, done, old(allStates))
        invariant initialState == old(initialState)
        invariant SameTables(old(regularExpressions), old(tokenProductions),
                             old(caseSensitiveTokenTable), old(caseInsensitiveTokenTable))
        decreases todo
      {
        var s :| s in todo;
        ghost var before, beforeCache := states, canonicalSets;
        MergeOne(s, done, old(allStates));
        ExtendsTrans(old(states), old(canonicalSets), before, beforeCache, states, canonicalSets);
        todo := todo - {s};
        done := done + {s};
      }
      forall t | t in allStates ensures t < |states| && Known(states, canonicalSets, t) {
        if t < |old(states)| {
          assert t in done;
        }
      }
    }

    /** One iteration of addCompositeStates: s is replaced in allStates by its canonical state. */
    method MergeOne(s: StateId, ghost done: set<StateId>, ghost orig: set<StateId>)
      requires Valid() && s in allStates && s !in done
      requires MergedSoFar(states, canonicalSets, allStates, done, orig)
      modifies this
      ensures Valid() && Extends(old(states), old(canonicalSets), states, canonicalSets)
      ensures MergedSoFar(states, canonicalSets, allStates, done + {s}, orig)
      ensures forall t :: t in old(allStates) && t != s ==> t in allStates
      ensures initialState == old(initialState)
      ensures SameTables(old(regularExpressions), old(tokenProductions),
                         old(caseSensitiveTokenTable), old(caseInsensitiveTokenTable))
    {
      var canonical := GetCanonicalState(s);
      assert Extends(old(states), old(canonicalSets), states, canonicalSets);
      MergeStep(old(states), old(canonicalSets), old(allStates), states, canonicalSets, allStates,
                done, orig, s, canonical);
      if canonical != s {
        allStates := allStates + {canonical} - {s};
      }
    }

    /**
     * indexStates as the source has it: the initial state becomes its canonical state
     * and gets index 0; then every composite whose index is not 0 is numbered and its
     * members collected; then every other state whose index is not 0, that needs move
     * code and is no member; then every member, the initial state included; finally
     * the states left without an index leave allStates.
     */
    method IndexStatesAsWritten() returns (ghost given: set<StateId>, ghost members: set<StateId>,
                                          ghost before: seq<NfaState>,
                                          ghost composites: set<StateId>, ghost moveStates: set<StateId>)
      requires Valid()
      requires forall s :: s in allStates ==> Known(states, canonicalSets, s)
      modifies this
      ensures Valid()
      ensures old(initialState) < |states| && Known(states, canonicalSets, old(initialState))
      ensures initialState == CanonicalOf(states, canonicalSets, old(initialState))
      ensures |old(states)| <= |before| == |states| && initialState < |before|
      ensures forall s :: 0 <= s < |old(states)| ==> states[s] == old(states[s]).(index := states[s].index)
      ensures forall s :: 0 <= s < |old(states)| && s != initialState ==> before[s] == old(states[s])
      ensures before[initialState].index == 0
      ensures NumberedApart(states, given) && OnlyIndices(before, states, given)
      ensures ReadyToNumber(Grown(old(allStates), |old(states)|, |before|), before, canonicalSets)
      ensures MembersCollected(Grown(old(allStates), |old(states)|, |before|), before, members)
      ensures initialState in members ==> initialState in given && states[initialState].index >= 1
      ensures initialState !in members ==> initialState !in given && states[initialState].index == 0
      ensures FirstPassesChose(Grown(old(allStates), |old(states)|, |before|), before, canonicalSets, members, composites, moveStates)
      ensures given == composites + moveStates + members
      ensures Layout(states, composites, moveStates, members)
      ensures forall s :: s in allStates <==>
        (s in old(allStates) || old(|states|) <= s < |states|) && states[s].index >= 0
    {
      var idx, mem;
      idx, mem, given, before, composites, moveStates := NumberFirstPasses();
      members := mem;
      ghost var numbered := states;
      given := NumberLastPass(idx, mem, given, before, composites, moveStates, old(allStates), |old(states)|);
      IndicesIrrelevant(numbered, states, mem, canonicalSets, old(initialState));
    }

    /** indexStates with the initial state kept at index 0: the last pass numbers the
        members of composites other than the initial state. */
    method IndexStates() returns (ghost given: set<StateId>, ghost members: set<StateId>,
                                 ghost before: seq<NfaState>,
                                 ghost composites: set<StateId>, ghost moveStates: set<StateId>)
      requires Valid()
      requires forall s :: s in allStates ==> Known(states, canonicalSets, s)
      modifies this
      ensures Valid()
      ensures old(initialState) < |states| && Known(states, canonicalSets, old(initialState))
      ensures initialState == CanonicalOf(states, canonicalSets, old(initialState))
      ensures |old(states)| <= |before| == |states| && initialState < |before|
      ensures forall s :: 0 <= s < |old(states)| ==> states[s] == old(states[s]).(index := states[s].index)
      ensures forall s :: 0 <= s < |old(states)| && s != initialState ==> before[s] == old(states[s])
      ensures NumberedApart(states, given) && OnlyIndices(before, states, given)
      ensures ReadyToNumber(Grown(old(allStates), |old(states)|, |before|), before, canonicalSets)
      ensures MembersCollected(Grown(old(allStates), |old(states)|, |before|), before, members)
      ensures MembersCovered(Grown(old(allStates), |old(states)|, |before|), before, given + {initialState})
      ensures initialState !in given && states[initialState].index == 0
      ensures FirstPassesChose(Grown(old(allStates), |old(states)|, |before|), before, canonicalSets, members, composites, moveStates)
      ensures given == composites + moveStates + (members - {initialState})
      ensures Layout(states, composites, moveStates, members - {initialState})
      ensures forall s :: s in allStates <==>
        (s in old(allStates) || old(|states|) <= s < |states|) && states[s].index >= 0
    {
      var idx, mem;
      idx, mem, given, before, composites, moveStates := NumberFirstPasses();
      members := mem;
      var last := mem - {initialState};
      ghost var numbered := states;
      given := NumberLastPass(idx, last, given, before, composites, moveStates, old(allStates), |old(states)|);
      IndicesIrrelevant(numbered, states, last, canonicalSets, old(initialState));
      MembersCoveredMore(Grown(old(allStates), |old(states)|, |before|), before, members, given + {initialState});
    }

    /**
     * The last pass of indexStates over the states in last, then allStates.removeIf(state
     * -> state.index < 0): the members take the block of indices after the composites and
     * the move states, which keep theirs.
     */
    method NumberLastPass(idx0: int, last: set<StateId>, ghost given0: set<StateId>, ghost before: seq<NfaState>,
                          ghost composites: set<StateId>, ghost moveStates: set<StateId>,
                          ghost origAll: set<StateId>, ghost origLen: nat)
      returns (ghost given: set<StateId>)
      requires forall s :: s in allStates <==> s in origAll || origLen <= s < |states|
      requires Valid() && idx0 >= 1 && NumberedBelow(states, given0, idx0)
      requires forall m :: m in last ==> m < |states|
      requires idx0 == 1 + |composites| + |moveStates| && moveStates !! last
      requires IndexedIn(states, composites, 1, 1 + |composites|)
      requires IndexedIn(states, moveStates, 1 + |composites|, idx0)
      requires OnlyIndices(before, states, given0)
      modifies this
      ensures Valid() && given == given0 + last
      ensures NumberedApart(states, given) && OnlyIndices(before, states, given)
      ensures OnlyIndices(old(states), states, last)
      ensures Layout(states, composites, moveStates, last)
      ensures forall s :: s in allStates <==> (s in origAll || origLen <= s < |states|) && states[s].index >= 0
      ensures initialState == old(initialState) && canonicalSets == old(canonicalSets)
      ensures SameTables(old(regularExpressions), old(tokenProductions),
                         old(caseSensitiveTokenTable), old(caseInsensitiveTokenTable))
    {
      var idx;
      idx, given := IndexMembers(idx0, last, given0);
      LayoutAfterLastPass(old(states), states, composites, moveStates, last);
      OnlyIndicesTrans(before, old(states), states, given0, last);
      RemoveUnindexed();
    }

    /** The part of indexStates before the members are numbered. */
    method NumberFirstPasses() returns (idx: int, members: set<StateId>, ghost given: set<StateId>,
                                        ghost before: seq<NfaState>,
                                        ghost composites: set<StateId>, ghost moveStates: set<StateId>)
      requires Valid()
      requires forall s :: s in allStates ==> Known(states, canonicalSets, s)
      modifies this
      ensures Valid()
      ensures old(initialState) < |states| && Known(states, canonicalSets, old(initialState))
      ensures initialState == CanonicalOf(states, canonicalSets, old(initialState))
      ensures |old(states)| <= |before| == |states| && initialState < |before|
      ensures forall s :: 0 <= s < |old(states)| && s != initialState ==> before[s] == old(states[s])
      ensures forall s :: 0 <= s < |old(states)| ==> before[s] == old(states[s]).(index := before[s].index)
      ensures before[initialState].index == 0
      ensures allStates == Grown(old(allStates), |old(states)|, |before|)
      ensures forall s :: s in allStates <==> s in old(allStates) || |old(states)| <= s < |states|
      ensures idx >= 1 && NumberedBelow(states, given, idx) && initialState !in given
      ensures OnlyIndices(before, states, given)
      ensures ReadyToNumber(Grown(old(allStates), |old(states)|, |before|), before, canonicalSets)
      ensures MembersCollected(Grown(old(allStates), |old(states)|, |before|), before, members)
      ensures forall m :: m in members ==> m < |states|
      ensures given == composites + moveStates && composites !! moveStates
      ensures idx == 1 + |composites| + |moveStates|
      ensures IndexedIn(states, composites, 1, 1 + |composites|) && IndexedIn(states, moveStates, 1 + |composites|, idx)
      ensures FirstPassesChose(Grown(old(allStates), |old(states)|, |before|), before, canonicalSets, members, composites, moveStates)
      ensures SameTables(old(regularExpressions), old(tokenProductions),
                         old(caseSensitiveTokenTable), old(caseInsensitiveTokenTable))
    {
      ZeroInitial();
      before := states;
      ghost var passOne, passTwo;
      idx, members, passOne := IndexComposites();
      forall s | s in allStates
        ensures Known(states, canonicalSets, s)
      {
        IndicesIrrelevant(before, states, passOne, canonicalSets, s);
      }
      ghost var afterOne := states;
      idx, passTwo := IndexMoveStates(idx, members, passOne);
      OnlyIndicesTrans(before, afterOne, states, passOne, passTwo);
      IndexedInKept(afterOne, states, passTwo, passOne, 1, 1 + |passOne|);
      given := passOne + passTwo;
      composites, moveStates := passOne, passTwo;
      forall a | a in allStates
        ensures a in moveStates <==> !IsComposite(before[a]) && before[a].index != 0 &&
                                     MoveCodeNeeded(before, canonicalSets, a) && a !in members
      {
        IndicesIrrelevant(before, afterOne, passOne, canonicalSets, a);
        assert before[a].members == afterOne[a].members;
      }
      IndicesIrrelevant(before, states, given, canonicalSets, old(initialState));
      GrownMembers(old(allStates), |old(states)|, |before|);
    }

    /** initialState = initialState.getCanonicalState(); initialState.index = 0; */
    method ZeroInitial()
      requires Valid()
      requires forall s :: s in allStates ==> Known(states, canonicalSets, s)
      modifies this
      ensures Valid()
      ensures forall s :: s in allStates ==> Known(states, canonicalSets, s)
      ensures old(initialState) < |states| && Known(states, canonicalSets, old(initialState))
      ensures initialState == CanonicalOf(states, canonicalSets, old(initialState))
      ensures |old(states)| <= |states|
      ensures forall s :: 0 <= s < |old(states)| && s != initialState ==> states[s] == old(states[s])
      ensures forall s :: 0 <= s < |old(states)| ==> states[s] == old(states[s]).(index := states[s].index)
      ensures states[initialState].index == 0
      ensures allStates == old(allStates) + CreatedSince(|old(states)|)
      ensures SameTables(old(regularExpressions), old(tokenProductions),
                         old(caseSensitiveTokenTable), old(caseInsensitiveTokenTable))
    {
      var initial := GetCanonicalState(initialState);
      GrowthKeepsKnown(old(states), old(canonicalSets), old(allStates), states, canonicalSets, allStates);
      ghost var grown := states;
      MakeInitial(initial);
      IndicesIrrelevantAll(grown, states, {initialState}, canonicalSets, allStates + {old(initialState)});
    }

    /** The state s becomes the initial state, with index 0. */
    method MakeInitial(s: StateId)
      requires Valid() && s < |states|
      modifies this
      ensures Valid() && initialState == s
      ensures states == old(states)[s := old(states)[s].(index := 0)]
      ensures OnlyIndices(old(states), states, {s})
      ensures allStates == old(allStates) && canonicalSets == old(canonicalSets)
      ensures SameTables(old(regularExpressions), old(tokenProductions),
                         old(caseSensitiveTokenTable), old(caseInsensitiveTokenTable))
    {
      initialState := s;
      SetIndex(s, 0);
    }

    /** The first pass of indexStates: every composite of allStates whose index is not 0
        is numbered, and its members are collected. */
    method IndexComposites() returns (idx: int, members: set<StateId>, ghost given: set<StateId>)
      requires Valid()
      modifies this
      ensures Valid() && idx == |given| + 1 && NumberedBelow(states, given, idx)
      ensures OnlyIndices(old(states), states, given)
      ensures CompositesChosen(allStates, old(states), given)
      ensures MembersCollected(allStates, old(states), members)
      ensures forall m :: m in members ==> m < |states|
      ensures allStates == old(allStates) && initialState == old(initialState) && canonicalSets == old(canonicalSets)
      ensures SameTables(old(regularExpressions), old(tokenProductions),
                         old(caseSensitiveTokenTable), old(caseInsensitiveTokenTable))
    {
      idx := 1;
      members := {};
      given := {};
      var todo := allStates;
      ghost var orig := states;
      while todo != {}
        invariant Valid() && idx == |given| + 1 && NumberedBelow(states, given, idx)
        invariant todo <= allStates
        invariant OnlyIndices(orig, states, given)
        invariant CompositesChosen(allStates - todo, orig, given)
        invariant MembersCollected(allStates - todo, orig, members)
        invariant forall m :: m in members ==> m < |states|
        invariant allStates == old(allStates) && initialState == old(initialState) && canonicalSets == old(canonicalSets)
        invariant SameTables(old(regularExpressions), old(tokenProductions),
                             old(caseSensitiveTokenTable), old(caseInsensitiveTokenTable))
        decreases todo
      {
        var s :| s in todo;
        ghost var pool := allStates - todo;
        todo := todo - {s};
        idx, members, given := NumberComposite(s, idx, members, given, orig, pool);
        assert allStates - todo == pool + {s};
      }
      assert allStates - todo == allStates;
    }

    /** One turn of the first pass of indexStates, for the state s: a composite whose
        index is not 0 takes the next index and its members are collected. */
    method NumberComposite(s: StateId, idx0: int, members0: set<StateId>, ghost given0: set<StateId>,
                           ghost orig: seq<NfaState>, ghost pool: set<StateId>)
      returns (idx: int, members: set<StateId>, ghost given: set<StateId>)
      requires Valid() && s in allStates && s !in pool && pool <= allStates
      requires idx0 == |given0| + 1 && NumberedBelow(states, given0, idx0)
      requires OnlyIndices(orig, states, given0)
      requires CompositesChosen(pool, orig, given0)
      requires MembersCollected(pool, orig, members0)
      requires forall m :: m in members0 ==> m < |states|
      modifies this
      ensures Valid() && idx == |given| + 1 && NumberedBelow(states, given, idx)
      ensures OnlyIndices(orig, states, given)
      ensures CompositesChosen(pool + {s}, orig, given)
      ensures MembersCollected(pool + {s}, orig, members)
      ensures forall m :: m in members ==> m < |states|
      ensures allStates == old(allStates) && initialState == old(initialState) && canonicalSets == old(canonicalSets)
      ensures SameTables(old(regularExpressions), old(tokenProductions),
                         old(caseSensitiveTokenTable), old(caseInsensitiveTokenTable))
    {
      idx, members, given := idx0, members0, given0;
      var st := states[s];
      assert st == orig[s];
      if st.index != 0 && IsComposite(st) {
        assert StateOk(states, st);
        NumberNext(s, idx, given, orig, given);
        given := given + {s};
        members := members + st.members.value;
        idx := idx + 1;
      }
      CollectStep(pool, orig, members0, s, members);
    }

    /** The second pass of indexStates: every other state whose index is not 0, that
        needs move code and is not a member of a composite, is numbered. */
    method IndexMoveStates(idx0: int, members: set<StateId>, ghost given0: set<StateId>)
      returns (idx: int, ghost added: set<StateId>)
      requires Valid() && idx0 >= 1 && NumberedBelow(states, given0, idx0)
      requires forall a :: a in given0 ==> a < |states| && IsComposite(states[a])
      requires forall s :: s in allStates ==> Known(states, canonicalSets, s)
      modifies this
      ensures Valid() && idx == idx0 + |added| && NumberedBelow(states, given0 + added, idx) && given0 !! added
      ensures IndexedIn(states, added, idx0, idx)
      ensures OnlyIndices(old(states), states, added)
      ensures allStates == old(allStates) && initialState == old(initialState) && canonicalSets == old(canonicalSets)
      ensures forall a :: a in added ==>
        a in allStates && !IsComposite(old(states[a])) && old(states[a].index) != 0 &&
        MoveCodeNeeded(old(states), old(canonicalSets), a) && a !in members
      ensures forall s :: (s in old(allStates) && old(states[s].index) != 0 && !IsComposite(old(states[s])) &&
        MoveCodeNeeded(old(states), old(canonicalSets), s) && s !in members) ==> s in added
      ensures SameTables(old(regularExpressions), old(tokenProductions),
                         old(caseSensitiveTokenTable), old(caseInsensitiveTokenTable))
    {
      idx := idx0;
      added := {};
      var todo := allStates;
      while todo != {}
        invariant Valid() && idx == idx0 + |added| && NumberedBelow(states, given0 + added, idx) && given0 !! added
        invariant IndexedIn(states, added, idx0, idx)
        invariant todo <= allStates
        invariant OnlyIndices(old(states), states, added)
        invariant allStates == old(allStates) && initialState == old(initialState) && canonicalSets == old(canonicalSets)
        invariant forall a :: a in added ==>
          a in allStates && a !in todo && !IsComposite(old(states[a])) && old(states[a].index) != 0 &&
          MoveCodeNeeded(old(states), old(canonicalSets), a) && a !in members
        invariant forall s :: (s in old(allStates) && s !in todo && old(states[s].index) != 0 && !IsComposite(old(states[s])) &&
          MoveCodeNeeded(old(states), old(canonicalSets), s) && s !in members) ==> s in added
        invariant SameTables(old(regularExpressions), old(tokenProductions),
                             old(caseSensitiveTokenTable), old(caseInsensitiveTokenTable))
        decreases todo
      {
        var s :| s in todo;
        todo := todo - {s};
        idx, added := NumberMoveState(s, idx, members, given0, added, old(states), idx0);
      }
    }

    /** One iteration of the second pass of indexStates. */
    method NumberMoveState(s: StateId, idx0: int, members: set<StateId>, ghost given0: set<StateId>,
                           ghost added0: set<StateId>, ghost orig: seq<NfaState>, ghost lo: int)
      returns (idx: int, ghost added: set<StateId>)
      requires Valid() && ArenaOk(orig) && CacheOk(orig, canonicalSets)
      requires OnlyIndices(orig, states, added0) && s < |orig| && Known(orig, canonicalSets, s) && s !in added0
      requires idx0 >= 1 && NumberedBelow(states, given0 + added0, idx0) && given0 !! added0
      requires IndexedIn(states, added0, lo, idx0) && idx0 >= lo
      requires forall a :: a in given0 ==> a < |orig| && IsComposite(orig[a])
      modifies this
      ensures Valid() && NumberedBelow(states, given0 + added, idx) && given0 !! added
      ensures idx - idx0 == |added| - |added0| && IndexedIn(states, added, lo, idx)
      ensures OnlyIndices(orig, states, added)
      ensures added == if orig[s].index != 0 && !IsComposite(orig[s]) && MoveCodeNeeded(orig, old(canonicalSets), s) &&
                          s !in members then added0 + {s} else added0
      ensures allStates == old(allStates) && initialState == old(initialState) && canonicalSets == old(canonicalSets)
      ensures SameTables(old(regularExpressions), old(tokenProductions),
                         old(caseSensitiveTokenTable), old(caseInsensitiveTokenTable))
    {
      idx, added := idx0, added0;
      IndicesIrrelevant(orig, states, added, canonicalSets, s);
      var numbered := NeedsMoveIndex(s, members);
      if numbered {
        assert s !in given0 by {
          assert states[s].members == orig[s].members;
        }
        idx, added := NumberInBlock(s, idx, given0, added, orig, lo);
      }
    }

    /** The next index goes to s, which joins the block [lo, idx) handed out so far. */
    method NumberInBlock(s: StateId, idx0: int, ghost given0: set<StateId>, ghost added0: set<StateId>,
                         ghost orig: seq<NfaState>, ghost lo: int)
      returns (idx: int, ghost added: set<StateId>)
      requires Valid() && s < |states| && s !in added0
      requires idx0 >= 1 && NumberedBelow(states, given0 + added0, idx0)
      requires IndexedIn(states, added0, lo, idx0) && idx0 >= lo
      requires OnlyIndices(orig, states, added0)
      modifies this
      ensures Valid() && idx == idx0 + 1 && added == added0 + {s} && |added| == |added0| + 1
      ensures NumberedBelow(states, given0 + added, idx) && IndexedIn(states, added, lo, idx)
      ensures OnlyIndices(orig, states, added)
      ensures allStates == old(allStates) && initialState == old(initialState) && canonicalSets == old(canonicalSets)
      ensures SameTables(old(regularExpressions), old(tokenProductions),
                         old(caseSensitiveTokenTable), old(caseInsensitiveTokenTable))
    {
      assert given0 + added0 + {s} == given0 + (added0 + {s});
      NumberNext(s, idx0, given0 + added0, orig, added0);
      IndexedInStep(old(states), states, added0, s, idx0, lo);
      added := added0 + {s};
      idx := idx0 + 1;
    }

    /** The condition of the second pass of indexStates, on a state whose canonical
        state is known (so that asking isMoveCodeNeeded creates nothing). */
    method NeedsMoveIndex(s: StateId, members: set<StateId>) returns (b: bool)
      requires Valid() && s < |states| && Known(states, canonicalSets, s)
      modifies this
      ensures Valid() && states == old(states) && canonicalSets == old(canonicalSets)
      ensures b == (states[s].index != 0 && !IsComposite(states[s]) &&
                    MoveCodeNeeded(states, canonicalSets, s) && s !in members)
      ensures allStates == old(allStates) && initialState == old(initialState)
      ensures SameTables(old(regularExpressions), old(tokenProductions),
                         old(caseSensitiveTokenTable), old(caseInsensitiveTokenTable))
    {
      b := false;
      if states[s].index != 0 && !IsComposite(states[s]) {
        var needed := IsMoveCodeNeeded(s);
        b := needed && s !in members;
      }
    }

    /** The last pass of indexStates as the source has it: every member of a collected
        composite is numbered. */
    method IndexMembers(idx0: int, members: set<StateId>, ghost given0: set<StateId>)
      returns (idx: int, ghost given: set<StateId>)
      requires Valid() && idx0 >= 1 && NumberedBelow(states, given0, idx0)
      requires forall m :: m in members ==> m < |states|
      modifies this
      ensures Valid() && idx == idx0 + |members| && NumberedBelow(states, given, idx)
      ensures given == given0 + members
      ensures OnlyIndices(old(states), states, members)
      ensures IndexedIn(states, members, idx0, idx)
      ensures allStates == old(allStates) && initialState == old(initialState) && canonicalSets == old(canonicalSets)
      ensures SameTables(old(regularExpressions), old(tokenProductions),
                         old(caseSensitiveTokenTable), old(caseInsensitiveTokenTable))
    {
      idx := idx0;
      given := given0;
      var todo := members;
      while todo != {}
        invariant Valid() && idx >= idx0 && idx == idx0 + |members| - |todo| && NumberedBelow(states, given, idx)
        invariant todo <= members && given == given0 + (members - todo)
        invariant OnlyIndices(old(states), states, members - todo)
        invariant IndexedIn(states, members - todo, idx0, idx)
        invariant allStates == old(allStates) && initialState == old(initialState) && canonicalSets == old(canonicalSets)
        invariant SameTables(old(regularExpressions), old(tokenProductions),
                             old(caseSensitiveTokenTable), old(caseInsensitiveTokenTable))
        decreases todo
      {
        var m :| m in todo;
        ghost var done;
        idx, done := NumberInBlock(m, idx, given0, members - todo, old(states), idx0);
        MoveDone(members, todo, m);
        todo := todo - {m};
        given := given0 + done;
      }
    }

    /** allStates.removeIf(state -> state.index < 0). */
    method RemoveUnindexed()
      requires Valid()
      modifies this
      ensures Valid()
      ensures allStates == set s | s in old(allStates) && s < |states| && states[s].index >= 0
      ensures states == old(states) && initialState == old(initialState) && canonicalSets == old(canonicalSets)
      ensures SameTables(old(regularExpressions), old(tokenProductions),
                         old(caseSensitiveTokenTable), old(caseInsensitiveTokenTable))
    {
      allStates := set s | s in allStates && s < |states| && states[s].index >= 0;
    }

    /** getAllNfaStates: the states of allStates in ascending index order. */
    method GetAllNfaStates() returns (result: seq<StateId>)
      requires Valid()
      ensures ByIndex(states, result)
      ensures forall s :: s in result <==> s in allStates
      ensures |result| == |allStates|
    {
      result := [];
      var todo := allStates;
      while todo != {}
        invariant todo <= allStates && ByIndex(states, result)
        invariant forall s :: s in result <==> s in allStates - todo
        invariant |result| == |allStates - todo|
        decreases todo
      {
        var s :| s in todo;
        assert allStates - (todo - {s}) == (allStates - todo) + {s};
        todo := todo - {s};
        result := InsertByIndex(states, s, result);
      }
    }
  }

  /** Insertion into a list in ascending index order. */
  function InsertByIndex(states: seq<NfaState>, x: StateId, ids: seq<StateId>): (r: seq<StateId>)
    requires x < |states| && ByIndex(states, ids)
    ensures ByIndex(states, r) && |r| == |ids| + 1
    ensures forall s :: s in r <==> s == x || s in ids
  {
    if ids == [] || states[x].index <= states[ids[0]].index then [x] + ids
    else
      var rest := InsertByIndex(states, x, ids[1..]);
      assert rest == [] || rest[0] == x || rest[0] in ids[1..];
      [ids[0]] + rest
  }

  /**
   * The states of TOKEN: <T: ("a" ("b")*)+> that matter to indexStates: the initial
   * state 0, whose only epsilon move leads to state 1 (moving on "a"); state 2
   * (moving on "b"); and the composite 3 of {1, 2}, where the lexer is after an "a".
   */
  method LoopArena() returns (lsd: LexicalStateData)
    ensures fresh(lsd) && lsd.Valid()
    ensures |lsd.states| == 4 && lsd.allStates == {0, 1, 2, 3} && lsd.initialState == 0
    ensures lsd.states[0] == FreshState().(epsilonMoves := {1})
    ensures lsd.states[1] == FreshState().(moveRanges := ['a' as nat, 'a' as nat])
    ensures lsd.states[2] == FreshState().(moveRanges := ['b' as nat, 'b' as nat])
    ensures lsd.states[3] == FreshComposite({1, 2}) && lsd.canonicalSets == map[{1, 2} := 3]
  {
    lsd := LoopArenaStates();
    assert |{1, 2}| == 2;
    var composite := lsd.GetCanonicalComposite({1, 2});
  }

  /** The arena's three plain states, before the composite is made. */
  method LoopArenaStates() returns (lsd: LexicalStateData)
    ensures fresh(lsd) && lsd.Valid()
    ensures |lsd.states| == 3 && lsd.allStates == {0, 1, 2} && lsd.initialState == 0
    ensures lsd.states[0] == FreshState().(epsilonMoves := {1})
    ensures lsd.states[1] == FreshState().(moveRanges := ['a' as nat, 'a' as nat])
    ensures lsd.states[2] == FreshState().(moveRanges := ['b' as nat, 'b' as nat])
    ensures lsd.canonicalSets == map[]
  {
    lsd := new LexicalStateData("DEFAULT");
    var a := lsd.NewState();
    var b := lsd.NewState();
    lsd.AddRange(a, 'a' as nat, 'a' as nat);
    lsd.AddRange(b, 'b' as nat, 'b' as nat);
    lsd.AddEpsilonMove(0, a);
  }

  /**
   * indexStates as written on that arena: state 1 becomes the initial state, and being
   * a member of the composite it is renumbered in the last pass, so the initial state's
   * index ends up not 0.
   */
  method InitialStateRenumbered() returns (initialIndex: int)
    ensures initialIndex != 0
  {
    var lsd := LoopArena();
    ghost var given, members, before, composites, moveStates := lsd.IndexStatesAsWritten();
    assert lsd.states[0].epsilonMoves == {1};
    assert lsd.initialState == 1;
    assert before[3] == FreshComposite({1, 2});
    assert 1 in members;
    initialIndex := lsd.states[lsd.initialState].index;
  }

  /** The corrected indexStates on the same arena keeps the initial state's index at 0. */
  method InitialStateKept() returns (initialIndex: int)
    ensures initialIndex == 0
  {
    var lsd := LoopArena();
    ghost var given, members, before, composites, moveStates := lsd.IndexStates();
    initialIndex := lsd.states[lsd.initialState].index;
  }
}
