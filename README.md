# CongoCC static analysis core, modelled in Dafny

CongoCC is a parser generator. Before it emits any code, it analyses the grammar it has read. The model covers three parts of that analysis.

- **Token sets and the NFA engine.**
  - `TokenSet` is a set of token ordinals, with complement over the grammar's token universe.
  - The character-range helpers of `NfaBuilder` turn character classes into canonical range lists.
  - `NfaState` and `CompositeStateSet` are the states of a lexical state's NFA.
  - `LexicalStateData` does the epsilon closure, the canonical composite states, and the numbering of states (`indexStates`).
  - `NfaBuilder` turns each regular expression into NFA fragments.
  - `LexerData` is the registry of regular expressions, ordinals and lexical states, including `ensureStringLabels` and `checkUnmatchability`.
- **The expansion algebra.**
  - Every kind of expansion (sequence, choice, non-terminal, token reference, the repetition forms, empty expansions) answers the same questions about itself.
  - Those questions are: possible emptiness, minimum and maximum size, FIRST, FINAL and FOLLOW sets, whether it always succeeds, the lookahead that governs it, lexical-state switches, scan limits, single-token-ness, and whether it can start with a given production.
  - Each production (`BNFProduction`) adds its derived names, return type and access modifier, and its left-recursion test.
- **Validation.** `SanityChecker.doChecks` runs the grammar's checks in their ordered phases:
  - undefined non-terminals;
  - checks on productions and expansions;
  - regular expressions that match the empty string;
  - token naming and literal consolidation;
  - reference resolution;
  - detection of self-referential loops among regular expressions.

Each Java class becomes a module:

| module | file | models |
|---|---|---|
| `Util` | util.dfy | `Option`/`Result`, `Integer.MAX_VALUE`, integer-to-string, `String.replace` |
| `TokenSets` | token_set.dfy | `TokenSet` |
| `CharRanges` | char_ranges.dfy | the static range helpers of `NfaBuilder` |
| `NfaStates` | nfa_state.dfy | `NfaState`, `CompositeStateSet` |
| `LexicalStates` | lexical_state_data.dfy | `LexicalStateData` |
| `Regexps` | regexps.dfy | `RegularExpression` and the regular-expression tree |
| `NfaBuilders` | nfa_builder.dfy | `NfaBuilder` |
| `LexerDatas` | lexer_data.dfy | `LexerData` |
| `Expansions` | expansions.dfy | the expansion tree, `Lookahead`, the productions of a grammar |
| `ExpansionFacts` | expansion_facts.dfy | the facts every expansion answers about itself |
| `ExpansionLemmas`, `LeafFacts` | expansion_lemmas.dfy, leaf_facts.dfy | what those facts satisfy |
| `ExpansionLoops` | expansion_loops.dfy | the loops of `ExpansionSequence` and `ExpansionChoice` |
| `ExpansionContext` | expansion_context.dfy | `Expansion`'s questions about where a node sits (FOLLOW, choice points, lookahead decisions) |
| `BnfProductions`, `ExpansionNames` | productions.dfy, set_var_names.dfy | `BNFProduction`, and the set variable names |
| `LeftRecursion` | left_recursion.dfy | `isLeftRecursive` and `potentiallyStartsWith` |
| `GrammarWalks`, `SanityChecks`, `TokenChecks`, `RegexpVisitors`, `SanityCheckers` | grammar_walk.dfy, sanity_checks.dfy, token_checks.dfy, regexp_visitor.dfy, sanity_checker.dfy | `SanityChecker` |

Object identity, modelled:
- An NFA state is a position in its lexical state's arena (`states: seq<NfaState>`).
- A regular expression is an object of the class `Regexps.RegularExpression`.
- A non-terminal node carries a `site` number.
- A node of an expansion tree is addressed by its path from the production root.

Recursion through non-terminals, modelled:
- The size and FINAL queries guard each non-terminal node with a flag, and answer `MAX_VALUE` or the empty set on re-entry. The model tracks the raised flags as a set of sites, `inCall`.
- FIRST is cached. `ExpansionChoice` and `ExpansionSequence` store an empty set in their cache before they loop (ExpansionChoice.java:33-39, ExpansionSequence.java:79-88). A re-entry through a non-terminal therefore ends, and it returns the members gathered so far.
  - The model carries the set of productions being evaluated, `visiting`. On re-entry it answers the empty set.
  - The members Java's re-entry returns were gathered by an enclosing call, so they also reach that call's own result. The model does not prove that the two outermost answers coincide.
  - An expansion on the cycle keeps in its cache the partial set it saw. Java's later FIRST answer for it therefore depends on which expansion was asked first. The model computes each FIRST set afresh and has no such dependence.
- The other queries recurse without a guard: possible emptiness, always-successful, scan limits (`getHasScanLimit`, ExpansionSequence.java:198-211, NonTerminal.java:116-117, BNFProduction.java:93-95), requires-scan-ahead (ExpansionSequence.java:104-121), lexical-state switches, token activation, single-token and lookahead resolution. Re-entering a production while it is being evaluated never ends. The model carries `visiting` and on re-entry answers the least value (false, no lookahead).
- `LeftRecursion.PossiblyEmptyAgrees` and `LeftRecursion.EndsIffNoReentry` show that this changes no answer wherever the Java recursion terminates.

## Model

| member | source | states |
|---|---|---|
| Util.Below | src/java/org/congocc/core/TokenSet.java:115 | the live universe of a token set: exactly the ordinals below the token count |
| Util.FlipBits | src/java/org/congocc/core/TokenSet.java:114-116 | flipping [0, n) toggles membership below n and keeps it at or above n |
| Util.FlipTwice | src/java/org/congocc/core/TokenSet.java:114-116 | flipping the same range twice restores the original set |
| Util.FlipCardinality | src/java/org/congocc/core/TokenSet.java:114-116 | a set inside the universe of n tokens has n minus its size members once flipped |
| Util.NatToString | src/java/org/congocc/core/RegularExpression.java:93-95 | the decimal rendering of an ordinal is a non-empty run of digits |
| Util.IntToString | src/java/org/congocc/core/NfaState.java:63-68 | String.valueOf of an int is non-empty, starts with '-' exactly when the value is negative, and is digits after that sign |
| Util.NatToStringLength | src/java/org/congocc/core/NfaState.java:63-68 | a rendering is one character long exactly when the value is below ten |
| Util.NatToStringInjective | src/java/org/congocc/core/NfaState.java:63-68 | two different non-negative values render differently |
| Util.IntToStringInjective | src/java/org/congocc/core/NfaState.java:63-68 | String.valueOf is injective on all ints, negative ones included, so an index in a generated name identifies the state |
| Util.ReplaceAbsent | src/java/org/congocc/core/CompositeStateSet.java:44-46 | String.replace leaves a string without the target unchanged |
| TokenSets.SetOrdinalsExact | src/java/org/congocc/core/TokenSet.java:68-77 | the ordinals the name loop visits are exactly the set ones below the token count, strictly ascending |
| TokenSets.NamesFollowOrdinals | src/java/org/congocc/core/TokenSet.java:68-77 | the k-th listed name is the name of the k-th set ordinal: one name per set bit, in ascending ordinal order |
| TokenSets.FirstTokenNameIsSmallest | src/java/org/congocc/core/TokenSet.java:79-87 | the first token name is absent iff no ordinal below the token count is set, and otherwise names the smallest set ordinal |
| TokenSets.AppendedIsJoinPlusSeparator | src/java/org/congocc/core/TokenSet.java:105-111 | appending each name followed by ", " gives the names joined by ", " plus one trailing separator, so cutting two characters leaves no trailing separator |
| TokenSets.Word | src/java/org/congocc/core/TokenSet.java:59-60 | one long of toLongArray holds 64 bits |
| TokenSets.MaxOf | src/java/org/congocc/core/TokenSet.java:59-60 | the highest set bit, which fixes how many words BitSet.toLongArray returns |
| TokenSets.TokenSet.constructor | src/java/org/congocc/core/TokenSet.java:42-49 | a new set is empty and its incomplete flag is the one given |
| TokenSets.TokenSet.SetIncomplete | src/java/org/congocc/core/TokenSet.java:55-57 | the flag is exactly the value stored last, and the bits are unchanged |
| TokenSets.TokenSet.Set | src/java/org/congocc/core/TokenSet.java:34 | BitSet.set adds one ordinal and leaves the flag alone |
| TokenSets.TokenSet.Or | src/java/org/congocc/core/TokenSet.java:34 | BitSet.or is the union and leaves the flag alone |
| TokenSets.TokenSet.Not | src/java/org/congocc/core/TokenSet.java:114-116 | not() flips exactly the bits below the token count, keeps every bit at or above it, and keeps the flag |
| TokenSets.TokenSet.GetTokenNames | src/java/org/congocc/core/TokenSet.java:68-77 | the loop returns the names of the set ordinals below the token count in ascending order (see NamesFollowOrdinals) |
| TokenSets.TokenSet.GetTokenSetNames | src/java/org/congocc/core/TokenSet.java:90-99 | returns the same list as GetTokenNames |
| TokenSets.TokenSet.GetFirstTokenName | src/java/org/congocc/core/TokenSet.java:79-87 | the loop returns the name of the smallest set ordinal, or nothing (see FirstTokenNameIsSmallest) |
| TokenSets.TokenSet.GetCommaDelimitedTokens | src/java/org/congocc/core/TokenSet.java:101-112 | at most one bit set: the first token name; otherwise the names joined by ", " with no trailing separator; with two or more bits set but none below the token count, the truncation throws |
| TokenSets.TokenSet.ToLongArray | src/java/org/congocc/core/TokenSet.java:59-66 | at least 1 + tokenCount/64 words, the bit set's own words as a prefix, zero padding after them, and bit b is set iff it is in the set |
| TokenSets.PrefixOfNames | src/java/org/congocc/core/TokenSet.java:68-87 | the names listed below i are a prefix of those listed below any larger bound, which is why the first-name loop may stop early |
| CharRanges.Interval | src/java/org/congocc/core/NfaBuilder.java:232 | BitSet.set(left, right + 1): exactly the code points from left to right |
| CharRanges.InRanges | src/java/org/congocc/core/NfaBuilder.java:229-235 | a code point is in the set of a range list iff one of the ranges holds it |
| CharRanges.InRangesSome | src/java/org/congocc/core/NfaBuilder.java:229-235 | a covered code point has a range that holds it |
| CharRanges.CanonicalOrdered | src/java/org/congocc/core/NfaBuilder.java:238-249 | in the list bsToRangeList produces, every later range lies wholly above every earlier one with a gap |
| CharRanges.RangeListToBS | src/java/org/congocc/core/NfaBuilder.java:229-235 | BitSet.set(left, right + 1) throws exactly when some range has left > right + 1; otherwise the loop's bit set is the union of the ranges |
| CharRanges.NextSetBit | src/java/org/congocc/core/NfaBuilder.java:243-246 | BitSet.nextSetBit: the smallest member at or after `from`, or -1 when there is none |
| CharRanges.NextClearBit | src/java/org/congocc/core/NfaBuilder.java:244 | BitSet.nextClearBit: the smallest non-member at or after `from` |
| CharRanges.BsToRangeList | src/java/org/congocc/core/NfaBuilder.java:238-249 | the result is ascending, every range non-empty, neighbours disjoint and non-adjacent, and its union is exactly the set |
| CharRanges.RunsStep | src/java/org/congocc/core/NfaBuilder.java:242-247 | one turn of the loop keeps the runs canonical, covers every member below the new cursor, and moves the cursor forward |
| CharRanges.RunStep | src/java/org/congocc/core/NfaBuilder.java:243-246 | one run found by nextSetBit/nextClearBit covers every member up to the next run, or all remaining members |
| CharRanges.NegationComplements | src/java/org/congocc/core/NfaBuilder.java:206-208 | a negated class accepts a code point below 0x110000 iff the un-negated class rejects it |
| CharRanges.CaseExpansionAdds | src/java/org/congocc/core/NfaBuilder.java:198-205 | case-neutral expansion keeps every member and adds both case images of a member below 0x16e80 |
| CharRanges.ExpandedBelowLimit | src/java/org/congocc/core/NfaBuilder.java:198-205 | the case-expanded set stays below 0x110000 |
| CharRanges.OrderedRanges | src/java/org/congocc/core/NfaBuilder.java:196-210 | the canonical range list of the class's (case-expanded, possibly complemented) code-point set |
| CharRanges.MaxInLast | src/java/org/congocc/core/NfaBuilder.java:238-249 | in a canonical list the last range ends at the largest covered code point |
| CharRanges.LastRunStart | src/java/org/congocc/core/NfaBuilder.java:238-249 | the last range of a canonical list is a maximal run |
| CharRanges.SplitLast | src/java/org/congocc/core/NfaBuilder.java:238-249 | without its last range a canonical list covers exactly the members below that range's gap |
| CharRanges.SameLast | src/java/org/congocc/core/NfaBuilder.java:238-249 | two canonical lists covering the same set end with the same range |
| CharRanges.SameInit | src/java/org/congocc/core/NfaBuilder.java:238-249 | and without that range they still cover the same set |
| CharRanges.NonEmptyCovers | src/java/org/congocc/core/NfaBuilder.java:240 | a non-empty canonical list covers some code point, so an empty set gives the empty list |
| CharRanges.CanonicalUnique | src/java/org/congocc/core/NfaBuilder.java:238-249 | a set has exactly one canonical range list |
| CharRanges.RangeListRoundTrip | src/java/org/congocc/core/NfaBuilder.java:228-249 | bsToRangeList(rangeListToBS(l)) == l for a canonical list l (and rangeListToBS(bsToRangeList(b)) == b is BsToRangeList's own ensures) |
| NfaStates.FreshState | src/java/org/congocc/core/NfaState.java:34-49 | a new state has index -1, no moves, no epsilon moves, no type, no next state, and no closure done yet |
| NfaStates.FreshComposite | src/java/org/congocc/core/CompositeStateSet.java:28-33 | a new composite holds a copy of the given member set (a value, so later changes to the caller's set cannot reach it) and otherwise starts as a plain state |
| NfaStates.CompositeEqualsIsMemberEquality | src/java/org/congocc/core/CompositeStateSet.java:48-51 | two composites are equal iff their member sets are equal |
| NfaStates.OrdinalSentinel | src/java/org/congocc/core/NfaState.java:98-101 | with token ordinals below Integer.MAX_VALUE, the ordinal lies in [0, MAX_VALUE] and is MAX_VALUE exactly for a state without a type |
| NfaStates.LargerOrdinalFirst | src/java/org/congocc/core/NfaState.java:210-219 | a state whose next state has the larger ordinal sorts strictly first, in both argument orders |
| NfaStates.NonAcceptingNextFirst | src/java/org/congocc/core/NfaState.java:210-219 | a state whose next state accepts nothing sorts before one whose next state accepts a token |
| NfaStates.AsciiLength | src/java/org/congocc/core/NfaState.java:72-83 | the length of the ASCII part is even and within the move list |
| NfaStates.AsciiPrefixShape | src/java/org/congocc/core/NfaState.java:72-83 | the ASCII part holds the pairs that start below 128, up to and including the first that reaches 128; what follows starts at or above 128 or follows that pair |
| NfaStates.GetAsciiMoveRanges | src/java/org/congocc/core/NfaState.java:72-83 | the loop returns that even-length prefix of the move ranges |
| NfaStates.GetNonAsciiMoveRanges | src/java/org/congocc/core/NfaState.java:85-87 | the rest of the move ranges after the ASCII part |
| NfaStates.AsciiSplit | src/java/org/congocc/core/NfaState.java:72-87 | the ASCII part is an even-length prefix, and it followed by the non-ASCII part is the move list |
| NfaStates.HasAsciiMovesIffAsciiPart | src/java/org/congocc/core/NfaState.java:89-91 | getHasAsciiMoves holds iff the ASCII part is non-empty |
| NfaStates.Insert | src/java/org/congocc/core/NfaState.java:156-157 | one insertion step of Collections.sort: sorted result, same elements plus one |
| NfaStates.Sort | src/java/org/congocc/core/NfaState.java:156-157 | Collections.sort on integers: ascending, a permutation of its input |
| NfaStates.SortedUnique | src/java/org/congocc/core/NfaState.java:156-157 | two ascending lists with the same elements are equal, so the sort's result does not depend on how it sorts |
| NfaStates.Doubled | src/java/org/congocc/core/NfaState.java:139-142 | a list of degenerate ranges: every character appears as [c, c] |
| NfaStates.DoubledMultiset | src/java/org/congocc/core/NfaState.java:144-158 | the degenerate ranges hold each character twice and nothing else |
| NfaStates.DoubledSorted | src/java/org/congocc/core/NfaState.java:144-158 | degenerate ranges of an ascending list are ascending |
| NfaStates.CaseVariants | src/java/org/congocc/core/NfaState.java:144-158 | the characters setCharMove adds: c alone, or the upper case, the lower case when it differs, and c when it differs from both; 1 to 3 of them |
| NfaStates.CharMoves | src/java/org/congocc/core/NfaState.java:144-158 | the move list a single-character move leaves has even length (whole ranges) |
| NfaStates.SortDistinctIncreasing | src/java/org/congocc/core/NfaState.java:156-157 | sorting distinct characters leaves them strictly ascending |
| NfaStates.VariantsDistinct | src/java/org/congocc/core/NfaState.java:149-155 | the added characters are pairwise different |
| NfaStates.CharMovesDoubled | src/java/org/congocc/core/NfaState.java:144-158 | sorting the flat list of degenerate ranges gives the degenerate ranges of the sorted characters |
| NfaStates.CharMovesAreSortedVariants | src/java/org/congocc/core/NfaState.java:144-158 | setCharMove(c, false) leaves [c, c]; setCharMove(c, true) leaves 1 to 3 degenerate ranges, no duplicates, drawn from exactly {upper(c), lower(c), c}, strictly ascending |
| NfaStates.VariantsMembers | src/java/org/congocc/core/NfaState.java:149-155 | the added characters are exactly c, and with ignoreCase its upper and lower case |
| NfaStates.PlainMethodNamesDistinct | src/java/org/congocc/core/NfaState.java:63-68 | within one lexical state, two indices with the same method name are equal |
| NfaStates.DigitsHaveNoUnderscore | src/java/org/congocc/core/CompositeStateSet.java:44-46 | a string without '_' holds no "NFA_" |
| NfaStates.IntToStringNoUnderscore | src/java/org/congocc/core/NfaState.java:66-67 | a rendered index holds no '_' |
| NfaStates.MethodName | src/java/org/congocc/core/NfaState.java:63-68 | getMethodName of a plain state or a composite (CompositeStateSet.java:44-46); NfaStates.PlainMethodNamesDistinct, NfaStates.CompositeNameInDefaultState and NfaStates.CompositeNameInOtherState state what it answers |
| NfaStates.CompositeNameInDefaultState | src/java/org/congocc/core/CompositeStateSet.java:44-46 | in DEFAULT a composite's method name is "NFA_COMPOSITE_" + index |
| NfaStates.CompositeNameInOtherState | src/java/org/congocc/core/CompositeStateSet.java:44-46 | in another state whose name holds no "NFA_", it is "NFA_COMPOSITE_" + state + "_" + index |
| NfaStates.Pairs | src/java/org/congocc/core/NfaState.java:194-202 | the flat move list read as ranges: pair i is [moves[2i], moves[2i+1]] |
| NfaStates.MoveRangesToBS | src/java/org/congocc/core/NfaState.java:194-202 | the loop's bit set is the union of the move ranges |
| NfaStates.OverlapWitness | src/java/org/congocc/core/NfaState.java:190-192 | two distinct states overlap if and only if some code point lies in a move range of each |
| NfaStates.Intersect | src/java/org/congocc/core/NfaState.java:204-208 | true exactly when the two move lists, read as code-point sets, share a code point |
| NfaStates.Overlaps | src/java/org/congocc/core/NfaState.java:186-192 | true exactly when some state of the collection is the state itself or shares a code point of its move ranges |
| NfaStates.Comparator | src/java/org/congocc/core/NfaState.java:210-219 | NfaState.comparator; NfaStates.ComparatorIsKeyOrder, NfaStates.ComparatorTotalPreorder, NfaStates.LargerOrdinalFirst and NfaStates.NonAcceptingNextFirst state its order |
| NfaStates.ComparatorIsKeyOrder | src/java/org/congocc/core/NfaState.java:210-219 | the comparator's sign is the lexicographic order on (descending next-state ordinal, ascending first left end, ascending first right end, longer range list first) |
| NfaStates.ComparatorTotalPreorder | src/java/org/congocc/core/NfaState.java:210-219 | the comparator is total and transitive, as Collections.sort needs |
| NfaStates.InsertByComparator | src/java/org/congocc/core/CompositeStateSet.java:58-62 | one insertion step of the sort: same states plus one |
| NfaStates.ConsSortedByComparator | src/java/org/congocc/core/CompositeStateSet.java:58-62 | a state that precedes every state of a sorted list may head it |
| NfaStates.InsertedAfterHead | src/java/org/congocc/core/CompositeStateSet.java:58-62 | an insertion further on keeps every state after the head |
| NfaStates.InsertKeepsSorted | src/java/org/congocc/core/CompositeStateSet.java:58-62 | inserting into a list in comparator order keeps it in comparator order |
| NfaStates.GetOrderedStates | src/java/org/congocc/core/CompositeStateSet.java:58-62 | the result is a permutation of the member set; with two or more members it is sorted by the comparator; with fewer the comparator is never consulted |
| NfaStates.SortMembers | src/java/org/congocc/core/CompositeStateSet.java:58-62 | Collections.sort over two or more comparable states: a permutation in comparator order |
| LexicalStates.CanonicalOf | src/java/org/congocc/core/NfaState.java:117-123 | a composite, or a state without epsilon moves, is its own canonical state; a state with exactly one epsilon move stands for that target; any other stands for the cached composite whose members are its epsilon moves |
| LexicalStates.CanonicalStable | src/java/org/congocc/core/NfaState.java:117-123 | growing the arena and the composite cache leaves a known canonical state unchanged |
| LexicalStates.StepCompose | src/java/org/congocc/core/NfaState.java:169-184 | two rounds of closure compose into one that obeys the same rules for a state |
| LexicalStates.ClosureStepSameMoves | src/java/org/congocc/core/NfaState.java:169-184 | closure never changes a state's move ranges |
| LexicalStates.ClosureStepShrinksNotDone | src/java/org/congocc/core/NfaState.java:169-171 | closure never un-marks a closed state (the guard's termination measure) |
| LexicalStates.ClosureStepTrans | src/java/org/congocc/core/NfaState.java:169-184 | closure steps compose |
| LexicalStates.ExtendsTrans | src/java/org/congocc/core/LexicalStateData.java:109-120 | growing the arena and cache by composites is transitive |
| LexicalStates.MergedStable | src/java/org/congocc/core/LexicalStateData.java:141-149 | creating composites keeps the canonical states already computed |
| LexicalStates.MergeStep | src/java/org/congocc/core/LexicalStateData.java:142-148 | one turn of addCompositeStates keeps its invariant: processed states have a known canonical state that is listed or was itself replaced, and every listed state was listed at the start or is some processed state's canonical state |
| LexicalStates.IndicesIrrelevant | src/java/org/congocc/core/LexicalStateData.java:151-175 | renumbering changes no canonical state and no answer of isMoveCodeNeeded, so the order of the numbering passes does not affect their conditions |
| LexicalStates.NumberOne | src/java/org/congocc/core/LexicalStateData.java:159-172 | handing out idx++ keeps the indices given so far positive and pairwise distinct |
| LexicalStates.ClosedPreserved | src/java/org/congocc/core/NfaState.java:169-184 | whether a state is closed depends only on epsilon moves and move ranges |
| LexicalStates.LexicalStateData.constructor | src/java/org/congocc/core/LexicalStateData.java:60-65 | a new lexical state holds exactly its initial state, which is registered in allStates; its tables are empty |
| LexicalStates.LexicalStateData.AddTokenProduction | src/java/org/congocc/core/LexicalStateData.java:85-87 | appends the production and changes nothing else |
| LexicalStates.LexicalStateData.IsEmpty | src/java/org/congocc/core/LexicalStateData.java:71-73 | isEmpty: no expression registered; a new lexical state is empty (LexerDatas.LexerData.AddLexicalState) and stops being so at the first AddRegularExpression |
| LexicalStates.LexicalStateData.ContainsRegularExpression | src/java/org/congocc/core/LexicalStateData.java:89-91 | containsRegularExpression: the expression is registered; AddRegularExpression makes it hold for the added expression and changes it for no other |
| LexicalStates.LexicalStateData.AddRegularExpression | src/java/org/congocc/core/LexicalStateData.java:185 | afterwards the state contains exactly the expressions it contained before plus the new one, and is no longer empty |
| LexicalStates.LexicalStateData.GetStringLiteral | src/java/org/congocc/core/LexicalStateData.java:101-107 | the case-sensitive entry for the exact image first, then the case-insensitive entry for the upper-cased image, else nothing |
| LexicalStates.LexicalStateData.AddStringLiteral | src/java/org/congocc/core/LexicalStateData.java:93-99 | files the literal in the table its ignore-case flag picks (upper-cased key when ignoring case), replacing any earlier entry, so a lookup of its image finds it |
| LexicalStates.LexicalStateData.NewState | src/java/org/congocc/core/NfaState.java:46-49 | a new state has index -1 and is added to its lexical state's allStates |
| LexicalStates.LexicalStateData.AddRange | src/java/org/congocc/core/NfaState.java:139-142 | appends exactly [left, right] to the state's move ranges and changes nothing else |
| LexicalStates.LexicalStateData.SetCharMove | src/java/org/congocc/core/NfaState.java:144-158 | the state's move ranges become the single-character moves of c (see CharMovesAreSortedVariants) and nothing else changes |
| LexicalStates.LexicalStateData.AddEpsilonMove | src/java/org/congocc/core/NfaState.java:135-137 | adds one epsilon target and changes nothing else |
| LexicalStates.LexicalStateData.SetNextState | src/java/org/congocc/core/NfaState.java:113 | sets the next state and changes nothing else |
| LexicalStates.LexicalStateData.SetType | src/java/org/congocc/core/NfaState.java:131-133 | sets the accepted expression and changes nothing else |
| LexicalStates.LexicalStateData.GetCanonicalComposite | src/java/org/congocc/core/LexicalStateData.java:109-120 | a one-state set yields its state; any other set yields the composite cached under it, with exactly those members; a new composite is created and cached only on a cache miss, so equal sets get the same composite |
| LexicalStates.LexicalStateData.GetCanonicalState | src/java/org/congocc/core/NfaState.java:117-123 | returns CanonicalOf the state, creating at most one composite, and none when it is already known |
| LexicalStates.LexicalStateData.IsMoveCodeNeeded | src/java/org/congocc/core/NfaState.java:125-129 | true for a composite (src/java/org/congocc/core/CompositeStateSet.java:39-41); false when the canonical state is a composite or there is no next state; else whether the next state has a type or epsilon moves |
| LexicalStates.LexicalStateData.DoEpsilonClosure | src/java/org/congocc/core/NfaState.java:169-184 | idempotent (a closed state is left alone); afterwards the state is closed: every epsilon target moves on some character, the state is its own target iff it moves itself, and a type once set is never overwritten; for a state not closed before, every epsilon move that moves on some character of each former target is now a target of the state (`Absorbed`), and a state without a type gets one exactly when a former target other than itself has one, and then it is the type of such a target (`InheritedType`) |
| LexicalStates.LexicalStateData.FinishClosure | src/java/org/congocc/core/NfaState.java:182-183 | adding the state itself and dropping targets without moves makes the state closed, keeps every moving target gathered from the former targets (`Absorbed`) and keeps the inherited type (`InheritedType`) |
| LexicalStates.LexicalStateData.CloseAndInherit | src/java/org/congocc/core/NfaState.java:173-181 | one turn of the closure loop: the target ends closed; every epsilon move of the target is now an epsilon move of the state; the state takes the target's type when it had none and keeps its own otherwise (and keeps it when the target is the state itself); every other state already closed is left as it was (`DoneKept`) |
| LexicalStates.LexicalStateData.AddTargets | src/java/org/congocc/core/NfaState.java:177-180 | each given target becomes an epsilon move of the state and is closed in turn; the state keeps its type and every other state already closed is left as it was |
| LexicalStates.LexicalStateData.CloseWithin | src/java/org/congocc/core/NfaState.java:174-179 | the nested closure of a target from inside the closure of the state: the target ends closed, and the state being closed and every other state already closed are left untouched |
| LexicalStates.LexicalStateData.CloseAllStates | src/java/org/congocc/core/LexicalStateData.java:134-136 | every state of allStates is closed, and the arena changes only as closure steps allow |
| LexicalStates.LexicalStateData.GenerateData | src/java/org/congocc/core/LexicalStateData.java:133-139 | afterwards every listed state is closed, every state left in allStates has a non-negative index, and the initial state has index 0 (with the corrected last pass of indexStates) |
| LexicalStates.LexicalStateData.AddCompositeStates | src/java/org/congocc/core/LexicalStateData.java:141-149 | the arena only grows by composites; afterwards every listed state is known, a state that is its own canonical state stays listed, and every listed state was listed before or is a canonical state of one that was |
| LexicalStates.LexicalStateData.MergeOne | src/java/org/congocc/core/LexicalStateData.java:143-147 | one state is replaced in allStates by its canonical state when they differ |
| LexicalStates.LexicalStateData.IndexStatesAsWritten | src/java/org/congocc/core/LexicalStateData.java:151-175 | the numbering as written: indices handed out are distinct and positive, only indices change, states left without an index leave allStates; the numbered states are exactly the composites whose index was not 0, the states that are no composites, whose index was not 0, that need move code and are no members, and the members; the members are exactly the members of those composites (`FirstPassesChose`, `MembersCollected`); the composites not renumbered as members hold 1..c, the c+1.. block of m indices goes to the move states and the block after it to the members (`Layout`); the initial state keeps index 0 exactly when it is no member of a numbered composite |
| LexicalStates.LexicalStateData.IndexStates | src/java/org/congocc/core/LexicalStateData.java:151-175 | the corrected numbering: the same three groups, chosen by the same conditions (`FirstPassesChose`, `MembersCollected`), and the same blocks, with the initial state left out of the members' block, and the initial state always keeps index 0 |
| LexicalStates.LexicalStateData.ZeroInitial | src/java/org/congocc/core/LexicalStateData.java:153-154 | the initial state becomes its canonical state and gets index 0 |
| LexicalStates.LexicalStateData.IndexComposites | src/java/org/congocc/core/LexicalStateData.java:155-162 | exactly the composites of allStates whose index is not 0 get distinct indices in 1..n, where n is how many there are, and idx ends at n+1 (`CompositesChosen`); the members collected are exactly the members of those composites (`MembersCollected`) |
| LexicalStates.LexicalStateData.NumberComposite | src/java/org/congocc/core/LexicalStateData.java:157-161 | one turn of the first pass: the state takes the next index and its members are collected exactly when it is a composite whose index is not 0 |
| LexicalStates.CollectStep | src/java/org/congocc/core/LexicalStateData.java:157-161 | collecting the members of one more composite keeps the collected set equal to the members of the composites seen |
| LexicalStates.AbsorbStep | src/java/org/congocc/core/NfaState.java:173-181 | one more turn of the closure loop keeps every target dealt with closed and absorbed, and keeps the type inherited from one of them |
| LexicalStates.LexicalStateData.IndexMoveStates | src/java/org/congocc/core/LexicalStateData.java:163-170 | exactly the non-composite states whose index is not 0, that need move code and are not collected members, get distinct indices in the block from idx0 on (both directions are stated), and idx ends at idx0 plus their number |
| LexicalStates.LexicalStateData.NeedsMoveIndex | src/java/org/congocc/core/LexicalStateData.java:164-167 | the condition of the second pass, asked without creating states |
| LexicalStates.LexicalStateData.IndexMembers | src/java/org/congocc/core/LexicalStateData.java:171-173 | every collected member, the initial state included, gets a distinct index in the block from idx0 on, above all earlier ones, and idx ends at idx0 plus the number of members |
| LexicalStates.LexicalStateData.NumberLastPass | src/java/org/congocc/core/LexicalStateData.java:171-174 | the last pass and the removal after it: the states of the last pass take the block after the composites and the move states, whose blocks stay (`Layout`); allStates keeps exactly the states of the pool that hold an index |
| LexicalStates.LexicalStateData.RemoveUnindexed | src/java/org/congocc/core/LexicalStateData.java:174 | allStates keeps exactly the states with a non-negative index |
| LexicalStates.LexicalStateData.GetAllNfaStates | src/java/org/congocc/core/LexicalStateData.java:79-83 | exactly the states of allStates, each once, in ascending index order |
| LexicalStates.InsertByIndex | src/java/org/congocc/core/LexicalStateData.java:81 | one insertion step of sorting by index keeps the order and adds exactly one state |
| LexicalStates.LoopArena | src/java/org/congocc/core/LexicalStateData.java:151-175 | the arena of the counterexample in Findings: initial state 0 with its one epsilon move to 1, and the composite {1, 2} |
| LexicalStates.InitialStateRenumbered | src/java/org/congocc/core/LexicalStateData.java:151-173 | indexStates as written leaves the initial state with an index other than 0 on that arena |
| LexicalStates.InitialStateKept | src/java/org/congocc/core/LexicalStateData.java:151-173 | the corrected indexStates keeps it at 0 on the same arena |
| Regexps.Copies | src/java/org/congocc/core/NfaBuilder.java:172-174 | n copies of the same expression |
| Regexps.Desugar | src/java/org/congocc/core/NfaBuilder.java:168-194 | {min,max} becomes a sequence of min + (1 if unbounded) + (max - min when positive) units |
| Regexps.DesugarUnits | src/java/org/congocc/core/NfaBuilder.java:168-194 | its units are min mandatory copies, then one (...)* copy when max == -1, then (...)? copies |
| Regexps.Height | src/java/org/congocc/core/NfaBuilder.java:62-194 | the termination measure of the builder's visits is at least 1 |
| Regexps.MaxHeight | src/java/org/congocc/core/NfaBuilder.java:153-162 | the height of a list bounds the height of each member |
| Regexps.MaxHeightBound | src/java/org/congocc/core/NfaBuilder.java:153-162 | a bound on every member bounds the list's height |
| Regexps.DesugarLower | src/java/org/congocc/core/NfaBuilder.java:193 | the rewritten sequence of a repetition range is lower than the range, so visiting it terminates |
| Regexps.MatchesEmptyString | src/java/org/congocc/core/RegularExpression.java:197 | matchesEmptyString for each kind of expression, as the check at SanityChecker.java:191-195 asks it; Regexps.DesugarKeepsEmptiness and TokenChecks.EmptyMatchChecks state what it answers and which errors it causes |
| Regexps.DesugarKeepsEmptiness | src/java/org/congocc/core/NfaBuilder.java:168-194 | the rewritten sequence matches the empty string exactly when the repetition range does |
| Regexps.RegularExpression.constructor | src/java/org/congocc/core/RegularExpression.java:50-52 | a new expression has ordinal 0, class name "Token" and no lexical-state switch |
| Regexps.RegularExpression.GetLabel | src/java/org/congocc/core/RegularExpression.java:87-96 | the explicit label if non-empty; else "EOF" for ordinal 0; else the decimal ordinal; never empty |
| Regexps.RegularExpression.SetOrdinal | src/java/org/congocc/core/RegularExpression.java:98-104 | getOrdinal after setOrdinal returns the stored value; nothing else changes |
| Regexps.RegularExpression.SetLabel | src/java/org/congocc/core/RegularExpression.java:87-96 | the label stored, nothing else changed |
| Regexps.RegularExpression.SetNewLexicalState | src/java/org/congocc/core/RegularExpression.java:126-128 | the switch stored, nothing else changed |
| Regexps.RegularExpression.GetGeneratedClassName | src/java/org/congocc/core/RegularExpression.java:146-151 | the default "Token" is replaced by the label, any other name is kept, and the returned name is the stored one |
| Regexps.ClassNameStable | src/java/org/congocc/core/RegularExpression.java:146-151 | once a name other than "Token" is returned, later calls return it whatever the label becomes |
| LexerDatas.OrdinalsOfKindMembers | src/java/org/congocc/core/LexerData.java:195-204 | an ordinal is in the set of a token-production kind exactly when some registered expression of that kind carries it |
| LexerDatas.IndexOfState | src/java/org/congocc/core/LexerData.java:102-110 | the index is the first position of a lexical state with that name, or -1 exactly when no state has it |
| LexerDatas.RelabelKeepsPrefix | src/java/org/congocc/core/LexerData.java:126-136 | the relabelling walk never changes a label before the position it has reached |
| LexerDatas.RelabelAt | src/java/org/congocc/core/LexerData.java:125-137 | after ensureStringLabels, position k keeps an identifier label and otherwise holds the upper-cased image when that is an unused identifier, else "_TOKEN_" and k, judged against the labels as they stand when the walk reaches k |
| LexerDatas.TokenLabelIsIdentifier | src/java/org/congocc/core/LexerData.java:129 | every fallback label "_TOKEN_" + position is a Java identifier |
| LexerDatas.AllLabelsIdentifiers | src/java/org/congocc/core/LexerData.java:125-137 | after ensureStringLabels every expression's label is a Java identifier |
| LexerDatas.ImageLabelsUnique | src/java/org/congocc/core/LexerData.java:131-132 | when two relabelled literals upper-case to the same image and the earlier took it, the later falls back to "_TOKEN_" and its position, so the image label is not given twice |
| LexerDatas.LexerData.constructor | src/java/org/congocc/core/LexerData.java:44-50 | a new registry holds exactly one expression, the end of file, with ordinal 0 and label "EOF", and no lexical state |
| LexerDatas.LexerData.GetTokenCount | src/java/org/congocc/core/LexerData.java:169-171 | the token count is the number of expressions plus the number of extra token names |
| LexerDatas.LexerData.GetTokenName | src/java/org/congocc/core/LexerData.java:52-57 | below the expression count the name is that expression's label, above it the extra token name at the offset; any ordinal outside both lists raises an index error |
| LexerDatas.LexerData.AddLexicalState | src/java/org/congocc/core/LexerData.java:63-65 | a fresh, empty lexical state with that name is appended and nothing else changes |
| LexerDatas.LexerData.GetLexicalStateIndex | src/java/org/congocc/core/LexerData.java:102-110 | returns the first position holding that name, or -1 |
| LexerDatas.LexerData.GetLexicalState | src/java/org/congocc/core/LexerData.java:67-74 | returns the first state with that name, or none exactly when there is none |
| LexerDatas.LexerData.GetLexicalStateOf | src/java/org/congocc/core/RegularExpression.java:114-124 | an expression's lexical state is the last state holding it, the first state when none does, and an index error when there is no state |
| LexerDatas.LexerData.AddRegularExpression | src/java/org/congocc/core/LexerData.java:120-123 | the expression is appended with its ordinal set to the old list size, so ordinals stay equal to positions and the list stays duplicate-free |
| LexerDatas.LexerData.KindByPosition | src/java/org/congocc/core/LexerData.java:120-123 | with ordinals equal to positions, ordinal i is of a kind exactly when the expression at position i is |
| LexerDatas.LexerData.GetTokensOfKind | src/java/org/congocc/core/LexerData.java:195-204 | the new complete set holds exactly the ordinals of the expressions whose token production has that kind |
| LexerDatas.LexerData.GetRegularTokens | src/java/org/congocc/core/LexerData.java:185-193 | the set holds exactly the TOKEN-kind ordinals and the ordinals of expressions outside any token production |
| LexerDatas.LexerData.LabelAlreadyUsed | src/java/org/congocc/core/LexerData.java:150-155 | true exactly when some registered expression carries that label |
| LexerDatas.LexerData.IsJavaIdentifier | src/java/org/congocc/core/LexerData.java:139-148 | true exactly when the string is non-empty, starts with an identifier-start character and consists of identifier-part characters |
| LexerDatas.LexerData.ChooseLabel | src/java/org/congocc/core/LexerData.java:129-132 | the chosen label is the upper-cased image when the expression has one that is an identifier no expression uses, else "_TOKEN_" and the position |
| LexerDatas.LexerData.Rename | src/java/org/congocc/core/LexerData.java:134 | only the label at that position changes; ordinals and images stay |
| LexerDatas.LexerData.RelabelOne | src/java/org/congocc/core/LexerData.java:127-135 | one turn of the iterator advances the specification walk by one position |
| LexerDatas.LexerData.EnsureStringLabels | src/java/org/congocc/core/LexerData.java:125-137 | the new labels are exactly the specification walk over the old labels and images, and ordinals are unchanged |
| LexerDatas.LexerData.CheckUnmatchability | src/java/org/congocc/core/LexerData.java:228-236 | alternative k is warned about, once and in order, exactly when it is public, its ordinal lies strictly between 0 and the choice's, and it shares the choice's lexical state |
| NfaBuilders.DesugarOk | src/java/org/congocc/core/NfaBuilder.java:168-194 | the sequence a repetition range is rewritten to has well-formed character classes whenever the range has |
| NfaBuilders.NoThrowOnceBuilt | src/java/org/congocc/core/NfaBuilder.java:163 | once the builder holds an end state no visit dereferences a null end state, so only the first visit of a fresh builder can throw |
| NfaBuilders.Linked | src/java/org/congocc/core/NfaState.java:135-137 | addEpsilonMove adds exactly the target to one state's epsilon moves and keeps the arena's size |
| NfaBuilders.ChoiceStep | src/java/org/congocc/core/NfaBuilder.java:97-101 | after one more alternative is built, the choice's start moves on epsilon to its start and its end moves on epsilon to the shared final state, and the earlier wiring survives |
| NfaBuilders.SequenceStep | src/java/org/congocc/core/NfaBuilder.java:153-162 | after one more unit is built it is linked after the start state (first unit) or after the previous unit's end, and the earlier links survive |
| NfaBuilders.SequenceDone | src/java/org/congocc/core/NfaBuilder.java:163-165 | linking the last end state (the builder's previous end state when there are no units) to the final state completes the sequence's wiring |
| NfaBuilders.NfaBuilder.constructor | src/java/org/congocc/core/NfaBuilder.java:56-60 | a new builder works on the given lexical state with the given case setting and has no start or end state yet |
| NfaBuilders.NfaBuilder.NewPair | src/java/org/congocc/core/NfaBuilder.java:79-80 | two fresh states, start then final, are appended to the arena |
| NfaBuilders.NfaBuilder.Link | src/java/org/congocc/core/NfaBuilder.java:99-100 | one epsilon move is added, to a state the visit created or to the builder's end state |
| NfaBuilders.NfaBuilder.WireRepeat | src/java/org/congocc/core/NfaBuilder.java:82-134 | the start gets moves to the body (and to the final state when the body may be skipped), the body's end gets moves to the final state (and back to the body when it repeats); no other state changes |
| NfaBuilders.NfaBuilder.AddRanges | src/java/org/congocc/core/NfaBuilder.java:72-74 | the start state's move list becomes exactly the given ranges, in order |
| NfaBuilders.NfaBuilder.LiteralStep | src/java/org/congocc/core/NfaBuilder.java:109-112 | the last state of the chain moves on the character (and its case variants) to one new state |
| NfaBuilders.NfaBuilder.Visit | src/java/org/congocc/core/NfaBuilder.java:68-194 | each kind of expression adds exactly its state count of fresh states, touches no older state but the previous end state, and throws exactly when the first thing visited is an empty sequence with no end state |
| NfaBuilders.NfaBuilder.VisitCharacterList | src/java/org/congocc/core/NfaBuilder.java:68-76 | a start state whose moves, as canonical ranges, cover exactly the class's (case-expanded, possibly negated) code points leads to a fresh end state |
| NfaBuilders.NfaBuilder.LiteralChain | src/java/org/congocc/core/NfaBuilder.java:106-114 | the chain has one state per character, the k-th moving on the k-th character to the next |
| NfaBuilders.NfaBuilder.VisitStringLiteral | src/java/org/congocc/core/NfaBuilder.java:106-114 | a chain of length + 1 states: start is the first, end the last (the same state for the empty literal), and each state moves on its character to the next |
| NfaBuilders.NfaBuilder.ChoiceAlternative | src/java/org/congocc/core/NfaBuilder.java:98-100 | one alternative is built and wired between the choice's start and final states |
| NfaBuilders.NfaBuilder.VisitChoice | src/java/org/congocc/core/NfaBuilder.java:89-104 | a lone alternative is built with no extra states; otherwise a new start moves on epsilon to every alternative's start and every alternative's end to one shared final state |
| NfaBuilders.NfaBuilder.ChoiceAlternatives | src/java/org/congocc/core/NfaBuilder.java:95-103 | the start and final states are created before the alternatives, which are then wired in order |
| NfaBuilders.NfaBuilder.SequenceUnit | src/java/org/congocc/core/NfaBuilder.java:154-161 | one unit is built and linked after the previous one |
| NfaBuilders.NfaBuilder.SequenceUnits | src/java/org/congocc/core/NfaBuilder.java:153-162 | all units are built and chained in order, the first after the start state |
| NfaBuilders.NfaBuilder.SequenceClose | src/java/org/congocc/core/NfaBuilder.java:163-165 | the last end state moves on epsilon to the final state, which becomes the builder's end |
| NfaBuilders.NfaBuilder.VisitSequence | src/java/org/congocc/core/NfaBuilder.java:145-166 | the units are chained by epsilon moves between a new start and final state; an empty sequence links the previous end state (throwing when there is none); a one-unit sequence is visited once more beforehand and that first fragment is left unconnected |
| NfaBuilders.NfaBuilder.SequenceAfterFirst | src/java/org/congocc/core/NfaBuilder.java:149-165 | after the extra visit of a lone unit, the sequence proper is built as for any other length |
| NfaBuilders.NfaBuilder.VisitZeroOrMore | src/java/org/congocc/core/NfaBuilder.java:116-126 | the start moves to the body and to the final state (bypass); the body's end moves to the final state and back to the body's start |
| NfaBuilders.NfaBuilder.VisitOneOrMore | src/java/org/congocc/core/NfaBuilder.java:78-87 | the start moves only to the body (no bypass); the body's end moves back to the body's start and to the final state |
| NfaBuilders.NfaBuilder.VisitZeroOrOne | src/java/org/congocc/core/NfaBuilder.java:128-137 | the start moves to the body and to the final state (bypass); the body's end moves only to the final state (no back edge) |
| NfaBuilders.NfaBuilder.VisitRepetitionRange | src/java/org/congocc/core/NfaBuilder.java:168-194 | the range is built as its rewritten sequence of copies |
| NfaBuilders.NfaBuilder.BuildStates | src/java/org/congocc/core/NfaBuilder.java:62-66 | after the visit, the end state accepts the expression's ordinal and the lexical state's initial state gets an epsilon move to the start state |
| NfaBuilders.PublicOf | src/java/org/congocc/core/LexicalStateData.java:180-185 | the registered expressions are exactly the public expressions of the production's specs |
| NfaBuilders.ChoicesOf | src/java/org/congocc/core/LexicalStateData.java:179-188 | the returned choices are exactly the public choice expressions of the specs |
| NfaBuilders.ProcessSpec | src/java/org/congocc/core/LexicalStateData.java:185-191 | a public expression is registered, built by a fresh builder whose new end state accepts its ordinal, and switched to its next lexical state when that differs from the current one (to none when the name is unknown) |
| NfaBuilders.ProcessSpecAt | src/java/org/congocc/core/LexicalStateData.java:185-191 | processing spec i changes no other expression's ordinal or lexical-state switch |
| NfaBuilders.ProcessStep | src/java/org/congocc/core/LexicalStateData.java:180-184 | a private spec is skipped: nothing is registered and no state is built |
| NfaBuilders.ProcessPublic | src/java/org/congocc/core/LexicalStateData.java:185-191 | a public spec is registered, collected when it is a choice, and built |
| NfaBuilders.ProcessTokenProduction | src/java/org/congocc/core/LexicalStateData.java:177-198 | the public expressions are registered and each gets an accepting state, the public choices are returned in order, private ones are left alone, and the loop throws exactly when the builder throws on some expression |
| NfaBuilders.AllChoices | src/java/org/congocc/core/LexicalStateData.java:123-128 | the collected choices include every production's choices |
| NfaBuilders.ProcessNext | src/java/org/congocc/core/LexicalStateData.java:125-128 | one production is processed and its choices appended |
| NfaBuilders.Process | src/java/org/congocc/core/LexicalStateData.java:122-131 | the choices of all productions are returned in order, and the loop throws exactly when the builder throws on some production; after generateData, which numbers the states with the corrected indexStates of Findings, the initial state has index 0 and no remaining state a negative index |
| ExpansionFacts.PossiblyEmpty | src/java/org/congocc/core/Expansion.java:474 | isPossiblyEmpty for every kind of expansion, a non-terminal asking its production (NonTerminal.java:87-89); what it answers for sequences, choices and leaves is stated by ExpansionLemmas.SequencePossiblyEmpty, ExpansionLemmas.ChoicePossiblyEmpty and LeafFacts.EmptyFacts |
| ExpansionFacts.First | src/java/org/congocc/core/ExpansionSequence.java:78-89 | the FIRST set of every kind of expansion (ExpansionChoice.java:32-40, NonTerminal.java:73-78); ExpansionLoops.SequenceFirstSet, ExpansionLoops.ChoiceFirstSet and ExpansionLemmas.FirstSetWitness state what it holds |
| ExpansionFacts.FinalSet | src/java/org/congocc/core/ExpansionSequence.java:91-102 | the FINAL set of every kind of expansion (ExpansionChoice.java:42-48, NonTerminal.java:80-85); ExpansionLoops.SequenceFinalSet, ExpansionLemmas.ChoiceFinalSet and ExpansionLemmas.FinalSetWitness state what it holds |
| ExpansionFacts.AlwaysSuccessful | src/java/org/congocc/core/Expansion.java:328-337 | isAlwaysSuccessful for every kind of expansion (ExpansionSequence.java:68-76, ExpansionChoice.java:60-66, NonTerminal.java:91-93); ExpansionLemmas.SequenceAlwaysSuccessful and ExpansionLemmas.ChoiceAlwaysSuccessful state it for sequences and choices |
| ExpansionFacts.SwitchesState | src/java/org/congocc/core/Expansion.java:463-465 | getSpecifiesLexicalStateSwitch (ExpansionSequence.java:57-66, ExpansionChoice.java:87-92, NonTerminal.java:120-122); ExpansionLemmas.SequenceSwitchesState and ExpansionLemmas.ChoiceSwitchesState state it for sequences and choices |
| ExpansionFacts.HasTokenActivation | src/java/org/congocc/core/Expansion.java:467-469 | getHasTokenActivation: a token-activation child, a non-terminal's production (NonTerminal.java:45-47), or a sequence's unit (ExpansionSequence.java:123-131), as ExpansionLemmas.SequenceActivatesTokens states |
| ExpansionFacts.SingleToken | src/java/org/congocc/core/Expansion.java:481-497 | isSingleToken, a non-terminal also asking its production (NonTerminal.java:138-140); LeafFacts.TerminalIsSingleToken states it for token references |
| ExpansionFacts.RequiresScanAhead | src/java/org/congocc/core/Expansion.java:281-288 | getRequiresScanAhead (ExpansionSequence.java:104-121); ExpansionLoops.SequenceRequiresScanAhead and LeafFacts.ScanLimitRequiresScanAhead state what it answers |
| ExpansionFacts.LookaheadAmount | src/java/org/congocc/core/Expansion.java:344-349 | getLookaheadAmount; LeafFacts.LookaheadAmountMeaning states what it answers |
| ExpansionFacts.HasExplicitScanLimit | src/java/org/congocc/core/ExpansionSequence.java:218-225 | getHasExplicitScanLimit; ExpansionLoops.SequenceHasExplicitScanLimit states what it answers |
| ExpansionFacts.AddSize | src/java/org/congocc/core/ExpansionSequence.java:175-178 | the sum of two sizes is again a size, between 0 and MAX_VALUE |
| ExpansionFacts.AddSizeCapped | src/java/org/congocc/core/ExpansionSequence.java:172-192 | the sum of two sizes is their plain sum below MAX_VALUE and MAX_VALUE from there on, so an unbounded operand makes the sum unbounded |
| ExpansionFacts.AddSizeCommutative | src/java/org/congocc/core/ExpansionSequence.java:172-192 | the order of the operands does not matter |
| ExpansionFacts.AddSizeMonotone | src/java/org/congocc/core/ExpansionSequence.java:172-192 | a sum is at least each operand and grows with each operand, so a sequence is never smaller than one of its units |
| ExpansionLoops.AddSizeAssociative | src/java/org/congocc/core/ExpansionSequence.java:172-192 | the grouping does not matter, so the loop's left-to-right accumulation equals the recursive sum over the units |
| ExpansionFacts.MinSize | src/java/org/congocc/core/NonTerminal.java:98-104 | every minimum size lies between 0 and MAX_VALUE; a non-terminal re-entered while its guard is up answers MAX_VALUE |
| ExpansionFacts.MaxSize | src/java/org/congocc/core/NonTerminal.java:106-114 | every maximum size lies between 0 and MAX_VALUE; a non-terminal re-entered while its guard is up answers MAX_VALUE |
| ExpansionFacts.MinAll | src/java/org/congocc/core/ExpansionSequence.java:172-181 | a sequence's minimum stays within 0 and MAX_VALUE |
| ExpansionFacts.MaxAll | src/java/org/congocc/core/ExpansionSequence.java:183-192 | a sequence's maximum stays within 0 and MAX_VALUE |
| ExpansionFacts.MinChoice | src/java/org/congocc/core/ExpansionChoice.java:68-76 | a choice's minimum stays within 0 and MAX_VALUE |
| ExpansionFacts.MaxChoice | src/java/org/congocc/core/ExpansionChoice.java:78-85 | a choice's maximum stays within 0 and MAX_VALUE |
| ExpansionFacts.LookaheadOf | src/java/org/congocc/core/ExpansionSequence.java:139-157 | a lookahead found belongs to a sequence of the grammar that carries it, and resolving it only ever enters more productions |
| ExpansionFacts.LookaheadThrough | src/java/org/congocc/core/NonTerminal.java:49-51 | a non-terminal's lookahead is its production's, found only after entering that production |
| ExpansionFacts.LookaheadOfUnits | src/java/org/congocc/core/ExpansionSequence.java:142-156 | looking past leading units of maximum size 0, a lookahead found belongs to a sequence strictly inside the units or in an entered production |
| ExpansionFacts.AllUnits | src/java/org/congocc/core/ExpansionSequence.java:33-42 | every element of allUnits is an expansion below the sequence |
| ExpansionFacts.StartsWith | src/java/org/congocc/core/Expansion.java:617-619 | potentiallyStartsWith answers true exactly when it raised some non-terminal's left-recursion flag, and the visited set only grows |
| ExpansionFacts.StartsThrough | src/java/org/congocc/core/NonTerminal.java:128-136 | a non-terminal naming the production is flagged and answers true; an already visited one answers false; otherwise its name is added and its production is asked |
| ExpansionFacts.UnitsStartWith | src/java/org/congocc/core/ExpansionSequence.java:231-238 | the units are asked in order, up to the first that cannot be empty; true exactly when a flag was raised |
| ExpansionFacts.SomeStartsWith | src/java/org/congocc/core/ExpansionChoice.java:94-99 | the alternatives are asked in order until one answers true; true exactly when a flag was raised |

| ExpansionLemmas.AllPossiblyEmptyIff | src/java/org/congocc/core/ExpansionSequence.java:163-170 | the loop over the units answers true exactly when every unit is possibly empty |
| ExpansionLemmas.SequencePossiblyEmpty | src/java/org/congocc/core/ExpansionSequence.java:163-170 | a sequence is possibly empty if and only if every unit is |
| ExpansionLemmas.SomePossiblyEmptyIff | src/java/org/congocc/core/ExpansionChoice.java:51-58 | the loop over the alternatives answers true exactly when some alternative is possibly empty |
| ExpansionLemmas.ChoicePossiblyEmpty | src/java/org/congocc/core/ExpansionChoice.java:51-58 | a choice is possibly empty if and only if some alternative is |

| ExpansionLemmas.SumNonNegative | src/java/org/congocc/core/ExpansionSequence.java:172-192 | a sum of sizes is never negative |
| ExpansionLemmas.SaturatedCons | src/java/org/congocc/core/ExpansionSequence.java:172-192 | the capped sum of a list of sizes is the first size added to the capped sum of the rest |
| ExpansionLemmas.UnitMinima | src/java/org/congocc/core/ExpansionSequence.java:175 | the units' minimum sizes, one per unit, each within 0 and MAX_VALUE |
| ExpansionLemmas.UnitMaxima | src/java/org/congocc/core/ExpansionSequence.java:186 | the units' maximum sizes, one per unit, each within 0 and MAX_VALUE |
| ExpansionLemmas.SequenceMinimumSize | src/java/org/congocc/core/ExpansionSequence.java:172-181 | a sequence's minimum size is the sum of its units' minima, or MAX_VALUE when one of them is MAX_VALUE |
| ExpansionLemmas.SequenceMaximumSize | src/java/org/congocc/core/ExpansionSequence.java:183-192 | a sequence's maximum size is the sum of its units' maxima, or MAX_VALUE when one of them is MAX_VALUE |
| ExpansionLemmas.ChoiceMinimumSize | src/java/org/congocc/core/ExpansionChoice.java:68-76 | a choice's minimum size is the least alternative minimum, attained by some alternative, and MAX_VALUE with no alternatives |
| ExpansionLemmas.ChoiceMaximumSize | src/java/org/congocc/core/ExpansionChoice.java:78-85 | a choice's maximum size is the greatest alternative maximum, attained by some alternative, and 0 with no alternatives |
| ExpansionLemmas.MinimumAtMostMaximum | src/java/org/congocc/core/EmptyExpansion.java:42-44 | in a grammar whose choices have alternatives, an expansion's minimum size never exceeds its maximum size, whatever guards are up |
| ExpansionLemmas.SumsOrdered | src/java/org/congocc/core/ExpansionSequence.java:172-192 | a sequence's minimum size never exceeds its maximum size |
| ExpansionLemmas.SequenceFirstSet | src/java/org/congocc/core/ExpansionSequence.java:78-89 | a token is in a sequence's FIRST set if and only if some unit has it in its FIRST set and every unit before that one is possibly empty |
| ExpansionLemmas.FirstSetWitness | src/java/org/congocc/core/ExpansionSequence.java:81-85 | each token of a sequence's FIRST set comes from a unit preceded only by possibly-empty units |
| ExpansionLemmas.FirstSetFromUnit | src/java/org/congocc/core/ExpansionSequence.java:81-85 | a unit preceded only by possibly-empty units contributes its whole FIRST set |
| ExpansionLemmas.SequenceFinalSet | src/java/org/congocc/core/ExpansionSequence.java:91-102 | a token is in a sequence's FINAL set if and only if some unit has it in its FINAL set and every unit after that one is possibly empty |
| ExpansionLemmas.FinalSetWitness | src/java/org/congocc/core/ExpansionSequence.java:94-100 | each token of a sequence's FINAL set comes from a unit followed only by possibly-empty units |
| ExpansionLemmas.FinalSetFromUnit | src/java/org/congocc/core/ExpansionSequence.java:94-100 | a unit followed only by possibly-empty units contributes its whole FINAL set |
| ExpansionLemmas.ChoiceFirstSet | src/java/org/congocc/core/ExpansionChoice.java:32-40 | a token is in a choice's FIRST set if and only if it is in the FIRST set of some alternative's lookahead expansion |
| ExpansionLemmas.ChoiceFinalSet | src/java/org/congocc/core/ExpansionChoice.java:42-48 | a token is in a choice's FINAL set if and only if it is in some alternative's FINAL set |
| ExpansionLemmas.AlternativeWithoutNestedLookahead | src/java/org/congocc/core/Expansion.java:322-326 | an alternative whose lookahead has no nested expansion is its own lookahead expansion |
| ExpansionLemmas.AllAlwaysSuccessfulIff | src/java/org/congocc/core/ExpansionSequence.java:71-75 | the loop over the units answers true exactly when every unit always succeeds |
| ExpansionLemmas.SomeAlwaysSuccessfulIff | src/java/org/congocc/core/ExpansionChoice.java:62-65 | the loop over the alternatives answers true exactly when some alternative always succeeds |
| ExpansionLemmas.SequenceAlwaysSuccessful | src/java/org/congocc/core/ExpansionSequence.java:68-76 | a sequence always succeeds if and only if the base conditions hold and every unit always succeeds |
| ExpansionLemmas.ChoiceAlwaysSuccessful | src/java/org/congocc/core/ExpansionChoice.java:60-66 | a choice always succeeds if and only if the base conditions hold and some alternative always succeeds |
| ExpansionLemmas.AlwaysSuccessfulIsEmpty | src/java/org/congocc/core/Expansion.java:328-337 | an expansion that always succeeds has no FAIL child and, unless it is a non-terminal, is possibly empty and has no semantic lookahead |
| ExpansionLemmas.SequenceSwitchesState | src/java/org/congocc/core/ExpansionSequence.java:57-66 | a sequence specifies a lexical-state switch if and only if some unit does that only possibly-empty units precede |
| ExpansionLemmas.SwitchWitness | src/java/org/congocc/core/ExpansionSequence.java:58-64 | the unit that makes a sequence specify a switch is preceded only by possibly-empty units |
| ExpansionLemmas.SwitchFromUnit | src/java/org/congocc/core/ExpansionSequence.java:58-64 | a unit that specifies a switch after possibly-empty units only makes the sequence specify it |
| ExpansionLemmas.ChoiceSwitchesState | src/java/org/congocc/core/ExpansionChoice.java:87-92 | a choice specifies a switch if and only if some alternative does |
| ExpansionLemmas.SequenceActivatesTokens | src/java/org/congocc/core/ExpansionSequence.java:123-131 | a sequence has a token activation if and only if some unit has one and every unit before it is possibly empty |
| ExpansionLemmas.ActivationWitness | src/java/org/congocc/core/ExpansionSequence.java:123-131 | the loop's early return: the unit that answers true comes after possibly-empty units only |
| ExpansionLemmas.ActivationFromUnit | src/java/org/congocc/core/ExpansionSequence.java:123-131 | a unit with a token activation reached past possibly-empty units makes the sequence answer true |
| ExpansionLemmas.SequenceStartsWithWindow | src/java/org/congocc/core/ExpansionSequence.java:231-238 | potentiallyStartsWith on a sequence looks no further than its first unit that cannot be empty: the answer, the visited set and the flags raised are those of that prefix |
| LeafFacts.TerminalFacts | src/java/org/congocc/core/RegularExpression.java:168-195 | a token reference has FIRST = FINAL = its own ordinal, is never possibly empty, has minimum and maximum size 1, needs no scan-ahead and so has lookahead amount 1 |
| LeafFacts.EmptyFacts | src/java/org/congocc/core/EmptyExpansion.java:30-46 | an empty expansion is possibly empty, has sizes 0, empty FIRST and FINAL, needs no scan-ahead, specifies no lexical-state switch, and has lookahead amount 1 |
| LeafFacts.TerminalIsSingleToken | src/java/org/congocc/core/Expansion.java:481-497 | every condition of isSingleToken holds for a token reference, so it is a single token |
| LeafFacts.AmountCases | src/java/org/congocc/core/Lookahead.java:89-96 | an explicit amount is returned as written; without one, the amount is 0 exactly for a legacy lookahead with only a semantic predicate, and unbounded otherwise |
| LeafFacts.LookaheadDecisions | src/java/org/congocc/core/Lookahead.java:63-83 | the lookahead expansion is the nested one, else the owning sequence; without a semantic predicate a lookahead always succeeds or requires scan-ahead, and with a non-zero amount exactly one of the two |
| LeafFacts.MarkedUnitScans | src/java/org/congocc/core/ExpansionSequence.java:106-108 | a marked unit at or after the loop position makes the remaining loop answer true, whatever came before |
| LeafFacts.ScanLimitRequiresScanAhead | src/java/org/congocc/core/ExpansionSequence.java:104-108 | a sequence with a unit marked "=>\|\|" requires scan-ahead, and without its own lookahead its lookahead amount is unbounded |
| LeafFacts.LookaheadAmountMeaning | src/java/org/congocc/core/Expansion.java:344-349 | the amount of the governing lookahead when there is one; otherwise more than 1 exactly when scan-ahead is required, and then MAX_VALUE |
| ExpansionLoops.SequenceIsPossiblyEmpty | src/java/org/congocc/core/ExpansionSequence.java:163-170 | the loop with its early exit returns the sequence's possibly-empty fact, i.e. whether every unit is possibly empty |
| ExpansionLoops.SequenceMinimumSize | src/java/org/congocc/core/ExpansionSequence.java:172-181 | the loop, returning MAX_VALUE at the first unit whose minimum is MAX_VALUE, computes the capped sum of the units' minima |
| ExpansionLoops.SequenceMaximumSize | src/java/org/congocc/core/ExpansionSequence.java:183-192 | the loop, returning MAX_VALUE at the first unit whose maximum is MAX_VALUE, computes the capped sum of the units' maxima |
| ExpansionLoops.SequenceFirstSet | src/java/org/congocc/core/ExpansionSequence.java:78-89 | the loop, stopping after the first unit that cannot be empty, computes the sequence's FIRST set |
| ExpansionLoops.SequenceFinalSet | src/java/org/congocc/core/ExpansionSequence.java:91-102 | the backward loop, stopping after the last unit that cannot be empty, computes the sequence's FINAL set |
| ExpansionLoops.SequenceHasExplicitScanLimit | src/java/org/congocc/core/ExpansionSequence.java:218-225 | true exactly when one of the sequence's own units carries the scan-limit mark |
| ExpansionLoops.SequenceRequiresScanAhead | src/java/org/congocc/core/ExpansionSequence.java:104-121 | the loop, with its early exits at a marked unit or at a leading non-terminal whose production has a scan limit or an explicit lookahead, answers the sequence's getRequiresScanAhead |
| ExpansionLoops.ChoiceIsPossiblyEmpty | src/java/org/congocc/core/ExpansionChoice.java:51-58 | the loop, returning true at the first possibly-empty alternative, computes the choice's possibly-empty fact |
| ExpansionLoops.ChoiceMinimumSize | src/java/org/congocc/core/ExpansionChoice.java:68-76 | the loop, returning 0 at the first alternative of minimum 0, computes the least alternative minimum (MAX_VALUE with none) |
| ExpansionLoops.ChoiceMaximumSize | src/java/org/congocc/core/ExpansionChoice.java:78-85 | the loop, stopping once MAX_VALUE is reached, computes the greatest alternative maximum (0 with none) |
| ExpansionLoops.ChoiceFirstSet | src/java/org/congocc/core/ExpansionChoice.java:32-40 | the loop computes the choice's FIRST set, the union over alternatives of their lookahead expansions' FIRST sets |
| ExpansionLoops.ChoiceFinalSet | src/java/org/congocc/core/ExpansionChoice.java:42-48 | the loop computes the choice's FINAL set, the union of the alternatives' FINAL sets |
| ExpansionContext.NodeAt | src/java/org/congocc/core/Expansion.java:158-165 | a path that names a node of the production leads to an expansion of the grammar, the one the path walks to |
| ExpansionContext.AtDefined | src/java/org/congocc/core/Expansion.java:158-165 | every node reached from a production's root mentions only defined productions |
| ExpansionContext.SpecifiedLexicalState | src/java/org/congocc/core/Expansion.java:170-176 | only a production's root expansion specifies a lexical state, and that state is the production's own |
| ExpansionContext.ChoicePointHasDecisionAncestor | src/java/org/congocc/core/Expansion.java:131-149 | a node at a choice point is, itself or through parentheses that begin sequences, the child of a choice, a repetition or the production |
| ExpansionContext.AtChoicePoint | src/java/org/congocc/core/Expansion.java:131-149 | isAtChoicePoint, with the cast of the grandparent's node modelled as a thrown ClassCastException; ExpansionContext.SequenceUnitNotChoicePoint and ExpansionContext.PredicateMethodCases state what it answers |
| ExpansionContext.BeginsSequence | src/java/org/congocc/core/Expansion.java:199-210 | beginsSequence; ExpansionContext.GetBeginsSequence ties the walk up through parentheses to it |
| ExpansionContext.ScanToEnd | src/java/org/congocc/core/NonTerminal.java:65-71 | getScanToEnd; ExpansionContext.ScanToEndInsideLookahead and ExpansionContext.ScanToEndFalse state what it answers |
| ExpansionContext.FollowSet | src/java/org/congocc/core/Expansion.java:539-554 | getFollowSet: the FIRST sets of the following expansions up to the first that cannot be empty; ExpansionContext.GetFollowSet ties the loop to it |
| ExpansionContext.SwitchAhead | src/java/org/congocc/core/Expansion.java:586-597 | isBeforeLexicalStateSwitch along the following expansions; ExpansionContext.SwitchAheadMeaning and ExpansionContext.SwitchAheadUnits state what it answers |
| ExpansionContext.RequiresRecoverMethod | src/java/org/congocc/core/Expansion.java:599-611 | getRequiresRecoverMethod; ExpansionContext.RecoverAfterTolerantUnit and ExpansionContext.NoRecoverForLookahead state what it answers |
| ExpansionContext.ImplicitSyntacticLookahead | src/java/org/congocc/core/Expansion.java:242-259 | getHasImplicitSyntacticLookahead's decision chain; ExpansionContext.ImplicitSyntacticLookaheadMeaning states when it holds |
| ExpansionContext.RequiresPredicateMethod | src/java/org/congocc/core/Expansion.java:299-320 | getRequiresPredicateMethod's decision chain; ExpansionContext.PredicateMethodCases states when it holds |
| ExpansionContext.SequenceUnitNotChoicePoint | src/java/org/congocc/core/Expansion.java:131-149 | a unit of a sequence, or a lookahead's expansion, is never at a choice point |
| ExpansionContext.NonSuperfluousParent | src/java/org/congocc/core/Expansion.java:158-165 | the holder returned is the production, a lookahead, or an expansion strictly above the node; superfluous parentheses are skipped |
| ExpansionContext.NonSuperfluousParentOfNonSequence | src/java/org/congocc/core/Expansion.java:158-165 | a node that is not a sequence has its own parent as the non-superfluous parent |
| ExpansionContext.FirstNonEmptyFrom | src/java/org/congocc/core/ExpansionSequence.java:44-55 | no unit is found exactly when every unit from i on is possibly empty; a found unit is the first one that cannot be empty |
| ExpansionContext.SequenceEmptiesAll | src/java/org/congocc/core/ExpansionSequence.java:163-170 | a sequence is possibly empty if and only if every unit is |
| ExpansionContext.AllEmptiesIff | src/java/org/congocc/core/ExpansionSequence.java:163-170 | the all-units test answers true exactly when every unit is possibly empty |
| ExpansionContext.GetBeginsSequence | src/java/org/congocc/core/Expansion.java:199-210 | the walk up through parentheses answers whether the node is the first non-empty unit of its sequence |
| ExpansionContext.ScanToEndInsideLookahead | src/java/org/congocc/core/NonTerminal.java:64-65 | inside a lookahead a non-terminal is always scanned to its end |
| ExpansionContext.ScanToEndFalse | src/java/org/congocc/core/NonTerminal.java:64-70 | a non-terminal is not scanned to its end only outside lookahead, as the first non-empty unit of a sequence at a choice point, and when it cannot be empty |
| ExpansionContext.Siblings | src/java/org/congocc/core/Expansion.java:525-537 | the paths of the children of a node between two positions, in order |
| ExpansionContext.ChainNodes | src/java/org/congocc/core/Expansion.java:525-537 | every path in the chain of following expansions names a node |
| ExpansionContext.ChainStep | src/java/org/congocc/core/Expansion.java:525-537 | getFollowingExpansion is null exactly when the chain is empty; otherwise it is the chain's head and its own chain is the rest |
| ExpansionContext.Nodes | src/java/org/congocc/core/Expansion.java:525-537 | the expansions the paths lead to, one per path |
| ExpansionContext.FollowingStep | src/java/org/congocc/core/Expansion.java:539-554 | one step of the do-while loop: the next following expansion heads the list and the list after it is the rest |
| ExpansionContext.FirstLoopAncestor | src/java/org/congocc/core/Expansion.java:574-584 | a loop ancestor found is the node itself or one of its expansion ancestors, and is a `*` or `+` node |
| ExpansionContext.EndOfLoopHasLoopAncestor | src/java/org/congocc/core/Expansion.java:556-584 | a node at the end of a loop has a loop ancestor, so getFollowSet never dereferences a missing one |
| ExpansionContext.FollowSetMembers | src/java/org/congocc/core/Expansion.java:539-554 | a token is in the follow set iff it is in the enclosing loop's FIRST set at the end of a loop, or in the FIRST set of a following expansion reached through possibly-empty ones only; the set is incomplete iff every following expansion is possibly empty |
| ExpansionContext.GetFirstSet | src/java/org/congocc/core/Expansion.java:455 | a fresh, complete token set holding the expansion's FIRST set |
| ExpansionContext.GetFollowSet | src/java/org/congocc/core/Expansion.java:539-554 | returns a fresh set whose tokens and incomplete flag are the follow set's |
| ExpansionContext.AddFollowing | src/java/org/congocc/core/Expansion.java:544-552 | the do-while loop adds the FIRST sets of the following expansions through the first that cannot be empty, and marks the set incomplete exactly when every following expansion can be empty |
| ExpansionContext.SwitchAheadMeaning | src/java/org/congocc/core/Expansion.java:586-597 | the answer is true iff some following expansion switches lexical state after possibly-empty ones only, and null iff every following expansion is possibly empty and none switches |
| ExpansionContext.SwitchAheadUnits | src/java/org/congocc/core/Expansion.java:586-597 | the answer is true exactly when the following expansions, read as the units of a sequence, specify a switch |
| ExpansionContext.IsBeforeLexicalStateSwitch | src/java/org/congocc/core/Expansion.java:586-597 | the do-while loop returns the answer of the following-expansion chain |
| ExpansionContext.PrecedingIndex | src/java/org/congocc/core/Expansion.java:509-523 | the unit found is the nearest before the position with a positive maximum size; none when all before it have maximum 0 |
| ExpansionContext.Preceding | src/java/org/congocc/core/Expansion.java:509-523 | a preceding expansion exists only for a unit of a sequence, and is an earlier unit of the same sequence |
| ExpansionContext.GetPreceding | src/java/org/congocc/core/Expansion.java:509-523 | the backward loop returns exactly the preceding expansion |
| ExpansionContext.RecoverAfterTolerantUnit | src/java/org/congocc/core/Expansion.java:599-611 | outside lookahead, a unit whose nearest consuming predecessor is a tolerant non-token unit needs a recover method |
| ExpansionContext.NoRecoverForLookahead | src/java/org/congocc/core/Expansion.java:599-605 | nothing inside a lookahead or in a lookahead-only production needs a recover method |
| ExpansionContext.ImplicitSyntacticLookaheadMeaning | src/java/org/congocc/core/Expansion.java:242-259 | an implicit syntactic lookahead is used iff the node is at a choice point, has no nested lookahead expansion, is not always successful, and has a scan limit or can consume more than one token under a lookahead of more than one |
| ExpansionContext.PredicateMethodCases | src/java/org/congocc/core/Expansion.java:299-320 | outside lookahead a predicate method is required at a choice point with a lookahead, and for a non-empty node with an implicit syntactic lookahead; a possibly-empty node needs one only with a lookahead; never inside a lookahead |
| BnfProductions.NodeName | src/java/org/congocc/core/BNFProduction.java:129-141 | the node name is the production's name or the annotation's; it is never one of abstract, interface, void or scan unless the production itself bears that name; and an annotation naming anything else is always taken |
| BnfProductions.OnlyForLookaheadKeepsName | src/java/org/congocc/core/BNFProduction.java:120-141 | a production only for lookahead (node name "scan") keeps its own name as node name |
| BnfProductions.ReturnType | src/java/org/congocc/core/BNFProduction.java:156-162 | getReturnType: an implicit return type is the node name (BnfProductions.ImplicitReturnTypeIsNodeType states that it is then a real node type); otherwise the declared type or "void" |
| BnfProductions.ImplicitReturnTypeIsNodeType | src/java/org/congocc/core/BNFProduction.java:129-162 | for a production with an ordinary name, an implicit return type is a real node type: not "void" and none of the reserved annotation words |
| BnfProductions.AccessModifier | src/java/org/congocc/core/BNFProduction.java:164-178 | the first PRIVATE, PROTECTED or PACKAGE token decides ("private", "protected", ""); "public" when there is none |
| BnfProductions.FirstSetVarNamesDistinct | src/java/org/congocc/core/BNFProduction.java:63-65 | two productions share a FIRST set variable only when they share a name, so the generated fields never clash |
| BnfProductions.FirstSetVarName | src/java/org/congocc/core/BNFProduction.java:63-65 | getFirstSetVarName; BnfProductions.FirstSetVarNamesDistinct states that different productions get different names |
| BnfProductions.IsLeftRecursive | src/java/org/congocc/core/BNFProduction.java:212-214 | isLeftRecursive; BnfProductions.DirectLeftRecursion, BnfProductions.TokenFirstNotLeftRecursive and LeftRecursion.LeftRecursiveFlagged state what it answers |
| BnfProductions.DirectLeftRecursion | src/java/org/congocc/core/BNFProduction.java:212-214 | a production whose sequence begins with a reference to itself is left-recursive |
| BnfProductions.TokenFirstNotLeftRecursive | src/java/org/congocc/core/BNFProduction.java:212-214 | a production whose sequence begins with a token is not left-recursive |
| BnfProductions.BNFProduction.constructor | src/java/org/congocc/core/BNFProduction.java:193 | a production starts with neither set cached |
| BnfProductions.BNFProduction.GetFirstSet | src/java/org/congocc/core/BNFProduction.java:195-200 | returns the expansion's FIRST set and caches it; a cached set is returned unchanged |
| BnfProductions.BNFProduction.GetFinalSet | src/java/org/congocc/core/BNFProduction.java:202-207 | returns the expansion's FINAL set and caches it; a cached set is returned unchanged |
| ExpansionNames.FirstSetVarName | src/java/org/congocc/core/Expansion.java:381-393 | getFirstSetVarName of a nested expansion or a production's root; ExpansionNames.RootNames states the root case |
| ExpansionNames.FinalSetVarName | src/java/org/congocc/core/Expansion.java:395-403 | getFinalSetVarName; ExpansionNames.RootNames, ExpansionNames.NestedNames and ExpansionNames.NestedNamesDiffer state what it answers |
| ExpansionNames.FollowSetVarName | src/java/org/congocc/core/Expansion.java:405-413 | getFollowSetVarName; ExpansionNames.RootNames, ExpansionNames.NestedNames and ExpansionNames.NestedNamesDiffer state what it answers |
| ExpansionNames.FirstSetSuffixUnbordered | src/java/org/congocc/core/Expansion.java:395-413 | no proper suffix of "_FIRST_SET" is also its prefix, so its occurrences never overlap |
| ExpansionNames.ReplaceFirstAt | src/java/org/congocc/core/Expansion.java:399-400 | replaceFirst rewrites exactly the leftmost occurrence |
| ExpansionNames.LeftmostInTail | src/java/org/congocc/core/Expansion.java:399-400 | a leftmost occurrence not at the start is the leftmost occurrence of the tail, one place earlier |
| ExpansionNames.ReplaceFirstAbsent | src/java/org/congocc/core/Expansion.java:399-400 | replaceFirst leaves a string without the target unchanged |
| ExpansionNames.ReplaceFirstInPrefix | src/java/org/congocc/core/Expansion.java:399-400 | when the prefix already holds the target, replaceFirst only rewrites inside the prefix |
| ExpansionNames.ReplaceAllSuffix | src/java/org/congocc/core/Expansion.java:402 | replacing every "_FIRST_SET" in a name that holds none, followed by the suffix, rewrites only the suffix |
| ExpansionNames.RootNames | src/java/org/congocc/core/Expansion.java:381-413 | right under a production, the three names are the production's name with "_FIRST_SET", "_FINAL_SET" and "_FOLLOW_SET" |
| ExpansionNames.NestedNames | src/java/org/congocc/core/Expansion.java:381-413 | a nested expansion's FINAL and FOLLOW names rewrite "first" in the generated prefix only, keeping the identifier's own part |
| ExpansionNames.NestedNamesDiffer | src/java/org/congocc/core/Expansion.java:395-413 | a nested expansion's FINAL and FOLLOW names differ |
| LeftRecursion.ReentryFreeIsPossiblyEmpty | src/java/org/congocc/core/NonTerminal.java:87-89 | where the guarded evaluation never re-enters a production, its answer is the model's possibly-empty fact |
| LeftRecursion.ReentryFreeAll | src/java/org/congocc/core/ExpansionSequence.java:163-170 | the same for the units of a sequence |
| LeftRecursion.ReentryFreeSome | src/java/org/congocc/core/ExpansionChoice.java:51-58 | the same for the alternatives of a choice |
| LeftRecursion.MoreFuel | src/java/org/congocc/core/NonTerminal.java:87-89 | once the unguarded recursion answers, more stack gives the same answer |
| LeftRecursion.MoreFuelAll | src/java/org/congocc/core/ExpansionSequence.java:163-170 | the same for a sequence's units |
| LeftRecursion.MoreFuelSome | src/java/org/congocc/core/ExpansionChoice.java:51-58 | the same for a choice's alternatives |
| LeftRecursion.ReentryFreeEnds | src/java/org/congocc/core/NonTerminal.java:87-89 | without re-entry, the unguarded recursion answers within as many calls as there are productions left to enter, with the guarded answer |
| LeftRecursion.ReentryFreeEndsAll | src/java/org/congocc/core/ExpansionSequence.java:163-170 | the same for a sequence's units |
| LeftRecursion.ReentryFreeEndsSome | src/java/org/congocc/core/ExpansionChoice.java:51-58 | the same for a choice's alternatives |
| LeftRecursion.ReentryNeverEnds | src/java/org/congocc/core/NonTerminal.java:87-89 | where the guarded evaluation re-enters a production, the unguarded recursion gives no answer with any amount of stack |
| LeftRecursion.ProductionNeverEnds | src/java/org/congocc/core/BNFProduction.java:112 | a production entered afresh whose evaluation re-enters gives no answer with any amount of stack |
| LeftRecursion.AnswersAgree | src/java/org/congocc/core/NonTerminal.java:87-89 | when both the guarded and the unguarded evaluation answer, they agree |
| LeftRecursion.ReentryNeverEndsAll | src/java/org/congocc/core/ExpansionSequence.java:163-170 | the same as ReentryNeverEnds for a sequence's units |
| LeftRecursion.ReentryNeverEndsSome | src/java/org/congocc/core/ExpansionChoice.java:51-58 | the same as ReentryNeverEnds for a choice's alternatives |
| LeftRecursion.PossiblyEmptyAgrees | src/java/org/congocc/core/NonTerminal.java:87-89 | wherever the source's isPossiblyEmpty returns, it returns the model's answer |
| LeftRecursion.EndsIffNoReentry | src/java/org/congocc/core/NonTerminal.java:87-89 | the source's isPossiblyEmpty returns for some amount of stack exactly when the model's guard never fires |
| LeftRecursion.OneProduction | src/java/org/congocc/core/BNFProduction.java:212-214 | the one-production grammar P ::= first \| second is closed and its reference to P is defined |
| LeftRecursion.LeftRecursive | src/java/org/congocc/core/BNFProduction.java:212-214 | the grammar P ::= P "x" \| "y" |
| LeftRecursion.RightRecursive | src/java/org/congocc/core/BNFProduction.java:212-214 | the grammar P ::= "y" P \| "y" |
| LeftRecursion.LeftRecursionCheckNeverEnds | src/java/org/congocc/core/ExpansionSequence.java:231-238 | as written: for P ::= P "x" \| "y", the isPossiblyEmpty call on the leading P inside potentiallyStartsWith never returns, whatever the stack |
| LeftRecursion.LeftRecursiveFlagged | src/java/org/congocc/core/BNFProduction.java:212-214 | the model's isLeftRecursive flags P ::= P "x" \| "y" |
| LeftRecursion.RightRecursiveNotFlagged | src/java/org/congocc/core/BNFProduction.java:212-214 | the model's isLeftRecursive does not flag P ::= "y" P \| "y" |
| GrammarWalks.Under | src/java/org/congocc/core/SanityChecker.java:83 | the paths of a child's nodes, each put under the step into that child |
| GrammarWalks.AtCons | src/java/org/congocc/core/SanityChecker.java:83 | following a path that starts with a step is entering through that step and following the rest |
| GrammarWalks.NodePathsSound | src/java/org/congocc/core/SanityChecker.java:96 | every path the walk lists leads to an expansion node |
| GrammarWalks.ChildPathsSound | src/java/org/congocc/core/SanityChecker.java:96 | every path listed for the children leads to a node |
| GrammarWalks.NodePathsComplete | src/java/org/congocc/core/SanityChecker.java:96 | every path that leads to a node, lookahead and UPTO expansions included, is listed |
| GrammarWalks.ChildPathsComplete | src/java/org/congocc/core/SanityChecker.java:96 | every node below a child is listed among the children's paths |
| GrammarWalks.NodePaths | src/java/org/congocc/core/SanityChecker.java:122 | the nodes descendants(Expansion.class) visits, in document order; GrammarWalks.NodePathsExact and GrammarWalks.NodePathsComplete state which they are |
| GrammarWalks.UndefinedNames | src/java/org/congocc/core/SanityChecker.java:83-86 | the undefined non-terminals below an expansion; GrammarWalks.UndefinedNamesUndefined and GrammarWalks.UndefinedReported state that exactly the undefined ones are reported |
| GrammarWalks.NodePathsExact | src/java/org/congocc/core/SanityChecker.java:122 | descendants(Expansion.class): a path is listed exactly when it leads to a node |
| GrammarWalks.UndefinedNamesUndefined | src/java/org/congocc/core/SanityChecker.java:83-86 | every name reported as undefined names no production |
| GrammarWalks.UndefinedInAllUndefined | src/java/org/congocc/core/SanityChecker.java:83-86 | the same for the names found below the children |
| GrammarWalks.NothingUndefinedIsDefined | src/java/org/congocc/core/SanityChecker.java:83-87 | an expansion with nothing undefined below it refers only to defined productions |
| GrammarWalks.NothingUndefinedInAll | src/java/org/congocc/core/SanityChecker.java:83-87 | with nothing undefined below the children, every child is defined |
| GrammarWalks.UndefinedReported | src/java/org/congocc/core/SanityChecker.java:83-86 | every non-terminal below an expansion that names no production is reported |
| GrammarWalks.UndefinedInAllHas | src/java/org/congocc/core/SanityChecker.java:83-86 | a name reported below a child is reported for its parent |
| GrammarWalks.NothingUndefinedCloses | src/java/org/congocc/core/SanityChecker.java:83-87 | when the walk finds no undefined non-terminal, the grammar is closed, so the later checks may run |
| GrammarWalks.UndefinedInPrefix | src/java/org/congocc/core/SanityChecker.java:83-87 | with nothing undefined in the grammar, nothing is undefined in any one production |
| SanityChecks.Unreachable | src/java/org/congocc/core/SanityChecker.java:130-140 | one error for each alternative other than the last that is always successful, with the number of alternatives after it, and no other |
| SanityChecks.LookBehindNames | src/java/org/congocc/core/SanityChecker.java:164-173 | the pass throws exactly when some name is empty; otherwise it reports exactly the names that begin like a Java identifier and name no production |
| SanityChecks.Then | src/java/org/congocc/core/SanityChecker.java:96-195 | the checks so far and one more step complete exactly when both do, reporting the first's diagnostics then the second's |
| SanityChecks.PathsAreNodes | src/java/org/congocc/core/SanityChecker.java:96 | every path the walk lists is a node of the production |
| SanityChecks.PathChecksComplete | src/java/org/congocc/core/SanityChecker.java:96-180 | a pass over a list of nodes that completes reports everything each node calls for |
| SanityChecks.PathChecksSound | src/java/org/congocc/core/SanityChecker.java:96-180 | every diagnostic of a pass over a list of nodes comes from one of them |
| SanityChecks.NodeChecks | src/java/org/congocc/core/SanityChecker.java:96-180 | what one pass reports at one node; SanityChecks.GrammarChecksSound and SanityChecks.GrammarChecksComplete tie a pass over the grammar to it |
| SanityChecks.GrammarChecksComplete | src/java/org/congocc/core/SanityChecker.java:96-180 | a pass that completes reports, for every node of every production, everything that node calls for |
| SanityChecks.GrammarChecksSound | src/java/org/congocc/core/SanityChecker.java:96-180 | every diagnostic of a completed pass comes from some node of some production |
| SanityChecks.OtherPassesComplete | src/java/org/congocc/core/SanityChecker.java:122-161 | the passes other than the choice-point and lookbehind passes never throw |
| SanityChecks.NodeChecksOk | src/java/org/congocc/core/SanityChecker.java:122-161 | the same over the nodes of one production |
| TokenChecks.AllSpecs | src/java/org/congocc/core/SanityChecker.java:183 | every expression of every token production is listed, and only those |
| TokenChecks.NextStateChecks | src/java/org/congocc/core/SanityChecker.java:183-189 | an error for exactly the expressions whose next state names no lexical state, naming that state |
| TokenChecks.EmptyMatchChecks | src/java/org/congocc/core/SanityChecker.java:191-195 | an error for exactly the expressions that can match the empty string |
| TokenChecks.NextStateStep | src/java/org/congocc/core/SanityChecker.java:183-189 | the loop's step: one more expression adds at most its own error, at the end |
| TokenChecks.EmptyMatchStep | src/java/org/congocc/core/SanityChecker.java:191-195 | the loop's step: one more expression adds at most its own error, at the end |
| TokenChecks.NameAllValues | src/java/org/congocc/core/SanityChecker.java:206-219 | every filed expression was in the table before, or carries that label |
| TokenChecks.CountPositive | src/java/org/congocc/core/SanityChecker.java:206-219 | a label occurs a positive number of times exactly when it is among the labels |
| TokenChecks.NameAllKeys | src/java/org/congocc/core/SanityChecker.java:206-219 | a label is in the table exactly when it was there before or labels an expression that is not a reference |
| TokenChecks.NameAllLast | src/java/org/congocc/core/SanityChecker.java:206-219 | a label ends up naming the last expression that carries it, as Map.put replaces |
| TokenChecks.NameAll | src/java/org/congocc/core/SanityChecker.java:206-219 | the loop filing the labelled expressions; TokenChecks.NameAllErrors, TokenChecks.NameAllKeys, TokenChecks.NameAllValues, TokenChecks.NameAllLast and TokenChecks.NameAllNoEmpty state what it files and reports |
| TokenChecks.NameAllErrors | src/java/org/congocc/core/SanityChecker.java:206-219 | a label is reported as multiply defined exactly when it is defined at least twice, counting a definition already in the table |
| TokenChecks.NameAllNoEmpty | src/java/org/congocc/core/SanityChecker.java:209 | an expression without a label is never reported as multiply defined |
| TokenChecks.RefCheck | src/java/org/congocc/core/SanityChecker.java:294-307 | at most one error per reference: none for an extra token name; undefined when no expression has the name; otherwise, for a reference outside an explicit token production, an error when the expression is private or not of kind TOKEN |
| TokenChecks.RefChecks | src/java/org/congocc/core/SanityChecker.java:294-307 | every error reported comes from one reference's check, and every reference's errors are reported |
| TokenChecks.RefChecksStep | src/java/org/congocc/core/SanityChecker.java:294-307 | the loop's step: one more reference appends its own errors |
| TokenChecks.ExtraNamesAccepted | src/java/org/congocc/core/SanityChecker.java:296 | a reference to an extra token name is never reported |
| RegexpVisitors.ReachesStep | src/java/org/congocc/core/SanityChecker.java:60-66 | a reference loop extended by one more reference is still a walk of references |
| RegexpVisitors.EdgeReaches | src/java/org/congocc/core/SanityChecker.java:60-66 | one reference is a walk of references |
| RegexpVisitors.RegexpVisitor.constructor | src/java/org/congocc/core/SanityChecker.java:58 | a visitor starts with nothing visited, nothing being visited and nothing reported |
| RegexpVisitors.RegexpVisitor.VisitRef | src/java/org/congocc/core/SanityChecker.java:60-72 | keeps the invariant (reported names are distinct and visited, and every visited expression reaches itself); a visited target adds nothing; a target being walked is reported; a target from which no loop is reachable adds no report; and starting from nothing visited, a target that adds no report is loop-free |
| RegexpVisitors.RegexpVisitor.WalkInto | src/java/org/congocc/core/SanityChecker.java:63-66 | walking into an expression keeps the invariant, leaves what is being walked as it was, and reports nothing when no loop is reachable from it |
| RegexpVisitors.RegexpVisitor.ReportStep | src/java/org/congocc/core/SanityChecker.java:67-70 | reporting a reference to an expression being walked marks it visited and appends its name; the invariant holds since that expression reaches itself |
| RegexpVisitors.RegexpVisitor.VisitRefs | src/java/org/congocc/core/SanityChecker.java:65 | visiting an expression's references in order keeps the invariant and leaves the expressions being walked as they were |
| RegexpVisitors.RegexpVisitor.VisitTop | src/java/org/congocc/core/SanityChecker.java:327-330 | visiting a token production's expression from an empty walk keeps the invariant and ends with nothing being walked |
| RegexpVisitors.RegexpVisitor.VisitAll | src/java/org/congocc/core/SanityChecker.java:327-330 | visiting every token production's expressions reports nothing if and only if no expression leads to a loop of references |
| SanityCheckers.UndefinedErrorsExact | src/java/org/congocc/core/SanityChecker.java:83-86 | an error is reported for exactly the undefined non-terminals found |
| SanityCheckers.ProductionLevel | src/java/org/congocc/core/SanityChecker.java:110-120 | exactly the errors for productions whose lexical state is not defined and the warnings for left-recursive productions |
| SanityCheckers.ProductionLevelStep | src/java/org/congocc/core/SanityChecker.java:110-120 | the loop's step: one more production adds its state error, then its left-recursion warning |
| SanityCheckers.PassChainThrown | src/java/org/congocc/core/SanityChecker.java:96-180 | once a check throws, the later checks are not made and the exception is the outcome |
| SanityCheckers.PathThrown | src/java/org/congocc/core/SanityChecker.java:96-180 | once a node of a pass has thrown, the pass throws the same exception |
| SanityCheckers.PathStep | src/java/org/congocc/core/SanityChecker.java:96-180 | one more node: the pass so far, then that node's diagnostics |
| SanityCheckers.GrammarStep | src/java/org/congocc/core/SanityChecker.java:96-180 | one more production: the pass so far, then that production's nodes |
| SanityCheckers.GrammarThrown | src/java/org/congocc/core/SanityChecker.java:96-180 | once a production of a pass has thrown, the pass throws the same exception |
| SanityCheckers.SpecLabels | src/java/org/congocc/core/SanityChecker.java:209-210 | one label per expression; a reference has none |
| SanityCheckers.SpecRegexps | src/java/org/congocc/core/SanityChecker.java:208 | the expressions, one per entry |
| SanityCheckers.SpecInObjects | src/java/org/congocc/core/SanityChecker.java:206-208 | an expression listed for the token productions belongs to one of them |
| SanityCheckers.ShrunkTrans | src/java/org/congocc/core/SanityChecker.java:321 | removing expressions twice is removing expressions |
| SanityCheckers.PrunedShrunk | src/java/org/congocc/core/SanityChecker.java:270 | the literal consolidation only removes expressions from token productions |
| SanityCheckers.StripRefsShrunk | src/java/org/congocc/core/SanityChecker.java:318-324 | removing the top-level references leaves no reference and keeps every other expression |
| SanityCheckers.SpecObjectsShrink | src/java/org/congocc/core/SanityChecker.java:270 | pruning leaves only expressions that were there before |
| SanityCheckers.NamedFromSpecs | src/java/org/congocc/core/SanityChecker.java:206-219 | filing the token productions' expressions keeps every filed expression a non-reference with a kind |
| SanityCheckers.StripRefs | src/java/org/congocc/core/SanityChecker.java:318-324 | each token production keeps exactly its expressions that are not references, and nothing else changes |
| SanityCheckers.NonRefs | src/java/org/congocc/core/SanityChecker.java:318-324 | exactly the expressions that are not references |
| SanityCheckers.BnfSites | src/java/org/congocc/core/SanityChecker.java:294-300 | the references of grammar productions, each checked for private and non-TOKEN targets |
| SanityCheckers.SanityChecker.constructor | src/java/org/congocc/core/SanityChecker.java:45-48 | the checker holds the grammar and its lexer data, with empty named-token and token-name tables |
| SanityCheckers.SanityChecker.ReportUndefined | src/java/org/congocc/core/SanityChecker.java:83-87 | one error per undefined non-terminal, in document order, and whether there was any |
| SanityCheckers.SanityChecker.RunNodePass | src/java/org/congocc/core/SanityChecker.java:96-180 | the loop over every node of every production yields the pass's diagnostics, or the exception that ends it |
| SanityCheckers.RunProductionPass | src/java/org/congocc/core/SanityChecker.java:96-180 | the loop over one production's nodes, in document order, yields that production's diagnostics or exception |
| SanityCheckers.SanityChecker.CheckProductions | src/java/org/congocc/core/SanityChecker.java:110-120 | the loop over the productions yields exactly their state errors and left-recursion warnings |
| SanityCheckers.SanityChecker.CheckExpansions | src/java/org/congocc/core/SanityChecker.java:96-180 | the scan-ahead, up-to-here, production, lexical-state, unreachable-alternative, loop, optional, lookbehind and UPTO checks in that order; the first exception ends them |
| SanityCheckers.SanityChecker.CheckSpecs | src/java/org/congocc/core/SanityChecker.java:182-195 | the next-state errors, then the empty-match errors, of every expression of the token productions |
| SanityCheckers.SanityChecker.NameTokens | src/java/org/congocc/core/SanityChecker.java:206-219 | the new named-token table and the multiply-defined errors are those of filing each labelled, non-reference expression in order |
| SanityCheckers.SanityChecker.LiteralInState | src/java/org/congocc/core/SanityChecker.java:244-273 | one literal in one lexical state: filed when absent (registered when it has no ordinal), an error when present as another kind or as a private expression, shared otherwise; tables stay public |
| SanityCheckers.SanityChecker.ConsolidateSpec | src/java/org/congocc/core/SanityChecker.java:240-273 | for each lexical state of the production, the literal's outcome is the classification of the table entry found there (on a first visit, the entry the table held before); it is removed exactly when some outcome is "shared", never from an explicit production; the diagnostics are exactly the outcomes' errors, all literal errors, and none about a private expression when the tables held only public ones |
| SanityCheckers.SanityChecker.LiteralStep | src/java/org/congocc/core/SanityChecker.java:244-273 | one lexical state: the outcome classifies the entry found, which on a first visit is the entry the table held on entry, and the table keeps no private expression |
| SanityCheckers.SanityChecker.LiteralInStates | src/java/org/congocc/core/SanityChecker.java:240-273 | the loop over the production's lexical states: one outcome per state, removal exactly when one is "shared", the errors of the outcomes |
| SanityCheckers.SanityChecker.ConsolidateProduction | src/java/org/congocc/core/SanityChecker.java:229-278 | one token production: its specs are classified one by one; the kept specs are exactly those KeptSpecs keeps for those outcomes, the errors exactly SpecErrors, the token names exactly those RecordLabels adds (each non-literal registered at its new ordinal, each label recorded); the production only loses removable literals |
| SanityCheckers.SanityChecker.ConsolidateSpecs | src/java/org/congocc/core/SanityChecker.java:229-278 | the loop over one production's specs keeps the progress invariant that ConsolidateProduction unfolds |
| SanityCheckers.SanityChecker.ConsolidateOne | src/java/org/congocc/core/SanityChecker.java:230-277 | one spec: a reference is skipped, a private expression remembered, another expression registered, a literal consolidated, and its label recorded under its ordinal |
| SanityCheckers.SanityChecker.ConsolidateStep | src/java/org/congocc/core/SanityChecker.java:230-277 | the loop step over one spec extends the production's progress by that spec |
| SanityCheckers.SanityChecker.ConsolidateLiterals | src/java/org/congocc/core/SanityChecker.java:228-279 | over all token productions: each is replaced by its kept specs, the diagnostics are exactly AllErrors of the outcomes, the token names exactly RecordAll; every outcome classifies the entry found, so only shared literals are removed and, the tables never holding a private expression, the only errors are literals defined as another kind |
| SanityCheckers.SanityChecker.ConsolidateNext | src/java/org/congocc/core/SanityChecker.java:228-279 | one more token production extends the consolidation's progress |
| SanityCheckers.SanityChecker.ConsolidateAll | src/java/org/congocc/core/SanityChecker.java:228-279 | the loop over the token productions ends with the progress of all of them |
| SanityCheckers.SanityChecker.CheckReferences | src/java/org/congocc/core/SanityChecker.java:294-307 | the errors are exactly those of checking the token productions' references and then the grammar productions': an undefined name, a private target or a non-TOKEN target, extra tokens and explicit productions exempt |
| SanityCheckers.SanityChecker.ResolveReferences | src/java/org/congocc/core/SanityChecker.java:308-316 | every top-level reference whose name is filed takes that expression's ordinal; other expressions keep theirs (nested references: see Left out) |
| SanityCheckers.SanityChecker.DetectLoops | src/java/org/congocc/core/SanityChecker.java:326-330 | every reported name names an expression that reaches itself through references, no expression is reported twice, and nothing is reported if and only if no expression of the token productions leads to a loop |
| SanityCheckers.SanityChecker.ConsolidationPhase | src/java/org/congocc/core/SanityChecker.java:228-279 | the fields after the consolidation: the token productions become AllKept of the outcomes, the diagnostics grow by exactly AllErrors, the token names become RecordAll, every outcome classifies the table entry found, and none of the new errors is about a private expression |
| SanityCheckers.SanityChecker.ReferencePhase | src/java/org/congocc/core/SanityChecker.java:294-330 | the reference errors are added, every top-level reference to a filed name takes that expression's ordinal, the references leave the token productions and every other expression stays, and loop errors follow, none exactly when no expression left leads to a loop |
| SanityCheckers.SanityChecker.ResolveAndReport | src/java/org/congocc/core/SanityChecker.java:294-316 | the reference errors are added and every top-level reference to a filed name takes that expression's ordinal; the token productions are unchanged |
| SanityCheckers.SanityChecker.StripReferences | src/java/org/congocc/core/SanityChecker.java:318-324 | the token productions become StripRefs of the old ones: no reference is left and every other expression is kept; nothing else changes |
| SanityCheckers.SanityChecker.SearchLoops | src/java/org/congocc/core/SanityChecker.java:326-330 | the loop errors are appended, and there are none exactly when no expression of the token productions leads to a loop |
| SanityCheckers.SanityChecker.GatedReferencePhase | src/java/org/congocc/core/SanityChecker.java:283-330 | the error-count gate: with an error already reported nothing changes; otherwise the reference errors, then the loop errors, are appended and the references are removed |
| SanityCheckers.SanityChecker.NamingPhase | src/java/org/congocc/core/SanityChecker.java:182-219 | the next-state errors, then the empty-match errors, then the multiply-defined errors are appended, and the named-token table becomes the one NameAll builds; the token productions are unchanged |
| SanityCheckers.SanityChecker.TokenAndReferenceChecks | src/java/org/congocc/core/SanityChecker.java:182-330 | after naming and consolidation, with diagnostics mid and token productions midTps: when mid holds an error nothing more happens; otherwise exactly the reference errors and the loop errors follow and the references are removed |
| SanityCheckers.SanityChecker.DoChecks | src/java/org/congocc/core/SanityChecker.java:80-331 | with undefined non-terminals, exactly their errors are added and nothing else happens; otherwise the expansion checks' exception is the outcome, or their diagnostics are added in order, followed by the token checks and the error-count gate of TokenAndReferenceChecks |
| SanityCheckers.SanityChecker.ClosedChecks | src/java/org/congocc/core/SanityChecker.java:96-331 | once every non-terminal is defined: the expansion checks' exception or diagnostics, then the gated token and reference checks |
| SanityCheckers.UndefinedHasErrors | src/java/org/congocc/core/SanityChecker.java:83-88 | reporting an undefined non-terminal adds an error, which is what the early return after it tests |
| SanityCheckers.ProductionDiagnostics | src/java/org/congocc/core/SanityChecker.java:110-120 | one production's diagnostics: exactly its state error and its left-recursion warning |
| SanityCheckers.KeptPruned | src/java/org/congocc/core/SanityChecker.java:262-266 | keeping the specs the outcomes allow removes only public string literals, only from a production that is not explicit, and changes nothing else about the production |
| SanityCheckers.SpecErrorsKinds | src/java/org/congocc/core/SanityChecker.java:244-273 | the errors of a production's outcomes are all literal errors, and with no private entry found none is about a private expression |
| SanityCheckers.OutcomeErrorsKinds | src/java/org/congocc/core/SanityChecker.java:244-273 | the errors of one literal's outcomes are literal errors, and without a private entry found none is about a private expression |

## Left out

- Unicode. `Character.toUpperCase`/`toLowerCase` are a parameter, a `CaseMap`, as are `isJavaIdentifierStart`/`Part` and `String.toUpperCase` (`LexerDatas.JavaChars`). The model states its properties for any such maps, not for Java's tables.
- The static `caseDiffSetInit` scan is not a separate loop. The model asks the case map directly for each code point up to 0x16e7f, which is the set that scan builds.
- A string is a sequence of code points. `isJavaIdentifier` therefore treats a supplementary character as one element, where Java's `String` uses two `char`s.
- Hash iteration order. `indexStates` walks `allStates` and `statesInComposite`, which are hash sets in Java. The model fixes no order. It states what every order yields: which states are numbered, in which group, and which block of indices each group takes. The order of the indices within a block is not stated. In `doEpsilonClosure` the order in which the epsilon moves are visited decides which target's type a state without one takes when its targets disagree; the model states only that it is the type of one of them (`LexicalStates.InheritedType`).
- Java `assert` statements. The model follows the code as it runs with assertions disabled, the JVM's default. Three checks are not modelled: `getCanonicalComposite` on a set of one state (LexicalStateData.java:110), which the code then answers with that state; `getOrdinal` of a composite (NfaState.java:99), where `Ordinal` answers from the composite's type; and a state and an epsilon target holding different types in `doEpsilonClosure` (NfaState.java:175), where the state keeps its own type. With assertions enabled each of these would end in an `AssertionError`.
- Diagnostics. The text of each error and warning message and its source location are not modelled. A diagnostic is its kind (error or warning) and the node or name it concerns.
- The parse tree API (`Node`, `firstChildOfType`, `descendants`, visitors) is replaced by the `Expansion` datatype and paths of child steps.
- `ZeroOrMore.java`, `OneOrMore.java`, `ZeroOrOne.java` and `ExpansionWithParentheses.java` are not part of this model. Their facts follow their use in `Expansion.java` and `SanityChecker.java`: a repetition's minimum size is 0 for `*` and `?`, and its maximum is unbounded for `*` and `+`.
- `Grammar.java` is not part of this model.
  - `addNamedToken` is modelled as a map update that returns the previous entry.
  - `getErrorCount` is modelled as the number of error diagnostics.
  - `generateIdentifierPrefix` and `generateUniqueIdentifier` are parameters.
- `ExpansionFacts.AddSize`: saturates at `MAX_VALUE`, which stands for "unbounded". Java adds two `int`s, and a sum of two large finite sizes would wrap instead. No grammar reaches sizes near 2^31 with finitely many tokens.
- `ExpansionFacts.PossiblyEmpty`: where Java recurses without end through a production that re-enters itself, the model answers the least value. The same holds for always-successful, scan limits, requires-scan-ahead, lexical-state switches, token activation, single-token and lookahead resolution. The non-terminating behaviour is stated separately, in `LeftRecursion.ReentryNeverEnds` and its companions.
- `ExpansionFacts.RequiresScanAhead`: it asks `ExpansionFacts.ScanUnits`, whose leading non-terminals go to `ExpansionFacts.ProductionHasScanLimit`. That predicate answers false when it re-enters a production it is already evaluating. Java's `getHasScanLimit` and `getRequiresScanAhead` have no guard there and never return (ExpansionSequence.java:104-121 and 198-211, NonTerminal.java:116-117, BNFProduction.java:93-95).
- `ExpansionFacts.First`: a re-entry answers the empty set, where Java returns the partial set cached by the re-entered choice or sequence. The model does not reproduce the partial sets that Java's caches keep for the expansions on such a cycle.
- Memoisation. FIRST sets and set variable names, cached in fields by `ExpansionSequence`, `ExpansionChoice`, `NonTerminal` and `Expansion`, are pure functions in the model, because a cached value equals a recomputed one. Only `BNFProduction`'s FIRST/FINAL cache is a class with fields (`BnfProductions.BNFProduction`).
- FINAL's `reEntries` counter on a non-terminal becomes the set of sites whose guard is raised. The counter only ever matters as zero or non-zero.
- Code generation. Template helpers such as `getScanRoutineName`, `getRecoverMethodName`, `getPredicateMethodName` and `NfaState.getMovesArrayName` are not modelled, nor are code snippets, `LexerData.buildData` or `getMaxNfaStates`. None of them decides an analysis result.
- Exceptions midway. When a phase of `doChecks` throws, the model records the exception (`Result.Thrown`) and stops that call. It does not model which diagnostics Java had already added to the grammar before the throw, beyond those of the phases that completed.
- The branch of the literal consolidation that reports a private literal clashing with a table entry is modelled. `SanityCheckers.SanityChecker.ConsolidateLiterals` shows it cannot be taken, because the tables only ever receive public literals.
- `Regexps.RegexpSequence` with a single unit is visited twice by `NfaBuilder.visit`, once as the unit and once as the sequence. `NfaBuilders.VisitSequence` keeps that.
- `SanityCheckers.SanityChecker.TokenAndReferenceChecks`: it states the error-count gate and everything after it exactly, but says only that the diagnostics it starts the gate with (mid) extend the old ones. What the naming phase and the consolidation append before the gate is stated by `SanityCheckers.SanityChecker.NamingPhase` and `SanityCheckers.SanityChecker.ConsolidationPhase`.
- `SanityCheckers.SanityChecker.DoChecks`: after the expansion checks it states that their diagnostics come first, then the gated phase of `TokenAndReferenceChecks`. The same gap applies: the naming and consolidation diagnostics between them are stated by those phases' contracts, not repeated here.
- `SanityCheckers.SanityChecker.CheckReferences`: Java walks every `RegexpRef` of the grammar in document order, so references in token productions and in grammar productions interleave. The model checks all token-production references first and then the grammar productions' references, so the order of these errors can differ. The grammar productions' references are a constructor input (`bnfRefs`), which nothing ties to the expansion trees of the productions.
- `NfaBuilders.Process` and `LexicalStates.LexicalStateData.GenerateData`: both number the states with the corrected `indexStates` (`LexicalStates.LexicalStateData.IndexStates`; see Findings). Java's `generateData`, and so `process`, as written can renumber the initial state, so "the initial state has index 0" is true of the corrected model only.
- `SanityCheckers.SanityChecker.ResolveReferences`, `SanityCheckers.SanityChecker.ResolveAndReport` and `SanityCheckers.SanityChecker.ReferencePhase`: SanityChecker.java:309-315 sets the ordinal and the target of every `RegexpRef` below a token production, nested ones included. The model sets the ordinal of the top-level references only. A nested reference is a `Regexp.RegexpRef(name, target)` value whose target is taken as given when the tree is built: nothing ties it to the expression filed under `name`, and the NFA builder follows that given target. The loop search does not depend on it: it follows each reference's name through the named-token table, which is where Java's resolved link points. Rewriting the nested targets would need the reference graph as a shared, possibly cyclic structure, which the value tree cannot hold before the loop check has run.
- `NfaBuilders.NfaBuilder.Visit`: requires every character class to be well formed (`RegexpOk`), so its "throws exactly when" covers only the NullPointerException of an empty sequence. The IndexOutOfBoundsException that `BitSet.set` throws on a reversed range (left > right + 1) is modelled in `CharRanges.RangeListToBS`, but it is not carried through `CharRanges.OrderedRanges`, the visit or `NfaBuilders.Process`.
- `CharRanges.OrderedRanges`: requires well-formed ranges, for the same reason.
- `NfaStates.GetOrderedStates`: with two or more members, it requires every member to have a next state and a move range. Java's comparator reads the move ranges only when the next-state ordinals tie, so Java can sort some sets that the model refuses. With fewer than two members nothing is required, as in Java.
- `Regexps.MatchesEmptyString`: the subclasses that implement `matchesEmptyString` are not part of this model. The model assumes the usual meaning: a character list never matches empty, a literal does when its image is empty, a choice when some alternative does, a sequence when every unit does, `*` and `?` always, `+` when its body does, `{min,max}` when min is 0 or its body does. A reference answers for the expression it carries. The check that uses it runs before references are resolved (`SanityChecker.java:191-195`, resolution at 308-316), and what an unresolved `RegexpRef`, or one naming an undefined token, answers in Java is not modelled.
- Concurrency, file I/O and the command-line driver are outside the analysed core.

## Findings

| source | as written | input that shows it | evidently intended | confidence | as-written member | corrected member |
|---|---|---|---|---|---|---|
| src/java/org/congocc/core/LexicalStateData.java:151-175 | `indexStates` gives the initial state index 0 first. If that state is also a member of a composite, the last loop numbers it again with a positive index. | `TOKEN: <T: ("a" ("b")*)+>`. The initial state's only epsilon move leads to the state moving on "a", which becomes the initial state and is a member of the composite {"a"-state, "b"-state}. | the initial state keeps index 0, as the comment at line 152 says | not executed | LexicalStates.InitialStateRenumbered, LexicalStates.LexicalStateData.IndexStatesAsWritten | LexicalStates.InitialStateKept, LexicalStates.LexicalStateData.IndexStates |
| src/java/org/congocc/core/ExpansionSequence.java:231-238 | `potentiallyStartsWith` on a sequence goes on to ask `unit.isPossiblyEmpty()` after the unit has answered true. For a leading non-terminal of the production itself, `isPossiblyEmpty` re-enters the production without a guard and never returns. | `P ::= P "x" \| "y"`, checked by `isLeftRecursive` (SanityChecker.java:117-118) | the check answers true and `doChecks` adds the warning "Production P is left recursive" | not executed | LeftRecursion.LeftRecursionCheckNeverEnds | LeftRecursion.LeftRecursiveFlagged |
