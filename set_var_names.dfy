/**
 * The names an expansion gives the generated variables holding its FIRST, FINAL
 * and FOLLOW sets. The expansion right under its production takes the
 * production's "_FIRST_SET" name; a deeper expansion takes the identifier the
 * grammar generates for it from the "first_set" prefix. The FINAL and FOLLOW
 * names are derived from the FIRST name by a text substitution.
 */
module ExpansionNames {
  import opened Util
  import opened Expansions
  import BnfProductions

  /** Where an expansion sits, as far as naming goes: directly under its production,
      or deeper, where the grammar hands it a unique identifier. */
  datatype NameSite = ProductionRoot(production: Production) | Nested(unique: string)

  /** String.replaceFirst with a pattern free of regular-expression operators: the
      leftmost occurrence of target replaced. */
  function ReplaceFirst(s: string, target: string, replacement: string): string
    requires target != ""
    decreases |s|
  {
    if |s| < |target| then s
    else if HasPrefix(s, target) then replacement + s[|target|..]
    else [s[0]] + ReplaceFirst(s[1..], target, replacement)
  }

  /** getFirstSetVarName. */
  function FirstSetVarName(site: NameSite): string
  {
    match site
    case ProductionRoot(p) => BnfProductions.FirstSetVarName(p)
    case Nested(unique) => unique
  }

  /** getFinalSetVarName: with the generated prefix, the first "first" becomes "final";
      otherwise every "_FIRST_SET" becomes "_FINAL_SET". */
  function FinalSetVarName(site: NameSite, prefix: string): string
  {
    var first := FirstSetVarName(site);
    if HasPrefix(first, prefix) then ReplaceFirst(first, "first", "final")
    else ReplaceAll(first, "_FIRST_SET", "_FINAL_SET")
  }

  /** getFollowSetVarName: as getFinalSetVarName, with "follow" and "_FOLLOW_SET". */
  function FollowSetVarName(site: NameSite, prefix: string): string
  {
    var first := FirstSetVarName(site);
    if HasPrefix(first, prefix) then ReplaceFirst(first, "first", "follow")
    else ReplaceAll(first, "_FIRST_SET", "_FOLLOW_SET")
  }

  // ---------------------------------------------------------------------
  // The substitutions
  // ---------------------------------------------------------------------

  /** No proper suffix of t is also a prefix of t: two occurrences never overlap. */
  predicate Unbordered(t: string)
  {
    forall m :: 0 < m < |t| ==> t[m..] != t[..|t| - m]
  }

  lemma FirstSetSuffixUnbordered()
    ensures Unbordered("_FIRST_SET")
  {
    var t := "_FIRST_SET";
    forall m | 0 < m < |t|
      ensures t[m..] != t[..|t| - m]
    {
      assert t[m..][0] == t[m];
      if m == 6 {
        assert t[m..][1] != t[1];
      } else {
        assert t[m] != t[0];
      }
    }
  }

  /** An occurrence in s[1..] is one in s, one place further right. */
  lemma OccursShifted(s: string, target: string, j: nat)
    requires s != []
    ensures OccursAt(s[1..], target, j) <==> OccursAt(s, target, j + 1)
  {
    if j + |target| <= |s| - 1 {
      assert s[1..][j..j + |target|] == s[j + 1..j + 1 + |target|];
    }
  }

  /** The leftmost occurrence of target is the one replaced, and nothing else changes. */
  lemma {:induction false} ReplaceFirstAt(s: string, target: string, replacement: string, k: nat)
    requires target != "" && OccursAt(s, target, k)
    requires forall j :: 0 <= j < k ==> !OccursAt(s, target, j)
    ensures ReplaceFirst(s, target, replacement) == s[..k] + replacement + s[k + |target|..]
    decreases k
  {
    if k > 0 {
      LeftmostInTail(s, target, k);
      ReplaceFirstAt(s[1..], target, replacement, k - 1);
      ReplaceFirstAtStep(s, target, replacement, k);
    } else {
      assert s[..0] == [];
    }
  }

  /** One step of ReplaceFirstAt: the claim for s[1..] at k - 1 gives the claim for s at k. */
  lemma ReplaceFirstAtStep(s: string, target: string, replacement: string, k: nat)
    requires target != "" && k > 0 && k + |target| <= |s| && !HasPrefix(s, target)
    requires ReplaceFirst(s[1..], target, replacement) == s[1..][..k - 1] + replacement + s[1..][k - 1 + |target|..]
    ensures ReplaceFirst(s, target, replacement) == s[..k] + replacement + s[k + |target|..]
  {
    ReplaceFirstSkips(s, target, replacement);
    TailSlices(s, k, |target|);
    ConsAppend3(s[0], s[1..][..k - 1], replacement, s[1..][k - 1 + |target|..]);
  }

  /** The slices of s around an occurrence at k > 0, read off s[1..]. */
  lemma TailSlices(s: string, k: nat, n: nat)
    requires 0 < k && k + n <= |s|
    ensures s[..k] == [s[0]] + s[1..][..k - 1]
    ensures s[k + n..] == s[1..][k - 1 + n..]
  {
  }

  lemma ConsAppend3(c: char, a: string, b: string, d: string)
    ensures [c] + (a + b + d) == ([c] + a) + b + d
  {
  }

  /** A leftmost occurrence past position 0 is, one place to the left, the leftmost one of s[1..]. */
  lemma LeftmostInTail(s: string, target: string, k: nat)
    requires target != "" && k > 0 && OccursAt(s, target, k)
    requires forall j :: 0 <= j < k ==> !OccursAt(s, target, j)
    ensures |s| >= |target| && !HasPrefix(s, target)
    ensures OccursAt(s[1..], target, k - 1)
    ensures forall j :: 0 <= j < k - 1 ==> !OccursAt(s[1..], target, j)
  {
    assert !OccursAt(s, target, 0);
    OccursShifted(s, target, k - 1);
    forall j | 0 <= j < k - 1
      ensures !OccursAt(s[1..], target, j)
    {
      OccursShifted(s, target, j);
    }
  }

  /** A string without the target is left as it is. */
  lemma {:induction false} ReplaceFirstAbsent(s: string, target: string, replacement: string)
    requires target != "" && !Contains(s, target)
    ensures ReplaceFirst(s, target, replacement) == s
    decreases |s|
  {
    if |s| >= |target| {
      assert !OccursAt(s, target, 0);
      forall k | OccursAt(s[1..], target, k)
        ensures OccursAt(s, target, k + 1)
      {
        assert s[1..][k..k + |target|] == s[k + 1..k + 1 + |target|];
      }
      assert !Contains(s[1..], target);
      ReplaceFirstAbsent(s[1..], target, replacement);
    }
  }

  /** When the target already occurs in a prefix p of s, the replacement happens
      inside p and the rest of s is kept. */
  lemma {:induction false} ReplaceFirstInPrefix(s: string, p: string, target: string, replacement: string)
    requires target != "" && HasPrefix(s, p) && Contains(p, target)
    ensures ReplaceFirst(s, target, replacement) == ReplaceFirst(p, target, replacement) + s[|p|..]
  {
    var k :| OccursAt(p, target, k);
    ReplaceFirstInPrefixAt(s, p, target, replacement, k);
  }

  /** ReplaceFirstInPrefix, given the position k of an occurrence in p. */
  lemma {:induction false} ReplaceFirstInPrefixAt(s: string, p: string, target: string, replacement: string, k: nat)
    requires target != "" && HasPrefix(s, p) && OccursAt(p, target, k)
    ensures ReplaceFirst(s, target, replacement) == ReplaceFirst(p, target, replacement) + s[|p|..]
    decreases k
  {
    if HasPrefix(p, target) {
      ReplaceFirstAtStart(s, p, target, replacement);
    } else {
      OccursInTail(p, target, k);
      TailPrefix(s, p);
      ReplaceFirstInPrefixAt(s[1..], p[1..], target, replacement, k - 1);
      ReplaceFirstPastStart(s, p, target, replacement);
    }
  }

  /** The target at the start of p: both replacements happen there. */
  lemma ReplaceFirstAtStart(s: string, p: string, target: string, replacement: string)
    requires target != "" && HasPrefix(s, p) && HasPrefix(p, target)
    ensures ReplaceFirst(s, target, replacement) == ReplaceFirst(p, target, replacement) + s[|p|..]
  {
    PrefixAgrees(s, p, target);
    var after := p[|target|..];
    assert ReplaceFirst(s, target, replacement) == replacement + (after + s[|p|..]);
    assert ReplaceFirst(p, target, replacement) == replacement + after;
  }

  /** The target not at the start of p: the first character is kept and the claim for the tails carries over. */
  lemma ReplaceFirstPastStart(s: string, p: string, target: string, replacement: string)
    requires target != "" && HasPrefix(s, p) && |target| <= |p| && !HasPrefix(p, target)
    requires s[0] == p[0] && s[|p|..] == s[1..][|p| - 1..]
    requires ReplaceFirst(s[1..], target, replacement) == ReplaceFirst(p[1..], target, replacement) + s[1..][|p| - 1..]
    ensures ReplaceFirst(s, target, replacement) == ReplaceFirst(p, target, replacement) + s[|p|..]
  {
    PrefixAgrees(s, p, target);
    var rest := ReplaceFirst(p[1..], target, replacement);
    ReplaceFirstSkips(s, target, replacement);
    ReplaceFirstSkips(p, target, replacement);
    assert ReplaceFirst(s, target, replacement) == [s[0]] + (rest + s[|p|..]);
    ConsAppend(s[0], rest, s[|p|..]);
  }

  lemma ConsAppend(c: char, a: string, b: string)
    ensures [c] + (a + b) == ([c] + a) + b
  {
  }

  /** Where s does not start with target, replaceFirst keeps its first character and goes on with the rest. */
  lemma ReplaceFirstSkips(s: string, target: string, replacement: string)
    requires target != "" && |s| >= |target| && !HasPrefix(s, target)
    ensures ReplaceFirst(s, target, replacement) == [s[0]] + ReplaceFirst(s[1..], target, replacement)
  {
  }

  /** Where p is a prefix of s at least as long as target, s and p agree on starting with target. */
  lemma PrefixAgrees(s: string, p: string, target: string)
    requires HasPrefix(s, p) && |target| <= |p|
    ensures HasPrefix(s, target) == HasPrefix(p, target)
    ensures HasPrefix(p, target) ==> s[|target|..] == p[|target|..] + s[|p|..]
  {
    assert s[..|target|] == p[..|target|];
    if HasPrefix(p, target) {
      assert s[|target|..] == s[|target|..|p|] + s[|p|..];
    }
  }

  /** An occurrence of target in p that is not at its start is one place to the left in p[1..]. */
  lemma OccursInTail(p: string, target: string, k: int)
    requires OccursAt(p, target, k) && !HasPrefix(p, target)
    ensures k > 0 && OccursAt(p[1..], target, k - 1)
  {
    assert p[1..][k - 1..k - 1 + |target|] == p[k..k + |target|];
  }

  /** Dropping the first character keeps a prefix a prefix. */
  lemma TailPrefix(s: string, p: string)
    requires HasPrefix(s, p) && |p| > 0
    ensures s[0] == p[0] && HasPrefix(s[1..], p[1..]) && s[|p|..] == s[1..][|p| - 1..]
  {
    assert s[0] == s[..|p|][0];
    assert s[1..][..|p| - 1] == p[1..];
  }

  /** Replacing every occurrence in name + t, where name holds no t and t cannot
      overlap itself, rewrites exactly the trailing t. */
  lemma {:induction false} ReplaceAllSuffix(name: string, target: string, replacement: string)
    requires target != "" && Unbordered(target) && !Contains(name, target)
    ensures ReplaceAll(name + target, target, replacement) == name + replacement
    decreases |name|
  {
    var s := name + target;
    if name == [] {
      assert s == target;
      assert s[|target|..] == [];
    } else {
      if |name| >= |target| {
        assert !OccursAt(name, target, 0);
        assert s[..|target|] == name[..|target|];
      } else {
        var m := |name|;
        var pre := s[..|target|];
        assert pre[m..] == target[..|target| - m];
        assert target[m..] != target[..|target| - m];
      }
      assert !HasPrefix(s, target);
      forall k | OccursAt(name[1..], target, k)
        ensures OccursAt(name, target, k + 1)
      {
        assert name[1..][k..k + |target|] == name[k + 1..k + 1 + |target|];
      }
      var rest := name[1..];
      ReplaceAllSuffix(rest, target, replacement);
      assert s[1..] == rest + target;
      calc {
        ReplaceAll(s, target, replacement);
        [s[0]] + ReplaceAll(rest + target, target, replacement);
        [name[0]] + (rest + replacement);
        ([name[0]] + rest) + replacement;
        { assert [name[0]] + rest == name; }
        name + replacement;
      }
    }
  }

  // ---------------------------------------------------------------------
  // What the names come to
  // ---------------------------------------------------------------------

  /** Right under a production whose name holds no "_FIRST_SET" and does not begin with
      the generated prefix, the three names are the production name with the suffixes
      "_FIRST_SET", "_FINAL_SET" and "_FOLLOW_SET". */
  lemma RootNames(p: Production, prefix: string)
    requires !Contains(p.name, "_FIRST_SET") && !HasPrefix(p.name + "_FIRST_SET", prefix)
    ensures FirstSetVarName(ProductionRoot(p)) == p.name + "_FIRST_SET"
    ensures FinalSetVarName(ProductionRoot(p), prefix) == p.name + "_FINAL_SET"
    ensures FollowSetVarName(ProductionRoot(p), prefix) == p.name + "_FOLLOW_SET"
  {
    FirstSetSuffixUnbordered();
    ReplaceAllSuffix(p.name, "_FIRST_SET", "_FINAL_SET");
    ReplaceAllSuffix(p.name, "_FIRST_SET", "_FOLLOW_SET");
  }

  /** A nested expansion whose generated identifier begins with a prefix that holds
      "first" gets its FINAL and FOLLOW names by rewriting that prefix only: the
      identifier's own part after the prefix is kept. */
  lemma NestedNames(unique: string, prefix: string)
    requires HasPrefix(unique, prefix) && Contains(prefix, "first")
    ensures FinalSetVarName(Nested(unique), prefix) ==
              ReplaceFirst(prefix, "first", "final") + unique[|prefix|..]
    ensures FollowSetVarName(Nested(unique), prefix) ==
              ReplaceFirst(prefix, "first", "follow") + unique[|prefix|..]
  {
    ReplaceFirstInPrefix(unique, prefix, "first", "final");
    ReplaceFirstInPrefix(unique, prefix, "first", "follow");
  }

  /** The FINAL and FOLLOW names of a nested expansion differ: where the first one reads
      "final" the other reads "follow". */
  lemma NestedNamesDiffer(unique: string, prefix: string, k: nat)
    requires HasPrefix(unique, prefix) && OccursAt(prefix, "first", k)
    requires forall j :: 0 <= j < k ==> !OccursAt(prefix, "first", j)
    ensures FinalSetVarName(Nested(unique), prefix) != FollowSetVarName(Nested(unique), prefix)
  {
    NestedNames(unique, prefix);
    ReplaceFirstAt(prefix, "first", "final", k);
    ReplaceFirstAt(prefix, "first", "follow", k);
    var fin := FinalSetVarName(Nested(unique), prefix);
    var fol := FollowSetVarName(Nested(unique), prefix);
    assert fin[k + 1] == 'i';
    assert fol[k + 1] == 'o';
  }
}
