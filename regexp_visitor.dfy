/**
 * SanityChecker's RegexpVisitor: a depth-first walk from the references in
 * the token productions through the expressions they name, which reports a
 * reference to an expression that is still being walked: a self-referential
 * loop. An expression reported once is never walked again.
 */
module RegexpVisitors {
  import opened Expansions
  import opened Regexps

  /** An edge of the reference graph: a names b through one of its references. */
  ghost predicate Edge(named: map<string, RegularExpression>, a: RegularExpression, b: RegularExpression)
  {
    exists l | l in RefNamesOf(a) :: l in named && named[l] == b
  }

  /** A walk of one or more edges through the expressions named by the token names of w. */
  ghost predicate Walk(named: map<string, RegularExpression>, w: seq<string>)
  {
    |w| >= 2 && (forall k | 0 <= k < |w| :: w[k] in named) &&
    forall k | 0 <= k < |w| - 1 :: Linked(named, w, k)
  }

  /** The k-th name of w refers, through its expression, to the next one. */
  ghost predicate Linked(named: map<string, RegularExpression>, w: seq<string>, k: nat)
  {
    k + 1 < |w| && w[k] in named && w[k + 1] in named && Edge(named, named[w[k]], named[w[k + 1]])
  }

  /** b is reached from a by following one or more references. */
  ghost predicate Reaches(named: map<string, RegularExpression>, a: RegularExpression, b: RegularExpression)
  {
    exists w :: Walk(named, w) && named[w[0]] == a && named[w[|w| - 1]] == b
  }

  /** A walk extended by one edge is a walk. */
  lemma ReachesStep(named: map<string, RegularExpression>, a: RegularExpression, b: RegularExpression, l: string)
    requires Reaches(named, a, b) && l in named && Edge(named, b, named[l])
    ensures Reaches(named, a, named[l])
  {
    var w :| Walk(named, w) && named[w[0]] == a && named[w[|w| - 1]] == b;
    var w' := w + [l];
    assert forall k | 0 <= k < |w| :: w'[k] == w[k];
    forall k | 0 <= k < |w'| - 1 ensures Linked(named, w', k) {
      assert Linked(named, w, k) || k == |w| - 1;
    }
    assert Walk(named, w');
  }

  lemma EdgeReaches(named: map<string, RegularExpression>, a: string, l: string)
    requires a in named && l in named && Edge(named, named[a], named[l])
    ensures Reaches(named, named[a], named[l])
  {
    assert Linked(named, [a, l], 0);
    assert Walk(named, [a, l]);
  }

  /** The first edge of a walk: a reaches b through one of its own references. */
  lemma ReachesSplit(named: map<string, RegularExpression>, a: RegularExpression, b: RegularExpression) returns (l: string)
    requires Reaches(named, a, b)
    ensures l in RefNamesOf(a) && l in named && (named[l] == b || Reaches(named, named[l], b))
  {
    var w :| Walk(named, w) && named[w[0]] == a && named[w[|w| - 1]] == b;
    assert Linked(named, w, 0);
    l :| l in RefNamesOf(a) && l in named && named[l] == named[w[1]];
    if |w| > 2 {
      var v := w[1..];
      forall k | 0 <= k < |v| - 1 ensures Linked(named, v, k) {
        assert Linked(named, w, k + 1);
      }
      assert Walk(named, v) && named[v[0]] == named[l] && v[|v| - 1] == w[|w| - 1];
    }
  }

  /** Walks compose. */
  lemma ReachesTrans(named: map<string, RegularExpression>, a: RegularExpression, b: RegularExpression, c: RegularExpression)
    requires Reaches(named, a, b) && Reaches(named, b, c)
    ensures Reaches(named, a, c)
  {
    var w1 :| Walk(named, w1) && named[w1[0]] == a && named[w1[|w1| - 1]] == b;
    var w2 :| Walk(named, w2) && named[w2[0]] == b && named[w2[|w2| - 1]] == c;
    var w := w1 + w2[1..];
    assert Linked(named, w2, 0);
    forall k | 0 <= k < |w| - 1 ensures Linked(named, w, k) {
      if k < |w1| - 1 {
        assert Linked(named, w1, k);
      } else if k > |w1| - 1 {
        assert Linked(named, w2, k - |w1| + 1);
      }
    }
    assert Walk(named, w);
  }

  /**
   * Nothing reached from x, x included, is in S or lies on a loop of
   * references: a walk from x under the walking set S reports nothing.
   */
  ghost predicate LoopFree(named: map<string, RegularExpression>, S: set<RegularExpression>, x: RegularExpression)
  {
    x !in S && !Reaches(named, x, x) &&
    forall y | y in named.Values && Reaches(named, x, y) :: y !in S && !Reaches(named, y, y)
  }

  /** No expression that r's references lead to lies on a loop of references. */
  ghost predicate NoLoopFrom(named: map<string, RegularExpression>, r: RegularExpression)
  {
    forall l | l in RefNamesOf(r) && l in named :: LoopFree(named, {}, named[l])
  }

  /** No expression any of rs refers to leads to a loop. */
  ghost predicate NoLoopFromAny(named: map<string, RegularExpression>, rs: seq<RegularExpression>)
  {
    forall k | 0 <= k < |rs| :: NoLoopFrom(named, rs[k])
  }

  /** The prefix rs[..k + 1] is free of loops when rs[..k] and rs[k] are. */
  lemma NoLoopFromAnySnoc(named: map<string, RegularExpression>, rs: seq<RegularExpression>, k: nat)
    requires k < |rs| && NoLoopFromAny(named, rs[..k]) && NoLoopFrom(named, rs[k])
    ensures NoLoopFromAny(named, rs[..k + 1])
  {
    var pre := rs[..k + 1];
    forall j | 0 <= j < |pre| ensures NoLoopFrom(named, pre[j]) {
      if j < k {
        assert pre[j] == rs[..k][j];
      }
    }
  }

  /** x is loop-free under S when each expression it names is loop-free under S with x added. */
  lemma LoopFreeStep(named: map<string, RegularExpression>, S: set<RegularExpression>, x: RegularExpression)
    requires x !in S
    requires forall l | l in RefNamesOf(x) && l in named :: LoopFree(named, S + {x}, named[l])
    ensures LoopFree(named, S, x)
  {
    forall y | y in named.Values && Reaches(named, x, y) ensures y !in S && y != x && !Reaches(named, y, y) {
      var l := ReachesSplit(named, x, y);
      assert LoopFree(named, S + {x}, named[l]);
    }
  }

  /** What x reaches is loop-free when x is. */
  lemma LoopFreeReached(named: map<string, RegularExpression>, x: RegularExpression, c: RegularExpression)
    requires LoopFree(named, {}, x) && Reaches(named, x, c)
    ensures LoopFree(named, {}, c)
  {
    forall y | y in named.Values && Reaches(named, c, y) ensures !Reaches(named, y, y) {
      ReachesTrans(named, x, c, y);
    }
  }

  /** What a loop-free expression names is loop-free. */
  lemma LoopFreeNamed(named: map<string, RegularExpression>, l: string)
    requires l in named && LoopFree(named, {}, named[l])
    ensures forall l' | l' in RefNamesOf(named[l]) && l' in named :: LoopFree(named, {}, named[l'])
  {
    forall l' | l' in RefNamesOf(named[l]) && l' in named ensures LoopFree(named, {}, named[l']) {
      EdgeReaches(named, l, l');
      LoopFreeReached(named, named[l], named[l']);
    }
  }

  class RegexpVisitor {
    /** The token names and the expressions they name (getNamedToken). */
    const named: map<string, RegularExpression>
    var alreadyVisited: set<RegularExpression>
    var currentlyVisiting: set<RegularExpression>
    /** The names of the references reported as self-referential loops, in order. */
    var reported: seq<string>

    /**
     * What the walk keeps: the reported references name distinct expressions,
     * all of them already visited, every expression already visited lies on
     * a loop of references, and only a report marks an expression visited.
     */
    ghost predicate Valid()
      reads this
    {
      (forall i | 0 <= i < |reported| :: reported[i] in named && named[reported[i]] in alreadyVisited) &&
      (forall i, j | 0 <= i < j < |reported| :: reported[i] in named && reported[j] in named &&
         named[reported[i]] != named[reported[j]]) &&
      (forall x | x in alreadyVisited :: Reaches(named, x, x)) &&
      (reported == [] ==> alreadyVisited == {})
    }

    constructor (named: map<string, RegularExpression>)
      ensures this.named == named && alreadyVisited == {} && currentlyVisiting == {} && reported == []
      ensures Valid()
    {
      this.named := named;
      alreadyVisited := {};
      currentlyVisiting := {};
      reported := [];
    }

    /**
     * visit(RegexpRef): a reference to an expression already reported does
     * nothing; one to an expression being walked is reported; any other is
     * walked into. Nothing is reported when what the reference leads to is
     * loop-free, and when nothing has been reported at all, what it leads to
     * is loop-free and clear of the expressions being walked.
     */
    method VisitRef(l: string)
      requires l in named && Valid()
      requires forall c | c in currentlyVisiting :: Reaches(named, c, named[l])
      modifies this
      ensures Valid()
      ensures currentlyVisiting == old(currentlyVisiting)
      ensures old(alreadyVisited) <= alreadyVisited
      ensures old(reported) <= reported
      ensures old(named[l] in alreadyVisited) ==> reported == old(reported) && alreadyVisited == old(alreadyVisited)
      ensures old(named[l] !in alreadyVisited && named[l] in currentlyVisiting) ==>
        reported == old(reported) + [l] && alreadyVisited == old(alreadyVisited) + {named[l]}
      ensures LoopFree(named, {}, named[l]) ==> reported == old(reported)
      ensures alreadyVisited == {} ==> LoopFree(named, currentlyVisiting, named[l])
      decreases Budget(named.Values, currentlyVisiting), 1
    {
      var r := named[l];
      if r !in alreadyVisited {
        if r !in currentlyVisiting {
          WalkInto(l);
        } else {
          ReportStep(l);
        }
      }
    }

    /** Walking into the expression l names, which is neither reported nor being walked. */
    method WalkInto(l: string)
      requires l in named && Valid() && named[l] !in alreadyVisited && named[l] !in currentlyVisiting
      requires forall c | c in currentlyVisiting :: Reaches(named, c, named[l])
      modifies this
      ensures Valid()
      ensures currentlyVisiting == old(currentlyVisiting)
      ensures old(alreadyVisited) <= alreadyVisited
      ensures old(reported) <= reported
      ensures LoopFree(named, {}, named[l]) ==> reported == old(reported)
      ensures alreadyVisited == {} ==> LoopFree(named, currentlyVisiting, named[l])
      decreases Budget(named.Values, currentlyVisiting), 0
    {
      var r := named[l];
      ghost var walking := currentlyVisiting;
      BudgetShrinks(named.Values, currentlyVisiting, r);
      SetWalking(currentlyVisiting + {r});
      if LoopFree(named, {}, r) {
        LoopFreeNamed(named, l);
      }
      VisitRefs(RefNamesOf(r), l);
      SetWalking(currentlyVisiting - {r});
      assert currentlyVisiting == walking;
      if alreadyVisited == {} {
        LoopFreeStep(named, walking, r);
      }
    }

    /** Entering or leaving an expression: only the walking set changes. */
    method SetWalking(s: set<RegularExpression>)
      requires Valid()
      modifies this
      ensures Valid() && currentlyVisiting == s
      ensures alreadyVisited == old(alreadyVisited) && reported == old(reported)
    {
      currentlyVisiting := s;
    }

    /** Reporting l: its expression, being walked, reaches itself. */
    method ReportStep(l: string)
      requires l in named && Valid() && named[l] !in alreadyVisited
      requires Reaches(named, named[l], named[l])
      modifies this
      ensures Valid()
      ensures alreadyVisited == old(alreadyVisited) + {named[l]} && reported == old(reported) + [l]
      ensures currentlyVisiting == old(currentlyVisiting)
    {
      var before := reported;
      reported := reported + [l];
      alreadyVisited := alreadyVisited + {named[l]};
      forall i, j | 0 <= i < j < |reported|
        ensures reported[i] in named && reported[j] in named && named[reported[i]] != named[reported[j]]
      {
        if j < |before| {
          assert reported[i] == before[i] && reported[j] == before[j];
        } else {
          assert reported[i] == before[i];
          assert named[before[i]] in old(alreadyVisited);
        }
      }
    }

    /**
     * The references of the expression `from`, visited in order: `from` is
     * being walked, and each of its references is one edge on from it.
     */
    method VisitRefs(ls: seq<string>, fromName: string)
      requires Valid() && fromName in named && named[fromName] in currentlyVisiting && RefNamesOf(named[fromName]) == ls
      requires forall c | c in currentlyVisiting :: c == named[fromName] || Reaches(named, c, named[fromName])
      modifies this
      ensures Valid()
      ensures currentlyVisiting == old(currentlyVisiting)
      ensures old(alreadyVisited) <= alreadyVisited
      ensures old(reported) <= reported
      ensures (forall k | 0 <= k < |ls| && ls[k] in named :: LoopFree(named, {}, named[ls[k]])) ==> reported == old(reported)
      ensures alreadyVisited == {} ==>
        forall k | 0 <= k < |ls| && ls[k] in named :: LoopFree(named, currentlyVisiting, named[ls[k]])
      decreases Budget(named.Values, currentlyVisiting), 2
    {
      ghost var free := forall k | 0 <= k < |ls| && ls[k] in named :: LoopFree(named, {}, named[ls[k]]);
      for k := 0 to |ls|
        invariant Valid()
        invariant currentlyVisiting == old(currentlyVisiting)
        invariant old(alreadyVisited) <= alreadyVisited
        invariant old(reported) <= reported
        invariant free ==> reported == old(reported)
        invariant alreadyVisited == {} ==>
          forall j | 0 <= j < k && ls[j] in named :: LoopFree(named, currentlyVisiting, named[ls[j]])
      {
        var l := ls[k];
        if l in named {
          var from := named[fromName];
          assert Edge(named, from, named[l]);
          forall c | c in currentlyVisiting ensures Reaches(named, c, named[l]) {
            if c == from {
              EdgeReaches(named, fromName, l);
            } else {
              ReachesStep(named, c, from, l);
            }
          }
          VisitRef(l);
        }
      }
    }

    /**
     * visit(tp) for one expression of a token production: its references,
     * from an empty walk. Nothing is reported when no loop is reachable from
     * it, and when nothing has been reported at all, none is.
     */
    method VisitTop(r: RegularExpression)
      requires Valid() && currentlyVisiting == {}
      modifies this
      ensures Valid() && currentlyVisiting == {}
      ensures old(alreadyVisited) <= alreadyVisited
      ensures old(reported) <= reported
      ensures NoLoopFrom(named, r) ==> reported == old(reported)
      ensures alreadyVisited == {} ==> NoLoopFrom(named, r)
    {
      var ls := RefNamesOf(r);
      for k := 0 to |ls|
        invariant Valid() && currentlyVisiting == {}
        invariant old(alreadyVisited) <= alreadyVisited
        invariant old(reported) <= reported
        invariant NoLoopFrom(named, r) ==> reported == old(reported)
        invariant alreadyVisited == {} ==> forall j | 0 <= j < k && ls[j] in named :: LoopFree(named, {}, named[ls[j]])
      {
        if ls[k] in named {
          VisitRef(ls[k]);
        }
      }
    }

    /**
     * The walk over every top-level expression in turn: nothing is reported
     * exactly when none of them refers to an expression that leads to a loop.
     */
    method VisitAll(rs: seq<RegularExpression>)
      requires Valid() && currentlyVisiting == {} && reported == []
      modifies this
      ensures Valid() && currentlyVisiting == {}
      ensures reported == [] <==> NoLoopFromAny(named, rs)
    {
      ghost var free := NoLoopFromAny(named, rs);
      for k := 0 to |rs|
        invariant Valid() && currentlyVisiting == {}
        invariant free ==> reported == []
        invariant alreadyVisited == {} ==> NoLoopFromAny(named, rs[..k])
      {
        VisitTop(rs[k]);
        if alreadyVisited == {} {
          NoLoopFromAnySnoc(named, rs, k);
        }
      }
      assert rs[..|rs|] == rs;
    }
  }
}
