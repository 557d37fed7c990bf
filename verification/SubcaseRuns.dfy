/** How the test runner finds its way through a tree of subcases by running the body again and again. */
module SubcaseRuns {
  import opened SubcaseTree

  /**
    The runner's bookkeeping. `started` lists the subcases reported as started
    in the current run; `outOfRange` records that the stack was indexed beyond its
    end, which a run does exactly if `RunOverruns` holds of its body and goal.
   */
  datatype Context = Context(
    reachedLeaf: bool,
    stack: Path,
    next: Path,
    fully: set<Path>,
    depth: nat,
    started: seq<Signature>,
    outOfRange: bool)

  const FRESH := Context(false, [], [], {}, 0, [], false)

  function Entered(c: Context, sig: Signature): Context {
    c.(depth := c.depth + 1, started := c.started + [sig])
  }

  /** The constructor of `Subcase`: whether its body runs. */
  function Enter(c: Context, sig: Signature): (Context, bool) {
    if !c.reachedLeaf then
      if |c.next| <= |c.stack| || c.next[|c.stack|] == sig
      then (Entered(c, sig).(stack := c.stack + [sig]), true)
      else (c, false)
    else if c.depth >= |c.stack| then (c.(outOfRange := true), false)
    else if c.stack[c.depth] == sig then (Entered(c, sig), true)
    else if |c.next| <= c.depth && c.stack[..c.depth] + [sig] !in c.fully
    then (c.(next := c.stack[..c.depth] + [sig]), false)
    else (c, false)
  }

  /** The destructor of a `Subcase` that was entered. */
  function Leave(c: Context): Context
    requires c.depth > 0
  {
    var c' := c.(depth := c.depth - 1);
    if !c.reachedLeaf then c'.(fully := c.fully + {c.stack}, next := [], reachedLeaf := true)
    else if c.next == [] then c'.(fully := c.fully + {c.stack})
    else c'
  }

  /** Running a body. */
  function Exec(b: Body, c: Context): (c': Context)
    ensures c'.depth == c.depth
    ensures c.outOfRange ==> c'.outOfRange
  {
    match b
    case End => c
    case Subcase(sig, inner, rest) =>
      var (c1, entered) := Enter(c, sig);
      Exec(rest, if entered then Leave(Exec(inner, c1)) else c1)
  }

  function StartRun(c: Context): Context {
    c.(reachedLeaf := false, stack := [], depth := 0, started := [])
  }

  // ----- After the leaf -----

  /** No recorded leaf path lies at or below `path`. */
  predicate Fresh(path: Path, fully: set<Path>) {
    forall x :: x in fully ==> !(path <= x)
  }

  predicate AllFresh(prefix: Path, tops: set<Signature>, fully: set<Path>) {
    forall t :: t in tops ==> Fresh(prefix + [t], fully)
  }

  /** Once the leaf is done, only the first sibling seen can become the next goal, and none is entered. */
  lemma {:induction false} AfterLeaf(b: Body, c: Context)
    requires c.reachedLeaf && c.depth < |c.stack|
    requires c.stack[c.depth] !in Tops(b)
    requires |c.next| <= c.depth ==> AllFresh(c.stack[..c.depth], Tops(b), c.fully)
    ensures Exec(b, c)
         == if |c.next| <= c.depth && b.Subcase? then c.(next := c.stack[..c.depth] + [b.sig]) else c
  {
    if b.Subcase? {
      var (c1, entered) := Enter(c, b.sig);
      var path := c.stack[..c.depth] + [b.sig];
      if |c.next| <= c.depth {
        assert b.sig in Tops(b) && Fresh(path, c.fully);
        assert path <= path;
      }
      AfterLeaf(b.rest, c1);
    }
  }

  // ----- On the way to the leaf -----

  /** Nothing that comes after the leaf at `q` has been recorded. */
  predicate Unvisited(b: Body, q: Path, prefix: Path, fully: set<Path>)
    requires Leads(b, q)
  {
    if Takes(b, q) then
      && AllFresh(prefix, Tops(b.rest), fully)
      && (b.inner.Subcase? ==> Unvisited(b.inner, Rest(q), prefix + [b.sig], fully))
    else Unvisited(b.rest, q, prefix, fully)
  }

  /** The goal `q` is what is left of `next` below the subcases already entered. */
  predicate Seeking(c: Context, q: Path) {
    && !c.reachedLeaf && c.depth == |c.stack|
    && (if q == [] then |c.next| <= |c.stack| else c.next == c.stack + q)
  }

  /** The bookkeeping after the leaf at `q` was executed. */
  function Arrived(b: Body, c: Context, q: Path): Context
    requires Leads(b, q)
  {
    var leaf := c.stack + LeafAt(b, q);
    c.(reachedLeaf := true,
       stack := leaf,
       next := match Successor(b, q) { case None => [] case Some(n) => c.stack + n },
       fully := c.fully + {leaf},
       started := c.started + LeafAt(b, q))
  }

  /** Entering the first subcase, with the goal behind it. */
  lemma EnterTaken(b: Body, c: Context, q: Path)
    requires b.Subcase? && Takes(b, q) && Seeking(c, q)
    ensures Enter(c, b.sig) == (Entered(c, b.sig).(stack := c.stack + [b.sig]), true)
    ensures Seeking(Enter(c, b.sig).0, Rest(q))
  {
    if q != [] {
      assert c.next[|c.stack|] == q[0];
      assert c.next == (c.stack + [b.sig]) + Rest(q);
    }
  }

  lemma EnterPassed(b: Body, c: Context, q: Path)
    requires b.Subcase? && !Takes(b, q) && Seeking(c, q)
    ensures Enter(c, b.sig) == (c, false)
  {
    assert c.next[|c.stack|] == q[0];
  }

  /** What follows the subcase on whose way the leaf was. */
  lemma FinishSiblings(b: Body, prefix: Path, c: Context, leaf: Path)
    requires b.Subcase? && b.sig !in Tops(b.rest)
    requires c.reachedLeaf && c.depth == |prefix| && leaf != [] && leaf[0] == b.sig && c.stack == prefix + leaf
    requires |c.next| <= c.depth ==> AllFresh(prefix, Tops(b.rest), c.fully)
    ensures Exec(b.rest, c)
         == if |c.next| <= c.depth && b.rest.Subcase? then c.(next := prefix + [b.rest.sig]) else c
  {
    assert c.stack[..c.depth] == prefix && c.stack[c.depth] == b.sig;
    AfterLeaf(b.rest, c);
  }

  /** A recorded leaf does not spoil the siblings of a subcase above it. */
  lemma FreshBeside(prefix: Path, sig: Signature, tops: set<Signature>, leaf: Path, fully: set<Path>)
    requires AllFresh(prefix, tops, fully) && sig !in tops && leaf != [] && leaf[0] == sig
    ensures AllFresh(prefix, tops, fully + {prefix + leaf})
  {
    forall t | t in tops
      ensures Fresh(prefix + [t], fully + {prefix + leaf})
    {
      assert (prefix + [t])[|prefix|] == t && (prefix + leaf)[|prefix|] == sig;
    }
  }

  /** One run: it starts exactly the subcases on the way to the leaf at `q`, and picks the successor. */
  lemma {:induction false} RunArrives(b: Body, c: Context, q: Path)
    requires DistinctSiblings(b) && Leads(b, q) && Seeking(c, q)
    requires Unvisited(b, q, c.stack, c.fully)
    ensures Exec(b, c) == Arrived(b, c, q)
  {
    if Takes(b, q) {
      EnterTaken(b, c, q);
      var c1 := Enter(c, b.sig).0;
      if b.inner.Subcase? {
        RunArrives(b.inner, c1, Rest(q));
        LeaveInner(b, c, q);
      } else {
        LeaveLeaf(b, c, q);
      }
    } else {
      EnterPassed(b, c, q);
      RunArrives(b.rest, c, q);
    }
  }

  lemma LeaveLeaf(b: Body, c: Context, q: Path)
    requires DistinctSiblings(b) && Leads(b, q) && Takes(b, q) && b.inner.End? && Seeking(c, q)
    requires AllFresh(c.stack, Tops(b.rest), c.fully)
    ensures Exec(b.rest, Leave(Entered(c, b.sig).(stack := c.stack + [b.sig]))) == Arrived(b, c, q)
  {
    var c2 := Leave(Entered(c, b.sig).(stack := c.stack + [b.sig]));
    FreshBeside(c.stack, b.sig, Tops(b.rest), [b.sig], c.fully);
    FinishSiblings(b, c.stack, c2, [b.sig]);
    assert LeafAt(b, q) == [b.sig];
  }

  /** Leaving the subcase in whose body the leaf was: its path is recorded, and its goal kept. */
  lemma LeaveArrived(b: Body, c: Context, q: Path)
    requires Leads(b, q) && Takes(b, q) && b.inner.Subcase?
    ensures
      var leaf := LeafAt(b, q);
      var c1 := Entered(c, b.sig).(stack := c.stack + [b.sig]);
      Leave(Arrived(b.inner, c1, Rest(q))) == c.(
        reachedLeaf := true,
        stack := c.stack + leaf,
        next := match Successor(b.inner, Rest(q)) { case None => [] case Some(n) => c.stack + ([b.sig] + n) },
        fully := c.fully + {c.stack + leaf},
        started := c.started + leaf)
  {
    var below := LeafAt(b.inner, Rest(q));
    Regroup(c.stack, b.sig, below);
    Regroup(c.started, b.sig, below);
    match Successor(b.inner, Rest(q))
    case None =>
      var recorded := c.fully + {c.stack + ([b.sig] + below)};
      assert recorded + {c.stack + ([b.sig] + below)} == recorded;
    case Some(n) => Regroup(c.stack, b.sig, n);
  }

  lemma Regroup(p: Path, sig: Signature, q: Path)
    ensures (p + [sig]) + q == p + ([sig] + q)
  {
  }

  lemma LeaveInner(b: Body, c: Context, q: Path)
    requires DistinctSiblings(b) && Leads(b, q) && Takes(b, q) && b.inner.Subcase? && Seeking(c, q)
    requires AllFresh(c.stack, Tops(b.rest), c.fully)
    ensures
      var c1 := Entered(c, b.sig).(stack := c.stack + [b.sig]);
      Exec(b.rest, Leave(Arrived(b.inner, c1, Rest(q)))) == Arrived(b, c, q)
  {
    var c1 := Entered(c, b.sig).(stack := c.stack + [b.sig]);
    var leaf := LeafAt(b, q);
    var c2 := Leave(Arrived(b.inner, c1, Rest(q)));
    LeaveArrived(b, c, q);
    FreshBeside(c.stack, b.sig, Tops(b.rest), leaf, c.fully);
    FinishSiblings(b, c.stack, c2, leaf);
  }

  // ----- From one run to the next -----

  lemma PrefixOfPrefix(p: Path, sig: Signature, x: Path)
    ensures p + [sig] <= x ==> p <= x
  {
  }

  lemma FreshBelow(p: Path, tops: set<Signature>, fully: set<Path>)
    requires Fresh(p, fully)
    ensures AllFresh(p, tops, fully)
  {
    forall t, x | t in tops && x in fully
      ensures !(p + [t] <= x)
    {
      PrefixOfPrefix(p, t, x);
    }
  }

  lemma {:induction false} FreshMeansUnvisited(b: Body, prefix: Path, fully: set<Path>)
    requires b.Subcase? && AllFresh(prefix, Tops(b), fully)
    ensures Unvisited(b, [], prefix, fully)
  {
    if b.inner.Subcase? {
      assert b.sig in Tops(b);
      FreshBelow(prefix + [b.sig], Tops(b.inner), fully);
      FreshMeansUnvisited(b.inner, prefix + [b.sig], fully);
    }
  }

  /** The next goal lies in the subcase just left. */
  lemma UnvisitedInside(b: Body, n: Path, prefix: Path, fully: set<Path>)
    requires b.Subcase? && b.inner.Subcase? && n != [] && Leads(b.inner, n)
    requires AllFresh(prefix, Tops(b.rest), fully) && Unvisited(b.inner, n, prefix + [b.sig], fully)
    ensures Leads(b, [b.sig] + n) && Unvisited(b, [b.sig] + n, prefix, fully)
  {
    assert ([b.sig] + n)[1..] == n;
  }

  /** The next goal is the next sibling. */
  lemma UnvisitedAcross(b: Body, prefix: Path, fully: set<Path>)
    requires b.Subcase? && b.rest.Subcase? && b.sig !in Tops(b.rest)
    requires AllFresh(prefix, Tops(b.rest), fully)
    ensures Leads(b, [b.rest.sig]) && Unvisited(b, [b.rest.sig], prefix, fully)
  {
    FreshMeansUnvisited(b.rest, prefix, fully);
    UnvisitedFromTop(b.rest, prefix, fully);
    assert b.rest.sig in Tops(b.rest);
  }

  /** The next goal's way is unvisited, with the leaf just executed recorded. */
  lemma {:induction false} StillUnvisited(b: Body, q: Path, prefix: Path, fully: set<Path>)
    requires DistinctSiblings(b) && Leads(b, q) && Unvisited(b, q, prefix, fully)
    requires Successor(b, q).Some?
    ensures Leads(b, Successor(b, q).value)
    ensures Unvisited(b, Successor(b, q).value, prefix, fully + {prefix + LeafAt(b, q)})
  {
    if !Takes(b, q) {
      SuccessorAvoids(b.rest, q, b.sig);
      StillUnvisited(b.rest, q, prefix, fully);
    } else {
      var fully' := fully + {prefix + LeafAt(b, q)};
      FreshBeside(prefix, b.sig, Tops(b.rest), LeafAt(b, q), fully);
      if b.inner.Subcase? && Successor(b.inner, Rest(q)).Some? {
        StillUnvisited(b.inner, Rest(q), prefix + [b.sig], fully);
        Regroup(prefix, b.sig, LeafAt(b.inner, Rest(q)));
        UnvisitedInside(b, Successor(b.inner, Rest(q)).value, prefix, fully');
      } else {
        UnvisitedAcross(b, prefix, fully');
      }
    }
  }

  lemma UnvisitedFromTop(b: Body, prefix: Path, fully: set<Path>)
    requires b.Subcase? && Unvisited(b, [], prefix, fully)
    ensures Unvisited(b, [b.sig], prefix, fully)
  {
    assert Rest([b.sig]) == [];
  }

  /** Between two runs: the goal leads somewhere new, with nothing before it left out. */
  predicate ReadyToRun(b: Body, c: Context) {
    && b.Subcase? && DistinctSiblings(b) && !c.outOfRange
    && Leads(b, c.next) && Unvisited(b, c.next, [], c.fully)
  }

  /** The leaves still to be executed. */
  function Remaining(b: Body, c: Context): seq<Path>
    requires ReadyToRun(b, c)
  {
    From(b, c.next)
  }

  /**
    One round of the loop: the run goes to the first remaining leaf, starts the
    subcases on its path and no others, indexes nothing out of range, and
    leaves the remaining leaves for the next rounds.
   */
  lemma RoundExecutesNextLeaf(b: Body, c: Context)
    requires ReadyToRun(b, c)
    ensures
      var c' := Exec(b, StartRun(c));
      && !c'.outOfRange
      && Remaining(b, c) != []
      && c'.stack == c'.started == Remaining(b, c)[0]
      && (if c'.next == [] then Remaining(b, c) == [c'.stack]
          else ReadyToRun(b, c') && Remaining(b, c) == [c'.stack] + Remaining(b, c'))
  {
    var c0 := StartRun(c);
    assert c0.stack + c.next == c.next;
    assert Unvisited(b, c.next, c0.stack, c0.fully);
    RunArrives(b, c0, c.next);
    FromStep(b, c.next);
    var leaf := LeafAt(b, c.next);
    assert c0.stack + leaf == leaf && c0.started + leaf == leaf;
    match Successor(b, c.next)
    case None =>
    case Some(n) =>
      assert c0.stack + n == n;
      StillUnvisited(b, c.next, [], c.fully);
      assert [] + leaf == leaf;
  }

  /** The first round starts with nothing recorded. */
  lemma FirstRoundIsReady(b: Body)
    requires b.Subcase? && DistinctSiblings(b)
    ensures ReadyToRun(b, FRESH) && Remaining(b, FRESH) == LeafPaths(b)
  {
    FreshMeansUnvisited(b, [], {});
    FromStart(b);
  }

  /** What is left to execute before a round; a body without subcases is one leaf. */
  predicate Pending(b: Body, c: Context, remaining: seq<Path>) {
    if b.End? then c.next == [] && remaining == [[]] && !c.outOfRange
    else ReadyToRun(b, c) && Remaining(b, c) == remaining
  }

  lemma RoundExecutesPending(b: Body, c: Context, remaining: seq<Path>)
    requires Pending(b, c, remaining)
    ensures
      var c' := Exec(b, StartRun(c));
      && !c'.outOfRange
      && remaining != []
      && c'.stack == c'.started == remaining[0]
      && (if c'.next == [] then remaining == [c'.stack] else Pending(b, c', remaining[1..]))
  {
    if b.Subcase? {
      RoundExecutesNextLeaf(b, c);
    }
  }

  lemma AllArePending(b: Body, c: Context)
    requires DistinctSiblings(b) && c.next == [] && c.fully == {} && !c.outOfRange
    ensures Pending(b, c, LeafPaths(b))
  {
    if b.Subcase? {
      FirstRoundIsReady(b);
    }
  }

  // ----- Bodies with repeated siblings -----

  /** The leaf a run for the goal `q` ends at, in any body: at each level the first subcase that fits is taken. */
  function Descent(b: Body, q: Path): Path {
    match b
    case End => []
    case Subcase(sig, inner, rest) =>
      if Takes(b, q) then [sig] + Descent(inner, Rest(q)) else Descent(rest, q)
  }

  /**
    Met after the leaf, with `p` left of the leaf path below it, the body opens a
    subcase below the end of that path: at the end itself, or inside a subcase
    that is entered again because the path goes through its signature.
   */
  predicate Overruns(b: Body, p: Path) {
    && b.Subcase?
    && (p == [] || (p[0] == b.sig && Overruns(b.inner, p[1..])) || Overruns(b.rest, p))
  }

  /** In a run for the goal `q`, some body met after the leaf overruns. */
  predicate RunOverruns(b: Body, q: Path) {
    match b
    case End => false
    case Subcase(sig, inner, rest) =>
      if Takes(b, q) then RunOverruns(inner, Rest(q)) || Overruns(rest, [sig] + Descent(inner, Rest(q)))
      else RunOverruns(rest, q)
  }

  /** After the leaf, the stack is indexed out of range exactly where the leaf path is overrun. */
  lemma {:induction false} AfterLeafOverruns(b: Body, c: Context)
    requires c.reachedLeaf && c.depth <= |c.stack|
    ensures Exec(b, c).outOfRange <==> c.outOfRange || Overruns(b, c.stack[c.depth..])
    ensures Exec(b, c).reachedLeaf && Exec(b, c).stack == c.stack
  {
    if b.Subcase? {
      var (c1, entered) := Enter(c, b.sig);
      if entered {
        assert c.stack[c.depth..][1..] == c.stack[c1.depth..];
        AfterLeafOverruns(b.inner, c1);
        AfterLeafOverruns(b.rest, Leave(Exec(b.inner, c1)));
      } else {
        AfterLeafOverruns(b.rest, c1);
      }
    }
  }

  /** On the way: the run ends at its descent, or enters nothing, and overruns exactly as described. */
  lemma {:induction false} RunDescends(b: Body, c: Context, q: Path)
    requires Seeking(c, q)
    ensures
      var c' := Exec(b, c);
      && (c'.outOfRange <==> c.outOfRange || RunOverruns(b, q))
      && (if Descent(b, q) == [] then c' == c else c'.reachedLeaf && c'.stack == c.stack + Descent(b, q))
  {
    if b.Subcase? {
      if Takes(b, q) {
        EnterTaken(b, c, q);
        var c1 := Enter(c, b.sig).0;
        RunDescends(b.inner, c1, Rest(q));
        var below := Descent(b.inner, Rest(q));
        var c2 := Leave(Exec(b.inner, c1));
        Regroup(c.stack, b.sig, below);
        if below == [] {
          assert [b.sig] + below == [b.sig];
        }
        assert c2.reachedLeaf && c2.stack == c.stack + ([b.sig] + below);
        assert c2.stack[c2.depth..] == [b.sig] + below;
        AfterLeafOverruns(b.rest, c2);
      } else {
        EnterPassed(b, c, q);
        RunDescends(b.rest, c, q);
      }
    }
  }

  /**
    A whole run, of any body and from any goal, indexes the stack out of range
    exactly if some body met after the leaf overruns the leaf path.
   */
  lemma RunOverrunsExactly(b: Body, c: Context)
    ensures Exec(b, StartRun(c)).outOfRange <==> c.outOfRange || RunOverruns(b, c.next)
  {
    var c0 := StartRun(c);
    assert c0.next == c0.stack + c.next;
    RunDescends(b, c0, c.next);
  }

  /** For a goal that the body has, the condition can be read off the body and the leaf path alone. */
  lemma {:induction false} OverrunsAtLeaf(b: Body, q: Path)
    requires Leads(b, q)
    ensures Descent(b, q) == LeafAt(b, q)
    ensures RunOverruns(b, q) <==> Overruns(b, LeafAt(b, q))
  {
    if !Takes(b, q) {
      OverrunsAtLeaf(b.rest, q);
      LeafFollowsGoal(b.rest, q);
    } else if b.inner.Subcase? {
      OverrunsAtLeaf(b.inner, Rest(q));
      assert LeafAt(b, q)[1..] == LeafAt(b.inner, Rest(q));
    }
  }

  lemma {:induction false} LeafFollowsGoal(b: Body, q: Path)
    requires Leads(b, q)
    ensures LeafAt(b, q) != [] && (q != [] ==> LeafAt(b, q)[0] == q[0])
  {
    if !Takes(b, q) {
      LeafFollowsGoal(b.rest, q);
    }
  }

  /** A repeated sibling may well be entered again: here it is, and the test case ends after one run. */
  lemma ReentryWitness(a: Signature, x: Signature)
    ensures
      var b := Subcase(a, Subcase(x, End, End), Subcase(a, End, End));
      var c := Exec(b, FRESH);
      && !DistinctSiblings(b) && !RunOverruns(b, [])
      && !c.outOfRange && c.next == [] && c.started == [a, x, a]
  {
    var b := Subcase(a, Subcase(x, End, End), Subcase(a, End, End));
    var c1 := Enter(FRESH, a).0;
    var c2 := Enter(c1, x).0;
    assert Exec(Subcase(x, End, End), c1) == Leave(c2);
    assert Leave(Leave(c2)).stack == [a, x];
    assert Exec(Subcase(a, End, End), Leave(Leave(c2))).started == [a, x, a];
    RunOverrunsExactly(b, FRESH);
    assert StartRun(FRESH) == FRESH;
  }

  /**
    A subcase that is entered again and this time opens a subcase, below the end
    of the leaf path.
   */
  lemma RepeatedSiblingWitness(a: Signature, x: Signature)
    ensures
      var b := Subcase(a, End, Subcase(a, Subcase(x, End, End), End));
      RunOverruns(b, []) && Exec(b, FRESH).outOfRange
  {
    var b := Subcase(a, End, Subcase(a, Subcase(x, End, End), End));
    assert [a][1..] == [];
    assert Overruns(b.rest, [a]);
    RunOverrunsExactly(b, FRESH);
    assert StartRun(FRESH) == FRESH;
  }
}
