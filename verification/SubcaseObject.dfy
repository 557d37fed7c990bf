/** The test runner's context state, as the code updates it. */
module SubcaseObject {
  import opened SubcaseTree
  import opened SubcaseRuns

  class ContextState {
    var reachedLeaf: bool
    var subcaseStack: Path
    var nextSubcaseStack: Path
    var fullyTraversedSubcases: set<Path>
    var currentSubcaseDepth: nat
    ghost var started: seq<Signature>

    ghost function View(): Context
      reads this
    {
      Context(reachedLeaf, subcaseStack, nextSubcaseStack, fullyTraversedSubcases, currentSubcaseDepth, started, false)
    }

    constructor ()
      ensures nextSubcaseStack == []
    {
      reachedLeaf, subcaseStack, nextSubcaseStack := false, [], [];
      fullyTraversedSubcases, currentSubcaseDepth, started := {}, 0, [];
    }

    /** The constructor of `Subcase`. It indexes the stack, so the depth has to be below its size. */
    method ConstructSubcase(sig: Signature) returns (entered: bool)
      requires reachedLeaf ==> currentSubcaseDepth < |subcaseStack|
      modifies this
      ensures (View(), entered) == Enter(old(View()), sig)
    {
      entered := false;
      if !reachedLeaf {
        if |nextSubcaseStack| <= |subcaseStack| || nextSubcaseStack[|subcaseStack|] == sig {
          subcaseStack := subcaseStack + [sig];
          currentSubcaseDepth := currentSubcaseDepth + 1;
          entered := true;
          started := started + [sig];
        }
      } else {
        if subcaseStack[currentSubcaseDepth] == sig {
          currentSubcaseDepth := currentSubcaseDepth + 1;
          entered := true;
          started := started + [sig];
        } else if |nextSubcaseStack| <= currentSubcaseDepth
               && subcaseStack[..currentSubcaseDepth] + [sig] !in fullyTraversedSubcases {
          nextSubcaseStack := [];
          nextSubcaseStack := nextSubcaseStack + subcaseStack[..currentSubcaseDepth];
          nextSubcaseStack := nextSubcaseStack + [sig];
          assert nextSubcaseStack == subcaseStack[..currentSubcaseDepth] + [sig];
        }
      }
    }

    /** The destructor of `Subcase`. */
    method DestroySubcase(entered: bool)
      requires entered ==> currentSubcaseDepth > 0
      modifies this
      ensures View() == if entered then Leave(old(View())) else old(View())
    {
      if entered {
        currentSubcaseDepth := currentSubcaseDepth - 1;
        if !reachedLeaf {
          fullyTraversedSubcases := fullyTraversedSubcases + {subcaseStack};
          nextSubcaseStack := [];
          reachedLeaf := true;
        } else if nextSubcaseStack == [] {
          fullyTraversedSubcases := fullyTraversedSubcases + {subcaseStack};
        }
      }
    }

    /** A test body: each subcase is constructed, runs its own body if it was entered, and is destroyed. */
    method RunBody(b: Body)
      requires !Exec(b, View()).outOfRange
      modifies this
      ensures View() == Exec(b, old(View()))
      decreases b
    {
      match b
      case End =>
      case Subcase(sig, inner, rest) =>
        var entered := ConstructSubcase(sig);
        if entered {
          RunBody(inner);
        }
        DestroySubcase(entered);
        RunBody(rest);
    }

    /** One round: the bookkeeping is reset, except for what is recorded and what comes next. */
    method RunOnce(b: Body)
      requires !RunOverruns(b, nextSubcaseStack)
      modifies this
      ensures View() == Exec(b, StartRun(old(View())))
    {
      RunOverrunsExactly(b, View());
      reachedLeaf := false;
      subcaseStack := [];
      currentSubcaseDepth := 0;
      started := [];
      RunBody(b);
    }

    /** A round with leaves left: it executes the first of them. */
    method RunNextLeaf(b: Body, ghost remaining: seq<Path>) returns (ghost left: seq<Path>)
      requires Pending(b, View(), remaining)
      modifies this
      ensures remaining == [subcaseStack] + left && started == subcaseStack
      ensures if nextSubcaseStack == [] then left == [] else Pending(b, View(), left)
    {
      RoundExecutesPending(b, View(), remaining);
      RunOverrunsExactly(b, View());
      RunOnce(b);
      left := remaining[1..];
    }

    /** The loop, with leaves left: it executes them one after the other. */
    method RunLeaves(b: Body, ghost remaining: seq<Path>) returns (ghost runs: seq<seq<Signature>>, leaves: seq<Path>)
      requires Pending(b, View(), remaining)
      modifies this
      ensures runs == leaves == remaining
      ensures nextSubcaseStack == []
    {
      runs, leaves := [], [];
      ghost var left := remaining;
      var runTest := true;
      while runTest
        invariant runs == leaves
        invariant leaves + left == remaining
        invariant if runTest then Pending(b, View(), left) else left == [] && nextSubcaseStack == []
        decreases runTest, |left|
      {
        ghost var left' := RunNextLeaf(b, left);
        OneMoreDone(leaves, subcaseStack, left');
        runs, leaves, left := runs + [started], leaves + [subcaseStack], left';
        if nextSubcaseStack == [] {
          runTest := false;
        }
      }
    }

    /**
      Runs one test case until no subcase is left to enter. Each entry of `runs`
      lists the subcases one run started: the runs are the leaf paths of the
      body, each once, depth first.
     */
    method RunTestCase(b: Body) returns (ghost runs: seq<seq<Signature>>, leaves: seq<Path>)
      requires DistinctSiblings(b)
      requires nextSubcaseStack == []
      modifies this
      ensures leaves == LeafPaths(b) && NoRepeats(leaves)
      ensures runs == leaves
      ensures nextSubcaseStack == []
    {
      fullyTraversedSubcases := {};
      AllArePending(b, View());
      runs, leaves := RunLeaves(b, LeafPaths(b));
      LeafPathsAreDistinct(b);
    }
  }

  lemma OneMoreDone(done: seq<Path>, leaf: Path, left: seq<Path>)
    ensures done + ([leaf] + left) == (done + [leaf]) + left
  {
  }
}
