/** The loop over all rounds of a test case, for bodies in which a subcase may be met again. */
module SubcaseLoops {
  import opened Outcomes
  import opened SubcaseTree
  import opened SubcaseRuns

  /** The bookkeeping after `n` rounds of the loop. */
  function Rounds(b: Body, c: Context, n: nat): Context {
    if n == 0 then c else Exec(b, StartRun(Rounds(b, c, n - 1)))
  }

  /** The loop is in range for `n` rounds exactly if none of its goals so far overruns. */
  lemma {:induction false} LoopOverrunsExactly(b: Body, c: Context, n: nat)
    ensures Rounds(b, c, n).outOfRange <==>
            c.outOfRange || exists i: nat :: i < n && RunOverruns(b, Rounds(b, c, i).next)
  {
    if n > 0 {
      LoopOverrunsExactly(b, c, n - 1);
      RunOverrunsExactly(b, Rounds(b, c, n - 1));
    }
  }

  // ----- Bodies in which a subcase that is met again has the same contents -----

  /** The body of the first sibling with this signature. */
  function ContentOf(b: Body, sig: Signature): Option<Body> {
    match b
    case End => None
    case Subcase(s, inner, rest) => if s == sig then Some(inner) else ContentOf(rest, sig)
  }

  /** Each sibling in `b` has the body of the first one in `all` with its signature, on every level. */
  predicate AllAgree(b: Body, all: Body) {
    match b
    case End => true
    case Subcase(sig, inner, rest) =>
      ContentOf(all, sig) == Some(inner) && AllAgree(inner, inner) && AllAgree(rest, all)
  }

  /** A loop around subcases makes such a body: whatever is met again is the same as before. */
  predicate SameContents(b: Body) { AllAgree(b, b) }

  /** A way down along first siblings that ends at a leaf. */
  predicate IsFirstLeaf(b: Body, p: Path)
    decreases |p|
  {
    && p != []
    && match ContentOf(b, p[0])
       case None => false
       case Some(inner) => if inner.End? then |p| == 1 else IsFirstLeaf(inner, p[1..])
  }

  lemma {:induction false} DistinctSiblingsAgree(b: Body, all: Body)
    requires DistinctSiblings(b) && forall sig :: sig in Tops(b) ==> ContentOf(all, sig) == ContentOf(b, sig)
    ensures AllAgree(b, all)
  {
    if b.Subcase? {
      DistinctSiblingsAgree(b.inner, b.inner);
      DistinctSiblingsAgree(b.rest, all);
    }
  }

  lemma {:induction false} LeafIsFirst(b: Body, all: Body, q: Path)
    requires AllAgree(b, all) && Leads(b, q)
    ensures IsFirstLeaf(all, LeafAt(b, q))
  {
    if !Takes(b, q) {
      LeafIsFirst(b.rest, all, q);
    } else if b.inner.Subcase? {
      LeafIsFirst(b.inner, b.inner, Rest(q));
      assert LeafAt(b, q)[1..] == LeafAt(b.inner, Rest(q));
    }
  }

  /** Going through the same contents once more never leaves the leaf path at its end. */
  lemma {:induction false} NoOverrun(b: Body, all: Body, p: Path)
    requires AllAgree(b, all) && IsFirstLeaf(all, p)
    ensures !Overruns(b, p)
  {
    if b.Subcase? {
      NoOverrun(b.rest, all, p);
      if p[0] == b.sig && b.inner.Subcase? {
        NoOverrun(b.inner, b.inner, p[1..]);
      }
    }
  }

  lemma {:induction false} GoalThrough(all: Body, sig: Signature, inner: Body, g: Path)
    requires ContentOf(all, sig) == Some(inner) && Leads(inner, g)
    ensures Leads(all, [sig] + g)
  {
    assert ([sig] + g)[1..] == g;
    if all.sig != sig {
      GoalThrough(all.rest, sig, inner, g);
    }
  }

  lemma {:induction false} GoalAt(all: Body, sig: Signature)
    requires ContentOf(all, sig).Some?
    ensures Leads(all, [sig])
  {
    if all.sig != sig {
      GoalAt(all.rest, sig);
    }
  }

  /** The goal `next` names a subcase of the body found at `prefix`. */
  ghost predicate GoalBelow(all: Body, prefix: Path, next: Path) {
    exists g :: Leads(all, g) && next == prefix + g
  }

  lemma GoalAbove(all: Body, prefix: Path, sig: Signature, inner: Body, next: Path)
    requires ContentOf(all, sig) == Some(inner) && GoalBelow(inner, prefix + [sig], next)
    ensures GoalBelow(all, prefix, next)
  {
    var g :| Leads(inner, g) && next == (prefix + [sig]) + g;
    GoalThrough(all, sig, inner, g);
    Regroup(prefix, sig, g);
  }

  /** The goal does not change, or becomes one that the body at `prefix` has. */
  ghost predicate KeptOrBelow(all: Body, prefix: Path, next: Path, next': Path) {
    next' == next || GoalBelow(all, prefix, next')
  }

  lemma KeptOrAbove(all: Body, prefix: Path, sig: Signature, inner: Body, next: Path, next': Path)
    requires ContentOf(all, sig) == Some(inner) && KeptOrBelow(inner, prefix + [sig], next, next')
    ensures KeptOrBelow(all, prefix, next, next')
  {
    if next' != next {
      GoalAbove(all, prefix, sig, inner, next');
    }
  }

  lemma EnterLeads(b: Body, all: Body, c: Context)
    requires b.Subcase? && ContentOf(all, b.sig).Some? && c.reachedLeaf && c.depth < |c.stack|
    ensures KeptOrBelow(all, c.stack[..c.depth], c.next, Enter(c, b.sig).0.next)
  {
    GoalAt(all, b.sig);
  }

  /** After the leaf, a new goal is one that the body has. */
  lemma {:induction false} AfterLeafLeads(b: Body, all: Body, c: Context)
    requires AllAgree(b, all) && c.reachedLeaf && c.depth < |c.stack|
    requires IsFirstLeaf(all, c.stack[c.depth..])
    ensures KeptOrBelow(all, c.stack[..c.depth], c.next, Exec(b, c).next)
  {
    if b.Subcase? {
      var prefix := c.stack[..c.depth];
      var (c1, entered) := Enter(c, b.sig);
      EnterLeads(b, all, c);
      if entered {
        AfterLeafOverruns(b.inner, c1);
        if b.inner.Subcase? {
          assert c.stack[c.depth..][1..] == c.stack[c1.depth..];
          assert c.stack[..c1.depth] == prefix + [b.sig];
          AfterLeafLeads(b.inner, b.inner, c1);
          KeptOrAbove(all, prefix, b.sig, b.inner, c.next, Exec(b.inner, c1).next);
        }
        AfterLeafLeads(b.rest, all, Leave(Exec(b.inner, c1)));
      } else {
        AfterLeafLeads(b.rest, all, c1);
      }
    }
  }

  /** On the way to a goal that the body has, the next one is picked among those it has. */
  lemma {:induction false} RunLeads(b: Body, all: Body, c: Context, q: Path)
    requires AllAgree(b, all) && Leads(b, q) && Seeking(c, q)
    ensures KeptOrBelow(all, c.stack, [], Exec(b, c).next)
  {
    if Takes(b, q) {
      EnterTaken(b, c, q);
      var c1 := Enter(c, b.sig).0;
      var leaf := LeafAt(b, q);
      RunDescends(b.inner, c1, Rest(q));
      if b.inner.Subcase? {
        RunLeads(b.inner, b.inner, c1, Rest(q));
        OverrunsAtLeaf(b.inner, Rest(q));
        LeafFollowsGoal(b.inner, Rest(q));
        Regroup(c.stack, b.sig, LeafAt(b.inner, Rest(q)));
        KeptOrAbove(all, c.stack, b.sig, b.inner, [], Exec(b.inner, c1).next);
      }
      var c2 := Leave(Exec(b.inner, c1));
      assert c2.stack == c.stack + leaf;
      assert c2.stack[c2.depth..] == leaf && c2.stack[..c2.depth] == c.stack;
      LeafIsFirst(b, all, q);
      AfterLeafLeads(b.rest, all, c2);
    } else {
      EnterPassed(b, c, q);
      RunLeads(b.rest, all, c, q);
    }
  }

  lemma RoundStaysInRange(b: Body, c: Context)
    requires SameContents(b) && Leads(b, c.next)
    ensures
      var c' := Exec(b, StartRun(c));
      Leads(b, c'.next) && (c'.outOfRange <==> c.outOfRange)
  {
    var c0 := StartRun(c);
    assert c0.next == c0.stack + c.next;
    RunLeads(b, b, c0, c.next);
    RunOverrunsExactly(b, c);
    OverrunsAtLeaf(b, c.next);
    LeafIsFirst(b, b, c.next);
    NoOverrun(b, b, LeafAt(b, c.next));
    var next := Exec(b, c0).next;
    if next != [] {
      var g :| Leads(b, g) && next == [] + g;
      assert next == g;
    }
  }

  /**
    Whatever is met again may be entered again: as long as it has the same
    contents, no round of the loop ever indexes the stack out of range.
   */
  lemma {:induction false} LoopStaysInRange(b: Body, n: nat)
    requires SameContents(b)
    ensures !Rounds(b, FRESH, n).outOfRange
    ensures b.Subcase? ==> Leads(b, Rounds(b, FRESH, n).next)
  {
    if n > 0 {
      LoopStaysInRange(b, n - 1);
      if b.Subcase? {
        RoundStaysInRange(b, Rounds(b, FRESH, n - 1));
      }
    }
  }

  // ----- Whether the loop ends -----

  /** Some round leaves no goal: the loop ends there. */
  ghost predicate Ends(b: Body, c: Context) {
    exists n: nat :: n > 0 && Rounds(b, c, n).next == []
  }

  ghost predicate Unfinished(b: Body, c: Context, n: nat) {
    forall k: nat :: 0 < k <= n ==> Rounds(b, c, k).next != []
  }

  /** What a round leaves to the next one. */
  datatype Station = Station(next: Path, fully: set<Path>)

  function StationAfter(b: Body, c: Context, n: nat): Station {
    var c' := Rounds(b, c, n);
    Station(c'.next, c'.fully)
  }

  lemma {:induction false} FlagIsIgnored(b: Body, c: Context, flag: bool)
    ensures Exec(b, c.(outOfRange := flag)).(outOfRange := false) == Exec(b, c).(outOfRange := false)
    decreases b, 0
  {
    if b.Subcase? {
      var (c1, entered) := Enter(c, b.sig);
      var (c2, entered2) := Enter(c.(outOfRange := flag), b.sig);
      assert entered == entered2 && c1.(outOfRange := false) == c2.(outOfRange := false);
      if entered {
        SameButFlag(b.inner, c1, c2);
        SameButFlag(b.rest, Leave(Exec(b.inner, c1)), Leave(Exec(b.inner, c2)));
      } else {
        SameButFlag(b.rest, c1, c2);
      }
    }
  }

  lemma SameButFlag(b: Body, c: Context, d: Context)
    requires c.(outOfRange := false) == d.(outOfRange := false)
    ensures Exec(b, c).(outOfRange := false) == Exec(b, d).(outOfRange := false)
    decreases b, 1
  {
    FlagIsIgnored(b, c, d.outOfRange);
    assert c.(outOfRange := d.outOfRange) == d;
  }

  /** From equal stations the loop goes on alike. */
  lemma {:induction false} SameFromThere(b: Body, c: Context, i: nat, j: nat, m: nat)
    requires StationAfter(b, c, i) == StationAfter(b, c, j)
    ensures StationAfter(b, c, i + m) == StationAfter(b, c, j + m)
  {
    if m > 0 {
      SameFromThere(b, c, i, j, m - 1);
      SameButFlag(b, StartRun(Rounds(b, c, i + m - 1)), StartRun(Rounds(b, c, j + m - 1)));
    }
  }

  /** A loop that comes back to a station does not end. */
  lemma {:induction false} CircleIsEndless(b: Body, c: Context, i: nat, j: nat, n: nat)
    requires i < j && Unfinished(b, c, j) && StationAfter(b, c, i) == StationAfter(b, c, j)
    requires n > 0
    ensures Rounds(b, c, n).next != []
  {
    if n > j {
      CircleIsEndless(b, c, i, j, n - (j - i));
      SameFromThere(b, c, i, j, n - j);
      assert i + (n - j) == n - (j - i) && j + (n - j) == n;
      assert StationAfter(b, c, n).next == StationAfter(b, c, n - (j - i)).next;
    }
  }

  // ----- How many stations there are -----

  function Signatures(b: Body): set<Signature> {
    match b
    case End => {}
    case Subcase(sig, inner, rest) => {sig} + Signatures(inner) + Signatures(rest)
  }

  function Height(b: Body): nat {
    match b
    case End => 0
    case Subcase(_, inner, rest) => if Height(rest) > Height(inner) then Height(rest) else 1 + Height(inner)
  }

  /** All paths of at most `n` signatures. */
  function Paths(sigs: set<Signature>, n: nat): set<Path> {
    if n == 0 then {[]} else Paths(sigs, n - 1) + set sig, p | sig in sigs && p in Paths(sigs, n - 1) :: [sig] + p
  }

  predicate Fits(p: Path, sigs: set<Signature>, n: nat) {
    |p| <= n && forall i :: 0 <= i < |p| ==> p[i] in sigs
  }

  lemma {:induction false} FittingPathIsListed(p: Path, sigs: set<Signature>, n: nat)
    requires Fits(p, sigs, n)
    ensures p in Paths(sigs, n)
  {
    if p == [] {
      if n > 0 {
        FittingPathIsListed(p, sigs, n - 1);
      }
    } else {
      FittingPathIsListed(p[1..], sigs, n - 1);
      assert p == [p[0]] + p[1..];
    }
  }

  predicate Known(p: Path, sigs: set<Signature>, n: nat, before: set<Path>) { Fits(p, sigs, n) || p in before }

  /** All paths of the bookkeeping are short ways through the body's signatures, or were there before. */
  predicate Within(c: Context, sigs: set<Signature>, n: nat, before: set<Path>) {
    && Fits(c.stack, sigs, n)
    && Known(c.next, sigs, n, before)
    && forall p :: p in c.fully ==> Known(p, sigs, n, before)
  }

  lemma EnterStaysWithin(b: Body, c: Context, sigs: set<Signature>, n: nat, before: set<Path>)
    requires b.Subcase? && Signatures(b) <= sigs && Within(c, sigs, n, before)
    requires !c.reachedLeaf ==> c.depth == |c.stack| && |c.stack| + Height(b) <= n
    ensures Within(Enter(c, b.sig).0, sigs, n, before)
  {
  }

  lemma {:induction false} ExecStaysWithin(b: Body, c: Context, sigs: set<Signature>, n: nat, before: set<Path>)
    requires Signatures(b) <= sigs && Within(c, sigs, n, before)
    requires !c.reachedLeaf ==> c.depth == |c.stack| && |c.stack| + Height(b) <= n
    ensures Within(Exec(b, c), sigs, n, before)
    ensures c.reachedLeaf ==> Exec(b, c).reachedLeaf
    ensures !Exec(b, c).reachedLeaf ==> Exec(b, c) == c
  {
    if b.Subcase? {
      EnterStaysWithin(b, c, sigs, n, before);
      var (c1, entered) := Enter(c, b.sig);
      if entered {
        ExecStaysWithin(b.inner, c1, sigs, n, before);
        ExecStaysWithin(b.rest, Leave(Exec(b.inner, c1)), sigs, n, before);
      } else {
        ExecStaysWithin(b.rest, c1, sigs, n, before);
      }
    }
  }

  /** The paths that can occur in a loop on this body that starts with this bookkeeping. */
  function Places(b: Body, c: Context): set<Path> {
    Paths(Signatures(b), Height(b)) + {c.next} + c.fully
  }

  function Stations(b: Body, c: Context): set<Station> {
    set next, fully | next in Places(b, c) && fully <= Places(b, c) :: Station(next, fully)
  }

  lemma {:induction false} RoundsStayWithin(b: Body, c: Context, n: nat)
    ensures Within(StartRun(Rounds(b, c, n)), Signatures(b), Height(b), {c.next} + c.fully)
  {
    if n > 0 {
      RoundsStayWithin(b, c, n - 1);
      ExecStaysWithin(b, StartRun(Rounds(b, c, n - 1)), Signatures(b), Height(b), {c.next} + c.fully);
    }
  }

  lemma StationIsListed(b: Body, c: Context, n: nat)
    ensures StationAfter(b, c, n) in Stations(b, c)
  {
    RoundsStayWithin(b, c, n);
    var station := StationAfter(b, c, n);
    var before := {c.next} + c.fully;
    forall p | Known(p, Signatures(b), Height(b), before)
      ensures p in Places(b, c)
    {
      if Fits(p, Signatures(b), Height(b)) {
        FittingPathIsListed(p, Signatures(b), Height(b));
      }
    }
    assert station.fully <= Places(b, c);
  }

  lemma {:induction false} Pigeonhole(stations: seq<Station>, all: set<Station>)
    requires |stations| > |all| && forall i :: 0 <= i < |stations| ==> stations[i] in all
    ensures exists i, j :: 0 <= i < j < |stations| && stations[i] == stations[j]
    decreases |stations|
  {
    var init, last := stations[..|stations| - 1], stations[|stations| - 1];
    if last in init {
      var i :| 0 <= i < |init| && init[i] == last;
      assert stations[i] == stations[|stations| - 1];
    } else {
      Pigeonhole(init, all - {last});
      var i, j :| 0 <= i < j < |init| && init[i] == init[j];
      assert stations[i] == stations[j];
    }
  }

  /** The loop comes back, with a goal left, to where it was within the first `n` rounds. */
  ghost predicate ComesBack(b: Body, c: Context, n: nat) {
    exists i: nat, j: nat ::
      i < j <= n && Unfinished(b, c, j) && StationAfter(b, c, i) == StationAfter(b, c, j)
  }

  lemma UnfinishedComesBack(b: Body, c: Context, n: nat)
    requires n >= |Stations(b, c)| && Unfinished(b, c, n)
    ensures ComesBack(b, c, n)
  {
    var stations := seq(n + 1, i requires 0 <= i => StationAfter(b, c, i));
    forall i | 0 <= i < |stations|
      ensures stations[i] in Stations(b, c)
    {
      StationIsListed(b, c, i);
    }
    Pigeonhole(stations, Stations(b, c));
    var i: nat, j: nat :| i < j <= n && stations[i] == stations[j];
    assert Unfinished(b, c, j) && StationAfter(b, c, i) == StationAfter(b, c, j);
  }

  /**
    The loop on any body, with any bookkeeping, fails to end exactly if it comes
    back to the goal and the records of an earlier round; whether it does shows
    in as many rounds as there are stations.
   */
  lemma LoopEndsExactly(b: Body, c: Context)
    ensures Ends(b, c) <==> !ComesBack(b, c, |Stations(b, c)|)
    ensures Ends(b, c) <==> !Unfinished(b, c, |Stations(b, c)|)
  {
    var n := |Stations(b, c)|;
    if ComesBack(b, c, n) {
      var i: nat, j: nat :| i < j <= n && Unfinished(b, c, j) && StationAfter(b, c, i) == StationAfter(b, c, j);
      forall k: nat | k > 0
        ensures Rounds(b, c, k).next != []
      {
        CircleIsEndless(b, c, i, j, k);
      }
    } else if Unfinished(b, c, n) {
      UnfinishedComesBack(b, c, n);
    }
  }

  // ----- What was recorded is not executed again -----

  /** Once the leaf is done it is recorded, and the goal, if there is one, is not. */
  predicate GoalIsNew(c: Context) {
    c.reachedLeaf ==> c.stack in c.fully && (c.next == [] || c.next !in c.fully)
  }

  lemma {:induction false} ExecKeepsGoalNew(b: Body, c: Context)
    requires GoalIsNew(c)
    ensures GoalIsNew(Exec(b, c))
  {
    if b.Subcase? {
      var (c1, entered) := Enter(c, b.sig);
      if entered {
        ExecKeepsGoalNew(b.inner, c1);
        ExecKeepsGoalNew(b.rest, Leave(Exec(b.inner, c1)));
      } else {
        ExecKeepsGoalNew(b.rest, c1);
      }
    }
  }

  /** No round of any body, with any bookkeeping, picks a goal that is recorded. */
  lemma RoundPicksNewGoal(b: Body, c: Context)
    ensures
      var c' := Exec(b, StartRun(c));
      c'.reachedLeaf ==> c'.stack in c'.fully && (c'.next == [] || c'.next !in c'.fully)
  {
    ExecKeepsGoalNew(b, StartRun(c));
  }

  // ----- Leaves that are met again -----

  /** No subcase has subcases of its own; the same one may be met any number of times. */
  predicate AllLeaves(b: Body) {
    match b
    case End => true
    case Subcase(_, inner, rest) => inner.End? && AllLeaves(rest)
  }

  /** The first signature that is met and not recorded. */
  function FirstOpen(b: Body, fully: set<Path>): Path {
    match b
    case End => []
    case Subcase(sig, _, rest) => if [sig] !in fully then [sig] else FirstOpen(rest, fully)
  }

  /** After the leaf: what is met again is entered again, and the first one open becomes the goal. */
  lemma {:induction false} LeavesAfterLeaf(b: Body, c: Context)
    requires AllLeaves(b) && c.reachedLeaf && c.depth == 0 && |c.stack| == 1 && c.stack in c.fully
    ensures Exec(b, c).next == if c.next == [] then FirstOpen(b, c.fully) else c.next
    ensures Exec(b, c).fully == c.fully && Exec(b, c).stack == c.stack && Exec(b, c).reachedLeaf
    ensures !c.outOfRange ==> !Exec(b, c).outOfRange
  {
    if b.Subcase? {
      var (c1, entered) := Enter(c, b.sig);
      assert c.stack == [c.stack[0]] && c.stack[..0] + [b.sig] == [b.sig];
      var c2 := if entered then Leave(c1) else c1;
      assert entered ==> c.fully + {c.stack} == c.fully;
      LeavesAfterLeaf(b.rest, c2);
    }
  }

  /** At the goal, the first one open: it becomes the leaf, and the first one open after it becomes the goal. */
  lemma OpenLeafIsTaken(b: Body, c: Context)
    requires b.Subcase? && AllLeaves(b) && [b.sig] !in c.fully && (c.next == [] || c.next == [b.sig])
    requires !c.reachedLeaf && c.stack == [] && c.depth == 0
    ensures
      var c', recorded := Exec(b, c), c.fully + {[b.sig]};
      && c'.reachedLeaf && c'.stack == [b.sig] && c'.fully == recorded
      && c'.next == FirstOpen(b, recorded)
      && (!c.outOfRange ==> !c'.outOfRange)
  {
    var c1 := Leave(Enter(c, b.sig).0);
    assert c1.stack == [b.sig];
    LeavesAfterLeaf(b.rest, c1);
  }

  lemma OtherLeafIsPassed(b: Body, c: Context)
    requires b.Subcase? && c.next != [] && c.next[0] != b.sig
    requires !c.reachedLeaf && c.stack == [] && c.depth == 0
    ensures Exec(b, c) == Exec(b.rest, c)
  {
  }

  /** A round whose goal is the first one open. */
  lemma {:induction false} LeavesRound(b: Body, c: Context)
    requires AllLeaves(b) && FirstOpen(b, c.fully) != []
    requires c.next == FirstOpen(b, c.fully) || (c.next == [] && c.fully == {})
    requires !c.reachedLeaf && c.stack == [] && c.depth == 0
    ensures
      var c', leaf := Exec(b, c), FirstOpen(b, c.fully);
      && c'.reachedLeaf && c'.stack == leaf && c'.fully == c.fully + {leaf}
      && c'.next == FirstOpen(b, c.fully + {leaf})
      && (!c.outOfRange ==> !c'.outOfRange)
  {
    if [b.sig] in c.fully {
      OpenIsOneOfTops(b.rest, c.fully);
      assert c.next == [c.next[0]];
      OtherLeafIsPassed(b, c);
      LeavesRound(b.rest, c);
    } else {
      OpenLeafIsTaken(b, c);
    }
  }

  lemma {:induction false} OpenIsOneOfTops(b: Body, fully: set<Path>)
    ensures FirstOpen(b, fully) == [] <==> forall sig :: sig in Tops(b) ==> [sig] in fully
    ensures FirstOpen(b, fully) != [] ==>
      var leaf := FirstOpen(b, fully);
      |leaf| == 1 && leaf[0] in Tops(b) && leaf !in fully
  {
    if b.Subcase? {
      OpenIsOneOfTops(b.rest, fully);
    }
  }

  /** All of the recorded paths are top signatures of the body. */
  predicate RecordsTops(b: Body, fully: set<Path>) {
    forall p :: p in fully ==> |p| == 1 && p[0] in Tops(b)
  }

  lemma {:induction false} TopsHaveRoom(tops: set<Signature>, fully: set<Path>)
    requires forall p :: p in fully ==> |p| == 1 && p[0] in tops
    ensures |fully| <= |tops|
    ensures |fully| == |tops| <==> forall sig :: sig in tops ==> [sig] in fully
    decreases tops
  {
    if tops != {} {
      var sig :| sig in tops;
      var others, left := tops - {sig}, fully - {[sig]};
      forall p | p in left
        ensures |p| == 1 && p[0] in others
      {
        assert p == [p[0]];
      }
      TopsHaveRoom(others, left);
      assert [sig] in fully ==> fully == left + {[sig]};
      forall t | t in others
        ensures [t] in left <==> [t] in fully
      {
        assert [t][0] != [sig][0];
      }
    } else {
      assert forall p :: p !in fully;
    }
  }

  /** Where the loop is after `n` rounds. */
  predicate RecordedSoFar(b: Body, n: nat) {
    var c := Rounds(b, FRESH, n);
    && RecordsTops(b, c.fully) && |c.fully| == n && !c.outOfRange
    && (n > 0 ==> c.next == FirstOpen(b, c.fully))
  }

  lemma OneMoreRecorded(b: Body, n: nat)
    requires AllLeaves(b) && RecordedSoFar(b, n) && n < |Tops(b)|
    ensures RecordedSoFar(b, n + 1)
    ensures
      var c, c' := Rounds(b, FRESH, n), Rounds(b, FRESH, n + 1);
      && c'.stack == FirstOpen(b, c.fully) && c'.stack !in c.fully && c'.fully == c.fully + {c'.stack}
  {
    var c := Rounds(b, FRESH, n);
    TopsHaveRoom(Tops(b), c.fully);
    OpenIsOneOfTops(b, c.fully);
    LeavesRound(b, StartRun(c));
  }

  /**
    A test case whose subcases are all leaves, repeated in any way: each round
    executes the first one that is not recorded, and records it, and the loop
    ends after as many rounds as there are different ones.
   */
  lemma {:induction false} RepeatedLeavesRunOnce(b: Body, n: nat)
    requires AllLeaves(b) && n <= |Tops(b)|
    ensures RecordedSoFar(b, n)
    ensures n > 0 ==>
      var before, c := Rounds(b, FRESH, n - 1), Rounds(b, FRESH, n);
      && c.stack == FirstOpen(b, before.fully)
      && c.stack !in before.fully && c.fully == before.fully + {c.stack}
      && (c.next == [] <==> n == |Tops(b)|)
  {
    if n > 0 {
      RepeatedLeavesRunOnce(b, n - 1);
      OneMoreRecorded(b, n - 1);
      var c := Rounds(b, FRESH, n);
      TopsHaveRoom(Tops(b), c.fully);
      OpenIsOneOfTops(b, c.fully);
    }
  }

  /** Such a loop ends, after as many rounds as there are different signatures. */
  lemma RepeatedLeavesEnd(b: Body)
    requires AllLeaves(b) && b.Subcase?
    ensures Rounds(b, FRESH, |Tops(b)|).next == []
    ensures Unfinished(b, FRESH, |Tops(b)| - 1)
  {
    assert b.sig in Tops(b);
    RepeatedLeavesRunOnce(b, |Tops(b)|);
    forall k: nat | 0 < k <= |Tops(b)| - 1
      ensures Rounds(b, FRESH, k).next != []
    {
      RepeatedLeavesRunOnce(b, k);
    }
  }

  // ----- A loop that does not end -----

  /** A subcase with one subcase of its own, and what comes after it. */
  function Pair(sig: Signature, x: Signature, rest: Body): Body { Subcase(sig, Subcase(x, End, End), rest) }

  lemma PairIsLeaf(sig: Signature, x: Signature, rest: Body, c: Context)
    requires !c.reachedLeaf && c.stack == [] && c.depth == 0 && (c.next == [] || c.next == [sig])
    ensures Exec(Pair(sig, x, rest), c)
         == Exec(rest, c.(reachedLeaf := true, stack := [sig, x], next := [], fully := c.fully + {[sig, x]},
                          started := c.started + [sig] + [x]))
  {
    var c1 := Enter(c, sig).0;
    var c2 := Enter(c1, x).0;
    assert c1.stack == [sig] && c2.stack == [sig, x];
    assert Exec(Subcase(x, End, End), c1) == Leave(c2);
    assert Leave(Leave(c2)).fully == c.fully + {[sig, x]};
  }

  lemma PairIsPassed(sig: Signature, x: Signature, rest: Body, c: Context)
    requires c.depth == 0 && c.next != []
    requires if c.reachedLeaf then c.stack != [] && c.stack[0] != sig else c.stack == [] && c.next[0] != sig
    ensures Exec(Pair(sig, x, rest), c) == Exec(rest, c)
  {
  }

  lemma PairIsNext(sig: Signature, x: Signature, rest: Body, c: Context)
    requires c.reachedLeaf && c.depth == 0 && c.stack != [] && c.stack[0] != sig
    requires c.next == [] && [sig] !in c.fully
    ensures Exec(Pair(sig, x, rest), c) == Exec(rest, c.(next := [sig]))
  {
    assert c.stack[..0] + [sig] == [sig];
  }

  lemma PairIsReentered(sig: Signature, x: Signature, rest: Body, c: Context)
    requires c.reachedLeaf && c.depth == 0 && c.stack == [sig, x] && c.next != []
    ensures Exec(Pair(sig, x, rest), c) == Exec(rest, c.(started := c.started + [sig] + [x]))
  {
    var c1 := Enter(c, sig).0;
    var c2 := Enter(c1, x).0;
    assert Exec(Subcase(x, End, End), c1) == Leave(c2);
  }

  /** Two subcases with one of their own each, in a loop that is gone through twice. */
  function TwiceTwo(a: Signature, x: Signature, b: Signature, y: Signature): Body {
    Pair(a, x, Pair(b, y, Pair(a, x, Pair(b, y, End))))
  }

  /** A run into the first of them makes the second the next goal. */
  lemma RunIntoFirst(a: Signature, x: Signature, b: Signature, y: Signature, n: nat)
    requires
      var s := StationAfter(TwiceTwo(a, x, b, y), FRESH, n);
      a != b && (s.next == [] || s.next == [a]) && [b] !in s.fully
    ensures
      var body := TwiceTwo(a, x, b, y);
      StationAfter(body, FRESH, n + 1) == Station([b], StationAfter(body, FRESH, n).fully + {[a, x]})
  {
    var c := Rounds(TwiceTwo(a, x, b, y), FRESH, n);
    var last := Pair(b, y, End);
    var c1 := StartRun(c).(reachedLeaf := true, stack := [a, x], next := [], fully := c.fully + {[a, x]},
                           started := [] + [a] + [x]);
    PairIsLeaf(a, x, Pair(b, y, Pair(a, x, last)), StartRun(c));
    PairIsNext(b, y, Pair(a, x, last), c1);
    var c2 := c1.(next := [b]);
    PairIsReentered(a, x, last, c2);
    PairIsPassed(b, y, End, c2.(started := c2.started + [a] + [x]));
  }

  /** A run into the second makes the first the next goal again. */
  lemma RunIntoSecond(a: Signature, x: Signature, b: Signature, y: Signature, n: nat)
    requires
      var s := StationAfter(TwiceTwo(a, x, b, y), FRESH, n);
      a != b && s.next == [b] && [a] !in s.fully
    ensures
      var body := TwiceTwo(a, x, b, y);
      StationAfter(body, FRESH, n + 1) == Station([a], StationAfter(body, FRESH, n).fully + {[b, y]})
  {
    var c := Rounds(TwiceTwo(a, x, b, y), FRESH, n);
    var last := Pair(b, y, End);
    var c1 := StartRun(c).(reachedLeaf := true, stack := [b, y], next := [], fully := c.fully + {[b, y]},
                           started := [] + [b] + [y]);
    PairIsPassed(a, x, Pair(b, y, Pair(a, x, last)), StartRun(c));
    PairIsLeaf(b, y, Pair(a, x, last), StartRun(c));
    PairIsNext(a, x, last, c1);
    PairIsReentered(b, y, End, c1.(next := [a]));
  }

  /** The loop on this body never ends: it goes back and forth, with every round in range. */
  lemma EndlessWitness(a: Signature, x: Signature, b: Signature, y: Signature)
    requires a != b
    ensures SameContents(TwiceTwo(a, x, b, y))
    ensures !Ends(TwiceTwo(a, x, b, y), FRESH)
  {
    var body := TwiceTwo(a, x, b, y);
    TwiceTwoAgrees(a, x, b, y);
    RunIntoFirst(a, x, b, y, 0);
    RunIntoSecond(a, x, b, y, 1);
    RunIntoFirst(a, x, b, y, 2);
    RunIntoSecond(a, x, b, y, 3);
    assert StationAfter(body, FRESH, 2) == Station([a], {[a, x], [b, y]});
    assert StationAfter(body, FRESH, 4) == Station([a], {[a, x], [b, y]});
    forall n: nat | n > 0
      ensures Rounds(body, FRESH, n).next != []
    {
      CircleIsEndless(body, FRESH, 2, 4, n);
    }
  }

  lemma TwiceTwoAgrees(a: Signature, x: Signature, b: Signature, y: Signature)
    requires a != b
    ensures SameContents(TwiceTwo(a, x, b, y))
  {
    var all := TwiceTwo(a, x, b, y);
    assert ContentOf(all, a) == Some(Subcase(x, End, End)) && ContentOf(all, b) == Some(Subcase(y, End, End));
    assert forall sig :: AllAgree(Subcase(sig, End, End), Subcase(sig, End, End));
    assert AllAgree(Pair(b, y, End), all);
    assert AllAgree(Pair(a, x, Pair(b, y, End)), all);
    assert AllAgree(Pair(b, y, Pair(a, x, Pair(b, y, End))), all);
  }
}
