/** Test bodies as trees of subcases, and the leaf paths a test case has to execute. */
module SubcaseTree {
  import opened Outcomes

  datatype Signature = Signature(name: string, file: string, line: int)

  type Path = seq<Signature>

  /** A body: one subcase with its own body, and then the rest of the body. */
  datatype Body = End | Subcase(sig: Signature, inner: Body, rest: Body)

  /** The signatures of the subcases a body opens itself. */
  function Tops(b: Body): set<Signature> {
    match b
    case End => {}
    case Subcase(sig, _, rest) => {sig} + Tops(rest)
  }

  /** No two subcases of one body have the same signature. */
  predicate DistinctSiblings(b: Body) {
    match b
    case End => true
    case Subcase(sig, inner, rest) => sig !in Tops(rest) && DistinctSiblings(inner) && DistinctSiblings(rest)
  }

  function Prefixed(sig: Signature, paths: seq<Path>): (r: seq<Path>)
    ensures |r| == |paths| && forall i :: 0 <= i < |r| ==> r[i] == [sig] + paths[i]
  {
    seq(|paths|, i requires 0 <= i < |paths| => [sig] + paths[i])
  }

  /** The paths to the leaves of a body that opens subcases, depth first. */
  function Under(b: Body): seq<Path> {
    match b
    case End => []
    case Subcase(sig, inner, rest) => Prefixed(sig, if inner.End? then [[]] else Under(inner)) + Under(rest)
  }

  /** A body without subcases is itself a leaf. */
  function LeafPaths(b: Body): seq<Path> {
    if b.End? then [[]] else Under(b)
  }

  /** What a leaf path is: a way down that ends where no further subcase is opened. */
  predicate IsLeafPath(b: Body, p: Path) {
    match b
    case End => false
    case Subcase(sig, inner, rest) =>
      || (p != [] && p[0] == sig && (if inner.End? then |p| == 1 else IsLeafPath(inner, p[1..])))
      || IsLeafPath(rest, p)
  }

  lemma InPrefixed(sig: Signature, paths: seq<Path>, p: Path)
    ensures p in Prefixed(sig, paths) <==> p != [] && p[0] == sig && p[1..] in paths
  {
    var below := Prefixed(sig, paths);
    if p in below {
      var i :| 0 <= i < |below| && below[i] == p;
      assert p[1..] == paths[i];
    }
    if p != [] && p[0] == sig && p[1..] in paths {
      var i :| 0 <= i < |paths| && paths[i] == p[1..];
      assert below[i] == p;
    }
  }

  lemma {:induction false} UnderAreLeafPaths(b: Body, p: Path)
    ensures p in Under(b) <==> IsLeafPath(b, p)
  {
    if b.Subcase? {
      InPrefixed(b.sig, LeafPaths(b.inner), p);
      UnderAreLeafPaths(b.rest, p);
      if p != [] {
        UnderAreLeafPaths(b.inner, p[1..]);
        assert |p| == 1 <==> p[1..] == [];
      }
    }
  }

  lemma {:induction false} UnderStartsAtTops(b: Body)
    ensures forall i :: 0 <= i < |Under(b)| ==> Under(b)[i] != [] && Under(b)[i][0] in Tops(b)
  {
    if b.Subcase? {
      UnderStartsAtTops(b.rest);
    }
  }

  predicate NoRepeats(paths: seq<Path>) {
    forall i, j :: 0 <= i < j < |paths| ==> paths[i] != paths[j]
  }

  /** With distinct siblings, no leaf path is listed twice. */
  lemma {:induction false} LeafPathsAreDistinct(b: Body)
    requires DistinctSiblings(b)
    ensures NoRepeats(LeafPaths(b))
  {
    if b.Subcase? {
      var below, beside := Prefixed(b.sig, LeafPaths(b.inner)), Under(b.rest);
      LeafPathsAreDistinct(b.inner);
      LeafPathsAreDistinct(b.rest);
      UnderStartsAtTops(b.rest);
      forall i, j | 0 <= i < j < |below + beside|
        ensures (below + beside)[i] != (below + beside)[j]
      {
        if j < |below| {
          assert below[i][1..] == LeafPaths(b.inner)[i] && below[j][1..] == LeafPaths(b.inner)[j];
        } else if i < |below| {
          assert below[i][0] == b.sig && beside[j - |below|][0] in Tops(b.rest);
        }
      }
    }
  }

  // ----- Where a run goes -----

  function Rest(q: Path): Path { if q == [] then [] else q[1..] }

  /** `q` names a subcase of the body, or nothing in particular. */
  predicate Leads(b: Body, q: Path) {
    && b.Subcase?
    && (|| q == []
        || (q[0] == b.sig && (|q| == 1 || Leads(b.inner, q[1..])))
        || (q[0] != b.sig && Leads(b.rest, q)))
  }

  /** The run to `q` goes through the first subcase of the body. */
  predicate Takes(b: Body, q: Path)
    requires b.Subcase?
  {
    q == [] || q[0] == b.sig
  }

  /** The first leaf at or below `q`. */
  function LeafAt(b: Body, q: Path): Path
    requires Leads(b, q)
  {
    if Takes(b, q) then [b.sig] + (if b.inner.End? then [] else LeafAt(b.inner, Rest(q)))
    else LeafAt(b.rest, q)
  }

  /** The subcase to be entered next, after the leaf at `q`: the next sibling on the deepest level that has one. */
  function Successor(b: Body, q: Path): (r: Option<Path>)
    requires Leads(b, q)
    ensures r.Some? ==> r.value != []
  {
    if !Takes(b, q) then Successor(b.rest, q)
    else
      match if b.inner.End? then None else Successor(b.inner, Rest(q))
      case Some(n) => Some([b.sig] + n)
      case None => if b.rest.End? then None else Some([b.rest.sig])
  }

  /** The leaf paths from the one at `q` on. */
  function From(b: Body, q: Path): seq<Path>
    requires Leads(b, q)
  {
    if Takes(b, q)
    then Prefixed(b.sig, if b.inner.End? then [[]] else From(b.inner, Rest(q))) + Under(b.rest)
    else From(b.rest, q)
  }

  lemma {:induction false} FromStart(b: Body)
    requires b.Subcase?
    ensures From(b, []) == Under(b)
    ensures Leads(b, [b.sig]) && From(b, [b.sig]) == Under(b)
  {
    assert Rest([b.sig]) == [];
    if b.inner.Subcase? {
      FromStart(b.inner);
    }
  }

  lemma PrefixedConcat(sig: Signature, p: Path, paths: seq<Path>, beside: seq<Path>)
    ensures Prefixed(sig, [p] + paths) + beside == [[sig] + p] + (Prefixed(sig, paths) + beside)
  {
  }

  /** Inside the subcase that is taken there is a successor. */
  lemma StepInside(b: Body, q: Path, n: Path)
    requires Leads(b, q) && Takes(b, q) && b.inner.Subcase?
    requires n != [] && Leads(b.inner, n)
    requires From(b.inner, Rest(q)) == [LeafAt(b.inner, Rest(q))] + From(b.inner, n)
    ensures Leads(b, [b.sig] + n)
    ensures From(b, q) == [LeafAt(b, q)] + From(b, [b.sig] + n)
  {
    DescendInto(b, n);
    PrefixedConcat(b.sig, LeafAt(b.inner, Rest(q)), From(b.inner, n), Under(b.rest));
  }

  lemma DescendInto(b: Body, n: Path)
    requires b.Subcase? && b.inner.Subcase? && n != [] && Leads(b.inner, n)
    ensures Leads(b, [b.sig] + n)
    ensures From(b, [b.sig] + n) == Prefixed(b.sig, From(b.inner, n)) + Under(b.rest)
  {
    assert ([b.sig] + n)[1..] == n;
  }

  lemma SingleLeaf(sig: Signature, p: Path, beside: seq<Path>)
    ensures Prefixed(sig, [p]) + beside == [[sig] + p] + beside
  {
  }

  /** The subcase that is taken has no leaf left: the next sibling follows, if there is one. */
  lemma StepAcross(b: Body, q: Path)
    requires DistinctSiblings(b) && Leads(b, q) && Takes(b, q)
    requires b.inner.Subcase? ==> From(b.inner, Rest(q)) == [LeafAt(b.inner, Rest(q))]
    ensures From(b, q) == [LeafAt(b, q)] + Under(b.rest)
    ensures b.rest.Subcase? ==> Leads(b, [b.rest.sig]) && From(b, [b.rest.sig]) == Under(b.rest)
  {
    var leaf: Path := if b.inner.End? then [] else LeafAt(b.inner, Rest(q));
    SingleLeaf(b.sig, leaf, Under(b.rest));
    if b.rest.Subcase? {
      FromStart(b.rest);
      assert b.rest.sig in Tops(b.rest);
    }
  }

  /** The list from `q` on is the leaf at `q` and then the list from its successor on. */
  lemma {:induction false} FromStep(b: Body, q: Path)
    requires DistinctSiblings(b) && Leads(b, q)
    ensures
      match Successor(b, q)
      case None => From(b, q) == [LeafAt(b, q)]
      case Some(n) => Leads(b, n) && From(b, q) == [LeafAt(b, q)] + From(b, n)
  {
    if !Takes(b, q) {
      FromStep(b.rest, q);
      SuccessorAvoids(b.rest, q, b.sig);
    } else if b.inner.End? {
      StepAcross(b, q);
    } else {
      FromStep(b.inner, Rest(q));
      match Successor(b.inner, Rest(q))
      case Some(n) => StepInside(b, q, n);
      case None => StepAcross(b, q);
    }
  }

  /** A successor starts with one of the body's own subcases. */
  lemma {:induction false} SuccessorAvoids(b: Body, q: Path, sig: Signature)
    requires Leads(b, q) && sig !in Tops(b)
    ensures Successor(b, q).Some? ==> Successor(b, q).value[0] != sig
  {
    if !Takes(b, q) {
      SuccessorAvoids(b.rest, q, sig);
    }
  }

  lemma {:induction false} LeafStartsAtTops(b: Body, q: Path)
    requires Leads(b, q)
    ensures LeafAt(b, q) != [] && LeafAt(b, q)[0] in Tops(b)
  {
    if !Takes(b, q) {
      LeafStartsAtTops(b.rest, q);
    }
  }
}
