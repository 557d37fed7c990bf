/** Several strings at once: what any run of assignments and appends leaves in each of them. */
module StringRuns {
  import opened Bytes
  import opened SmallString

  /** Operations on strings in a pool; a constructor adds one at its end. */
  datatype Op =
    | AppendTo(to: nat, from: nat)
    | CopyTo(to: nat, from: nat)
    | MoveTo(to: nat, from: nat)
    | NewOf(chars: bytes)
    | NewCopy(from: nat)
    | NewMove(from: nat)

  predicate IsInPlace(op: Op) { op.AppendTo? || op.CopyTo? || op.MoveTo? }

  /** The operation names strings of the pool, an append is of another string, and sizes fit 32 bits. */
  predicate MayRun(texts: seq<bytes>, op: Op) {
    && (IsInPlace(op) ==> op.to < |texts|)
    && (op.NewOf? || op.from < |texts|)
    && (op.AppendTo? ==> op.to != op.from && |texts[op.to]| + |texts[op.from]| + 1 < SIZE_LIMIT)
    && (op.NewOf? ==> |op.chars| + 1 < SIZE_LIMIT)
  }

  /** The operation on plain texts: a text that was moved away is empty, unless it was moved to itself. */
  function OnTexts(texts: seq<bytes>, op: Op): (after: seq<bytes>)
    requires MayRun(texts, op)
    ensures |after| == if IsInPlace(op) then |texts| else |texts| + 1
  {
    match op
    case AppendTo(to, from) => texts[to := texts[to] + texts[from]]
    case CopyTo(to, from) => texts[to := texts[from]]
    case MoveTo(to, from) => texts[from := []][to := texts[from]]
    case NewOf(chars) => texts + [chars]
    case NewCopy(from) => texts + [texts[from]]
    case NewMove(from) => texts[from := []] + [texts[from]]
  }

  predicate MayRunAll(texts: seq<bytes>, ops: seq<Op>)
    decreases |ops|
  {
    ops != [] ==> MayRun(texts, ops[0]) && MayRunAll(OnTexts(texts, ops[0]), ops[1..])
  }

  function AllOnTexts(texts: seq<bytes>, ops: seq<Op>): seq<bytes>
    requires MayRunAll(texts, ops)
    decreases |ops|
  {
    if ops == [] then texts else AllOnTexts(OnTexts(texts, ops[0]), ops[1..])
  }

  // ----- Who owns what -----

  /** For each string the memory that is its own. */
  type Shares = seq<set<object>>

  predicate Apart(shares: Shares) { forall i, j :: 0 <= i < j < |shares| ==> shares[i] !! shares[j] }

  ghost function All(shares: Shares): set<object> { set i, o | 0 <= i < |shares| && o in shares[i] :: o }

  /** The strings hold these texts, each in a share of its own. */
  ghost predicate Hold(strings: seq<String>, texts: seq<bytes>, shares: Shares)
    reads set i | 0 <= i < |strings| :: strings[i],
          set i | 0 <= i < |strings| :: strings[i].buf,
          All(shares)
  {
    && |texts| == |strings| == |shares| && Apart(shares)
    && forall i :: 0 <= i < |strings| ==>
         strings[i].Repr() == shares[i] && strings[i].Valid() && strings[i].Text() == texts[i]
  }

  /** Nothing is shared after two strings exchanged what they own or took what nobody owned. */
  lemma StillApart(shares: Shares, to: nat, from: nat, toShare: set<object>, fromShare: set<object>)
    requires Apart(shares) && to < |shares| && from < |shares|
    requires forall o :: o in toShare + fromShare && o in All(shares) ==> o in shares[to] + shares[from]
    requires if to == from then toShare == fromShare else toShare !! fromShare
    ensures Apart(shares[from := fromShare][to := toShare])
    ensures All(shares[from := fromShare][to := toShare]) <= All(shares) + toShare + fromShare
  {
    forall k | 0 <= k < |shares| && k != to && k != from
      ensures shares[k] !! toShare + fromShare
    {
      assert shares[k] !! shares[to] && shares[k] !! shares[from];
      forall o | o in shares[k]
        ensures o !in toShare + fromShare
      {
        assert o in All(shares);
      }
    }
  }

  /** An operation on two strings, or on one and itself. */
  method Operate(to: String, from: String, op: Op)
    requires to.Valid() && from.Valid() && (to != from ==> to.Repr() !! from.Repr())
    requires IsInPlace(op)
    requires op.AppendTo? ==> to != from && |to.Text()| + |from.Text()| + 1 < SIZE_LIMIT
    modifies to.Repr() + from.Repr()
    ensures to.Valid() && from.Valid() && (to != from ==> to.Repr() !! from.Repr())
    ensures fresh(to.Repr() + from.Repr() - old(to.Repr() + from.Repr()))
    ensures to.Text() == if op.AppendTo? then old(to.Text()) + old(from.Text()) else old(from.Text())
    ensures to != from ==> from.Text() == if op.MoveTo? then [] else old(from.Text())
  {
    match op
    case AppendTo(_, _) => to.Append(from);
    case CopyTo(_, _) => to.CopyAssign(from);
    case MoveTo(_, _) => to.MoveAssign(from);
  }

  /** A string the operation does not name. */
  predicate IsOther(strings: seq<String>, op: Op, k: int)
    requires IsInPlace(op)
  {
    0 <= k < |strings| && k != op.to && k != op.from
  }

  method OperateIn(strings: seq<String>, ghost texts: seq<bytes>, ghost shares: Shares, op: Op)
    returns (ghost to: set<object>, ghost from: set<object>)
    requires Hold(strings, texts, shares) && MayRun(texts, op) && IsInPlace(op)
    modifies shares[op.to] + shares[op.from]
    ensures forall k :: IsOther(strings, op, k) ==>
      strings[k].Repr() == shares[k] && strings[k].Valid() && strings[k].Text() == texts[k]
    ensures to == strings[op.to].Repr() && from == strings[op.from].Repr()
    ensures strings[op.to].Valid() && strings[op.to].Text() == OnTexts(texts, op)[op.to]
    ensures strings[op.from].Valid() && strings[op.from].Text() == OnTexts(texts, op)[op.from]
    ensures op.to != op.from ==> to !! from
    ensures fresh(to + from - (shares[op.to] + shares[op.from]))
  {
    forall k | IsOther(strings, op, k)
      ensures strings[k] in shares[k] && shares[k] !! shares[op.to] + shares[op.from]
    {
    }
    assert op.to != op.from ==> shares[op.to] !! shares[op.from];
    assert strings[op.to] in shares[op.to] && strings[op.from] in shares[op.from];
    Operate(strings[op.to], strings[op.from], op);
    to, from := strings[op.to].Repr(), strings[op.from].Repr();
  }

  lemma Rejoined(strings: seq<String>, texts: seq<bytes>, shares: Shares, op: Op,
                 to: set<object>, from: set<object>)
    requires |texts| == |strings| == |shares| && Apart(shares) && MayRun(texts, op) && IsInPlace(op)
    requires forall k :: IsOther(strings, op, k) ==>
      strings[k].Repr() == shares[k] && strings[k].Valid() && strings[k].Text() == texts[k]
    requires to == strings[op.to].Repr() && from == strings[op.from].Repr()
    requires strings[op.to].Valid() && strings[op.to].Text() == OnTexts(texts, op)[op.to]
    requires strings[op.from].Valid() && strings[op.from].Text() == OnTexts(texts, op)[op.from]
    requires op.to != op.from ==> to !! from
    requires forall o :: o in to + from && o in All(shares) ==> o in shares[op.to] + shares[op.from]
    ensures Hold(strings, OnTexts(texts, op), shares[op.from := from][op.to := to])
    ensures All(shares[op.from := from][op.to := to]) <= All(shares) + to + from
  {
    StillApart(shares, op.to, op.from, to, from);
    forall k | IsOther(strings, op, k)
      ensures OnTexts(texts, op)[k] == texts[k]
    {
    }
  }

  method RunInPlace(strings: seq<String>, ghost texts: seq<bytes>, ghost shares: Shares, op: Op)
    returns (ghost shares': Shares)
    requires Hold(strings, texts, shares) && MayRun(texts, op) && IsInPlace(op)
    modifies shares[op.to] + shares[op.from]
    ensures Hold(strings, OnTexts(texts, op), shares') && fresh(All(shares') - All(shares))
  {
    ghost var to, from := OperateIn(strings, texts, shares, op);
    shares' := shares[op.from := from][op.to := to];
    assert shares[op.to] <= All(shares) && shares[op.from] <= All(shares);
    Rejoined(strings, texts, shares, op, to, from);
  }

  /** A string with memory of its own joins the pool. */
  lemma Added(strings: seq<String>, texts: seq<bytes>, shares: Shares, s: String)
    requires Hold(strings, texts, shares) && s.Valid() && s.Repr() !! All(shares)
    ensures Hold(strings + [s], texts + [s.Text()], shares + [s.Repr()])
    ensures All(shares + [s.Repr()]) <= All(shares) + s.Repr()
  {
    forall k | 0 <= k < |shares|
      ensures shares[k] !! s.Repr()
    {
      assert shares[k] <= All(shares);
    }
  }

  method NewString(chars: bytes) returns (s: String)
    requires |chars| + 1 < SIZE_LIMIT
    ensures s.Valid() && s.Text() == chars && fresh(s.Repr())
  {
    var src := new byte[|chars|](i requires 0 <= i < |chars| => chars[i]);
    assert src[..] == chars;
    s := new String.FromChars(src, |chars|);
  }

  /** A new string that shares nothing: the others are not even written to. */
  method RunNew(strings: seq<String>, ghost texts: seq<bytes>, ghost shares: Shares, op: Op)
    returns (s: String)
    requires Hold(strings, texts, shares) && MayRun(texts, op) && (op.NewOf? || op.NewCopy?)
    ensures Hold(strings + [s], OnTexts(texts, op), shares + [s.Repr()]) && fresh(s.Repr())
  {
    if op.NewOf? {
      s := NewString(op.chars);
    } else {
      s := new String.FromCopy(strings[op.from]);
    }
    Added(strings, texts, shares, s);
  }

  /** The new string takes over the block of the old one, which nobody else owns. */
  method RunNewMove(strings: seq<String>, ghost texts: seq<bytes>, ghost shares: Shares, op: Op)
    returns (s: String, ghost shares': Shares)
    requires Hold(strings, texts, shares) && MayRun(texts, op) && op.NewMove?
    modifies strings[op.from].buf
    ensures Hold(strings + [s], OnTexts(texts, op), shares') && fresh(All(shares') - All(shares))
  {
    var from := strings[op.from];
    assert from in shares[op.from] && from.buf in shares[op.from];
    s := new String.FromMove(from);
    ghost var left := shares[op.from := from.Repr()];
    StillApart(shares, op.from, op.from, from.Repr(), from.Repr());
    assert left == shares[op.from := from.Repr()][op.from := from.Repr()];
    assert Hold(strings, texts[op.from := []], left);
    Added(strings, texts[op.from := []], left, s);
    shares' := left + [s.Repr()];
  }

  /** One operation, and what it leaves in every string, also those it does not name. */
  method RunOp(strings: seq<String>, ghost texts: seq<bytes>, ghost shares: Shares, op: Op)
    returns (after: seq<String>, ghost shares': Shares)
    requires Hold(strings, texts, shares) && MayRun(texts, op)
    modifies All(shares)
    ensures strings <= after && Hold(after, OnTexts(texts, op), shares') && fresh(All(shares') - All(shares))
  {
    var s: String;
    match op
    case NewOf(_) =>
      s := RunNew(strings, texts, shares, op);
      after, shares' := strings + [s], shares + [s.Repr()];
    case NewCopy(_) =>
      s := RunNew(strings, texts, shares, op);
      after, shares' := strings + [s], shares + [s.Repr()];
    case NewMove(from) =>
      assert strings[from].buf in shares[from];
      s, shares' := RunNewMove(strings, texts, shares, op);
      after := strings + [s];
    case _ =>
      shares' := RunInPlace(strings, texts, shares, op);
      after := strings;
  }

  /**
    Any number of appends, copies, moves and constructions in any pool: every
    string ends with the text that the same operations make of plain texts, and
    no two strings ever share memory, whichever of them are on the heap.
   */
  method RunOps(strings: seq<String>, ghost texts: seq<bytes>, ghost shares: Shares, ops: seq<Op>)
    returns (after: seq<String>, ghost shares': Shares)
    requires Hold(strings, texts, shares) && MayRunAll(texts, ops)
    modifies All(shares)
    ensures strings <= after && Hold(after, AllOnTexts(texts, ops), shares')
    ensures fresh(All(shares') - All(shares))
    decreases |ops|
  {
    if ops == [] {
      return strings, shares;
    }
    ghost var between: Shares;
    after, between := RunOp(strings, texts, shares, ops[0]);
    after, shares' := RunOps(after, OnTexts(texts, ops[0]), between, ops[1..]);
  }
}
