/**
How a row of contacts and parallel blocks becomes a contact program, and where that program has the
value of the row. A block without contacts is skipped, but it still counts as the row's first element.
*/
module LadderLowering {

  import opened Basics
  import opened GateOracle

  /** `negated`: normally closed. An element without an address has no operand. */
  datatype Contact = Contact(negated: bool, address: string)

  datatype Element = Single(contact: Contact) | Block(branches: seq<seq<Contact>>)

  // ---------- the value of a row ----------

  function Operands(c: Contact): seq<string> { if c.address == "" then [] else [c.address] }

  predicate ContactValue(c: Contact, m: Memory) { m(Operands(c)) != c.negated }

  predicate SeriesValue(cs: seq<Contact>, m: Memory) {
    forall i :: 0 <= i < |cs| ==> ContactValue(cs[i], m)
  }

  function Filled(branches: seq<seq<Contact>>): (r: seq<seq<Contact>>)
    ensures forall b :: b in r ==> b != []
  {
    if branches == [] then []
    else (if branches[0] == [] then [] else [branches[0]]) + Filled(branches[1..])
  }

  predicate AnyBranch(bs: seq<seq<Contact>>, m: Memory) {
    exists i :: 0 <= i < |bs| && SeriesValue(bs[i], m)
  }

  predicate IsEmpty(e: Element) { e.Block? && Filled(e.branches) == [] }

  predicate ElementValue(e: Element, m: Memory) {
    match e
    case Single(c) => ContactValue(c, m)
    case Block(branches) => Filled(branches) == [] || AnyBranch(Filled(branches), m)
  }

  predicate RowValue(es: seq<Element>, m: Memory) {
    forall i :: 0 <= i < |es| ==> ElementValue(es[i], m)
  }

  /** The contact is closed: its operand, or none where it has no address, against its kind. */
  predicate IsClosed(c: Contact, m: Memory) {
    if c.address == "" then m([]) != c.negated else m([c.address]) != c.negated
  }

  /** Power gets through: a contact that is closed; a branch of closed contacts, or a block without any contact. */
  predicate GetsThrough(e: Element, m: Memory) {
    match e
    case Single(c) => IsClosed(c, m)
    case Block(branches) => BlockWithout(e) || exists i :: 0 <= i < |branches| && LetsThrough(branches[i], m)
  }

  predicate LetsThrough(branch: seq<Contact>, m: Memory) {
    branch != [] && forall n :: 0 <= n < |branch| ==> IsClosed(branch[n], m)
  }

  predicate BlockWithout(e: Element) {
    e.Block? && forall i :: 0 <= i < |e.branches| ==> e.branches[i] == []
  }

  lemma {:induction false} FilledAre(branches: seq<seq<Contact>>)
    ensures forall b :: b in Filled(branches) <==> b in branches && b != []
    decreases |branches|
  {
    if branches != [] {
      FilledAre(branches[1..]);
      assert branches == [branches[0]] + branches[1..];
    }
  }

  lemma SeriesLetsThrough(branch: seq<Contact>, m: Memory)
    requires branch != []
    ensures SeriesValue(branch, m) <==> LetsThrough(branch, m)
  {
    if SeriesValue(branch, m) {
      forall n | 0 <= n < |branch|
        ensures IsClosed(branch[n], m)
      {
        assert ContactValue(branch[n], m);
      }
    }
    if LetsThrough(branch, m) {
      forall i | 0 <= i < |branch|
        ensures ContactValue(branch[i], m)
      {
        assert IsClosed(branch[i], m);
      }
    }
  }

  /** What an element is worth, and when it counts as empty, by its contacts alone. */
  lemma ElementPlainly(e: Element, m: Memory)
    ensures ElementValue(e, m) <==> GetsThrough(e, m)
    ensures IsEmpty(e) <==> BlockWithout(e)
  {
    if e.Block? {
      var bs := Filled(e.branches);
      FilledAre(e.branches);
      if bs != [] {
        assert bs[0] in bs && bs[0] in e.branches;
      }
      forall i | 0 <= i < |bs|
        ensures bs[i] in e.branches && (SeriesValue(bs[i], m) <==> LetsThrough(bs[i], m))
      {
        assert bs[i] in bs;
        SeriesLetsThrough(bs[i], m);
      }
      forall i | 0 <= i < |e.branches| && e.branches[i] != []
        ensures e.branches[i] in bs
      {
        assert e.branches[i] in e.branches;
      }
      if i :| 0 <= i < |e.branches| && LetsThrough(e.branches[i], m) {
        var n :| 0 <= n < |bs| && bs[n] == e.branches[i];
        assert SeriesValue(bs[n], m);
      }
    }
  }

  /** Power gets through a row when it gets through every element. */
  lemma RowPlainly(es: seq<Element>, m: Memory)
    ensures RowValue(es, m) <==> forall i :: 0 <= i < |es| ==> GetsThrough(es[i], m)
  {
    forall i | 0 <= i < |es|
      ensures ElementValue(es[i], m) <==> GetsThrough(es[i], m)
    {
      ElementPlainly(es[i], m);
    }
  }

  // ---------- the program ----------

  function OpOf(c: Contact, first: bool, parallel: bool): Op {
    if first then if c.negated then LDI else LD
    else if parallel then if c.negated then ORI else OR
    else if c.negated then ANI else AND
  }

  function GateOf(c: Contact, first: bool, parallel: bool): Gate { Gate(OpOf(c, first, parallel), Operands(c)) }

  function Series(cs: seq<Contact>, first: bool): (p: Program)
    ensures |p| == |cs|
  {
    seq(|cs|, i requires 0 <= i < |cs| => GateOf(cs[i], first && i == 0, false))
  }

  function BranchCode(b: seq<Contact>, index: nat): Program {
    if |b| == 1 then [GateOf(b[0], index == 0, index > 0)]
    else Series(b, true) + if index > 0 then [Gate(ORB, [])] else []
  }

  function BranchesCode(bs: seq<seq<Contact>>): Program {
    if bs == [] then [] else BranchesCode(bs[..|bs| - 1]) + BranchCode(bs[|bs| - 1], |bs| - 1)
  }

  function ElementCode(e: Element, first: bool): Program {
    match e
    case Single(c) => [GateOf(c, first, false)]
    case Block(branches) =>
      var bs := Filled(branches);
      if bs == [] then []
      else if |bs| == 1 then Series(bs[0], first)
      else BranchesCode(bs) + if first then [] else [Gate(ANB, [])]
  }

  function Lowered(es: seq<Element>, first: bool): Program {
    if es == [] then [] else ElementCode(es[0], first) + Lowered(es[1..], false)
  }

  /** The block operations on the stack; every other operation is unknown here. */
  function Blocks(m: Memory): (Gate, State<()>) -> Option<State<()>> {
    (g: Gate, s: State<()>) => BlockStep(g, m, s)
  }

  function BlockStep(g: Gate, m: Memory, s: State<()>): Option<State<()>> {
    match g.op
    case OR => if s.stack == [] then None else Some(State([s.stack[0] || m(g.args)] + s.stack[1..], s.rest))
    case ORI => if s.stack == [] then None else Some(State([s.stack[0] || !m(g.args)] + s.stack[1..], s.rest))
    case ORB => if |s.stack| < 2 then None else Some(State([s.stack[1] || s.stack[0]] + s.stack[2..], s.rest))
    case ANB => if |s.stack| < 2 then None else Some(State([s.stack[1] && s.stack[0]] + s.stack[2..], s.rest))
    case _ => None
  }

  function Execute(p: Program, m: Memory, stack: seq<bool>): Option<State<()>> {
    Run(p, m, Blocks(m), State(stack, ()))
  }

  // ---------- the loops ----------

  /** Appends the code of one branch of a block that has several. */
  method EmitBranch(code: Program, b: seq<Contact>, index: nat) returns (r: Program)
    ensures r == code + BranchCode(b, index)
  {
    if |b| == 1 {
      return code + [GateOf(b[0], index == 0, index > 0)];
    }
    r := EmitSeries(code, b, true);
    if index > 0 {
      r := r + [Gate(ORB, [])];
    }
  }

  method EmitSeries(code: Program, cs: seq<Contact>, first: bool) returns (r: Program)
    ensures r == code + Series(cs, first)
  {
    r := code;
    for i := 0 to |cs|
      invariant r == code + Series(cs, first)[..i]
    {
      r := r + [GateOf(cs[i], first && i == 0, false)];
    }
  }

  method EmitElement(code: Program, e: Element, first: bool) returns (r: Program)
    ensures r == code + ElementCode(e, first)
  {
    if e.Single? {
      return code + [GateOf(e.contact, first, false)];
    }
    var bs := Filled(e.branches);
    if bs == [] {
      return code;
    }
    if |bs| == 1 {
      r := EmitSeries(code, bs[0], first);
      return;
    }
    r := EmitBranches(code, bs);
    if !first {
      r := r + [Gate(ANB, [])];
    }
  }

  lemma Regroup(a: Program, b: Program, c: Program)
    ensures (a + b) + c == a + (b + c)
  {
  }

  lemma OneMoreBranch(bs: seq<seq<Contact>>, i: nat)
    requires i < |bs|
    ensures BranchesCode(bs[..i + 1]) == BranchesCode(bs[..i]) + BranchCode(bs[i], i)
  {
    var more := bs[..i + 1];
    assert more[..i] == bs[..i] && more[i] == bs[i];
  }

  method EmitBranches(code: Program, bs: seq<seq<Contact>>) returns (r: Program)
    ensures r == code + BranchesCode(bs)
  {
    r := code;
    ghost var done: Program := [];
    for i := 0 to |bs|
      invariant r == code + done && done == BranchesCode(bs[..i])
    {
      OneMoreBranch(bs, i);
      ghost var next := BranchCode(bs[i], i);
      r := EmitBranch(r, bs[i], i);
      Regroup(code, done, next);
      done := done + next;
    }
    assert bs[..|bs|] == bs;
  }

  lemma {:induction false} OneMoreElement(es: seq<Element>, i: nat, first: bool)
    requires i < |es|
    ensures Lowered(es[i..], first) == ElementCode(es[i], first) + Lowered(es[i + 1..], false)
  {
    var rest := es[i..];
    assert rest[0] == es[i] && rest[1..] == es[i + 1..];
  }

  /** Elements one after the other; only the element at place 0 can be the first. */
  method ParseInputs(es: seq<Element>, firstInput: bool) returns (code: Program)
    ensures code == Lowered(es, firstInput)
  {
    code := [];
    ghost var left := Lowered(es, firstInput);
    assert es[0..] == es;
    for i := 0 to |es|
      invariant code + left == Lowered(es, firstInput)
      invariant left == Lowered(es[i..], firstInput && i == 0)
    {
      OneMoreElement(es, i, firstInput && i == 0);
      ghost var next := ElementCode(es[i], firstInput && i == 0);
      left := Lowered(es[i + 1..], false);
      Regroup(code, next, left);
      code := EmitElement(code, es[i], firstInput && i == 0);
    }
  }

  // ---------- the program has the value of the row ----------

  lemma {:induction false} RunJoins(a: Program, b: Program, m: Memory, s: State<()>)
    ensures Run(a + b, m, Blocks(m), s)
         == match Run(a, m, Blocks(m), s) case None => None case Some(t) => Run(b, m, Blocks(m), t)
    decreases |a|
  {
    if a == [] {
      assert a + b == b;
    } else {
      assert (a + b)[1..] == a[1..] + b;
      if Step(a[0], m, Blocks(m), s).Some? {
        RunJoins(a[1..], b, m, Step(a[0], m, Blocks(m), s).value);
      }
    }
  }

  lemma SeriesIsClosed(cs: seq<Contact>, m: Memory, first: bool)
    ensures AllClosed(Series(cs, first), m) <==> SeriesValue(cs, m)
  {
    forall i | 0 <= i < |cs|
      ensures Closed(Series(cs, first)[i], m) <==> ContactValue(cs[i], m)
    {
    }
  }

  lemma {:induction false} SeriesPushes(cs: seq<Contact>, m: Memory, s: State<()>)
    requires cs != []
    ensures Run(Series(cs, true), m, Blocks(m), s) == Some(State([SeriesValue(cs, m)] + s.stack, s.rest))
  {
    SeriesIsClosed(cs, m, true);
    ConjunctionMeans(Series(cs, true), m, Blocks(m), s);
  }

  lemma {:induction false} SeriesJoins(cs: seq<Contact>, m: Memory, s: State<()>)
    requires s.stack != []
    ensures Run(Series(cs, false), m, Blocks(m), s)
         == Some(State([s.stack[0] && SeriesValue(cs, m)] + s.stack[1..], s.rest))
  {
    SeriesIsClosed(cs, m, false);
    JoinedContacts(Series(cs, false), m, Blocks(m), s);
  }

  predicate AllFilled(bs: seq<seq<Contact>>) { forall i :: 0 <= i < |bs| ==> bs[i] != [] }

  lemma {:induction false} OneGate(g: Gate, m: Memory, s: State<()>)
    ensures Run([g], m, Blocks(m), s) == Step(g, m, Blocks(m), s)
  {
    RunOne(g, m, Blocks(m), s);
  }

  lemma ContactIsSeries(b: seq<Contact>, m: Memory)
    requires |b| == 1
    ensures SeriesValue(b, m) <==> ContactValue(b[0], m)
  {
  }

  /** The first branch of a block pushes its value. */
  lemma {:induction false} FirstBranch(b: seq<Contact>, m: Memory, s: State<()>)
    requires b != []
    ensures Run(BranchCode(b, 0), m, Blocks(m), s) == Some(State([SeriesValue(b, m)] + s.stack, s.rest))
  {
    if |b| == 1 {
      ContactIsSeries(b, m);
      OneGate(GateOf(b[0], true, false), m, s);
    } else {
      assert Series(b, true) + [] == Series(b, true);
      SeriesPushes(b, m, s);
    }
  }

  /** What a block operation does to the two values a program leaves on top. */
  lemma {:induction false} JoinPushed(p: Program, op: Op, m: Memory, s: State<()>, t: State<()>)
    requires Run(p, m, Blocks(m), s) == Some(t) && (op == ORB || op == ANB)
    ensures Run(p + [Gate(op, [])], m, Blocks(m), s) == BlockStep(Gate(op, []), m, t)
  {
    RunJoins(p, [Gate(op, [])], m, s);
    OneGate(Gate(op, []), m, t);
  }

  /** Every further branch is joined in parallel. */
  lemma {:induction false} NextBranch(b: seq<Contact>, index: nat, m: Memory, s: State<()>)
    requires b != [] && index > 0 && s.stack != []
    ensures Run(BranchCode(b, index), m, Blocks(m), s)
         == Some(State([s.stack[0] || SeriesValue(b, m)] + s.stack[1..], s.rest))
  {
    if |b| == 1 {
      ContactIsSeries(b, m);
      OneGate(GateOf(b[0], false, true), m, s);
    } else {
      SeriesPushes(b, m, s);
      var t := State([SeriesValue(b, m)] + s.stack, s.rest);
      JoinPushed(Series(b, true), ORB, m, s, t);
      assert t.stack[1] == s.stack[0] && t.stack[2..] == s.stack[1..];
    }
  }

  lemma {:induction false} BranchesPush(bs: seq<seq<Contact>>, m: Memory, s: State<()>)
    requires bs != [] && AllFilled(bs)
    ensures Run(BranchesCode(bs), m, Blocks(m), s) == Some(State([AnyBranch(bs, m)] + s.stack, s.rest))
    decreases |bs|
  {
    var front, b := bs[..|bs| - 1], bs[|bs| - 1];
    AnyBranchSplits(bs, m);
    RunJoins(BranchesCode(front), BranchCode(b, |bs| - 1), m, s);
    if front == [] {
      FirstBranch(b, m, s);
    } else {
      BranchesPush(front, m, s);
      var t := State([AnyBranch(front, m)] + s.stack, s.rest);
      NextBranch(b, |bs| - 1, m, t);
      assert t.stack[1..] == s.stack;
    }
  }

  lemma AnyBranchSplits(bs: seq<seq<Contact>>, m: Memory)
    requires bs != []
    ensures AnyBranch(bs, m) <==> AnyBranch(bs[..|bs| - 1], m) || SeriesValue(bs[|bs| - 1], m)
  {
    var front := bs[..|bs| - 1];
    if AnyBranch(bs, m) {
      var i :| 0 <= i < |bs| && SeriesValue(bs[i], m);
      assert i < |front| ==> front[i] == bs[i];
    }
    if AnyBranch(front, m) {
      var i :| 0 <= i < |front| && SeriesValue(front[i], m);
      assert bs[i] == front[i];
    }
  }

  lemma OneBranch(bs: seq<seq<Contact>>, m: Memory)
    requires |bs| == 1
    ensures AnyBranch(bs, m) <==> SeriesValue(bs[0], m)
  {
  }

  /** A first element with a contact in it pushes its value. */
  lemma {:induction false} FirstElement(e: Element, m: Memory, s: State<()>)
    requires !IsEmpty(e)
    ensures Run(ElementCode(e, true), m, Blocks(m), s) == Some(State([ElementValue(e, m)] + s.stack, s.rest))
  {
    match e
    case Single(c) => OneGate(GateOf(c, true, false), m, s);
    case Block(branches) =>
      var bs := Filled(branches);
      if |bs| == 1 {
        OneBranch(bs, m);
        assert bs[0] in bs;
        SeriesPushes(bs[0], m, s);
      } else {
        assert forall i :: 0 <= i < |bs| ==> bs[i] in bs;
        BranchesPush(bs, m, s);
        assert BranchesCode(bs) + [] == BranchesCode(bs);
      }
  }

  /** The block of several branches as a later element: its value is pushed, then joined. */
  lemma {:induction false} LaterBranches(bs: seq<seq<Contact>>, m: Memory, s: State<()>)
    requires bs != [] && AllFilled(bs)
    ensures Run(BranchesCode(bs) + [Gate(ANB, [])], m, Blocks(m), s)
         == if s.stack == [] then None else Some(State([s.stack[0] && AnyBranch(bs, m)] + s.stack[1..], s.rest))
  {
    BranchesPush(bs, m, s);
    var t := State([AnyBranch(bs, m)] + s.stack, s.rest);
    JoinPushed(BranchesCode(bs), ANB, m, s, t);
    assert s.stack != [] ==> t.stack[1] == s.stack[0] && t.stack[2..] == s.stack[1..];
  }

  /**
  A later element joins its value, if there is something to join it to; one without contacts does nothing,
  and every other gets stuck on the empty stack.
  */
  lemma LaterElement(e: Element, m: Memory, s: State<()>)
    ensures Run(ElementCode(e, false), m, Blocks(m), s)
         == if IsEmpty(e) then Some(s)
            else if s.stack == [] then None
            else Some(State([s.stack[0] && ElementValue(e, m)] + s.stack[1..], s.rest))
  {
    match e
    case Single(c) => OneGate(GateOf(c, false, false), m, s);
    case Block(branches) =>
      var bs := Filled(branches);
      assert AllFilled(bs) by { assert forall i :: 0 <= i < |bs| ==> bs[i] in bs; }
      if |bs| == 1 {
        OneBranch(bs, m);
        LaterSeries(bs[0], m, s);
      } else if bs != [] {
        LaterBranches(bs, m, s);
      }
  }

  lemma {:induction false} LaterSeries(cs: seq<Contact>, m: Memory, s: State<()>)
    requires cs != []
    ensures Run(Series(cs, false), m, Blocks(m), s)
         == if s.stack == [] then None else Some(State([s.stack[0] && SeriesValue(cs, m)] + s.stack[1..], s.rest))
  {
    if s.stack == [] {
      StuckSeries(cs, m, s);
    } else {
      SeriesJoins(cs, m, s);
    }
  }

  lemma {:induction false} StuckSeries(cs: seq<Contact>, m: Memory, s: State<()>)
    requires cs != [] && s.stack == []
    ensures Run(Series(cs, false), m, Blocks(m), s) == None
  {
    assert Joins(Series(cs, false)[0]);
  }

  lemma RowValueSplits(es: seq<Element>, m: Memory)
    requires es != []
    ensures RowValue(es, m) <==> ElementValue(es[0], m) && RowValue(es[1..], m)
  {
    assert forall i :: 1 <= i < |es| ==> es[i] == es[1..][i - 1];
    assert forall i :: 0 <= i < |es| - 1 ==> es[1..][i] == es[i + 1];
  }

  lemma {:induction false} LaterElements(es: seq<Element>, m: Memory, s: State<()>)
    requires s.stack != []
    ensures Run(Lowered(es, false), m, Blocks(m), s)
         == Some(State([s.stack[0] && RowValue(es, m)] + s.stack[1..], s.rest))
    decreases |es|
  {
    if es == [] {
      assert s.stack == [s.stack[0]] + s.stack[1..];
    } else {
      RowValueSplits(es, m);
      LaterElement(es[0], m, s);
      RunJoins(ElementCode(es[0], false), Lowered(es[1..], false), m, s);
      var t := State([s.stack[0] && ElementValue(es[0], m)] + s.stack[1..], s.rest);
      assert IsEmpty(es[0]) ==> s.stack == [s.stack[0]] + s.stack[1..];
      LaterElements(es[1..], m, t);
      assert t.stack[1..] == s.stack[1..];
    }
  }

  predicate AllEmpty(es: seq<Element>) { forall i :: 0 <= i < |es| ==> IsEmpty(es[i]) }

  lemma AllEmptySplits(es: seq<Element>)
    requires es != []
    ensures AllEmpty(es) <==> IsEmpty(es[0]) && AllEmpty(es[1..])
  {
    assert forall i :: 1 <= i < |es| ==> es[i] == es[1..][i - 1];
    assert forall i :: 0 <= i < |es| - 1 ==> es[1..][i] == es[i + 1];
  }

  lemma {:induction false} StuckElements(es: seq<Element>, m: Memory, s: State<()>)
    requires s.stack == []
    ensures Run(Lowered(es, false), m, Blocks(m), s) == if AllEmpty(es) then Some(s) else None
    decreases |es|
  {
    if es != [] {
      AllEmptySplits(es);
      LaterElement(es[0], m, s);
      RunJoins(ElementCode(es[0], false), Lowered(es[1..], false), m, s);
      if IsEmpty(es[0]) {
        StuckElements(es[1..], m, s);
      }
    }
  }

  /** An empty first element emits nothing, and what follows is lowered as later elements all the same. */
  lemma {:induction false} BehindEmptyFirst(es: seq<Element>)
    requires es != [] && IsEmpty(es[0])
    ensures Lowered(es, true) == Lowered(es[1..], false)
  {
    assert ElementCode(es[0], true) == [];
  }

  lemma {:induction false} FirstThenLater(es: seq<Element>, m: Memory, s: State<()>)
    requires es != [] && !IsEmpty(es[0])
    ensures Run(Lowered(es, true), m, Blocks(m), s) == Some(State([RowValue(es, m)] + s.stack, s.rest))
  {
    RowValueSplits(es, m);
    FirstElement(es[0], m, s);
    RunJoins(ElementCode(es[0], true), Lowered(es[1..], false), m, s);
    var t := State([ElementValue(es[0], m)] + s.stack, s.rest);
    LaterElements(es[1..], m, t);
    assert t.stack[1..] == s.stack;
  }

  /**
  The code of a row leaves the value of the row on the empty stack, if and only if its first element has a
  contact. Behind an empty first block every element still joins: the code gets stuck, or there is none.
  */
  lemma {:induction false} LoweringKeepsMeaning(es: seq<Element>, m: Memory)
    ensures Execute(Lowered(es, true), m, [])
         == if es != [] && !IsEmpty(es[0]) then Some(State([RowValue(es, m)], ()))
            else if AllEmpty(es) then Some(State([], ()))
            else None
  {
    var s: State<()> := State([], ());
    if es != [] {
      AllEmptySplits(es);
      if IsEmpty(es[0]) {
        BehindEmptyFirst(es);
        StuckElements(es[1..], m, s);
      } else {
        FirstThenLater(es, m, s);
        assert [RowValue(es, m)] + [] == [RowValue(es, m)];
      }
    }
  }

  // ---------- a row that passes the gate check ----------

  predicate OnlyJoins(p: Program) { forall i :: 0 <= i < |p| ==> Joins(p[i]) }

  predicate HasBlockOperation(p: Program) { exists i :: 0 <= i < |p| && !Loads(p[i]) && !Joins(p[i]) }

  /** A block of several branches ends its last branch with an operation of its own. */
  lemma {:induction false} BranchesAreBlocks(bs: seq<seq<Contact>>, tail: Program)
    requires |bs| > 1
    ensures HasBlockOperation(BranchesCode(bs) + tail)
  {
    var b := bs[|bs| - 1];
    var front, last := BranchesCode(bs[..|bs| - 1]), BranchCode(b, |bs| - 1);
    assert !Loads(last[|last| - 1]) && !Joins(last[|last| - 1]);
    assert (BranchesCode(bs) + tail)[|front + last| - 1] == last[|last| - 1];
  }

  predicate JoinsOrBlocks(p: Program) { OnlyJoins(p) || HasBlockOperation(p) }

  lemma JoinsOrBlocksTogether(a: Program, b: Program)
    requires JoinsOrBlocks(a) && JoinsOrBlocks(b)
    ensures JoinsOrBlocks(a + b)
  {
    if HasBlockOperation(a) {
      var i :| 0 <= i < |a| && !Loads(a[i]) && !Joins(a[i]);
      assert (a + b)[i] == a[i];
    } else if HasBlockOperation(b) {
      var i :| 0 <= i < |b| && !Loads(b[i]) && !Joins(b[i]);
      assert (a + b)[|a| + i] == b[i];
    }
  }

  lemma LaterElementCode(e: Element)
    ensures JoinsOrBlocks(ElementCode(e, false))
  {
    if e.Block? && |Filled(e.branches)| > 1 {
      BranchesAreBlocks(Filled(e.branches), [Gate(ANB, [])]);
    }
  }

  lemma {:induction false} LaterCode(es: seq<Element>)
    ensures JoinsOrBlocks(Lowered(es, false))
    decreases |es|
  {
    if es != [] {
      LaterCode(es[1..]);
      LaterElementCode(es[0]);
      JoinsOrBlocksTogether(ElementCode(es[0], false), Lowered(es[1..], false));
    }
  }

  lemma NotReducedToLoad(p: Program, assumed: map<string, Assumption>, canonical: string -> string, g: Gate)
    requires JoinsOrBlocks(p)
    ensures Effective(p, assumed, canonical) != [g] || !Loads(g)
  {
    if Effective(p, assumed, canonical) == [g] && Loads(g) {
      assert !IsConjunction(p);
      WhatWasDropped(p, x => Redundant(x, assumed, canonical), g);
    }
  }

  /** No row whose first element is without contacts is reduced to a load. */
  lemma {:induction false} ReducedRowHasFirst(es: seq<Element>, assumed: map<string, Assumption>,
      canonical: string -> string, g: Gate)
    requires Effective(Lowered(es, true), assumed, canonical) == [g] && Loads(g)
    ensures es != [] && !IsEmpty(es[0])
  {
    if es != [] && IsEmpty(es[0]) {
      BehindEmptyFirst(es);
      LaterCode(es[1..]);
      NotReducedToLoad(Lowered(es, true), assumed, canonical, g);
    }
  }

  /**
  A single row that passes the gate check with a load has the value of the allowed contact, in every memory
  with the assumed bits: what is dropped and what is skipped cost nothing.
  */
  lemma PassingRow(es: seq<Element>, allowed: seq<Gate>, m: Memory, assumed: map<string, Assumption>,
                   canonical: string -> string, identity: string -> string)
    returns (k: nat)
    requires SpecifiedDirectGate(Lowered(es, true), allowed, assumed, canonical, identity)
    requires Agrees(m, assumed, canonical)
    requires forall a, b :: Identities(a, identity) == Identities(b, identity) ==> m(a) == m(b)
    ensures k < |allowed|
    ensures SameGate(Effective(Lowered(es, true), assumed, canonical)[0], allowed[k], identity)
    ensures Loads(allowed[k]) ==> (RowValue(es, m) <==> Closed(allowed[k], m))
  {
    var p := Lowered(es, true);
    var s: State<()> := State([], ());
    BlocksRespect(m, identity);
    k := PassingGateIsEquivalent(p, allowed, m, Blocks(m), s, assumed, canonical, identity);
    if Loads(allowed[k]) {
      ReducedRowHasFirst(es, assumed, canonical, Effective(p, assumed, canonical)[0]);
      RowMeansLoad(es, allowed[k], m);
    }
  }

  lemma {:induction false} RowMeansLoad(es: seq<Element>, g: Gate, m: Memory)
    requires es != [] && !IsEmpty(es[0]) && Loads(g)
    requires Execute(Lowered(es, true), m, []).Some? ==> Execute(Lowered(es, true), m, []) == Execute([g], m, [])
    ensures RowValue(es, m) <==> Closed(g, m)
  {
    LoweringKeepsMeaning(es, m);
    OneGate(g, m, State([], ()));
    assert [Closed(g, m)] + [] == [Closed(g, m)];
  }

  lemma BlocksRespect(m: Memory, identity: string -> string)
    requires forall a, b :: Identities(a, identity) == Identities(b, identity) ==> m(a) == m(b)
    ensures Respects(m, Blocks(m), identity)
  {
    forall g: Gate, h: Gate, s: State<()> | SameGate(g, h, identity)
      ensures Blocks(m)(g, s) == Blocks(m)(h, s)
    {
      assert m(g.args) == m(h.args);
    }
  }

  /**
  Two rows pass where one would not: the check lists the code of all rows one after the other. The first
  row's empty block leaves a join without a load before it; the assumption drops the join, and the load of
  the second row is the one gate left. The program itself gets stuck in every memory.
  */
  lemma StuckProgramPasses(m: Memory)
    ensures var p := Lowered([Block([]), Single(Contact(false, "X1"))], true)
        + Lowered([Single(Contact(false, "X0"))], true);
            && SpecifiedDirectGate(p, [Gate(LD, ["X0"])], map["X1" := Bit(true)], a => a, a => a)
            && Execute(p, m, []) == None
  {
    var x0, x1 := "X0", "X1";
    var first, second := [Block([]), Single(Contact(false, x1))], [Single(Contact(false, x0))];
    StuckRow(x1);
    LoadedRow(x0);
    var code := Lowered(second, true);
    var p := Lowered(first, true) + code;
    assert p == [Gate(AND, [x1]), Gate(LD, [x0])];
    assert p[1..] == [Gate(LD, [x0])];
    assert p[1..][1..] == [];
    var drop := g => Redundant(g, map[x1 := Bit(true)], a => a);
    assert Without(p, drop) == Without(p[1..], drop) == [Gate(LD, [x0])];
    assert SameGate(Without(p, drop)[0], [Gate(LD, [x0])][0], a => a);
  }

  lemma LoadedRow(x: string)
    requires x != ""
    ensures Lowered([Single(Contact(false, x))], true) == [Gate(LD, [x])]
  {
    var es := [Single(Contact(false, x))];
    assert es[1..] == [];
    assert Operands(es[0].contact) == [x];
    assert ElementCode(es[0], true) == [Gate(LD, [x])];
  }

  lemma StuckRow(x: string)
    requires x != ""
    ensures Lowered([Block([]), Single(Contact(false, x))], true) == [Gate(AND, [x])]
  {
    var es := [Block([]), Single(Contact(false, x))];
    assert es[1..] == [Single(Contact(false, x))];
    assert es[1..][1..] == [];
    assert Lowered(es, true) == Lowered(es[1..], false);
  }
}
