/**
The gate check of the synthetic cases: contacts known to be closed are dropped from a contact
program before what remains is compared with the allowed gate. The meaning that this must keep is
the value the program leaves on the stack of a stack machine.
*/
module GateOracle {

  import opened Basics

  datatype Op = LD | LDI | AND | ANI | OR | ORI | ORB | ANB | Other(name: string)

  datatype Gate = Gate(op: Op, args: seq<string>)

  /** What the case assumes about an operand; only bits count as known contacts. */
  datatype Assumption = Bit(value: bool) | NotABit

  /** `rest` is whatever state the block and branch operations keep beside the stack. */
  datatype State<R> = State(stack: seq<bool>, rest: R)

  type Program = seq<Gate>

  type Memory = seq<string> -> bool

  // ---------- meaning ----------

  predicate Loads(g: Gate) { g.op in {LD, LDI} }

  predicate Joins(g: Gate) { g.op in {AND, ANI} }

  /** The value of a contact: normally open ones read the operand, normally closed ones its negation. */
  predicate Closed(g: Gate, m: Memory) { if g.op in {LD, AND} then m(g.args) else !m(g.args) }

  function Step<R>(g: Gate, m: Memory, other: (Gate, State<R>) -> Option<State<R>>, s: State<R>): Option<State<R>> {
    if Loads(g) then Some(s.(stack := [Closed(g, m)] + s.stack))
    else if Joins(g) then
      if s.stack == [] then None else Some(s.(stack := [s.stack[0] && Closed(g, m)] + s.stack[1..]))
    else other(g, s)
  }

  /** None where a contact finds nothing on the stack to join. */
  function Run<R>(p: Program, m: Memory, other: (Gate, State<R>) -> Option<State<R>>, s: State<R>): Option<State<R>> {
    if p == [] then Some(s)
    else match Step(p[0], m, other, s)
      case None => None
      case Some(next) => Run(p[1..], m, other, next)
  }

  /** The memory has the assumed bits. */
  ghost predicate Agrees(m: Memory, assumed: map<string, Assumption>, canonical: string -> string) {
    forall a: string :: canonical(a) in assumed && assumed[canonical(a)].Bit? ==> m([a]) == assumed[canonical(a)].value
  }

  // ---------- the check ----------

  predicate KnownBit(g: Gate, assumed: map<string, Assumption>, canonical: string -> string) {
    |g.args| == 1 && canonical(g.args[0]) in assumed && assumed[canonical(g.args[0])].Bit?
  }

  predicate Redundant(g: Gate, assumed: map<string, Assumption>, canonical: string -> string) {
    Joins(g) && KnownBit(g, assumed, canonical) && ((g.op == AND) == assumed[canonical(g.args[0])].value)
  }

  predicate KnownTrue(g: Gate, assumed: map<string, Assumption>, canonical: string -> string) {
    KnownBit(g, assumed, canonical) && ((g.op in {LD, AND}) == assumed[canonical(g.args[0])].value)
  }

  function Without(p: Program, drop: Gate -> bool): Program {
    if p == [] then [] else if drop(p[0]) then Without(p[1..], drop) else [p[0]] + Without(p[1..], drop)
  }

  /** A conjunction that lost its first contact starts with a load again. */
  function Headed(p: Program): Program {
    if p != [] && Joins(p[0]) then [p[0].(op := if p[0].op == AND then LD else LDI)] + p[1..] else p
  }

  predicate IsConjunction(p: Program) {
    p != [] && Loads(p[0]) && forall i :: 1 <= i < |p| ==> Joins(p[i])
  }

  function Effective(p: Program, assumed: map<string, Assumption>, canonical: string -> string): Program {
    if IsConjunction(p) then Headed(Without(p, g => KnownTrue(g, assumed, canonical)))
    else Without(p, g => Redundant(g, assumed, canonical))
  }

  function Identities(args: seq<string>, identity: string -> string): seq<string> {
    seq(|args|, i requires 0 <= i < |args| => identity(args[i]))
  }

  predicate SameGate(a: Gate, b: Gate, identity: string -> string) {
    a.op == b.op && Identities(a.args, identity) == Identities(b.args, identity)
  }

  /** The verdict: one contact is left, and it is one of the allowed ones. */
  predicate SpecifiedDirectGate(
      p: Program, allowed: seq<Gate>, assumed: map<string, Assumption>, canonical: string -> string,
        identity: string -> string)
  {
    var effective := Effective(p, assumed, canonical);
    |effective| == 1 && exists k :: 0 <= k < |allowed| && SameGate(effective[0], allowed[k], identity)
  }

  // ---------- the check keeps the meaning ----------

  /**
  Dropping contacts known to be closed from any program, with any block operations in between, keeps
  every result. A program that gets stuck has none to keep; see `LadderLowering.StuckProgramPasses`.
  */
  lemma {:induction false} DroppingKeepsMeaning<R>(
    p: Program, m: Memory, other: (Gate, State<R>) -> Option<State<R>>, s: State<R>,
    assumed: map<string, Assumption>, canonical: string -> string)
    requires Agrees(m, assumed, canonical) && Run(p, m, other, s).Some?
    ensures Run(Without(p, g => Redundant(g, assumed, canonical)), m, other, s) == Run(p, m, other, s)
    decreases |p|
  {
    if p != [] {
      var g := p[0];
      var next := Step(g, m, other, s).value;
      DroppingKeepsMeaning(p[1..], m, other, next, assumed, canonical);
      if Redundant(g, assumed, canonical) {
        assert g.args == [g.args[0]];
        assert Closed(g, m);
        assert next.stack == s.stack;
      } else {
        var kept := Without(p[1..], x => Redundant(x, assumed, canonical));
        assert Without(p, x => Redundant(x, assumed, canonical)) == [g] + kept;
        assert ([g] + kept)[1..] == kept;
      }
    }
  }

  predicate AllClosed(p: Program, m: Memory) {
    forall i :: 0 <= i < |p| ==> Closed(p[i], m)
  }

  lemma AllClosedSplits(p: Program, m: Memory)
    requires p != []
    ensures AllClosed(p, m) <==> Closed(p[0], m) && AllClosed(p[1..], m)
  {
    if Closed(p[0], m) && AllClosed(p[1..], m) {
      forall i | 0 <= i < |p|
        ensures Closed(p[i], m)
      {
        assert i > 0 ==> p[i] == p[1..][i - 1];
      }
    }
    if AllClosed(p, m) {
      forall i | 0 <= i < |p[1..]|
        ensures Closed(p[1..][i], m)
      {
        assert p[1..][i] == p[i + 1];
      }
    }
  }

  lemma {:induction false} JoinedContacts<R>(p: Program, m: Memory, other: (Gate, State<R>) -> Option<State<R>>,
      s: State<R>)
    requires s.stack != [] && forall i :: 0 <= i < |p| ==> Joins(p[i])
    ensures Run(p, m, other, s) == Some(s.(stack := [s.stack[0] && AllClosed(p, m)] + s.stack[1..]))
    decreases |p|
  {
    if p == [] {
      assert s.stack == [s.stack[0]] + s.stack[1..];
    } else {
      var next := Step(p[0], m, other, s).value;
      JoinedContacts(p[1..], m, other, next);
      AllClosedSplits(p, m);
      assert next.stack[1..] == s.stack[1..];
    }
  }

  /** A conjunction pushes whether all its contacts are closed. */
  lemma {:induction false} ConjunctionMeans<R>(p: Program, m: Memory, other: (Gate, State<R>) -> Option<State<R>>,
      s: State<R>)
    requires IsConjunction(p)
    ensures Run(p, m, other, s) == Some(s.(stack := [AllClosed(p, m)] + s.stack))
  {
    var next := Step(p[0], m, other, s).value;
    JoinedContacts(p[1..], m, other, next);
    AllClosedSplits(p, m);
    assert next.stack[1..] == s.stack;
  }

  predicate NoneKnown(p: Program, assumed: map<string, Assumption>, canonical: string -> string) {
    forall i :: 0 <= i < |p| ==> !KnownTrue(p[i], assumed, canonical)
  }

  lemma {:induction false} WithoutKnown(p: Program, m: Memory, assumed: map<string, Assumption>,
      canonical: string -> string)
    requires Agrees(m, assumed, canonical)
    ensures AllClosed(Without(p, g => KnownTrue(g, assumed, canonical)), m) <==> AllClosed(p, m)
    ensures NoneKnown(Without(p, g => KnownTrue(g, assumed, canonical)), assumed, canonical)
    decreases |p|
  {
    if p != [] {
      var g := p[0];
      var kept := Without(p[1..], x => KnownTrue(x, assumed, canonical));
      WithoutKnown(p[1..], m, assumed, canonical);
      AllClosedSplits(p, m);
      if KnownTrue(g, assumed, canonical) {
        assert g.args == [g.args[0]];
        assert Without(p, x => KnownTrue(x, assumed, canonical)) == kept;
      } else {
        var all := [g] + kept;
        assert Without(p, x => KnownTrue(x, assumed, canonical)) == all;
        AllClosedSplits(all, m);
        assert all[1..] == kept;
      }
    }
  }

  lemma {:induction false} WithoutJoins(p: Program, drop: Gate -> bool)
    requires forall i :: 0 <= i < |p| ==> Joins(p[i])
    ensures forall i :: 0 <= i < |Without(p, drop)| ==> Joins(Without(p, drop)[i])
    decreases |p|
  {
    if p != [] {
      WithoutJoins(p[1..], drop);
    }
  }

  /** What is left of a conjunction is a conjunction with the same value, or nothing. */
  lemma LeftOfConjunction(p: Program, m: Memory, assumed: map<string, Assumption>, canonical: string -> string)
    requires IsConjunction(p) && Agrees(m, assumed, canonical)
    ensures var e := Effective(p, assumed, canonical);
            (e == [] || IsConjunction(e)) && (AllClosed(e, m) <==> AllClosed(p, m))
  {
    var drop := g => KnownTrue(g, assumed, canonical);
    var kept := Without(p, drop);
    WithoutKnown(p, m, assumed, canonical);
    WithoutJoins(p[1..], drop);
    assert kept == if drop(p[0]) then Without(p[1..], drop) else [p[0]] + Without(p[1..], drop);
    if kept != [] {
      AllClosedSplits(kept, m);
      AllClosedSplits(Headed(kept), m);
      assert Headed(kept)[1..] == kept[1..];
    }
  }

  /**
  A program that runs keeps its result when it is simplified; the one exception is a conjunction of
  nothing but known contacts, which leaves no gate and always pushes true.
  */
  lemma {:induction false} EffectiveMeans<R>(p: Program, m: Memory, other: (Gate, State<R>) -> Option<State<R>>,
      s: State<R>, assumed: map<string, Assumption>, canonical: string -> string)
    requires Agrees(m, assumed, canonical) && Run(p, m, other, s).Some?
    ensures var e := Effective(p, assumed, canonical);
            if IsConjunction(p) && e == [] then Run(p, m, other, s) == Some(s.(stack := [true] + s.stack))
            else Run(e, m, other, s) == Run(p, m, other, s)
  {
    if IsConjunction(p) {
      LeftOfConjunction(p, m, assumed, canonical);
      ConjunctionMeans(p, m, other, s);
      if Effective(p, assumed, canonical) != [] {
        ConjunctionMeans(Effective(p, assumed, canonical), m, other, s);
      }
    } else {
      DroppingKeepsMeaning(p, m, other, s, assumed, canonical);
    }
  }

  /** Operands with one identity are one operand, for the memory and for every other operation. */
  ghost predicate Respects<R(!new)>(m: Memory, other: (Gate, State<R>) -> Option<State<R>>,
      identity: string -> string) {
    && (forall a, b :: Identities(a, identity) == Identities(b, identity) ==> m(a) == m(b))
    && forall g, h, s :: SameGate(g, h, identity) ==> other(g, s) == other(h, s)
  }

  /** If dropping leaves one gate, every other gate was dropped; if it leaves none, all were. */
  lemma {:induction false} WhatWasDropped(p: Program, drop: Gate -> bool, g: Gate)
    requires Without(p, drop) == [] || Without(p, drop) == [g]
    ensures forall i :: 0 <= i < |p| ==> drop(p[i]) || (Without(p, drop) == [g] && p[i] == g)
    ensures Without(p, drop) == [g] ==> g in p
    ensures Without(p, drop) == [g] && !drop(p[0]) ==> p[0] == g && Without(p[1..], drop) == []
    decreases |p|
  {
    if p != [] {
      if !drop(p[0]) {
        assert ([p[0]] + Without(p[1..], drop))[0] == p[0];
        assert |Without(p[1..], drop)| == 0;
      }
      WhatWasDropped(p[1..], drop, g);
      assert forall i :: 1 <= i < |p| ==> p[i] == p[1..][i - 1];
    }
  }

  /** Loads and joins get stuck only where a join comes first and finds the stack empty. */
  lemma {:induction false} LoadsAndJoinsRun<R>(p: Program, m: Memory, other: (Gate, State<R>) -> Option<State<R>>,
      s: State<R>)
    requires forall i :: 0 <= i < |p| ==> Loads(p[i]) || Joins(p[i])
    requires s.stack != [] || (p != [] ==> Loads(p[0]))
    ensures Run(p, m, other, s).Some?
    decreases |p|
  {
    if p != [] {
      LoadsAndJoinsRun(p[1..], m, other, Step(p[0], m, other, s).value);
    }
  }

  /** Whether a program that passes with a load runs shows in its first operation. */
  lemma {:induction false} PassingLoadRuns<R>(p: Program, m: Memory, other: (Gate, State<R>) -> Option<State<R>>,
      s: State<R>, assumed: map<string, Assumption>, canonical: string -> string, g: Gate)
    requires Effective(p, assumed, canonical) == [g] && Loads(g)
    ensures p != []
    ensures Run(p, m, other, s).Some? <==> s.stack != [] || Loads(p[0])
  {
    if IsConjunction(p) {
      ConjunctionMeans(p, m, other, s);
    } else {
      var drop := x => Redundant(x, assumed, canonical);
      WhatWasDropped(p, drop, g);
      if s.stack != [] || Loads(p[0]) {
        LoadsAndJoinsRun(p, m, other, s);
      }
    }
  }

  /**
  A passing verdict: the program means what one of the allowed gates means. Where that gate is a load, it
  does if and only if there is something on the stack or the program itself begins with a load; begun on the
  empty stack with a join, it gets stuck and passes all the same.
  */
  lemma PassingGateIsEquivalent<R(!new)>(
    p: Program, allowed: seq<Gate>, m: Memory, other: (Gate, State<R>) -> Option<State<R>>, s: State<R>,
    assumed: map<string, Assumption>, canonical: string -> string, identity: string -> string)
    returns (k: nat)
    requires SpecifiedDirectGate(p, allowed, assumed, canonical, identity)
    requires Agrees(m, assumed, canonical) && Respects(m, other, identity)
    ensures k < |allowed| && p != [] && SameGate(Effective(p, assumed, canonical)[0], allowed[k], identity)
    ensures Run(p, m, other, s).Some? ==> Run(p, m, other, s) == Run([allowed[k]], m, other, s)
    ensures Loads(allowed[k]) ==>
              (Run(p, m, other, s) == Run([allowed[k]], m, other, s) <==> s.stack != [] || Loads(p[0]))
  {
    var e := Effective(p, assumed, canonical);
    k :| 0 <= k < |allowed| && SameGate(e[0], allowed[k], identity);
    assert m(e[0].args) == m(allowed[k].args);
    assert Step(e[0], m, other, s) == Step(allowed[k], m, other, s);
    RunOne(e[0], m, other, s);
    RunOne(allowed[k], m, other, s);
    assert e == [e[0]];
    if Run(p, m, other, s).Some? {
      EffectiveMeans(p, m, other, s, assumed, canonical);
    }
    if Loads(allowed[k]) {
      PassingLoadRuns(p, m, other, s, assumed, canonical, e[0]);
    }
  }

  lemma {:induction false} RunOne<R>(g: Gate, m: Memory, other: (Gate, State<R>) -> Option<State<R>>, s: State<R>)
    ensures Run([g], m, other, s) == Step(g, m, other, s)
  {
    assert [g][1..] == [];
  }

  /**
  Nothing that should go stays: if a gate is left of a conjunction, some memory with the assumed bits
  makes the conjunction false. So an empty result and "always true" are the same thing.
  */
  lemma NothingMoreToDrop(p: Program, assumed: map<string, Assumption>, canonical: string -> string) returns (m: Memory)
    requires IsConjunction(p)
    ensures Agrees(m, assumed, canonical)
    ensures Effective(p, assumed, canonical) != [] <==> !AllClosed(p, m)
  {
    var kept := Without(p, g => KnownTrue(g, assumed, canonical));
    var open := kept != [] && kept[0].op !in {LD, AND};
    m := args => if |args| == 1 && canonical(args[0]) in assumed && assumed[canonical(args[0])].Bit?
      then assumed[canonical(args[0])].value else open;
    WithoutKnown(p, m, assumed, canonical);
    if kept != [] {
      assert !KnownTrue(kept[0], assumed, canonical);
      assert !Closed(kept[0], m);
    }
  }

  // ---------- the verdict, told gate by gate ----------

  /** One operand, and the case fixes it as a bit of this value. */
  predicate Fixed(g: Gate, assumed: map<string, Assumption>, canonical: string -> string, value: bool) {
    |g.args| == 1 && canonical(g.args[0]) in assumed && assumed[canonical(g.args[0])] == Bit(value)
  }

  /** The case closes this contact. */
  predicate ClosedByCase(g: Gate, assumed: map<string, Assumption>, canonical: string -> string) {
    if g.op == LD || g.op == AND then Fixed(g, assumed, canonical, true) else Fixed(g, assumed, canonical, false)
  }

  /** A load and nothing but joins behind it. */
  predicate OneSeries(p: Program) {
    p != [] && (p[0].op == LD || p[0].op == LDI) && forall i :: 0 < i < |p| ==> p[i].op == AND || p[i].op == ANI
  }

  /**
  What may be left out: in one series any contact that the case closes, elsewhere only joined ones.
  */
  predicate LeftOut(p: Program, i: nat, assumed: map<string, Assumption>, canonical: string -> string)
    requires i < |p|
  {
    ClosedByCase(p[i], assumed, canonical) && (OneSeries(p) || p[i].op == AND || p[i].op == ANI)
  }

  /** What a contact of a series is compared as: a load. */
  function AsLoad(op: Op): Op { if op == AND then LD else if op == ANI then LDI else op }

  /** Gate `i` is the only one that stays, and one of the allowed gates has its operation and its operands. */
  predicate Stays(p: Program, i: nat, allowed: seq<Gate>, assumed: map<string, Assumption>, canonical: string -> string,
    identity: string -> string)
    requires i < |p|
  {
    && !LeftOut(p, i, assumed, canonical)
    && (forall j: nat :: j < |p| && j != i ==> LeftOut(p, j, assumed, canonical))
    && exists k :: 0 <= k < |allowed| && allowed[k].op == (if OneSeries(p) then AsLoad(p[i].op) else p[i].op)
                   && SameOperands(p[i].args, allowed[k].args, identity)
  }

  predicate SameOperands(a: seq<string>, b: seq<string>, identity: string -> string) {
    |a| == |b| && forall n :: 0 <= n < |a| ==> identity(a[n]) == identity(b[n])
  }

  lemma OperandsAreIdentities(a: seq<string>, b: seq<string>, identity: string -> string)
    ensures SameOperands(a, b, identity) <==> Identities(a, identity) == Identities(b, identity)
  {
    var x, y := Identities(a, identity), Identities(b, identity);
    if x == y {
      assert |x| == |y|;
      assert forall n :: 0 <= n < |a| ==> x[n] == identity(a[n]) && y[n] == identity(b[n]);
    }
  }

  predicate AllDropped(p: Program, drop: Gate -> bool) { forall i :: 0 <= i < |p| ==> drop(p[i]) }

  predicate OnlyKept(p: Program, drop: Gate -> bool, i: nat) {
    i < |p| && !drop(p[i]) && forall j :: 0 <= j < |p| && j != i ==> drop(p[j])
  }

  lemma {:induction false} NothingLeft(p: Program, drop: Gate -> bool)
    ensures Without(p, drop) == [] <==> AllDropped(p, drop)
    decreases |p|
  {
    if p != [] {
      NothingLeft(p[1..], drop);
      assert forall i :: 1 <= i < |p| ==> p[i] == p[1..][i - 1];
      assert forall i :: 0 <= i < |p[1..]| ==> p[1..][i] == p[i + 1];
    }
  }

  lemma {:induction false} OnlyOneLeft(p: Program, drop: Gate -> bool, i: nat)
    requires OnlyKept(p, drop, i)
    ensures Without(p, drop) == [p[i]]
    decreases |p|
  {
    var rest := p[1..];
    assert forall j :: 0 <= j < |rest| ==> rest[j] == p[j + 1];
    if i == 0 {
      assert AllDropped(rest, drop);
      NothingLeft(rest, drop);
    } else {
      OnlyOneLeft(rest, drop, i - 1);
    }
  }

  lemma {:induction false} WhichIsLeft(p: Program, drop: Gate -> bool) returns (i: nat)
    requires |Without(p, drop)| == 1
    ensures OnlyKept(p, drop, i)
    decreases |p|
  {
    var rest := p[1..];
    assert forall j :: 1 <= j < |p| ==> p[j] == rest[j - 1];
    if drop(p[0]) {
      i := WhichIsLeft(rest, drop);
      i := i + 1;
    } else {
      i := 0;
      assert Without(rest, drop) == [];
      NothingLeft(rest, drop);
    }
  }

  /** Which gates are dropped, for either kind of program. */
  function Dropping(p: Program, assumed: map<string, Assumption>, canonical: string -> string): Gate -> bool {
    if IsConjunction(p) then g => KnownTrue(g, assumed, canonical) else g => Redundant(g, assumed, canonical)
  }

  lemma DroppedIsLeftOut(p: Program, i: nat, assumed: map<string, Assumption>, canonical: string -> string)
    requires i < |p|
    ensures Dropping(p, assumed, canonical)(p[i]) <==> LeftOut(p, i, assumed, canonical)
  {
    SeriesIsConjunction(p);
  }

  lemma SeriesIsConjunction(p: Program)
    ensures IsConjunction(p) <==> OneSeries(p)
  {
    if OneSeries(p) {
      forall i | 1 <= i < |p|
        ensures Joins(p[i])
      {
      }
    }
    if IsConjunction(p) {
      forall i | 0 < i < |p|
        ensures p[i].op == AND || p[i].op == ANI
      {
        assert Joins(p[i]);
      }
    }
  }

  /** The gate that stays, as it is compared. */
  lemma StaysAs(p: Program, i: nat, assumed: map<string, Assumption>, canonical: string -> string)
    requires OnlyKept(p, Dropping(p, assumed, canonical), i)
    ensures Effective(p, assumed, canonical)
            == [Gate(if OneSeries(p) then AsLoad(p[i].op) else p[i].op, p[i].args)]
  {
    OnlyOneLeft(p, Dropping(p, assumed, canonical), i);
    SeriesIsConjunction(p);
    assert [p[i]][1..] == [];
  }

  lemma AllowedAs(g: Gate, allowed: seq<Gate>, identity: string -> string)
    ensures (exists k :: 0 <= k < |allowed| && SameGate(g, allowed[k], identity))
            <==> exists k :: 0 <= k < |allowed| && allowed[k].op == g.op
                             && SameOperands(g.args, allowed[k].args, identity)
  {
    forall k | 0 <= k < |allowed|
      ensures SameGate(g, allowed[k], identity)
              <==> allowed[k].op == g.op && SameOperands(g.args, allowed[k].args, identity)
    {
      OperandsAreIdentities(g.args, allowed[k].args, identity);
    }
  }

  /** The verdict looks at every gate of the program: one stays, and it is allowed. */
  lemma VerdictMeans(p: Program, allowed: seq<Gate>, assumed: map<string, Assumption>, canonical: string -> string,
                     identity: string -> string)
    ensures SpecifiedDirectGate(p, allowed, assumed, canonical, identity)
            <==> exists i: nat :: i < |p| && Stays(p, i, allowed, assumed, canonical, identity)
  {
    forall i: nat | i < |p|
      ensures Dropping(p, assumed, canonical)(p[i]) <==> LeftOut(p, i, assumed, canonical)
    {
      DroppedIsLeftOut(p, i, assumed, canonical);
    }
    if SpecifiedDirectGate(p, allowed, assumed, canonical, identity) {
      assert |Effective(p, assumed, canonical)| == |Without(p, Dropping(p, assumed, canonical))|;
      var i := WhichIsLeft(p, Dropping(p, assumed, canonical));
      StaysAs(p, i, assumed, canonical);
      AllowedAs(Effective(p, assumed, canonical)[0], allowed, identity);
      assert Stays(p, i, allowed, assumed, canonical, identity);
    }
    if i: nat :| i < |p| && Stays(p, i, allowed, assumed, canonical, identity) {
      StaysAs(p, i, assumed, canonical);
      AllowedAs(Effective(p, assumed, canonical)[0], allowed, identity);
    }
  }
}
