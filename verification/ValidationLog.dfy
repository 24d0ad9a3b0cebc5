/**
What a validation run may write down: at most 4096 diagnostic rows and 65536 events, each with at most
8 MiB of serialized characters, over the whole run. Whatever exceeds a limit ends the run.
*/
module ValidationLog {

  import opened Basics

  const MAX_EVENTS := 65536
  const MAX_REPORTS := 4096
  const MAX_CHARACTERS := 8 * 1024 * 1024

  datatype Usage = Usage(rows: nat, rowCharacters: nat, events: nat, eventCharacters: nat)

  const NOTHING := Usage(0, 0, 0, 0)

  function Plus(a: Usage, b: Usage): Usage {
    Usage(a.rows + b.rows, a.rowCharacters + b.rowCharacters,
          a.events + b.events, a.eventCharacters + b.eventCharacters)
  }

  predicate Within(u: Usage) {
    && u.rows <= MAX_REPORTS && u.rowCharacters <= MAX_CHARACTERS
    && u.events <= MAX_EVENTS && u.eventCharacters <= MAX_CHARACTERS
  }

  function Total(costs: seq<Usage>): Usage {
    if costs == [] then NOTHING else Plus(Total(costs[..|costs| - 1]), costs[|costs| - 1])
  }

  /** What has been written only grows: an overrun is an overrun of the total. */
  lemma {:induction false} TotalGrows(used: Usage, costs: seq<Usage>, n: nat)
    requires n <= |costs| && Within(Plus(used, Total(costs)))
    ensures Within(Plus(used, Total(costs[..n])))
    decreases |costs|
  {
    if n < |costs| {
      var front := costs[..|costs| - 1];
      assert front[..n] == costs[..n];
      TotalGrows(used, front, n);
    } else {
      assert costs[..n] == costs;
    }
  }

  lemma TotalNext(costs: seq<Usage>, n: nat)
    requires n < |costs|
    ensures Total(costs[..n + 1]) == Plus(Total(costs[..n]), costs[n])
  {
    assert costs[..n + 1][..n] == costs[..n];
  }

  /** Writing in steps is writing the sum, and no step of a sum within the limits exceeds them. */
  lemma InSteps(used: Usage, first: Usage, second: Usage, rest: Usage)
    ensures Plus(Plus(used, first), second) == Plus(used, Plus(first, second))
    ensures Plus(first, Plus(second, rest)) == Plus(Plus(first, second), rest)
    ensures Plus(used, Plus(first, Plus(second, rest))) == Plus(Plus(Plus(used, first), second), rest)
    ensures Within(Plus(used, Plus(first, Plus(second, rest)))) ==> Within(Plus(used, Plus(first, second)))
    ensures Within(Plus(used, Plus(first, second))) ==> Within(Plus(used, first))
  {
  }

  lemma TwoSteps(used: Usage, first: Usage, second: Usage)
    ensures Plus(Plus(used, first), second) == Plus(used, Plus(first, second))
    ensures Within(Plus(used, Plus(first, second))) ==> Within(Plus(used, first))
  {
  }

  lemma FourSteps(a: Usage, b: Usage, c: Usage, d: Usage)
    ensures var first := Plus(NOTHING, a);
            var second := Plus(first, b);
            var third := Plus(second, c);
            && first == a && Plus(Plus(a, b), Plus(c, d)) == Plus(third, d)
            && (Within(Plus(third, d)) ==> Within(first) && Within(second) && Within(third))
  {
  }

  lemma FiveSteps(used: Usage, a: Usage, b: Usage, c: Usage, d: Usage, e: Usage)
    ensures var first := Plus(used, a);
            var second := Plus(first, b);
            var third := Plus(second, c);
            var fourth := Plus(third, d);
            && Plus(used, Plus(Plus(a, b), Plus(c, Plus(d, e)))) == Plus(fourth, e)
            && (Within(Plus(fourth, e)) ==> Within(first) && Within(second) && Within(third) && Within(fourth))
  {
  }

  lemma MoreIsMore(a: Usage, b: Usage)
    ensures Within(Plus(a, b)) ==> Within(a)
  {
  }

  lemma MoreRows(a: Usage, b: Usage)
    ensures Plus(a, b).rows == a.rows + b.rows
  {
  }

  /** The same where the last step may not be taken. */
  lemma MaybeMore(used: Usage, first: Usage, second: Usage, more: bool)
    ensures var total := Plus(used, Plus(first, if more then second else NOTHING));
            && total == (if more then Plus(Plus(used, first), second) else Plus(used, first))
            && (Within(total) ==> Within(Plus(used, first)))
  {
  }

  /** RetainReport: one more row, and its size. */
  method RetainReport(used: Usage, size: nat) returns (r: Option<Usage>)
    requires Within(used)
    ensures r == if Within(Plus(used, Usage(1, size, 0, 0))) then Some(Plus(used, Usage(1, size, 0, 0))) else None
  {
    var count := used.rows + 1;
    if count > MAX_REPORTS {
      return None;
    }
    if size > MAX_CHARACTERS - used.rowCharacters {
      return None;
    }
    return Some(used.(rows := count, rowCharacters := used.rowCharacters + size));
  }

  /** Event: one more event, and its size. */
  method Event(used: Usage, size: nat) returns (r: Option<Usage>)
    requires Within(used)
    ensures r == if Within(Plus(used, Usage(0, 0, 1, size))) then Some(Plus(used, Usage(0, 0, 1, size))) else None
  {
    if used.events >= MAX_EVENTS {
      return None;
    }
    if size > MAX_CHARACTERS - used.eventCharacters {
      return None;
    }
    return Some(used.(events := used.events + 1, eventCharacters := used.eventCharacters + size));
  }

  function Entries(sizes: seq<nat>): seq<Usage> {
    seq(|sizes|, i requires 0 <= i < |sizes| => Usage(0, 0, 1, sizes[i]))
  }

  function Rows(sizes: seq<nat>): seq<Usage> {
    seq(|sizes|, i requires 0 <= i < |sizes| => Usage(1, sizes[i], 0, 0))
  }

  /** Several events in a row fit exactly when their total does. */
  method LogAll(used: Usage, sizes: seq<nat>) returns (r: Option<Usage>)
    requires Within(used)
    ensures r == if Within(Plus(used, Total(Entries(sizes)))) then Some(Plus(used, Total(Entries(sizes)))) else None
  {
    var now := used;
    for i := 0 to |sizes|
      invariant now == Plus(used, Total(Entries(sizes)[..i])) && Within(now)
    {
      TotalNext(Entries(sizes), i);
      var next := Event(now, sizes[i]);
      if next.None? {
        if Within(Plus(used, Total(Entries(sizes)))) {
          TotalGrows(used, Entries(sizes), i + 1);
        }
        return None;
      }
      now := next.value;
    }
    assert Entries(sizes)[..|sizes|] == Entries(sizes);
    return Some(now);
  }

  /** And so do several rows. */
  method RetainAll(used: Usage, sizes: seq<nat>) returns (r: Option<Usage>)
    requires Within(used)
    ensures r == if Within(Plus(used, Total(Rows(sizes)))) then Some(Plus(used, Total(Rows(sizes)))) else None
  {
    var now := used;
    for i := 0 to |sizes|
      invariant now == Plus(used, Total(Rows(sizes)[..i])) && Within(now)
    {
      TotalNext(Rows(sizes), i);
      var next := RetainReport(now, sizes[i]);
      if next.None? {
        if Within(Plus(used, Total(Rows(sizes)))) {
          TotalGrows(used, Rows(sizes), i + 1);
        }
        return None;
      }
      now := next.value;
    }
    assert Rows(sizes)[..|sizes|] == Rows(sizes);
    return Some(now);
  }

  /** Rows are counted one by one. */
  lemma {:induction false} RowsCount(sizes: seq<nat>)
    ensures Total(Rows(sizes)).rows == |sizes|
    decreases |sizes|
  {
    if sizes != [] {
      var front := sizes[..|sizes| - 1];
      assert Rows(sizes)[..|sizes| - 1] == Rows(front);
      RowsCount(front);
    }
  }
}
