/**
Generated code is a run of records that carry their own length in the first and in the last byte.
The reader only frames them: where each one ends, or that the body is not such a run.
*/
module CodeRecords {

  import opened Basics

  const MAX_BODY := 32768
  const MAX_RECORDS := 4096

  datatype Framing = Framed(boundaries: seq<nat>) | BodyTooLong | Unresolved | TooManyRecords

  predicate IsRecord(r: seq<Byte>) {
    2 <= |r| && r[0] == |r| && r[|r| - 1] == |r|
  }

  /** At this place of the body a record begins and ends within it. */
  predicate RecordBeginsAt(body: seq<Byte>, at: nat)
    requires at < |body|
  {
    var size: int := body[at];
    2 <= size <= |body| - at && body[at + size - 1] == size
  }

  predicate AllRecords(records: seq<seq<Byte>>) {
    forall i :: 0 <= i < |records| ==> IsRecord(records[i])
  }

  function Flat(records: seq<seq<Byte>>): seq<Byte> {
    if records == [] then [] else records[0] + Flat(records[1..])
  }

  /** Where each record ends, counted from the start of the body. */
  function Ends(records: seq<seq<Byte>>): (r: seq<nat>)
    ensures |r| == |records|
  {
    seq(|records|, k requires 0 <= k < |records| => |Flat(records[..k + 1])|)
  }

  lemma {:induction false} FlatJoins(a: seq<seq<Byte>>, b: seq<seq<Byte>>)
    ensures Flat(a + b) == Flat(a) + Flat(b)
  {
    if a == [] {
      assert a + b == b;
    } else {
      assert (a + b)[1..] == a[1..] + b;
      FlatJoins(a[1..], b);
    }
  }

  /** Framing is deterministic: two runs of records of which one spells a start of the other agree on it. */
  lemma {:induction false} FramingIsPrefix(a: seq<seq<Byte>>, b: seq<seq<Byte>>)
    requires AllRecords(a) && AllRecords(b) && Flat(a) <= Flat(b)
    ensures a <= b
  {
    if a != [] {
      var body := Flat(b);
      assert body[..|a[0]|] == Flat(a)[..|a[0]|] == a[0];
      assert b != [];
      assert body[..|b[0]|] == b[0];
      assert body[0] == a[0][0] && body[0] == b[0][0];
      assert a[0] == b[0];
      assert Flat(a)[|a[0]|..] == Flat(a[1..]) && body[|a[0]|..] == Flat(b[1..]);
      FramingIsPrefix(a[1..], b[1..]);
      assert a == [a[0]] + a[1..] && b == [b[0]] + b[1..];
    }
  }

  /** A body is the run of at most one sequence of records. */
  lemma {:induction false} FramingIsUnique(a: seq<seq<Byte>>, b: seq<seq<Byte>>)
    requires AllRecords(a) && AllRecords(b) && Flat(a) == Flat(b)
    ensures a == b
  {
    FramingIsPrefix(a, b);
    FramingIsPrefix(b, a);
  }

  function Reversed<T>(s: seq<T>): (r: seq<T>)
    ensures |r| == |s|
  {
    seq(|s|, k requires 0 <= k < |s| => s[|s| - 1 - k])
  }

  /** The records from last to first, each with its bytes turned round. */
  function Mirrored(records: seq<seq<Byte>>): (r: seq<seq<Byte>>)
    ensures |r| == |records|
  {
    seq(|records|, k requires 0 <= k < |records| => Reversed(records[|records| - 1 - k]))
  }

  lemma ReversedJoin<T>(a: seq<T>, b: seq<T>)
    ensures Reversed(a + b) == Reversed(b) + Reversed(a)
  {
  }

  /**
  A body can be framed from its end as well: read backwards it is a run of records too, the same
  ones in the opposite order. The length in the last byte is what buys this.
  */
  lemma {:induction false} FramesBackwards(records: seq<seq<Byte>>)
    requires AllRecords(records)
    ensures AllRecords(Mirrored(records)) && Flat(Mirrored(records)) == Reversed(Flat(records))
  {
    if records != [] {
      var head, rest := records[0], records[1..];
      FramesBackwards(rest);
      assert Mirrored(records) == Mirrored(rest) + [Reversed(head)];
      FlatJoins(Mirrored(rest), [Reversed(head)]);
      assert Flat([Reversed(head)]) == Reversed(head);
      ReversedJoin(head, Flat(rest));
    }
  }

  ghost predicate FramesAs(body: seq<Byte>, records: seq<seq<Byte>>) {
    AllRecords(records) && Flat(records) == body && |body| <= MAX_BODY && |records| <= MAX_RECORDS
  }

  /** Each boundary cuts off a start of the body that frames by itself, into the records before it. */
  lemma {:induction false} BoundariesCutRecords(body: seq<Byte>, records: seq<seq<Byte>>, k: nat)
    requires FramesAs(body, records) && k < |records|
    ensures 2 * (k + 1) <= Ends(records)[k] <= |body| && FramesAs(body[..Ends(records)[k]], records[..k + 1])
    ensures k + 1 == |records| ==> Ends(records)[k] == |body|
  {
    assert records == records[..k + 1] + records[k + 1..];
    FlatJoins(records[..k + 1], records[k + 1..]);
    AtLeastTwoEach(records[..k + 1]);
  }

  lemma {:induction false} AtLeastTwoEach(records: seq<seq<Byte>>)
    requires AllRecords(records)
    ensures |Flat(records)| >= 2 * |records|
  {
    if records != [] {
      AtLeastTwoEach(records[1..]);
    }
  }

  lemma {:induction false} NextRecord(records: seq<seq<Byte>>, r: seq<Byte>)
    requires AllRecords(records) && IsRecord(r)
    ensures AllRecords(records + [r]) && Flat(records + [r]) == Flat(records) + r
    ensures Ends(records + [r]) == Ends(records) + [|Flat(records)| + |r|]
  {
    FlatJoins(records, [r]);
    assert Flat([r]) == r;
    forall k | 0 <= k < |records|
      ensures Ends(records + [r])[k] == Ends(records)[k]
    {
      assert (records + [r])[..k + 1] == records[..k + 1];
    }
    assert (records + [r])[..|records| + 1] == records + [r];
  }

  /** If a body is a run of records and a start of it has been framed, a record follows. */
  lemma {:induction false} RecordFollows(body: seq<Byte>, all: seq<seq<Byte>>, records: seq<seq<Byte>>)
    requires AllRecords(all) && Flat(all) == body
    requires AllRecords(records) && Flat(records) <= body && |Flat(records)| < |body|
    ensures |records| < |all|
    ensures var at := |Flat(records)|;
            var size := body[at] as int;
            2 <= size && at + size <= |body| && body[at + size - 1] == size
  {
    FramingIsPrefix(records, all);
    var rest := all[|records|..];
    assert all == records + rest;
    FlatJoins(records, rest);
    assert rest != [] && IsRecord(rest[0]);
    assert Flat(rest) == rest[0] + Flat(rest[1..]);
    RecordBegins(body, Flat(records), rest[0], Flat(rest[1..]));
  }

  lemma {:induction false} RecordBegins(body: seq<Byte>, before: seq<Byte>, r: seq<Byte>, after: seq<Byte>)
    requires body == before + (r + after) && IsRecord(r)
    ensures var at := |before|;
            var size := body[at] as int;
            2 <= size && at + size <= |body| && body[at + size - 1] == size
  {
    assert body[|before|] == r[0] && body[|before| + |r| - 1] == r[|r| - 1];
  }

  /**
  The reader's loop. It accepts exactly the bodies of at most 32768 bytes that are a run of at most
  4096 records, and returns where each record ends.
  */
  method Frame(body: seq<Byte>) returns (framing: Framing, ghost records: seq<seq<Byte>>)
    ensures framing.Framed? ==> FramesAs(body, records) && framing.boundaries == Ends(records)
    ensures !framing.Framed? ==> forall other: seq<seq<Byte>> :: !FramesAs(body, other)
    ensures framing.BodyTooLong? <==> |body| > 32768
    ensures framing.Framed? || framing.TooManyRecords? || framing.Unresolved? ==>
              AllRecords(records) && Flat(records) <= body
    ensures framing.Framed? ==> |records| <= 4096
    ensures framing.TooManyRecords? ==> |records| == 4097
    ensures framing.Unresolved? ==>
              |records| <= 4096 && |Flat(records)| < |body| && !RecordBeginsAt(body, |Flat(records)|)
  {
    records := [];
    if |body| > MAX_BODY {
      return BodyTooLong, records;
    }
    var boundaries: seq<nat>, cursor := [], 0;
    while cursor < |body|
      invariant 0 <= cursor <= |body| && Flat(records) == body[..cursor] && AllRecords(records)
      invariant boundaries == Ends(records) && |records| <= MAX_RECORDS
      decreases |body| - cursor
    {
      var size := body[cursor];
      if size < 2 || cursor + size > |body| || body[cursor + size - 1] != size {
        NoFraming(body, records);
        return Unresolved, records;
      }
      ghost var r := body[cursor..cursor + size];
      NextRecord(records, r);
      records := records + [r];
      cursor := cursor + size;
      boundaries := boundaries + [cursor];
      if |boundaries| > MAX_RECORDS {
        TooMany(body, records);
        return TooManyRecords, records;
      }
    }
    framing := Framed(boundaries);
  }

  lemma {:induction false} NoFraming(body: seq<Byte>, records: seq<seq<Byte>>)
    requires AllRecords(records) && Flat(records) <= body && |Flat(records)| < |body|
    requires var at := |Flat(records)|;
             var size := body[at] as int;
             !(2 <= size && at + size <= |body| && body[at + size - 1] == size)
    ensures forall other: seq<seq<Byte>> :: !FramesAs(body, other)
  {
    forall other: seq<seq<Byte>> | AllRecords(other) && Flat(other) == body
      ensures false
    {
      RecordFollows(body, other, records);
    }
  }

  lemma {:induction false} TooMany(body: seq<Byte>, records: seq<seq<Byte>>)
    requires AllRecords(records) && Flat(records) <= body && |records| > MAX_RECORDS
    ensures forall other: seq<seq<Byte>> :: !FramesAs(body, other)
  {
    forall other: seq<seq<Byte>> | AllRecords(other) && Flat(other) == body
      ensures |other| > MAX_RECORDS
    {
      FramingIsPrefix(records, other);
    }
  }
}
