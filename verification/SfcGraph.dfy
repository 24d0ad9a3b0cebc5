/**
The stored body of a sequential function chart: a header, a length-prefixed graph, and a cache
that starts with its own length. Editing replaces the graph in place and keeps the cache.
*/
module SfcGraph {

  import opened Basics

  const MIN_BODY := 20
  const MAX_BLOCK := 65540
  const MAX_GRAPH := 65536
  const MAX_INT := 0x7fff_ffff

  /** BitConverter.ToInt32: little-endian, two's complement. */
  function I32(b: seq<Byte>, at: nat): int
    requires at + 4 <= |b|
  {
    var word := b[at] as int + 0x100 * (b[at + 1] as int) + 0x1_0000 * (b[at + 2] as int)
      + 0x100_0000 * (b[at + 3] as int);
    if word < 0x8000_0000 then word else word - 0x1_0000_0000
  }

  /** BitConverter.GetBytes of a length. */
  function Bytes32(v: nat): (r: seq<Byte>)
    requires v <= MAX_INT
    ensures |r| == 4 && I32(r, 0) == v
  {
    var q1 := v / 0x100;
    var q2 := q1 / 0x100;
    var b0: Byte, b1: Byte, b2: Byte, b3: Byte := v % 0x100, q1 % 0x100, q2 % 0x100, q2 / 0x100;
    [b0, b1, b2, b3]
  }

  lemma LowDigit(q: nat, low: Byte)
    ensures (low as int + 0x100 * q) % 0x100 == low && (low as int + 0x100 * q) / 0x100 == q
  {
  }

  lemma Bytes32IsOnly(b: seq<Byte>, v: nat)
    requires |b| == 4 && v <= MAX_INT
    ensures I32(b, 0) == v <==> b == Bytes32(v)
  {
    if I32(b, 0) == v {
      var q2 := b[2] as int + 0x100 * (b[3] as int);
      var q1 := b[1] as int + 0x100 * q2;
      LowDigit(q1, b[0]);
      LowDigit(q2, b[1]);
      LowDigit(b[3], b[2]);
      assert v == b[0] as int + 0x100 * q1;
    }
  }

  /** The extent checks made before an edit. */
  predicate Accepts(body: seq<Byte>) {
    && |body| >= MIN_BODY && I32(body, 4) == 0 && I32(body, 8) == 0
    && 4 <= I32(body, 12) <= MAX_BLOCK
    && 12 + I32(body, 12) + 4 <= |body|
    && I32(body, 12 + I32(body, 12)) == |body| - 12 - I32(body, 12)
  }

  function Graph(body: seq<Byte>): seq<Byte>
    requires Accepts(body)
  {
    body[16..12 + I32(body, 12)]
  }

  function Cache(body: seq<Byte>): seq<Byte>
    requires Accepts(body)
  {
    body[12 + I32(body, 12)..]
  }

  /** The body with another graph: new total, old header rest, new block length, graph, old cache. */
  function Spliced(body: seq<Byte>, graph: seq<Byte>): (r: seq<Byte>)
    requires Accepts(body) && 16 + |graph| + |Cache(body)| <= MAX_INT
    ensures |r| == 16 + |graph| + |Cache(body)|
  {
    Bytes32(16 + |graph| + |Cache(body)|) + body[4..12] + Bytes32(|graph| + 4) + graph + Cache(body)
  }

  lemma I32Within(a: seq<Byte>, b: seq<Byte>, at: nat, from: nat)
    requires at + 4 <= |a| && from + 4 <= |b| && a[at..at + 4] == b[from..from + 4]
    ensures I32(a, at) == I32(b, from)
  {
    var s, t := a[at..at + 4], b[from..from + 4];
    assert s[0] == t[0] && s[1] == t[1] && s[2] == t[2] && s[3] == t[3];
    assert a[at] == s[0] && a[at + 1] == s[1] && a[at + 2] == s[2] && a[at + 3] == s[3];
    assert b[from] == t[0] && b[from + 1] == t[1] && b[from + 2] == t[2] && b[from + 3] == t[3];
  }

  /**
  The splice is closed under its own parser exactly up to the writer's bound: 65536 bytes of
  graph are 65540 of block. What it parses back to is the graph put in, and the cache is kept
  byte for byte.
  */
  lemma SplicedParses(body: seq<Byte>, graph: seq<Byte>)
    requires Accepts(body) && 16 + |graph| + |Cache(body)| <= MAX_INT
    ensures Accepts(Spliced(body, graph)) <==> |graph| <= MAX_GRAPH
    ensures |graph| <= MAX_GRAPH ==>
              Graph(Spliced(body, graph)) == graph && Cache(Spliced(body, graph)) == Cache(body)
              && I32(Spliced(body, graph), 0) == |Spliced(body, graph)|
  {
    var r := Spliced(body, graph);
    var block := |graph| + 4;
    HeaderOf(body, graph);
    if |graph| <= MAX_GRAPH {
      assert r[12 + block..] == Cache(body);
      assert r[12 + block..12 + block + 4] == Cache(body)[0..4];
      I32Within(r, Cache(body), 12 + block, 0);
      assert Cache(body)[0..4] == body[12 + I32(body, 12)..12 + I32(body, 12) + 4];
      I32Within(Cache(body), body, 0, 12 + I32(body, 12));
      assert r[16..12 + block] == graph;
    }
  }

  lemma HeaderOf(body: seq<Byte>, graph: seq<Byte>)
    requires Accepts(body) && 16 + |graph| + |Cache(body)| <= MAX_INT
    ensures var r := Spliced(body, graph);
            I32(r, 0) == |r| && I32(r, 4) == 0 && I32(r, 8) == 0 && I32(r, 12) == |graph| + 4
  {
    var r := Spliced(body, graph);
    assert r[0..4] == Bytes32(|r|)[0..4];
    I32Within(r, Bytes32(|r|), 0, 0);
    assert r[4..8] == body[4..8];
    I32Within(r, body, 4, 4);
    assert r[8..12] == body[8..12];
    I32Within(r, body, 8, 8);
    assert r[12..16] == Bytes32(|graph| + 4)[0..4];
    I32Within(r, Bytes32(|graph| + 4), 12, 0);
  }

  /** The low byte first, and the last one signed. */
  lemma I32Means(b: seq<Byte>, at: nat)
    requires at + 4 <= |b|
    ensures I32(b, at) == (b[at] as int) + 256 * (b[at + 1] as int) + 65536 * (b[at + 2] as int)
                          + 16777216 * if b[at + 3] < 128 then b[at + 3] as int else b[at + 3] as int - 256
  {
  }

  /** Eight zero bytes, the block's length, the graph, and the cache with its own length in front. */
  predicate Shaped(body: seq<Byte>, graph: seq<Byte>, cache: seq<Byte>) {
    && |graph| <= 65536 && 4 <= |cache| <= 0x7fff_ffff && |body| == 16 + |graph| + |cache|
    && body[4..12] == [0, 0, 0, 0, 0, 0, 0, 0]
    && body[12..16] == Bytes32(|graph| + 4) && body[16..16 + |graph|] == graph && body[16 + |graph|..] == cache
    && cache[..4] == Bytes32(|cache|)
  }

  lemma ZeroWord(b: seq<Byte>, at: nat)
    requires at + 4 <= |b|
    ensures I32(b, at) == 0 <==> b[at] == 0 && b[at + 1] == 0 && b[at + 2] == 0 && b[at + 3] == 0
  {
  }

  /** The checks let through exactly the bodies of that shape, whatever their first word. */
  lemma AcceptsMeans(body: seq<Byte>, graph: seq<Byte>, cache: seq<Byte>)
    ensures Shaped(body, graph, cache) <==> Accepts(body) && graph == Graph(body) && cache == Cache(body)
  {
    if Shaped(body, graph, cache) {
      ShapedIsAccepted(body, graph, cache);
    }
    if Accepts(body) && graph == Graph(body) && cache == Cache(body) {
      AcceptedIsShaped(body, graph, cache);
    }
  }

  lemma ShapedIsAccepted(body: seq<Byte>, graph: seq<Byte>, cache: seq<Byte>)
    requires Shaped(body, graph, cache)
    ensures Accepts(body) && graph == Graph(body) && cache == Cache(body)
  {
    var zeros, block, size := body[4..12], body[12..16], body[16 + |graph|..16 + |graph| + 4];
    assert forall k :: 0 <= k < 8 ==> body[4 + k] == zeros[k];
    ZeroWord(body, 4);
    ZeroWord(body, 8);
    assert block[0..4] == block;
    I32Within(body, block, 12, 0);
    assert size == cache[..4] && size[0..4] == size;
    I32Within(body, size, 16 + |graph|, 0);
  }

  lemma AcceptedIsShaped(body: seq<Byte>, graph: seq<Byte>, cache: seq<Byte>)
    requires Accepts(body) && graph == Graph(body) && cache == Cache(body)
    ensures Shaped(body, graph, cache)
  {
    ZeroWord(body, 4);
    ZeroWord(body, 8);
    assert body[4..12] == [0, 0, 0, 0, 0, 0, 0, 0];
    var block, size := body[12..16], cache[..4];
    assert block[0..4] == block && size[0..4] == size;
    I32Within(body, block, 12, 0);
    Bytes32IsOnly(block, |graph| + 4);
    assert body[16 + |graph|..16 + |graph| + 4] == size;
    I32Within(body, size, 16 + |graph|, 0);
    Bytes32IsOnly(size, |cache|);
  }

  /** An accepted body is its header, its graph and its cache, and nothing between. */
  lemma Reassembled(body: seq<Byte>)
    requires Accepts(body)
    ensures body == body[..4] + body[4..12] + Bytes32(|Graph(body)| + 4) + Graph(body) + Cache(body)
  {
    I32Within(body, body[12..16], 12, 0);
    Bytes32IsOnly(body[12..16], |Graph(body)| + 4);
    assert body == body[..4] + body[4..12] + body[12..16] + Graph(body) + Cache(body);
  }

  /**
  Putting the same graph back is the identity exactly when the body's first word is its length.
  The checks never look at that word, so a body can be accepted and still be changed.
  */
  lemma UnchangedGraphIsIdentity(body: seq<Byte>)
    requires Accepts(body) && |body| <= MAX_INT
    ensures Spliced(body, Graph(body)) == body <==> I32(body, 0) == |body|
  {
    var r, tail := Spliced(body, Graph(body)), body[4..];
    SplicedTail(body);
    assert body == body[..4] + tail && r == Bytes32(|body|) + tail;
    I32Within(body, body[..4], 0, 0);
    Bytes32IsOnly(body[..4], |body|);
    SameTail(body[..4], Bytes32(|body|), tail);
  }

  lemma SameTail(a: seq<Byte>, b: seq<Byte>, tail: seq<Byte>)
    requires |a| == |b|
    ensures a + tail == b + tail <==> a == b
  {
    assert (a + tail)[..|a|] == a && (b + tail)[..|b|] == b;
  }

  /** Putting the same graph back touches nothing behind the first word. */
  lemma SplicedTail(body: seq<Byte>)
    requires Accepts(body) && |body| <= MAX_INT
    ensures Spliced(body, Graph(body)) == Bytes32(|body|) + body[4..]
  {
    Reassembled(body);
    assert body[4..] == body[4..12] + Bytes32(|Graph(body)| + 4) + Graph(body) + Cache(body);
  }

  /** Such a body: 21 bytes, accepted, with a zero where its length should be. */
  lemma AcceptedYetChanged() returns (body: seq<Byte>)
    ensures Accepts(body) && |body| == 21 && |Graph(body)| == 1 && Spliced(body, Graph(body)) != body
  {
    body := [0, 0, 0, 0, 0, 0, 0, 0, 0, 0, 0, 0, 5, 0, 0, 0, 7, 4, 0, 0, 0];
    UnchangedGraphIsIdentity(body);
  }

  /** A second splice overrides the first. */
  lemma LastSpliceWins(body: seq<Byte>, first: seq<Byte>, second: seq<Byte>)
    requires Accepts(body) && |first| <= MAX_GRAPH
    requires 16 + |first| + |Cache(body)| <= MAX_INT && 16 + |second| + |Cache(body)| <= MAX_INT
    ensures Accepts(Spliced(body, first)) && Cache(Spliced(body, first)) == Cache(body)
    ensures Spliced(Spliced(body, first), second) == Spliced(body, second)
  {
    SplicedParses(body, first);
    assert Spliced(body, first)[4..12] == body[4..12];
  }

  // ---------- the splice as it is done ----------

  /** Array.Copy between two arrays. */
  method Copy(source: array<Byte>, from: nat, target: array<Byte>, at: nat, count: nat)
    requires source != target && from + count <= source.Length && at + count <= target.Length
    modifies target
    ensures target[..][..at] == old(target[..])[..at]
    ensures target[..][at..at + count] == source[..][from..from + count]
    ensures target[..][at + count..] == old(target[..])[at + count..]
  {
    ghost var before := target[..];
    for k := 0 to count
      invariant forall i :: 0 <= i < target.Length ==>
                              target[i] == if at <= i < at + k then source[from + i - at] else before[i]
    {
      target[at + k] := source[from + k];
    }
  }

  method GetBytes(v: nat) returns (bytes: array<Byte>)
    requires v <= MAX_INT
    ensures fresh(bytes) && bytes[..] == Bytes32(v)
  {
    var digits := Bytes32(v);
    bytes := new Byte[4](k requires 0 <= k < 4 => digits[k]);
  }

  /** A body is what its five fields are. */
  lemma Assembled(r: seq<Byte>, body: seq<Byte>, graph: seq<Byte>)
    requires Accepts(body) && |r| == 16 + |graph| + |Cache(body)| <= MAX_INT
    requires r[..4] == Bytes32(|r|) && r[4..12] == body[4..12] && r[12..16] == Bytes32(|graph| + 4)
    requires r[16..16 + |graph|] == graph && r[16 + |graph|..] == Cache(body)
    ensures r == Spliced(body, graph)
  {
    assert r == r[..4] + r[4..12] + r[12..16] + r[16..16 + |graph|] + r[16 + |graph|..];
  }

  /** What lies within a kept part is kept. */
  lemma KeptWithin(a: seq<Byte>, b: seq<Byte>, from: nat, to: nat, lo: nat, hi: nat)
    requires from <= lo <= hi <= to <= |a| == |b| && a[from..to] == b[from..to]
    ensures a[lo..hi] == b[lo..hi]
  {
    forall k | lo <= k < hi
      ensures a[k] == b[k]
    {
      assert a[k] == a[from..to][k - from] && b[k] == b[from..to][k - from];
    }
  }

  /** Refuses a graph outside 1..65536 bytes; otherwise builds the spliced body in a new array. */
  method Splice(current: array<Byte>, encoded: array<Byte>) returns (ok: bool, replacement: array<Byte>)
    requires Accepts(current[..]) && 16 + encoded.Length + |Cache(current[..])| <= MAX_INT
    ensures ok <==> 1 <= encoded.Length <= MAX_GRAPH
    ensures ok ==> fresh(replacement) && replacement[..] == Spliced(current[..], encoded[..])
  {
    if encoded.Length == 0 || encoded.Length > MAX_GRAPH {
      return false, current;
    }
    ok := true;
    var offset := 12 + I32(current[..], 12);
    var cache := current.Length - offset;
    replacement := new Byte[16 + encoded.Length + cache];
    ghost var body, graph := current[..], encoded[..];
    HeaderIn(current, encoded.Length, replacement);
    ghost var headed := replacement[..];
    Copy(encoded, 0, replacement, 16, encoded.Length);
    ghost var filled := replacement[..];
    assert graph[0..|graph|] == graph;
    Copy(current, offset, replacement, 16 + encoded.Length, cache);
    ghost var r := replacement[..];
    assert body[offset..offset + cache] == Cache(body);
    assert r[16 + |graph|..16 + |graph| + cache] == r[16 + |graph|..];
    CopiesSplice(headed, filled, r, body, graph);
  }

  /** Header, graph and cache, written one after the other, each leaving what is before it. */
  lemma CopiesSplice(headed: seq<Byte>, filled: seq<Byte>, r: seq<Byte>, body: seq<Byte>, graph: seq<Byte>)
    requires Accepts(body) && |headed| == |filled| == |r| == 16 + |graph| + |Cache(body)| <= MAX_INT
    requires headed[..4] == Bytes32(|r|) && headed[4..12] == body[4..12] && headed[12..16] == Bytes32(|graph| + 4)
    requires filled[..16] == headed[..16] && filled[16..16 + |graph|] == graph
    requires r[..16 + |graph|] == filled[..16 + |graph|] && r[16 + |graph|..] == Cache(body)
    ensures r == Spliced(body, graph)
  {
    KeptWithin(r, filled, 0, 16 + |graph|, 0, 16);
    assert r[..16] == filled[..16] == headed[..16];
    KeptWithin(r, headed, 0, 16, 0, 4);
    KeptWithin(r, headed, 0, 16, 4, 12);
    KeptWithin(r, headed, 0, 16, 12, 16);
    KeptWithin(r, filled, 0, 16 + |graph|, 16, 16 + |graph|);
    Assembled(r, body, graph);
  }

  /** The first sixteen bytes: the old ones, then the new total and the new block length over them. */
  method HeaderIn(current: array<Byte>, graph: nat, replacement: array<Byte>)
    requires current.Length >= 12 && replacement.Length >= 16 && replacement != current
    requires replacement.Length <= MAX_INT && graph + 4 <= MAX_INT
    modifies replacement
    ensures replacement[..][..4] == Bytes32(replacement.Length)
    ensures replacement[..][4..12] == current[..][4..12]
    ensures replacement[..][12..16] == Bytes32(graph + 4)
  {
    var total := GetBytes(replacement.Length);
    var block := GetBytes(graph + 4);
    Copy(current, 0, replacement, 0, 12);
    ghost var first := replacement[..];
    Copy(total, 0, replacement, 0, 4);
    ghost var second := replacement[..];
    Copy(block, 0, replacement, 12, 4);
    HeaderCopies(first, second, replacement[..], current[..], total[..], block[..]);
  }

  lemma HeaderCopies(first: seq<Byte>, second: seq<Byte>, r: seq<Byte>, body: seq<Byte>, total: seq<Byte>,
      block: seq<Byte>)
    requires |first| == |second| == |r| >= 16 && |body| >= 12 && |total| == |block| == 4
    requires first[0..12] == body[0..12]
    requires second[0..4] == total[0..4] && second[4..] == first[4..]
    requires r[..12] == second[..12] && r[12..16] == block[0..4]
    ensures r[..4] == total && r[4..12] == body[4..12] && r[12..16] == block
  {
    KeptWithin(first, body[0..12] + first[12..], 0, 12, 4, 12);
    KeptWithin(second, first, 4, |second|, 4, 12);
    KeptWithin(r, second, 0, 12, 0, 4);
    KeptWithin(r, second, 0, 12, 4, 12);
  }
}
