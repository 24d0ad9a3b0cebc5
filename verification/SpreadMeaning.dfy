/**
What the text of a cell is, told without the functions that read it: the bytes in memory are the code units, little
byte first, up to the first zero unit, and the units are some text's UTF-16; the limits are written out.
*/
module SpreadMeaning {

  import opened Basics
  import opened SpreadText

  /** The units lie at `start`, little byte first, with a zero unit after them. */
  predicate Encoded(m: Image, start: int, units: seq<nat>) {
    && (forall k :: 0 <= k < |units| ==> UnitAt(m, start + 2 * k, units[k]))
    && m.bytes(start + 2 * |units|) == 0 && m.bytes(start + 2 * |units| + 1) == 0
  }

  predicate UnitAt(m: Image, a: int, u: nat) {
    0 < u < 0x1_0000 && m.bytes(a) as int == u % 256 && m.bytes(a + 1) as int == u / 256
  }

  lemma UnitIsAt(m: Image, a: int, u: nat)
    ensures UnitAt(m, a, u) <==> !ZeroUnit(m, a) && Unit(m, a) == u
  {
  }

  /** The bytes up to the first zero unit are the units read, and no other units have those bytes. */
  lemma EncodedIsRead(m: Image, start: nat, units: seq<nat>)
    ensures Encoded(m, start, units) <==> Terminator(m, start, |units|) && Units(m, start, |units|) == units
  {
    var n := |units|;
    if Encoded(m, start, units) {
      forall k | 0 <= k < n
        ensures !ZeroUnit(m, start + 2 * k) && Units(m, start, n)[k] == units[k]
      {
        UnitIsAt(m, start + 2 * k, units[k]);
      }
    }
    if Terminator(m, start, n) && Units(m, start, n) == units {
      forall k | 0 <= k < n
        ensures UnitAt(m, start + 2 * k, units[k])
      {
        assert Units(m, start, n)[k] == Unit(m, start + 2 * k);
        UnitIsAt(m, start + 2 * k, units[k]);
      }
    }
  }

  /** A string the reads reach: the units in memory, in the numbers of the address space and of the pages. */
  ghost predicate StringAt(m: Image, start: nat, units: seq<nat>) {
    && Encoded(m, start, units)
    && 0x1_0000 <= start && start + 2 * |units| < 0x8000_0000
    && start % 256 + 2 * |units| < 262144
    && forall a :: start <= a <= start + 2 * |units| ==> a / 4096 in m.mapped
  }

  lemma StringIsReachable(m: Image, start: nat, units: seq<nat>)
    ensures StringAt(m, start, units) <==> Reachable(m, start, |units|) && Units(m, start, |units|) == units
  {
    EncodedIsRead(m, start, units);
    PagesAre(m, start, start + 2 * |units|);
  }

  lemma PagesAre(m: Image, first: int, last: int)
    ensures (forall a :: first <= a <= last ==> PageMapped(m, a)) <==>
            forall a :: first <= a <= last ==> a / 4096 in m.mapped
  {
    if forall a :: first <= a <= last ==> a / 4096 in m.mapped {
      forall a | first <= a <= last
        ensures PageMapped(m, a)
      {
      }
    }
    if forall a :: first <= a <= last ==> PageMapped(m, a) {
      forall a | first <= a <= last
        ensures a / 4096 in m.mapped
      {
        assert PageMapped(m, a);
      }
    }
  }

  /** What the reading of a string gives: the one string there, unless the table's texts get longer than 4194304. */
  lemma ResultMeans(m: Image, start: nat, characters: nat, units: seq<nat>, r: TextResult)
    requires RightResult(m, start, characters, r) && StringAt(m, start, units)
    ensures r == if characters + |units| <= 4194304 then Text(units) else Failed(TooMuchText)
  {
    StringIsReachable(m, start, units);
  }

  // ---------- UTF-16 ----------

  /** A Unicode scalar value. */
  predicate Scalar(c: nat) { c < 0xd800 || 0xe000 <= c < 0x11_0000 }

  /** UTF-16 of one scalar value. */
  function Encode(c: nat): seq<nat> {
    if c < 0x1_0000 then [c] else [0xd800 + (c - 0x1_0000) / 0x400, 0xdc00 + (c - 0x1_0000) % 0x400]
  }

  function EncodeAll(text: seq<nat>): seq<nat> {
    if text == [] then [] else Encode(text[0]) + EncodeAll(text[1..])
  }

  predicate IsText(text: seq<nat>) { forall i :: 0 <= i < |text| ==> Scalar(text[i]) }

  predicate InUnits(units: seq<nat>) { forall i :: 0 <= i < |units| ==> units[i] < 0x1_0000 }

  lemma {:induction false} EncodedIsWellFormed(text: seq<nat>)
    requires IsText(text)
    ensures WellFormed(EncodeAll(text))
  {
    if text != [] {
      EncodedIsWellFormed(text[1..]);
      OneMoreWellFormed(text[0], EncodeAll(text[1..]));
    }
  }

  lemma OneMoreWellFormed(c: nat, rest: seq<nat>)
    requires Scalar(c) && WellFormed(rest)
    ensures WellFormed(Encode(c) + rest)
  {
    var n := |Encode(c)|;
    var units := Encode(c) + rest;
    forall i | 0 <= i < |units|
      ensures Paired(units, i)
    {
      if i >= n {
        assert Paired(rest, i - n);
      }
    }
  }

  lemma {:induction false} WellFormedIsEncoded(units: seq<nat>) returns (text: seq<nat>)
    requires InUnits(units) && WellFormed(units)
    ensures IsText(text) && EncodeAll(text) == units
  {
    if units == [] {
      text := [];
    } else if High(units[0]) {
      assert Paired(units, 0);
      var c := 0x1_0000 + 0x400 * (units[0] - 0xd800) + (units[1] - 0xdc00);
      RestIsWellFormed(units, 2);
      var rest := WellFormedIsEncoded(units[2..]);
      text := [c] + rest;
      assert Encode(c) == [units[0], units[1]] && text[1..] == rest;
      assert units == [units[0], units[1]] + units[2..];
    } else {
      assert Paired(units, 0);
      RestIsWellFormed(units, 1);
      var rest := WellFormedIsEncoded(units[1..]);
      text := [units[0]] + rest;
      assert text[1..] == rest;
    }
  }

  lemma RestIsWellFormed(units: seq<nat>, n: nat)
    requires InUnits(units) && WellFormed(units) && 0 < n <= |units| && !High(units[n - 1])
    ensures WellFormed(units[n..])
  {
    var rest := units[n..];
    forall i | 0 <= i < |rest|
      ensures Paired(rest, i)
    {
      assert Paired(units, n + i);
    }
  }

  /** The units a cell may have are exactly those that are some text's UTF-16. */
  lemma WellFormedIsText(units: seq<nat>)
    requires InUnits(units)
    ensures WellFormed(units) <==> exists text :: IsText(text) && EncodeAll(text) == units
  {
    if WellFormed(units) {
      var _ := WellFormedIsEncoded(units);
    }
    if text :| IsText(text) && EncodeAll(text) == units {
      EncodedIsWellFormed(text);
    }
  }

  // ---------- cells ----------

  /** Bytes 2 to 5, little byte first, the last one signed: two's complement. */
  lemma NumberIsRead(record: seq<Byte>)
    requires |record| == 10
    ensures Signed(Word(record)) == (record[2] as int) + 256 * (record[3] as int) + 65536 * (record[4] as int)
                                    + 16777216 * if record[5] < 128 then record[5] as int else record[5] as int - 256
  {
  }

  /** The text lies at `start` as UTF-16, and the table's texts stay within the bound with it. */
  ghost predicate TextAt(m: Image, start: nat, characters: nat, text: seq<nat>) {
    IsText(text) && StringAt(m, start, EncodeAll(text)) && characters + |EncodeAll(text)| <= 4194304
  }

  /** A label is read exactly if some text's UTF-16 lies there within the bounds, and then those are its units. */
  lemma LabelMeans(m: Image, start: nat, characters: nat, cell: Cell)
    requires cell.Label? <==> exists n: nat :: LabelAt(m, start, characters, n)
    requires forall n: nat :: cell.Label? && Reachable(m, start, n) ==> cell.units == Units(m, start, n)
    ensures cell.Label? <==> exists text :: TextAt(m, start, characters, text)
    ensures forall text :: TextAt(m, start, characters, text) ==> cell.Label? && cell.units == EncodeAll(text)
  {
    if n: nat :| LabelAt(m, start, characters, n) {
      var units := Units(m, start, n);
      var text := WellFormedIsEncoded(units);
      StringIsReachable(m, start, units);
      assert TextAt(m, start, characters, text);
    }
    forall text | TextAt(m, start, characters, text)
      ensures cell.Label? && cell.units == EncodeAll(text)
    {
      var units := EncodeAll(text);
      StringIsReachable(m, start, units);
      EncodedIsWellFormed(text);
      assert LabelAt(m, start, characters, |units|);
    }
  }
}
