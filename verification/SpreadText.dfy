/**
The text of one spreadsheet cell, read from another process's memory. The string has no stored
length; it is read in chunks of at most 256 bytes that never cross a 4096-byte page, so that
nothing beyond the page of its terminator is ever touched.
*/
module SpreadText {

  import opened Basics

  const PAGE := 4096
  const CHUNK := 256
  const BLOCKS := 1024
  const LOWEST_ADDRESS := 0x1_0000
  const LIMIT := 0x8000_0000
  const MAX_CHARACTERS := 4 * 1024 * 1024

  /** The target's memory: which pages are there, and what every byte is. */
  datatype Image = Image(mapped: set<int>, bytes: int -> Byte)

  predicate Readable(m: Image, address: int, size: nat) {
    && LOWEST_ADDRESS <= address && address + size <= LIMIT
    && forall a :: address <= a < address + size ==> PageMapped(m, a)
  }

  predicate PageMapped(m: Image, a: int) { a / PAGE in m.mapped }

  predicate ZeroUnit(m: Image, a: int) { m.bytes(a) == 0 && m.bytes(a + 1) == 0 }

  function Unit(m: Image, a: int): nat { m.bytes(a) + 256 * m.bytes(a + 1) }

  function Units(m: Image, start: int, n: nat): (r: seq<nat>)
    ensures |r| == n
  {
    seq(n, k requires 0 <= k < n => Unit(m, start + 2 * k))
  }

  /** The first zero unit is the n-th. */
  predicate Terminator(m: Image, start: int, n: nat) {
    ZeroUnit(m, start + 2 * n) && forall k :: 0 <= k < n ==> !ZeroUnit(m, start + 2 * k)
  }

  /** How many bytes 1024 chunks cover: at most one of them is short. */
  function Capacity(start: nat): nat { BLOCKS * CHUNK - start % CHUNK }

  /** All that must hold for the string to be read. */
  ghost predicate Reachable(m: Image, start: nat, n: nat) {
    && Terminator(m, start, n)
    && 2 * n < Capacity(start)
    && LOWEST_ADDRESS <= start && start + 2 * n < LIMIT
    && forall a :: start <= a <= start + 2 * n ==> PageMapped(m, a)
  }

  datatype Reason = Unreadable | Unterminated | TooMuchText | UnknownFormat | Misaligned | BadEncoding

  datatype TextResult = Text(units: seq<nat>) | Failed(reason: Reason)

  /** One ReadProcessMemory call. */
  datatype Extent = Extent(address: int, size: nat)

  predicate InOnePage(e: Extent) { e.size > 0 && e.address / PAGE == (e.address + e.size - 1) / PAGE }

  function ChunkSize(address: nat): (size: nat)
    ensures 1 <= size <= CHUNK
  {
    if CHUNK < PAGE - address % PAGE then CHUNK else PAGE - address % PAGE
  }

  lemma ChunkStaysInPage(address: nat)
    ensures address / PAGE == (address + ChunkSize(address) - 1) / PAGE
    ensures (address + ChunkSize(address)) % PAGE == 0 || (address + ChunkSize(address)) / PAGE == address / PAGE
    ensures address % 2 == 0 ==> ChunkSize(address) % 2 == 0
  {
    var p, o := address / PAGE, address % PAGE;
    assert address == p * PAGE + o;
    InPage(p, o + ChunkSize(address) - 1);
    if o + ChunkSize(address) == PAGE {
      InPage(p + 1, 0);
    } else {
      InPage(p, o + ChunkSize(address));
    }
  }

  lemma InPage(p: int, o: nat)
    requires o < PAGE
    ensures (p * PAGE + o) / PAGE == p && (p * PAGE + o) % PAGE == o
  {
  }

  /** Either the chunks so far were all full, or exactly one short chunk has realigned the reads. */
  predicate Progress(start: nat, address: nat, block: nat) {
    || (address == start + CHUNK * block && (start % CHUNK == 0 || address / PAGE == start / PAGE))
    || (start % CHUNK > 0 && address == start + CHUNK * block - start % CHUNK)
  }

  lemma ProgressStep(start: nat, address: nat, block: nat)
    requires Progress(start, address, block)
    ensures Progress(start, address + ChunkSize(address), block + 1)
  {
    var o := start % CHUNK;
    var q := start / CHUNK;
    assert start == q * CHUNK + o;
    if address == start + CHUNK * block {
      assert address == (q + block) * CHUNK + o;
      ChunkAt(q + block, o);
      if o > 0 {
        ChunkStaysInPage(address);
        ChunkInPageOrShort(q + block, o);
      }
    } else {
      assert address == (q + block) * CHUNK;
      ChunkAt(q + block, 0);
    }
  }

  /** 256 divides 4096: an aligned address always gets a full chunk. */
  lemma ChunkAt(c: nat, o: nat)
    requires o < CHUNK
    ensures o == 0 ==> ChunkSize(c * CHUNK + o) == CHUNK
  {
    var d, r := c / 16, c % 16;
    assert c == d * 16 + r;
    assert c * CHUNK + o == d * PAGE + (r * CHUNK + o);
    InPage(d, r * CHUNK + o);
  }

  lemma ChunkInPageOrShort(c: nat, o: nat)
    requires 0 < o < CHUNK
    ensures var a := c * CHUNK + o;
            (ChunkSize(a) == CHUNK && (a + CHUNK) / PAGE == a / PAGE) || ChunkSize(a) == CHUNK - o
  {
    var d, r := c / 16, c % 16;
    assert c == d * 16 + r;
    assert c * CHUNK + o == d * PAGE + (r * CHUNK + o);
    InPage(d, r * CHUNK + o);
    if r < 15 {
      assert c * CHUNK + o + CHUNK == d * PAGE + ((r + 1) * CHUNK + o);
      InPage(d, (r + 1) * CHUNK + o);
    }
  }

  lemma CoveredAtTheEnd(start: nat, address: nat)
    requires Progress(start, address, BLOCKS)
    ensures address == start + Capacity(start)
  {
    if start % CHUNK > 0 && address == start + CHUNK * BLOCKS {
      assert false;
    }
  }

  /** What is known once everything before `address` has been read without meeting a zero unit. */
  ghost predicate ReadSoFar(m: Image, start: nat, address: nat, units: seq<nat>) {
    && start <= address && address == start + 2 * |units|
    && units == Units(m, start, |units|)
    && (forall k :: 0 <= k < |units| ==> !ZeroUnit(m, start + 2 * k))
    && (units != [] ==> LOWEST_ADDRESS <= start && address <= LIMIT)
    && (forall a :: start <= a < address ==> PageMapped(m, a))
  }

  lemma OneMoreUnit(m: Image, start: nat, address: nat, units: seq<nat>)
    requires ReadSoFar(m, start, address, units) && !ZeroUnit(m, address)
    requires LOWEST_ADDRESS <= start && address + 2 <= LIMIT && PageMapped(m, address) && PageMapped(m, address + 1)
    ensures ReadSoFar(m, start, address + 2, units + [Unit(m, address)])
  {
  }

  lemma TerminatorIsUnique(m: Image, start: nat, n: nat, k: nat)
    requires Terminator(m, start, n) && Terminator(m, start, k)
    ensures n == k
  {
  }

  /** A chunk is readable exactly when its first page is there and it lies in the address window. */
  lemma ChunkReadable(m: Image, address: nat)
    requires address < LIMIT
    ensures Readable(m, address, ChunkSize(address)) <==> LOWEST_ADDRESS <= address && PageMapped(m, address)
  {
    ChunkStaysInPage(address);
    forall a | address <= a < address + ChunkSize(address) ensures a / PAGE == address / PAGE {
      var p, o := address / PAGE, address % PAGE;
      assert address == p * PAGE + o;
      InPage(p, o + (a - address));
    }
    assert address + ChunkSize(address) <= LIMIT by {
      assert address % PAGE + ChunkSize(address) <= PAGE;
      assert address / PAGE < LIMIT / PAGE;
    }
  }

  /** How one chunk ends: the string's terminator, or everything in it taken over. */
  method ReadChunk(m: Image, ghost start: nat, address: nat, units: seq<nat>) returns (found: bool, more: seq<nat>)
    requires address % 2 == 0 && ReadSoFar(m, start, address, units)
    requires Readable(m, address, ChunkSize(address)) && LOWEST_ADDRESS <= start
    ensures found ==> exists n: nat :: Terminator(m, start, n) && more == Units(m, start, n)
                                  && address <= start + 2 * n < address + ChunkSize(address)
    ensures !found ==> ReadSoFar(m, start, address + ChunkSize(address), more)
  {
    var size := ChunkSize(address);
    ChunkStaysInPage(address);
    var index := 0;
    more := units;
    while index < size
      invariant 0 <= index <= size && index % 2 == 0
      invariant ReadSoFar(m, start, address + index, more)
    {
      var here := address + index;
      if ZeroUnit(m, here) {
        assert Terminator(m, start, |more|);
        return true, more;
      }
      assert PageMapped(m, here) && PageMapped(m, here + 1);
      OneMoreUnit(m, start, here, more);
      more := more + [Unit(m, here)];
      index := index + 2;
    }
    return false, more;
  }

  /** A terminator lies no earlier than what has been read without meeting one. */
  lemma TerminatorAhead(m: Image, start: nat, address: nat, units: seq<nat>, n: nat)
    requires ReadSoFar(m, start, address, units) && Terminator(m, start, n)
    ensures address <= start + 2 * n && address / PAGE <= (start + 2 * n) / PAGE
  {
  }

  /** The result the caller must see. */
  ghost predicate RightResult(m: Image, start: nat, characters: nat, r: TextResult) {
    && (forall n: nat :: Reachable(m, start, n) ==>
          r == (if characters + n <= MAX_CHARACTERS then Text(Units(m, start, n)) else Failed(TooMuchText)))
    && (r.Text? || r == Failed(TooMuchText) ==> exists n: nat :: Reachable(m, start, n))
    && (r == Failed(Unterminated) ==> forall k: nat :: 2 * k < Capacity(start) ==> !ZeroUnit(m, start + 2 * k))
  }

  /** A read inside one page, and not beyond the page of the terminator. */
  ghost predicate RightRead(m: Image, start: nat, e: Extent) {
    && InOnePage(e) && start <= e.address
    && forall n: nat :: Reachable(m, start, n) ==> e.address / PAGE <= (start + 2 * n) / PAGE
  }

  lemma NextReadIsRight(m: Image, start: nat, address: nat, units: seq<nat>)
    requires ReadSoFar(m, start, address, units)
    ensures RightRead(m, start, Extent(address, ChunkSize(address)))
  {
    ChunkStaysInPage(address);
    forall n: nat | Reachable(m, start, n) ensures address / PAGE <= (start + 2 * n) / PAGE {
      TerminatorAhead(m, start, address, units, n);
    }
  }

  /** If the next chunk cannot be read, the string cannot be reached at all. */
  lemma UnreadableIsRight(m: Image, start: nat, address: nat, units: seq<nat>, characters: nat)
    requires ReadSoFar(m, start, address, units) && !Readable(m, address, ChunkSize(address))
    ensures RightResult(m, start, characters, Failed(Unreadable))
  {
    if address < LIMIT {
      ChunkReadable(m, address);
    }
    forall n: nat ensures !Reachable(m, start, n) {
      if Terminator(m, start, n) {
        TerminatorAhead(m, start, address, units, n);
      }
    }
  }

  lemma UnterminatedIsRight(m: Image, start: nat, address: nat, units: seq<nat>, characters: nat)
    requires ReadSoFar(m, start, address, units) && address == start + Capacity(start)
    ensures RightResult(m, start, characters, Failed(Unterminated))
  {
    forall n: nat ensures !Reachable(m, start, n) {
      if Terminator(m, start, n) {
        TerminatorAhead(m, start, address, units, n);
      }
    }
  }

  lemma FoundIsRight(m: Image, start: nat, characters: nat, n: nat)
    requires Reachable(m, start, n)
    ensures RightResult(m, start, characters,
              if characters + n <= MAX_CHARACTERS then Text(Units(m, start, n)) else Failed(TooMuchText))
  {
    forall k: nat | Reachable(m, start, k) ensures k == n { TerminatorIsUnique(m, start, n, k); }
  }

  lemma WithinCapacity(start: nat, address: nat, block: nat)
    requires Progress(start, address, block) && block <= BLOCKS
    ensures address <= start + Capacity(start)
  {
  }

  lemma FoundIsReachable(m: Image, start: nat, address: nat, units: seq<nat>, block: nat, n: nat)
    requires ReadSoFar(m, start, address, units) && Readable(m, address, ChunkSize(address))
    requires Progress(start, address, block) && block < BLOCKS && LOWEST_ADDRESS <= start
    requires Terminator(m, start, n) && address <= start + 2 * n < address + ChunkSize(address)
    ensures Reachable(m, start, n)
  {
    ProgressStep(start, address, block);
    WithinCapacity(start, address + ChunkSize(address), block + 1);
  }

  /** Between two chunks: nothing but whole, non-zero units has been read so far. */
  ghost predicate Reading(m: Image, start: nat, address: nat, units: seq<nat>, block: nat) {
    address % 2 == 0 && Progress(start, address, block) && ReadSoFar(m, start, address, units)
  }

  ghost predicate RightReads(m: Image, start: nat, log: seq<Extent>) {
    forall i :: 0 <= i < |log| ==> RightRead(m, start, log[i])
  }

  /** One chunk: the string ends in it or cannot be read on, or its units are taken over. */
  method ReadBlock(m: Image, ghost start: nat, address: nat, units: seq<nat>, characters: nat, ghost block: nat)
    returns (done: Option<TextResult>, next: nat, more: seq<nat>)
    requires Reading(m, start, address, units, block) && block < BLOCKS
    ensures done.Some? ==> RightResult(m, start, characters, done.value)
    ensures done.None? ==> Reading(m, start, next, more, block + 1)
  {
    var size := ChunkSize(address);
    next, more := address + size, units;
    if !Readable(m, address, size) {
      UnreadableIsRight(m, start, address, units, characters);
      return Some(Failed(Unreadable)), next, more;
    }
    assert LOWEST_ADDRESS <= start by {
      assert address == start || units != [];
    }
    var found: bool;
    found, more := ReadChunk(m, start, address, units);
    if found {
      EndsInChunk(m, start, address, units, block, characters, more);
      return Some(if characters + |more| > MAX_CHARACTERS then Failed(TooMuchText) else Text(more)), next, more;
    }
    GoesOn(m, start, address, units, block, more);
    return None, next, more;
  }

  lemma EndsInChunk(
    m: Image, start: nat, address: nat, units: seq<nat>, block: nat, characters: nat, more: seq<nat>)
    requires Reading(m, start, address, units, block) && block < BLOCKS && LOWEST_ADDRESS <= start
    requires Readable(m, address, ChunkSize(address))
    requires exists n: nat :: Terminator(m, start, n) && more == Units(m, start, n)
                              && address <= start + 2 * n < address + ChunkSize(address)
    ensures RightResult(m, start, characters,
              if characters + |more| > MAX_CHARACTERS then Failed(TooMuchText) else Text(more))
  {
    var n: nat :| Terminator(m, start, n) && more == Units(m, start, n)
                  && address <= start + 2 * n < address + ChunkSize(address);
    FoundIsReachable(m, start, address, units, block, n);
    FoundIsRight(m, start, characters, n);
  }

  lemma GoesOn(m: Image, start: nat, address: nat, units: seq<nat>, block: nat, more: seq<nat>)
    requires Reading(m, start, address, units, block)
    requires ReadSoFar(m, start, address + ChunkSize(address), more)
    ensures Reading(m, start, address + ChunkSize(address), more, block + 1)
  {
    ProgressStep(start, address, block);
    NextIsEven(address);
  }

  lemma NextIsEven(address: nat)
    requires address % 2 == 0
    ensures (address + ChunkSize(address)) % 2 == 0
  {
    ChunkStaysInPage(address);
    EvenSum(address, ChunkSize(address));
  }

  lemma EvenSum(a: nat, b: nat)
    requires a % 2 == 0 && b % 2 == 0
    ensures (a + b) % 2 == 0
  {
  }

  /**
  The whole string: exactly the code units before the first zero unit, if and only if that unit
  lies within reach; no read crosses a page, and none touches a page beyond the terminator's.
  */
  method ReadText(m: Image, start: nat, characters: nat) returns (r: TextResult, ghost log: seq<Extent>)
    requires start % 2 == 0
    ensures RightResult(m, start, characters, r)
    ensures |log| <= BLOCKS && RightReads(m, start, log)
  {
    log := [];
    var address: nat, units: seq<nat> := start, [];
    for block := 0 to BLOCKS
      invariant Reading(m, start, address, units, block)
      invariant |log| == block && RightReads(m, start, log)
    {
      NextReadIsRight(m, start, address, units);
      log := log + [Extent(address, ChunkSize(address))];
      var done, next, more := ReadBlock(m, start, address, units, characters, block);
      if done.Some? {
        return done.value, log;
      }
      address, units := next, more;
    }
    CoveredAtTheEnd(start, address);
    UnterminatedIsRight(m, start, address, units, characters);
    return Failed(Unterminated), log;
  }

  /** Every string of up to 1023 * 128 code units is short enough, wherever it starts. */
  lemma PromisedLength(m: Image, start: nat, n: nat)
    requires start % 2 == 0 && n <= 1023 * 128 && Terminator(m, start, n)
    requires LOWEST_ADDRESS <= start && start + 2 * n < LIMIT
    requires forall a :: start <= a <= start + 2 * n ==> PageMapped(m, a)
    ensures Reachable(m, start, n)
  {
    assert start % CHUNK <= CHUNK - 2 by {
      assert start == start / CHUNK * CHUNK + start % CHUNK;
    }
  }

  predicate High(u: nat) { 0xd800 <= u < 0xdc00 }

  predicate Low(u: nat) { 0xdc00 <= u < 0xe000 }

  /** What a strict UTF-16 decoder accepts: surrogates only in pairs. */
  predicate WellFormed(units: seq<nat>) {
    forall i :: 0 <= i < |units| ==> Paired(units, i)
  }

  predicate Paired(units: seq<nat>, i: int)
    requires 0 <= i < |units|
  {
    (High(units[i]) ==> i + 1 < |units| && Low(units[i + 1])) && (Low(units[i]) ==> i > 0 && High(units[i - 1]))
  }

  datatype Cell = Empty | Number(text: string) | Label(units: seq<nat>) | Refused(reason: Reason)

  const RECORD := 10

  function RecordAt(m: Image, data: nat): (record: seq<Byte>)
    ensures |record| == RECORD
  {
    seq<Byte>(RECORD, k requires 0 <= k < RECORD => m.bytes(data + k))
  }

  /** Bytes 2 to 5 of a cell record, as an unsigned and as a signed word. */
  function Word(record: seq<Byte>): nat
    requires |record| == RECORD
  {
    record[2] as int + 256 * (record[3] as int) + 0x1_0000 * (record[4] as int) + 0x100_0000 * (record[5] as int)
  }

  function Signed(word: nat): int { if word < 0x8000_0000 then word else word - 0x1_0000_0000 }

  // ---------- decimal numbers ----------

  function Digit(d: nat): char
    requires d < 10
  {
    '0' + d as char
  }

  function Digits(n: nat): (text: string)
    ensures text != []
  {
    if n < 10 then [Digit(n)] else Digits(n / 10) + [Digit(n % 10)]
  }

  /** The invariant culture's spelling: a minus sign, no leading zeros, nothing else. */
  function Decimal(value: int): string { if value < 0 then ['-'] + Digits(-value) else Digits(value) }

  predicate AllDigits(text: string) { text != [] && forall i :: 0 <= i < |text| ==> '0' <= text[i] <= '9' }

  function NatOf(text: string): nat
    requires forall i :: 0 <= i < |text| ==> '0' <= text[i] <= '9'
  {
    if text == [] then 0 else 10 * NatOf(text[..|text| - 1]) + (text[|text| - 1] - '0') as nat
  }

  lemma {:induction false} DigitsAreRead(n: nat)
    ensures AllDigits(Digits(n)) && NatOf(Digits(n)) == n
    ensures n > 0 ==> Digits(n)[0] != '0'
  {
    if n >= 10 {
      DigitsAreRead(n / 10);
      var front := Digits(n / 10);
      assert Digits(n)[..|front|] == front;
    } else {
      assert Digits(n)[..0] == [];
    }
  }

  /** The spelling can be read back: it shows the value, and shows it one way. */
  lemma DecimalIsRead(value: int)
    ensures var text := Decimal(value);
            && (value < 0 <==> text[0] == '-')
            && (value >= 0 ==> AllDigits(text) && NatOf(text) == value)
            && (value < 0 ==> AllDigits(text[1..]) && NatOf(text[1..]) == -value)
  {
    if value < 0 {
      DigitsAreRead(-value);
      assert Decimal(value)[1..] == Digits(-value);
    } else {
      DigitsAreRead(value);
    }
  }

  /** The texts that make a label: within reach, within the bound, and well formed. */
  ghost predicate LabelAt(m: Image, start: nat, characters: nat, n: nat) {
    Reachable(m, start, n) && characters + n <= MAX_CHARACTERS && WellFormed(Units(m, start, n))
  }

  /**
  One cell: nothing, a number, or the text its record points at; every other record is refused. `total` is the
  count of characters read so far, which bounds all the texts of a table together.
  */
  method ReadCell(m: Image, data: nat, characters: nat) returns (cell: Cell, total: nat)
    ensures cell == Refused(Unreadable) || Readable(m, data, RECORD)
    ensures var record := RecordAt(m, data);
            Readable(m, data, RECORD) ==>
              && (cell == Empty <==> record[0] == 0)
              && (cell.Number? <==> record[0] == 5)
              && (cell.Number? ==> cell.text == Decimal(Signed(Word(record))))
              && (cell.Label? <==> record[0] == 2 && Word(record) % 2 == 0
                                   && exists n: nat :: LabelAt(m, Word(record), characters, n))
              && forall n: nat :: cell.Label? && Reachable(m, Word(record), n) ==>
                cell.units == Units(m, Word(record), n)
    ensures total == characters + if cell.Label? then |cell.units| else 0
    ensures cell.Label? ==> total <= MAX_CHARACTERS
  {
    total := characters;
    if !Readable(m, data, RECORD) {
      return Refused(Unreadable), total;
    }
    var record := RecordAt(m, data);
    if record[0] == 0 {
      return Empty, total;
    }
    if record[0] == 5 {
      return Number(Decimal(Signed(Word(record)))), total;
    }
    if record[0] != 2 {
      return Refused(UnknownFormat), total;
    }
    var start := Word(record);
    if start % 2 != 0 {
      return Refused(Misaligned), total;
    }
    cell := ReadLabel(m, start, characters);
    if cell.Label? {
      total := total + |cell.units|;
    }
  }

  method ReadLabel(m: Image, start: nat, characters: nat) returns (cell: Cell)
    requires start % 2 == 0
    ensures cell.Label? || cell.Refused?
    ensures cell.Label? <==> exists n: nat :: LabelAt(m, start, characters, n)
    ensures forall n: nat :: cell.Label? && Reachable(m, start, n) ==> cell.units == Units(m, start, n)
    ensures cell.Label? ==> characters + |cell.units| <= MAX_CHARACTERS
  {
    var text, _ := ReadText(m, start, characters);
    if text.Failed? {
      return Refused(text.reason);
    }
    ghost var n: nat :| Reachable(m, start, n);
    assert WellFormed(text.units) ==> LabelAt(m, start, characters, n);
    return if WellFormed(text.units) then Label(text.units) else Refused(BadEncoding);
  }
}
