/** The CRC of PNG chunks (section 3.4 of RFC 2083), table-driven and bit by bit, against division of polynomials over
    two elements. */
module Crc {
  import opened Common

  /** A 32-bit word, least significant bit first. As a polynomial, bit i is the coefficient of x^(31 - i). */
  type Word = w: seq<bool> | |w| == 32 witness seq(32, _ => false)

  function Zeros(n: nat): seq<bool> {
    seq(n, _ => false)
  }

  function Xor(a: seq<bool>, b: seq<bool>): (c: seq<bool>)
    requires |a| == |b|
    ensures |c| == |a|
  {
    seq(|a|, i requires 0 <= i < |a| => a[i] != b[i])
  }

  /** The k lowest binary digits of a number. */
  function Bits(n: nat, k: nat): (s: seq<bool>)
    ensures |s| == k
    decreases k
  {
    if k == 0 then [] else [n % 2 == 1] + Bits(n / 2, k - 1)
  }

  function Value(s: seq<bool>): nat {
    if s == [] then 0 else (if s[0] then 1 else 0) + 2 * Value(s[1..])
  }

  /** The word of a number, and the bits in a byte; named, so that no proof counts them out. */
  function WordOf(n: nat): Word {
    Bits(n, Width())
  }

  function Width(): nat {
    32
  }

  function Octet(): nat {
    8
  }

  lemma {:induction false} BitsOfZero(k: nat)
    ensures Bits(0, k) == Zeros(k)
  {
    if k != 0 {
      BitsOfZero(k - 1);
      assert Zeros(k) == [false] + Zeros(k - 1);
    }
  }

  lemma {:induction false} BitsOfValue(s: seq<bool>, j: nat)
    ensures Bits(Value(s), |s| + j) == s + Zeros(j)
  {
    if s == [] {
      BitsOfZero(j);
      assert s + Zeros(j) == Zeros(j);
    } else {
      BitsOfValue(s[1..], j);
      assert s + Zeros(j) == [s[0]] + (s[1..] + Zeros(j));
    }
  }

  lemma {:induction false} ValueOfBits(n: nat, k: nat, bound: nat)
    requires n < bound && bound == Power(k)
    ensures Value(Bits(n, k)) == n
  {
    if k != 0 {
      ValueOfBits(n / 2, k - 1, Power(k - 1));
    }
  }

  function Power(k: nat): nat {
    if k == 0 then 1 else 2 * Power(k - 1)
  }

  lemma {:induction false} ValueIsBelow(s: seq<bool>)
    ensures Value(s) < Power(|s|)
  {
    if s != [] {
      ValueIsBelow(s[1..]);
    }
  }

  /** A byte in a word has no high bits. */
  lemma ByteInWord(b: byte)
    ensures WordOf(b) == Bits(b, Octet()) + Zeros(24) && Value(Bits(b, Octet())) == b
  {
    assert Power(8) == 256;
    ValueOfBits(b, Octet(), 256);
    BitsOfValue(Bits(b, Octet()), 24);
  }

  // ---- Polynomials ----

  /** The divisor's exponents below 32. */
  const EXPONENTS: set<nat> := {26, 23, 22, 16, 12, 11, 10, 8, 7, 5, 4, 2, 1, 0}

  /** The divisor less its term x^32, as a word. */
  function Divisor(): Word {
    seq(32, i requires 0 <= i < 32 => 31 - i in EXPONENTS)
  }

  /** The same as the programs write it. */
  const REFLECTED: nat := 0xedb8_8320

  function Digit(b: bool): nat {
    if b then 1 else 0
  }

  lemma ValueOfNibble(a: bool, b: bool, c: bool, d: bool, rest: seq<bool>)
    ensures Value([a, b, c, d] + rest) == Digit(a) + 2 * Digit(b) + 4 * Digit(c) + 8 * Digit(d) + 16 * Value(rest)
  {
    assert ([d] + rest)[1..] == rest;
    assert ([c, d] + rest)[1..] == [d] + rest;
    assert Value([c, d] + rest) == Digit(c) + 2 * Digit(d) + 4 * Value(rest);
    assert ([b, c, d] + rest)[1..] == [c, d] + rest;
    assert ([a, b, c, d] + rest)[1..] == [b, c, d] + rest;
  }

  /** The constant of the programs is the divisor: each half from its highest digit down. */
  lemma DivisorIsConstant(c: nat)
    requires c == REFLECTED
    ensures Divisor() == WordOf(c)
  {
    var high := DivisorHigh();
    var low := DivisorLow(high);
    BitsOfValue(low, 0);
    assert low + Zeros(0) == low;
    assert Divisor() == low;
  }

  lemma DivisorHigh() returns (s: seq<bool>)
    ensures |s| == 16 && Value(s) == 0xedb8 && forall i :: 0 <= i < 16 ==> s[i] == (15 - i in EXPONENTS)
  {
    s := [false, true, true, true] + [];
    ValueOfNibble(false, true, true, true, []);
    ValueOfNibble(true, false, true, true, s);
    s := [true, false, true, true] + s;
    ValueOfNibble(true, true, false, true, s);
    s := [true, true, false, true] + s;
    ValueOfNibble(false, false, false, true, s);
    s := [false, false, false, true] + s;
  }

  lemma DivisorLow(high: seq<bool>) returns (s: seq<bool>)
    requires Value(high) == 0xedb8
    ensures |s| == 16 + |high| && s[16..] == high && Value(s) == 0xedb8_8320
    ensures forall i :: 0 <= i < 16 ==> s[i] == (31 - i in EXPONENTS)
  {
    s := [false, false, false, true] + high;
    ValueOfNibble(false, false, false, true, high);
    ValueOfNibble(true, true, false, false, s);
    s := [true, true, false, false] + s;
    ValueOfNibble(false, true, false, false, s);
    s := [false, true, false, false] + s;
    ValueOfNibble(false, false, false, false, s);
    s := [false, false, false, false] + s;
  }

  /** Times x, reduced by the divisor: the register moved by one bit. */
  function Shift(c: Word): Word {
    var up := c[1..] + [false];
    if c[0] then Xor(Divisor(), up) else up
  }

  function Shifts(c: Word, n: nat): Word
    decreases n
  {
    if n == 0 then c else Shifts(Shift(c), n - 1)
  }

  lemma ShiftIsLinear(a: Word, b: Word)
    ensures Shift(Xor(a, b)) == Xor(Shift(a), Shift(b))
  {
  }

  lemma {:induction false} ShiftsAreLinear(a: Word, b: Word, n: nat)
    ensures Shifts(Xor(a, b), n) == Xor(Shifts(a, n), Shifts(b, n))
    decreases n
  {
    if n != 0 {
      ShiftIsLinear(a, b);
      ShiftsAreLinear(Shift(a), Shift(b), n - 1);
    }
  }

  /** `>>>`. */
  function Down(c: Word, n: nat): Word
    requires n <= 32
  {
    c[n..] + Zeros(n)
  }

  /** Zero low bits are shifted out untouched. */
  lemma {:induction false} LowZerosFall(c: Word, n: nat)
    requires n <= 32 && c[..n] == Zeros(n)
    ensures Shifts(c, n) == Down(c, n)
    decreases n
  {
    if n != 0 {
      assert !c[0] && Shift(c) == Down(c, 1);
      assert Shift(c)[..n - 1] == Zeros(n - 1);
      LowZerosFall(Shift(c), n - 1);
      assert Down(Down(c, 1), n - 1) == Down(c, n);
    } else {
      assert Down(c, 0) == c;
    }
  }

  /** One byte, bit by bit. */
  function BitStep(c: Word, b: byte): Word {
    Shifts(Xor(c, WordOf(b)), Octet())
  }

  function TableEntry(n: nat): Word {
    Shifts(WordOf(n), Octet())
  }

  /** `c & 255`. */
  function LowByte(c: Word): (n: nat)
    ensures n < 256
  {
    ValueIsBelow(c[..8]);
    assert Power(8) == 256;
    Value(c[..8])
  }

  /** One byte, through the table of the 256 eight-bit shifts. */
  function TableStep(c: Word, b: byte): Word {
    Xor(TableEntry(LowByte(Xor(c, WordOf(b)))), Down(c, 8))
  }

  /** A word is its low byte and the rest. */
  lemma SplitWord(x: Word) returns (low: Word, high: Word)
    ensures low == x[..8] + Zeros(24) && x == Xor(low, high)
    ensures high[..8] == Zeros(8) && Down(high, 8) == Down(x, 8)
  {
    low, high := x[..8] + Zeros(24), Zeros(8) + x[8..];
  }

  /** The byte is gone from the part that is only moved down. */
  lemma ByteIsLow(c: Word, b: byte)
    ensures Down(Xor(c, WordOf(b)), 8) == Down(c, 8)
  {
    ByteInWord(b);
  }

  lemma TableStepIsBitStep(c: Word, b: byte)
    ensures TableStep(c, b) == BitStep(c, b)
  {
    var x := Xor(c, WordOf(b));
    var low, high := SplitWord(x);
    ShiftsAreLinear(low, high, Octet());
    BitsOfValue(x[..8], 24);
    LowZerosFall(high, Octet());
    ByteIsLow(c, b);
  }

  function Register(c: Word, data: seq<byte>): Word {
    if data == [] then c else BitStep(Register(c, data[..|data| - 1]), data[|data| - 1])
  }

  function Ones(): Word {
    seq(32, _ => true)
  }

  function Crc(data: seq<byte>): Word {
    Xor(Register(Ones(), data), Ones())
  }

  // ---- The programs ----

  /** One round of the shift loop, as the programs write it. */
  method ShiftOnce(c: Word) returns (r: Word)
    ensures r == Shift(c)
  {
    DivisorIsConstant(REFLECTED);
    var constant := WordOf(REFLECTED);
    assert c[1..] + Zeros(1) == c[1..] + [false];
    r := if c[0] then Xor(constant, Down(c, 1)) else Down(c, 1);
  }

  /** The inner loop of eight rounds. */
  method ShiftEight(start: Word) returns (c: Word)
    ensures c == Shifts(start, Octet())
  {
    c := start;
    for k := 0 to Octet()
      invariant Shifts(c, Octet() - k) == Shifts(start, Octet())
    {
      c := ShiftOnce(c);
    }
  }

  /** The table of the eight-bit shifts of every byte. */
  ghost predicate IsTable(table: seq<Word>, n: nat) {
    n <= |table| && forall m {:trigger table[m]} :: 0 <= m < n ==> table[m] == TableEntry(m)
  }

  method MakeTable() returns (table: array<Word>)
    ensures fresh(table) && table.Length == 256 && IsTable(table[..], 256)
  {
    var blank: Word := Zeros(32);
    table := new Word[256](_ => blank);
    for n := 0 to 256
      invariant IsTable(table[..], n)
    {
      FillEntry(table, n);
    }
  }

  method FillEntry(table: array<Word>, n: nat)
    requires n < table.Length && IsTable(table[..], n)
    modifies table
    ensures IsTable(table[..], n + 1)
  {
    var c := ShiftEight(WordOf(n));
    assert c == TableEntry(n);
    table[n] := c;
  }

  /** One byte through the table. */
  method TableRound(table: array<Word>, c: Word, b: byte) returns (next: Word)
    requires table.Length == 256 && IsTable(table[..], 256)
    ensures next == BitStep(c, b)
  {
    var index := LowByte(Xor(c, WordOf(b)));
    assert table[..][index] == TableEntry(index);
    next := Xor(table[index], Down(c, 8));
    TableStepIsBitStep(c, b);
  }

  method TableCrc(table: array<Word>, data: seq<byte>) returns (crc: Word)
    requires table.Length == 256 && IsTable(table[..], 256)
    ensures crc == Crc(data)
  {
    var c := Ones();
    for i := 0 to |data|
      invariant c == Register(Ones(), data[..i])
    {
      assert data[..i + 1][..i] == data[..i];
      c := TableRound(table, c, data[i]);
    }
    assert data[..|data|] == data;
    crc := Xor(c, Ones());
  }

  method BitCrc(data: seq<byte>) returns (crc: Word)
    ensures crc == Crc(data)
  {
    var c := Ones();
    for i := 0 to |data|
      invariant c == Register(Ones(), data[..i])
    {
      assert data[..i + 1][..i] == data[..i];
      c := ShiftEight(Xor(c, WordOf(data[i])));
    }
    assert data[..|data|] == data;
    crc := Xor(c, Ones());
  }

  // ---- Division of polynomials ----

  /** The bits of the data in the order they are processed: each byte from its least significant bit. */
  function Stream(data: seq<byte>): seq<bool> {
    if data == [] then [] else Stream(data[..|data| - 1]) + Bits(data[|data| - 1], Octet())
  }

  /** x^(31 - i). */
  function Unit(i: nat): Word
    requires i < 32
  {
    seq(32, j => j == i)
  }

  function Bit(b: bool, i: nat): Word
    requires i < 32
  {
    if b then Unit(i) else Zeros(32)
  }

  /** The remainder of m * x + bit, from that of m. */
  function NextRemainder(r: Word, bit: bool): Word {
    Xor(Shift(r), Bit(bit, 31))
  }

  /** The remainder of a polynomial, given from its highest coefficient, by Horner's rule. */
  function Remainder(m: seq<bool>): Word {
    if m == [] then Zeros(32) else NextRemainder(Remainder(m[..|m| - 1]), m[|m| - 1])
  }

  /** The quotient's coefficients: one whenever the division takes the divisor away. */
  function Quotient(m: seq<bool>): (q: seq<bool>)
    ensures |q| == |m|
  {
    if m == [] then [] else Quotient(m[..|m| - 1]) + [Remainder(m[..|m| - 1])[0]]
  }

  /** A product of q with the divisor becomes that of q * x + bit. */
  function NextProduct(p: seq<bool>, bit: bool): (p': seq<bool>)
    requires 32 <= |p|
    ensures |p'| == |p| + 1
  {
    if bit then Xor(p + [false], Zeros(|p| - 32) + [true] + Divisor()) else p + [false]
  }

  /** A polynomial times the divisor, 32 coefficients longer. */
  function TimesDivisor(q: seq<bool>): (p: seq<bool>)
    ensures |p| == |q| + 32
  {
    if q == [] then Zeros(32) else NextProduct(TimesDivisor(q[..|q| - 1]), q[|q| - 1])
  }

  /** One more coefficient of the dividend. */
  lemma DivisionStep(m: seq<bool>, p: seq<bool>, r: Word, last: bool, k: nat)
    requires |m| == |p| == k + 32 && m == Xor(p, Zeros(k) + r)
    ensures m + [last] == Xor(NextProduct(p, r[0]), Zeros(k + 1) + NextRemainder(r, last))
  {
    var p', r' := NextProduct(p, r[0]), NextRemainder(r, last);
    forall i | 0 <= i < k + 33
      ensures (m + [last])[i] == (p'[i] != (Zeros(k + 1) + r')[i])
    {
      if i < k {
      } else if i == k {
      } else if i < k + 32 {
        var j := i - k - 1;
        assert r'[j] == (r[j + 1] != (r[0] && Divisor()[j]));
      } else {
        assert r'[31] == (last != (r[0] && Divisor()[31]));
      }
    }
  }

  lemma ProductOfQuotient(m: seq<bool>, last: bool)
    ensures TimesDivisor(Quotient(m + [last])) == NextProduct(TimesDivisor(Quotient(m)), Remainder(m)[0])
    ensures Remainder(m + [last]) == NextRemainder(Remainder(m), last)
  {
    assert (m + [last])[..|m|] == m;
    assert Quotient(m + [last])[..|m|] == Quotient(m);
  }

  /** The polynomial is quotient * divisor + remainder. */
  ghost predicate Divides(m: seq<bool>) {
    Zeros(32) + m == Xor(TimesDivisor(Quotient(m)), Zeros(|m|) + Remainder(m))
  }

  lemma DivisionOfNothing()
    ensures Divides([])
  {
    assert Zeros(32) + [] == Zeros(32) == Zeros(0) + Zeros(32);
  }

  lemma DivisionOfAppend(n: seq<bool>, last: bool)
    requires Divides(n)
    ensures Divides(n + [last])
  {
    ProductOfQuotient(n, last);
    DivisionStep(Zeros(32) + n, TimesDivisor(Quotient(n)), Remainder(n), last, |n|);
    assert Zeros(32) + (n + [last]) == (Zeros(32) + n) + [last];
  }

  /** Division: m = q * divisor + r, with r of degree below 32. */
  lemma {:induction false} DivisionIsExact(m: seq<bool>)
    ensures Divides(m)
  {
    if m == [] {
      DivisionOfNothing();
    } else {
      var n, last := m[..|m| - 1], m[|m| - 1];
      assert m == n + [last];
      DivisionIsExact(n);
      DivisionOfAppend(n, last);
    }
  }

  // ---- The register is a remainder ----

  /** The register fed one bit, as the standard describes it: the bit is added to the coefficient of x^31. */
  function Feed(c: Word, bit: bool): Word {
    Shift(Xor(c, Bit(bit, 0)))
  }

  function FeedAll(c: Word, bits: seq<bool>): Word {
    if bits == [] then c else Feed(FeedAll(c, bits[..|bits| - 1]), bits[|bits| - 1])
  }

  lemma {:induction false} FeedOfAppend(c: Word, a: seq<bool>, b: seq<bool>)
    ensures FeedAll(c, a + b) == FeedAll(FeedAll(c, a), b)
  {
    if b == [] {
      assert a + b == a;
    } else {
      assert (a + b)[..|a + b| - 1] == a + b[..|b| - 1];
      FeedOfAppend(c, a, b[..|b| - 1]);
    }
  }

  /** A word with these lowest bits. */
  function Low(bits: seq<bool>): Word
    requires |bits| <= 32
  {
    bits + Zeros(32 - |bits|)
  }

  lemma FirstBitFeeds(c: Word, first: bool, rest: seq<bool>)
    requires |rest| < 32
    ensures Shift(Xor(c, Low([first] + rest))) == Xor(Feed(c, first), Low(rest))
  {
    var later := Low([false] + rest);
    assert Xor(c, Low([first] + rest)) == Xor(Xor(c, Bit(first, 0)), later);
    ShiftIsLinear(Xor(c, Bit(first, 0)), later);
    assert Shift(later) == Low(rest);
  }

  /** Adding several bits at once and then shifting is feeding them one by one. */
  lemma {:induction false} ShiftsFeed(c: Word, bits: seq<bool>)
    requires |bits| <= 32
    ensures Shifts(Xor(c, Low(bits)), |bits|) == FeedAll(c, bits)
    decreases |bits|
  {
    if bits == [] {
      assert Xor(c, Low([])) == c;
    } else {
      assert [bits[0]] + bits[1..] == bits && [bits[0]][..0] == [];
      FirstBitFeeds(c, bits[0], bits[1..]);
      ShiftsFeed(Feed(c, bits[0]), bits[1..]);
      FeedOfAppend(c, [bits[0]], bits[1..]);
    }
  }

  lemma ByteIsFed(c: Word, b: byte)
    ensures BitStep(c, b) == FeedAll(c, Bits(b, Octet()))
  {
    ByteInWord(b);
    ShiftsFeed(c, Bits(b, Octet()));
  }

  lemma {:induction false} RegisterIsFed(c: Word, data: seq<byte>)
    ensures Register(c, data) == FeedAll(c, Stream(data))
  {
    if data != [] {
      var init, b := data[..|data| - 1], data[|data| - 1];
      RegisterIsFed(c, init);
      ByteIsFed(Register(c, init), b);
      FeedOfAppend(c, Stream(init), Bits(b, Octet()));
    }
  }

  lemma {:induction false} ShiftsOfUnit(i: nat)
    requires i < 32
    ensures Shifts(Unit(31), 31 - i) == Unit(i)
    decreases 31 - i
  {
    if i < 31 {
      ShiftsOfUnit(i + 1);
      ShiftLast(Unit(31), 30 - i);
      assert Shift(Unit(i + 1)) == Unit(i);
    }
  }

  /** The order of shifts does not matter: the last one can be taken out. */
  lemma {:induction false} ShiftLast(c: Word, n: nat)
    ensures Shifts(c, n + 1) == Shift(Shifts(c, n)) == Shifts(Shift(c), n)
    decreases n
  {
    if n != 0 {
      ShiftLast(Shift(c), n - 1);
    }
  }

  /** x^32 leaves the divisor's lower terms. */
  lemma TopUnit()
    ensures Shifts(Unit(31), Width()) == Divisor() == Shift(Unit(0))
  {
    ShiftsOfUnit(0);
    ShiftLast(Unit(31), Width() - 1);
    assert Unit(0)[1..] + [false] == Zeros(32);
    assert Xor(Divisor(), Zeros(32)) == Divisor();
  }

  lemma {:induction false} ShiftsOfZero(n: nat)
    ensures Shifts(Zeros(32), n) == Zeros(32)
  {
    if n != 0 {
      assert Shift(Zeros(32)) == Zeros(32);
      ShiftsOfZero(n - 1);
    }
  }

  lemma ShiftsOfBit(bit: bool)
    ensures Shifts(Bit(bit, 31), Width()) == Shift(Bit(bit, 0))
  {
    TopUnit();
    ShiftsOfZero(Width());
    assert Shift(Zeros(32)) == Zeros(32);
  }

  lemma Regroup(a: Word, b: Word, c: Word)
    ensures Xor(Xor(a, b), c) == Xor(a, Xor(b, c))
  {
  }

  /** The register after n bits is the remainder of start * x^n + message * x^32. */
  lemma {:induction false} RegisterIsRemainder(c: Word, bits: seq<bool>)
    ensures FeedAll(c, bits) == Xor(Shifts(c, |bits|), Shifts(Remainder(bits), Width()))
  {
    if bits == [] {
      ShiftsOfZero(Width());
      assert Xor(c, Zeros(32)) == c;
    } else {
      var init, bit := bits[..|bits| - 1], bits[|bits| - 1];
      RegisterIsRemainder(c, init);
      RemainderStep(Shifts(c, |init|), Remainder(init), bit);
      ShiftLast(c, |init|);
    }
  }

  lemma RemainderStep(a: Word, r: Word, bit: bool)
    ensures Feed(Xor(a, Shifts(r, Width())), bit) == Xor(Shift(a), Shifts(NextRemainder(r, bit), Width()))
  {
    var b, d := Shifts(r, Width()), Shift(Bit(bit, 0));
    ShiftIsLinear(Xor(a, b), Bit(bit, 0));
    ShiftIsLinear(a, b);
    ShiftLast(r, Width());
    ShiftsAreLinear(Shift(r), Bit(bit, 31), Width());
    ShiftsOfBit(bit);
    Regroup(Shift(a), Shift(b), d);
  }

  lemma RegisterAtEnd(data: seq<byte>)
    ensures var m := Stream(data);
            Crc(data) == Xor(Xor(Shifts(Ones(), |m|), Shifts(Remainder(m), Width())), Ones())
  {
    RegisterIsFed(Ones(), data);
    RegisterIsRemainder(Ones(), Stream(data));
  }

  /** Times x^k, divided. */
  ghost predicate RaisedIsShifted(m: seq<bool>, k: nat) {
    Remainder(m + Zeros(k)) == Shifts(Remainder(m), k)
  }

  lemma RaisedByNothing(m: seq<bool>)
    ensures RaisedIsShifted(m, 0)
  {
    assert m + Zeros(0) == m;
  }

  lemma RaisedOnce(m: seq<bool>, k: nat)
    requires RaisedIsShifted(m, k)
    ensures RaisedIsShifted(m, k + 1)
  {
    var r := Remainder(m);
    assert m + Zeros(k + 1) == (m + Zeros(k)) + [false];
    ProductOfQuotient(m + Zeros(k), false);
    NextOfZero(Shifts(r, k));
    ShiftLast(r, k);
  }

  lemma RemainderOfRaised(m: seq<bool>, k: nat)
    ensures RaisedIsShifted(m, k)
  {
    RaisedByNothing(m);
    for i := 0 to k
      invariant RaisedIsShifted(m, i)
    {
      RaisedOnce(m, i);
    }
  }

  lemma NextOfZero(r: Word)
    ensures NextRemainder(r, false) == Shift(r)
  {
  }

  lemma BitOfXor(a: bool, b: bool)
    ensures Bit(a != b, 31) == Xor(Bit(a, 31), Bit(b, 31))
  {
  }

  lemma NextIsLinear(r: Word, t: Word, a: bool, b: bool)
    ensures NextRemainder(Xor(r, t), a != b) == Xor(NextRemainder(r, a), NextRemainder(t, b))
  {
    ShiftIsLinear(r, t);
    BitOfXor(a, b);
    SwapMiddle(Shift(r), Shift(t), Bit(a, 31), Bit(b, 31));
  }

  lemma SwapMiddle(a: Word, b: Word, c: Word, d: Word)
    ensures Xor(Xor(a, b), Xor(c, d)) == Xor(Xor(a, c), Xor(b, d))
  {
  }

  lemma {:induction false} RemainderIsLinear(m: seq<bool>, n: seq<bool>)
    requires |m| == |n|
    ensures Remainder(Xor(m, n)) == Xor(Remainder(m), Remainder(n))
  {
    if m == [] {
      assert Xor(Zeros(32), Zeros(32)) == Zeros(32);
    } else {
      var k := |m| - 1;
      RemainderIsLinear(m[..k], n[..k]);
      assert Xor(m, n)[..k] == Xor(m[..k], n[..k]);
      NextIsLinear(Remainder(m[..k]), Remainder(n[..k]), m[k], n[k]);
    }
  }

  /** A polynomial of degree below 32 is its own remainder. */
  lemma {:induction false} RemainderOfShort(m: seq<bool>)
    requires |m| <= Width()
    ensures Remainder(m) == Zeros(Width() - |m|) + m
  {
    if m == [] {
      assert Zeros(32) + m == Zeros(32);
    } else {
      var k := |m| - 1;
      RemainderOfShort(m[..k]);
      assert m == m[..k] + [m[k]];
      ShortStep(m[..k], m[k]);
    }
  }

  lemma ShortStep(m: seq<bool>, bit: bool)
    requires |m| < Width()
    ensures NextRemainder(Zeros(Width() - |m|) + m, bit) == Zeros(Width() - |m| - 1) + (m + [bit])
  {
    var r: Word := Zeros(Width() - |m|) + m;
    assert Shift(r) == r[1..] + [false];
  }

  /** The polynomial that section 3.4 divides: the message times x^32, with the ones the register starts from added to
      its 32 highest coefficients. */
  function Dividend(data: seq<byte>): seq<bool> {
    var m := Stream(data);
    Xor(m + Zeros(Width()), Ones() + Zeros(|m|))
  }

  /** The CRC is the complement of the remainder of one division. */
  lemma CrcIsRemainder(data: seq<byte>)
    ensures Crc(data) == Xor(Remainder(Dividend(data)), Ones())
  {
    var m := Stream(data);
    RegisterAtEnd(data);
    RemainderOfDividend(m);
    XorSwaps(Shifts(Ones(), |m|), Shifts(Remainder(m), Width()));
  }

  lemma RemainderOfDividend(m: seq<bool>)
    ensures Remainder(Xor(m + Zeros(Width()), Ones() + Zeros(|m|)))
         == Xor(Shifts(Remainder(m), Width()), Shifts(Ones(), |m|))
  {
    RemainderOfRaised(m, Width());
    RemainderOfRaised(Ones(), |m|);
    OnesAreShort();
    RemainderIsLinear(m + Zeros(Width()), Ones() + Zeros(|m|));
  }

  lemma OnesAreShort()
    ensures Remainder(Ones()) == Ones()
  {
    RemainderOfShort(Ones());
    assert Zeros(0) + Ones() == Ones();
  }

  lemma XorSwaps(a: Word, b: Word)
    ensures Xor(a, b) == Xor(b, a)
  {
  }

  // ---- What the CRC notices ----

  /** The lowest coefficient of a moved register tells what fell out, so nothing is lost. */
  lemma ShiftIsInjective(a: Word, b: Word)
    requires Shift(a) == Shift(b)
    ensures a == b
  {
    assert Divisor()[31];
    assert Shift(a)[31] == a[0] && Shift(b)[31] == b[0];
    forall i | 0 <= i < 32
      ensures a[i] == b[i]
    {
      if i != 0 {
        assert Shift(a)[i - 1] == (a[i] != (a[0] && Divisor()[i - 1]));
        assert Shift(b)[i - 1] == (b[i] != (b[0] && Divisor()[i - 1]));
      }
    }
  }

  lemma {:induction false} ShiftsAreInjective(a: Word, b: Word, n: nat)
    requires Shifts(a, n) == Shifts(b, n)
    ensures a == b
    decreases n
  {
    if n != 0 {
      ShiftsAreInjective(Shift(a), Shift(b), n - 1);
      ShiftIsInjective(a, b);
    }
  }

  lemma XorIsInjective(a: Word, b: Word, c: Word)
    ensures Xor(a, c) == Xor(b, c) ==> a == b
    ensures Xor(c, a) == Xor(c, b) ==> a == b
  {
    assert forall i :: 0 <= i < 32 ==> a[i] == (Xor(a, c)[i] != c[i]) && b[i] == (Xor(b, c)[i] != c[i]);
    assert forall i :: 0 <= i < 32 ==> a[i] == (Xor(c, a)[i] != c[i]) && b[i] == (Xor(c, b)[i] != c[i]);
  }

  lemma {:induction false} RegisterIsInjective(a: Word, b: Word, data: seq<byte>)
    requires Register(a, data) == Register(b, data)
    ensures a == b
  {
    if data != [] {
      var init, last := data[..|data| - 1], data[|data| - 1];
      var p, q := Register(a, init), Register(b, init);
      ShiftsAreInjective(Xor(p, WordOf(last)), Xor(q, WordOf(last)), Octet());
      XorIsInjective(p, q, WordOf(last));
      RegisterIsInjective(a, b, init);
    }
  }

  lemma {:induction false} RegisterOfAppend(c: Word, a: seq<byte>, b: seq<byte>)
    ensures Register(c, a + b) == Register(Register(c, a), b)
  {
    if b == [] {
      assert a + b == a;
    } else {
      assert (a + b)[..|a + b| - 1] == a + b[..|b| - 1];
      RegisterOfAppend(c, a, b[..|b| - 1]);
    }
  }

  /** A chunk with one byte changed, wherever it is, has another CRC. */
  lemma ChangedByteChangesCrc(a: seq<byte>, x: byte, y: byte, b: seq<byte>)
    ensures Crc(a + [x] + b) == Crc(a + [y] + b) <==> x == y
  {
    var before := Register(Ones(), a);
    RegisterOfAppend(Ones(), a, [x]);
    RegisterOfAppend(Ones(), a, [y]);
    RegisterOfAppend(Ones(), a + [x], b);
    RegisterOfAppend(Ones(), a + [y], b);
    assert [x][..0] == [] && [y][..0] == [];
    var p, q := BitStep(before, x), BitStep(before, y);
    XorIsInjective(Register(p, b), Register(q, b), Ones());
    if Crc(a + [x] + b) == Crc(a + [y] + b) {
      RegisterIsInjective(p, q, b);
      ShiftsAreInjective(Xor(before, WordOf(x)), Xor(before, WordOf(y)), Octet());
      XorIsInjective(WordOf(x), WordOf(y), before);
      WordTellsByte(x);
      WordTellsByte(y);
    }
  }

  lemma WordTellsByte(b: byte)
    ensures Value(WordOf(b)[..8]) == b
  {
    ByteInWord(b);
    assert WordOf(b)[..8] == Bits(b, Octet());
  }
}
