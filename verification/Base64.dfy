/** The base64 coder (src/jepsen/utils/base64.cpp), against the definition by 24-bit groups in
    section 4 of RFC 4648.  Text and data are both sequences of bytes. */
module Base64 {

  type Bytes = seq<bv8>

  const PAD: bv8 := 61

  /** One more than the largest value of the program's size type. */
  const SIZES: nat := 0x1_0000_0000_0000_0000

  // ----- The alphabet -----

  function Symbol(v: bv32): bv8
    requires v < 64
  {
    if v < 26 then 65 + v as bv8          // A to Z
    else if v < 52 then 71 + v as bv8     // a to z
    else if v < 62 then v as bv8 - 4      // 0 to 9
    else if v == 62 then 43               // +
    else 47                               // /
  }

  /** The value of a symbol; 64 for every other byte, those above 127 included. */
  function Value(c: bv8): bv32 {
    if 65 <= c <= 90 then (c - 65) as bv32
    else if 97 <= c <= 122 then (c - 71) as bv32
    else if 48 <= c <= 57 then (c + 4) as bv32
    else if c == 43 then 62
    else if c == 47 then 63
    else 64
  }

  /** White space and padding, which the decoder passes over. */
  predicate Skipped(c: bv8) {
    9 <= c <= 13 || c == 32 || c == PAD
  }

  lemma SymbolHasValue(v: bv32)
    requires v < 64
    ensures Value(Symbol(v)) == v && !Skipped(Symbol(v))
  {
  }

  lemma ValueHasSymbol(c: bv8)
    requires Value(c) < 64
    ensures Symbol(Value(c)) == c && !Skipped(c)
  {
  }

  /** The symbols in their order: the capital letters, the small letters, the digits, plus and slash. */
  lemma SymbolsInOrder()
    ensures [Symbol(0), Symbol(1), Symbol(2), Symbol(3), Symbol(4), Symbol(5), Symbol(6), Symbol(7),
             Symbol(8), Symbol(9), Symbol(10), Symbol(11), Symbol(12), Symbol(13), Symbol(14), Symbol(15),
             Symbol(16), Symbol(17), Symbol(18), Symbol(19), Symbol(20), Symbol(21), Symbol(22), Symbol(23),
             Symbol(24), Symbol(25), Symbol(26), Symbol(27), Symbol(28), Symbol(29), Symbol(30), Symbol(31),
             Symbol(32), Symbol(33), Symbol(34), Symbol(35), Symbol(36), Symbol(37), Symbol(38), Symbol(39),
             Symbol(40), Symbol(41), Symbol(42), Symbol(43), Symbol(44), Symbol(45), Symbol(46), Symbol(47),
             Symbol(48), Symbol(49), Symbol(50), Symbol(51), Symbol(52), Symbol(53), Symbol(54), Symbol(55),
             Symbol(56), Symbol(57), Symbol(58), Symbol(59), Symbol(60), Symbol(61), Symbol(62), Symbol(63)] ==
            [65, 66, 67, 68, 69, 70, 71, 72, 73, 74, 75, 76, 77, 78, 79, 80,
             81, 82, 83, 84, 85, 86, 87, 88, 89, 90, 97, 98, 99, 100, 101, 102,
             103, 104, 105, 106, 107, 108, 109, 110, 111, 112, 113, 114, 115, 116, 117, 118,
             119, 120, 121, 122, 48, 49, 50, 51, 52, 53, 54, 55, 56, 57, 43, 47]
  {
  }

  // ----- Encoding, by groups -----

  /** The byte at `i`, zero past the end. */
  function ByteAt(d: Bytes, i: nat): bv32 {
    if i < |d| then d[i] as bv32 else 0
  }

  function Join(b0: bv32, b1: bv32, b2: bv32): bv32 {
    (b0 << 16) | (b1 << 8) | b2
  }

  /** The `k`-th 24-bit group. */
  function Group(d: Bytes, k: nat): bv32 {
    Join(ByteAt(d, 3 * k), ByteAt(d, 3 * k + 1), ByteAt(d, 3 * k + 2))
  }

  /** The four 6-bit groups of a 24-bit group. */
  function Sextet(group: bv32, j: nat): (v: bv32)
    requires j < 4
    ensures v < 64
  {
    (if j == 0 then group >> 18 else if j == 1 then group >> 12 else if j == 2 then group >> 6 else group) & 0x3f
  }

  /** The 6-bit value at position `j` of the text. */
  function SextetAt(d: Bytes, j: nat): (v: bv32)
    ensures v < 64
  {
    Sextet(Group(d, j / 4), j % 4)
  }

  /** The number of symbols that `n` bytes need, and of bytes of text with the padding. */
  function Symbols(n: nat): nat { (8 * n + 5) / 6 }

  function TextSize(n: nat): nat { (n + 2) / 3 * 4 }

  function Encoded(d: Bytes): (t: Bytes)
    ensures |t| == TextSize(|d|)
    ensures forall j | 0 <= j < |t| :: t[j] == if j < Symbols(|d|) then Symbol(SextetAt(d, j)) else PAD
  {
    seq(TextSize(|d|), j requires 0 <= j => if j < Symbols(|d|) then Symbol(SextetAt(d, j)) else PAD)
  }

  /** The four symbols of three bytes, bit by bit. */
  function Four(b0: bv8, b1: bv8, b2: bv8): (t: Bytes)
    ensures |t| == 4
  {
    [Symbol((b0 >> 2) as bv32),
     Symbol((((b0 & 3) << 4) | (b1 >> 4)) as bv32),
     Symbol((((b1 & 15) << 2) | (b2 >> 6)) as bv32),
     Symbol((b2 & 63) as bv32)]
  }

  lemma SextetsOfBytes(b0: bv8, b1: bv8, b2: bv8)
    ensures var g := Join(b0 as bv32, b1 as bv32, b2 as bv32);
            && Sextet(g, 0) == (b0 >> 2) as bv32
            && Sextet(g, 1) == (((b0 & 3) << 4) | (b1 >> 4)) as bv32
            && Sextet(g, 2) == (((b1 & 15) << 2) | (b2 >> 6)) as bv32
            && Sextet(g, 3) == (b2 & 63) as bv32
  {
  }

  lemma FourSymbols(b0: bv8, b1: bv8, b2: bv8)
    ensures var g := Join(b0 as bv32, b1 as bv32, b2 as bv32);
            Four(b0, b1, b2) == [Symbol(Sextet(g, 0)), Symbol(Sextet(g, 1)), Symbol(Sextet(g, 2)), Symbol(Sextet(g, 3))]
  {
    hide Symbol, Sextet, Join;
    SextetsOfBytes(b0, b1, b2);
  }

  lemma SextetIs(d: Bytes, j: nat)
    requires j < 4
    ensures SextetAt(d, j) == Sextet(Group(d, 0), j)
  {
  }

  /** The first symbols are those of the first bytes, with zeros for the missing ones. */
  lemma FirstFour(d: Bytes)
    ensures [Symbol(SextetAt(d, 0)), Symbol(SextetAt(d, 1)), Symbol(SextetAt(d, 2)), Symbol(SextetAt(d, 3))] ==
            Four(PaddedAt(d, 0), PaddedAt(d, 1), PaddedAt(d, 2))
  {
    hide *;
    SextetIs(d, 0);
    SextetIs(d, 1);
    SextetIs(d, 2);
    SextetIs(d, 3);
    GroupPadded(d, 0);
    FourSymbols(PaddedAt(d, 0), PaddedAt(d, 1), PaddedAt(d, 2));
  }

  /** Three bytes further on, the groups are those of the rest. */
  lemma LaterSextet(d: Bytes, j: nat)
    requires |d| >= 3
    ensures SextetAt(d, j + 4) == SextetAt(d[3..], j)
  {
    hide Sextet, Join;
    assert (j + 4) / 4 == j / 4 + 1 && (j + 4) % 4 == j % 4;
    var k := j / 4;
    forall i: nat ensures ByteAt(d, i + 3) == ByteAt(d[3..], i) {
    }
    assert 3 * (k + 1) == 3 * k + 3;
  }

  lemma StartOf(d: Bytes)
    ensures var t, f := Encoded(d), Four(PaddedAt(d, 0), PaddedAt(d, 1), PaddedAt(d, 2));
            forall j | 0 <= j < |t| && j < Symbols(|d|) && j < 4 :: t[j] == f[j]
  {
    hide Symbol, SextetAt, Four, Symbols, TextSize, PaddedAt;
    FirstFour(d);
  }

  /** Three bytes give four symbols, and the rest follows. */
  lemma EncodedLong(d: Bytes)
    requires |d| >= 3
    ensures Encoded(d) == Four(d[0], d[1], d[2]) + Encoded(d[3..])
  {
    hide Symbol, SextetAt, Four;
    StartOf(d);
    var n := |d| - 3;
    SizesOf(|d|);
    SizesOf(n);
    assert |d| / 3 == n / 3 + 1 && |d| % 3 == n % 3;
    hide Symbols, TextSize;
    var t, rest := Encoded(d), Encoded(d[3..]);
    forall j | 4 <= j < |t| ensures t[j] == rest[j - 4] {
      LaterSextet(d, j - 4);
    }
    assert t[..4] == Four(d[0], d[1], d[2]);
    assert t[4..] == rest;
    assert t == t[..4] + t[4..];
  }

  /** The definition in section 4 of RFC 4648, read from left to right: three bytes give four symbols
      and the rest follows; two give three symbols and one padding, one gives two symbols and two. */
  lemma EncodedByGroups(d: Bytes)
    ensures |d| == 0 ==> Encoded(d) == []
    ensures |d| == 1 ==> Encoded(d) == Four(d[0], 0, 0)[..2] + [PAD, PAD]
    ensures |d| == 2 ==> Encoded(d) == Four(d[0], d[1], 0)[..3] + [PAD]
    ensures |d| >= 3 ==> Encoded(d) == Four(d[0], d[1], d[2]) + Encoded(d[3..])
  {
    hide Symbol, SextetAt, Four;
    if |d| >= 3 {
      EncodedLong(d);
    } else {
      StartOf(d);
    }
  }

  // ----- The encoder -----

  datatype Encoding = Text(text: Bytes) | LengthError | AssertionFailure

  /** A byte enters the accumulator at the right; what leaves on the left is lost. */
  function Push(acc: bv32, b: bv8): bv32 {
    (acc << 8) | (b as bv32 & 0xff)
  }

  /** The six bits above the lowest `bits`. */
  function Pull(acc: bv32, bits: nat): bv32
    requires bits < 32
  {
    (acc >> bits) & 0x3f
  }

  /** The bits that `i` bytes leave over: 0, 2 or 4. */
  function Leftover(i: nat): nat { 2 * (i % 3) }

  /** The accumulator ends in the bytes of the group that has been begun. */
  ghost predicate Holds(d: Bytes, i: nat, acc: bv32)
    requires i <= |d|
  {
    && (i % 3 == 1 ==> acc & 0xff == d[i - 1] as bv32)
    && (i % 3 == 2 ==> acc & 0xffff == (d[i - 2] as bv32 << 8) | d[i - 1] as bv32)
  }

  lemma PullFirst(acc: bv32, b: bv8, b1: bv32, b2: bv32)
    requires b1 < 256 && b2 < 256
    ensures Pull(Push(acc, b), 2) == Sextet(Join(b as bv32, b1, b2), 0)
    ensures Push(acc, b) & 0xff == b as bv32
  {
  }

  lemma PullSecond(acc: bv32, b0: bv8, b: bv8, b2: bv32)
    requires acc & 0xff == b0 as bv32 && b2 < 256
    ensures Pull(Push(acc, b), 4) == Sextet(Join(b0 as bv32, b as bv32, b2), 1)
    ensures Push(acc, b) & 0xffff == (b0 as bv32 << 8) | b as bv32
  {
  }

  lemma PullThird(acc: bv32, b0: bv8, b1: bv8, b: bv8)
    requires acc & 0xffff == (b0 as bv32 << 8) | b1 as bv32
    ensures Pull(Push(acc, b), 6) == Sextet(Join(b0 as bv32, b1 as bv32, b as bv32), 2)
    ensures Pull(Push(acc, b), 0) == Sextet(Join(b0 as bv32, b1 as bv32, b as bv32), 3)
  {
  }

  /** Which 6-bit group is next. */
  lemma Position(i: nat, bits: nat, outpos: nat)
    requires 6 <= bits <= 12 && 6 * outpos == 8 * (i + 1) - bits
    ensures outpos / 4 == i / 3
    ensures (i % 3 == 0 && bits == 8 && outpos % 4 == 0) || (i % 3 == 1 && bits == 10 && outpos % 4 == 1) ||
            (i % 3 == 2 && bits == 12 && outpos % 4 == 2) || (i % 3 == 2 && bits == 6 && outpos % 4 == 3)
  {
    var q, r := i / 3, i % 3;
    assert i == 3 * q + r;
    assert 6 * outpos == 24 * q + 8 * r + 8 - bits;
  }

  /** The group that byte `i` belongs to. */
  lemma GroupOf(d: Bytes, i: nat)
    requires i < |d|
    ensures i % 3 == 0 ==> Group(d, i / 3) == Join(d[i] as bv32, ByteAt(d, i + 1), ByteAt(d, i + 2))
    ensures i % 3 == 1 ==> Group(d, i / 3) == Join(d[i - 1] as bv32, d[i] as bv32, ByteAt(d, i + 1))
    ensures i % 3 == 2 ==> Group(d, i / 3) == Join(d[i - 2] as bv32, d[i - 1] as bv32, d[i] as bv32)
  {
    hide Join;
    assert 3 * (i / 3) == i - i % 3;
  }

  lemma NextFirst(d: Bytes, i: nat, acc: bv32)
    requires i < |d| && i % 3 == 0
    ensures Pull(Push(acc, d[i]), 2) == Sextet(Group(d, i / 3), 0)
  {
    hide *;
    GroupOf(d, i);
    BytesSmall(d, i + 1);
    BytesSmall(d, i + 2);
    PullFirst(acc, d[i], ByteAt(d, i + 1), ByteAt(d, i + 2));
  }

  lemma NextSecond(d: Bytes, i: nat, acc: bv32)
    requires i < |d| && i % 3 == 1 && Holds(d, i, acc)
    ensures Pull(Push(acc, d[i]), 4) == Sextet(Group(d, i / 3), 1)
  {
    hide *;
    GroupOf(d, i);
    BytesSmall(d, i + 1);
    HoldsBytes(d, i, acc);
    PullSecond(acc, d[i - 1], d[i], ByteAt(d, i + 1));
  }

  lemma NextThird(d: Bytes, i: nat, acc: bv32)
    requires i < |d| && i % 3 == 2 && Holds(d, i, acc)
    ensures Pull(Push(acc, d[i]), 6) == Sextet(Group(d, i / 3), 2)
    ensures Pull(Push(acc, d[i]), 0) == Sextet(Group(d, i / 3), 3)
  {
    hide *;
    var b0, b1, b2 := d[i - 2], d[i - 1], d[i];
    assert Group(d, i / 3) == Join(b0 as bv32, b1 as bv32, b2 as bv32) by {
      GroupOf(d, i);
    }
    assert acc & 0xffff == (b0 as bv32 << 8) | b1 as bv32 by {
      HoldsBytes(d, i, acc);
    }
    PullThird(acc, b0, b1, b2);
  }

  /** With `bits` pending after byte `i`, the next six of them are the next 6-bit group of the text. */
  lemma NextSextet(d: Bytes, i: nat, acc: bv32, bits: nat, outpos: nat)
    requires i < |d| && Holds(d, i, acc) && 6 <= bits <= 12 && 6 * outpos == 8 * (i + 1) - bits
    ensures Pull(Push(acc, d[i]), bits - 6) == SextetAt(d, outpos)
  {
    hide *;
    Position(i, bits, outpos);
    SextetOf(d, outpos);
    if i % 3 == 0 {
      NextFirst(d, i, acc);
    } else if i % 3 == 1 {
      NextSecond(d, i, acc);
    } else {
      NextThird(d, i, acc);
    }
  }

  lemma SextetOf(d: Bytes, j: nat)
    ensures SextetAt(d, j) == Sextet(Group(d, j / 4), j % 4)
  {
  }

  lemma HoldsBytes(d: Bytes, i: nat, acc: bv32)
    requires i < |d| && Holds(d, i, acc)
    ensures i % 3 == 1 ==> acc & 0xff == d[i - 1] as bv32
    ensures i % 3 == 2 ==> acc & 0xffff == (d[i - 2] as bv32 << 8) | d[i - 1] as bv32
  {
  }

  lemma BytesSmall(d: Bytes, i: nat)
    ensures ByteAt(d, i) < 256
  {
  }

  lemma HoldsNext(d: Bytes, i: nat, acc: bv32)
    requires i < |d| && Holds(d, i, acc)
    ensures Holds(d, i + 1, Push(acc, d[i]))
  {
    hide Push;
    if i % 3 == 0 {
      PullFirst(acc, d[i], 0, 0);
    } else if i % 3 == 1 {
      PullSecond(acc, d[i - 1], d[i], 0);
    }
  }

  /** Where the bits left over at the end belong. */
  lemma LastPosition(n: nat, bits: nat, outpos: nat)
    requires 0 < bits < 6 && 6 * outpos == 8 * n - bits
    ensures n > 0 && outpos / 4 == (n - 1) / 3
    ensures (n % 3 == 1 && bits == 2 && outpos % 4 == 1) || (n % 3 == 2 && bits == 4 && outpos % 4 == 2)
  {
    var q, r := n / 3, n % 3;
    assert n == 3 * q + r;
    assert 6 * outpos == 24 * q + 8 * r - bits;
    assert r == 1 ==> bits == 2 && outpos == 4 * q + 1;
    assert r == 2 ==> bits == 4 && outpos == 4 * q + 2;
  }

  lemma LastOfOne(d: Bytes, acc: bv32)
    requires |d| % 3 == 1 && Holds(d, |d|, acc)
    ensures (acc << 4) & 0x3f == Sextet(Group(d, (|d| - 1) / 3), 1)
  {
    var b := d[|d| - 1];
    assert acc & 0xff == b as bv32;
    assert Group(d, (|d| - 1) / 3) == Join(b as bv32, 0, 0) by {
      hide Join;
      GroupOf(d, |d| - 1);
    }
    hide *;
    TailOfOne(acc, b);
  }

  lemma LastOfTwo(d: Bytes, acc: bv32)
    requires |d| % 3 == 2 && Holds(d, |d|, acc)
    ensures (acc << 2) & 0x3f == Sextet(Group(d, (|d| - 1) / 3), 2)
  {
    var b0, b1 := d[|d| - 2], d[|d| - 1];
    assert acc & 0xffff == (b0 as bv32 << 8) | b1 as bv32;
    assert Group(d, (|d| - 1) / 3) == Join(b0 as bv32, b1 as bv32, 0) by {
      hide Join;
      GroupOf(d, |d| - 1);
    }
    hide *;
    TailOfTwo(acc, b0, b1);
  }

  /** The bits left over at the end, filled up with zeros on the right, are the last 6-bit group. */
  lemma LastSextet(d: Bytes, acc: bv32, bits: nat, outpos: nat)
    requires Holds(d, |d|, acc) && 0 < bits < 6 && 6 * outpos == 8 * |d| - bits
    ensures (acc << (6 - bits)) & 0x3f == SextetAt(d, outpos)
  {
    hide Sextet, Group, Holds;
    LastPosition(|d|, bits, outpos);
    if |d| % 3 == 1 {
      LastOfOne(d, acc);
    } else {
      LastOfTwo(d, acc);
    }
  }

  lemma TailOfOne(acc: bv32, b: bv8)
    requires acc & 0xff == b as bv32
    ensures (acc << 4) & 0x3f == Sextet(Join(b as bv32, 0, 0), 1)
  {
  }

  lemma TailOfTwo(acc: bv32, b0: bv8, b1: bv8)
    requires acc & 0xffff == (b0 as bv32 << 8) | b1 as bv32
    ensures (acc << 2) & 0x3f == Sextet(Join(b0 as bv32, b1 as bv32, 0), 2)
  {
  }

  /** The bits that are pending after `i` bytes, between none and five. */
  lemma Pending(i: nat, bits: nat, outpos: nat)
    requires bits < 6 && 6 * outpos == 8 * i - bits
    ensures bits == Leftover(i) && outpos <= Symbols(i) <= TextSize(i)
    ensures bits > 0 ==> outpos + 1 == Symbols(i)
    ensures bits == 0 ==> outpos == Symbols(i)
    ensures if i == 0 then TextSize(i) == 0 else TextSize(i) >= 4 && Symbols(i) >= TextSize(i) - 2
  {
    hide Symbols, TextSize;
    SizesOf(i);
    var q, r := i / 3, i % 3;
    assert i == 3 * q + r;
    assert 6 * outpos == 24 * q + 8 * r - bits;
  }

  lemma SizesOf(n: nat)
    ensures Symbols(n) == 4 * (n / 3) + (if n % 3 == 0 then 0 else n % 3 + 1)
    ensures TextSize(n) == 4 * (n / 3) + (if n % 3 == 0 then 0 else 4)
  {
    var q, r := n / 3, n % 3;
    assert n == 3 * q + r;
  }

  lemma SymbolsFit(i: nat, n: nat, bits: nat, outpos: nat)
    requires i <= n && 6 <= bits && 6 * outpos == 8 * i - bits
    ensures outpos < Symbols(n) <= TextSize(n)
  {
    SizesOf(n);
  }

  /** The part of the text written so far: symbols up to `outpos`, padding after. */
  ghost predicate Written(d: Bytes, text: Bytes, outpos: nat) {
    && |text| == TextSize(|d|) && outpos <= |text|
    && (forall j | 0 <= j < outpos :: text[j] == Symbol(SextetAt(d, j)))
    && (forall j | outpos <= j < |text| :: text[j] == PAD)
  }

  lemma WrittenNext(d: Bytes, text: Bytes, outpos: nat)
    requires Written(d, text, outpos) && outpos < |text|
    ensures Written(d, text[outpos := Symbol(SextetAt(d, outpos))], outpos + 1)
  {
    hide Symbol, SextetAt;
  }

  lemma WrittenNothing(d: Bytes, text: Bytes)
    requires |text| == TextSize(|d|) && forall j | 0 <= j < |text| :: text[j] == PAD
    ensures Written(d, text, 0)
  {
  }

  lemma WrittenAll(d: Bytes, text: Bytes, outpos: nat)
    requires Written(d, text, outpos) && outpos == Symbols(|d|)
    ensures text == Encoded(d)
  {
    hide Symbol, SextetAt;
  }

  /** The encoder.  It fails on exactly two kinds of input: those too long for their text to have a
      size, and the empty one, for which the size less two wraps around. */
  method Encode(data: Bytes) returns (r: Encoding)
    requires |data| < SIZES
    ensures r.LengthError? <==> TextSize(|data|) >= SIZES
    ensures r.AssertionFailure? <==> data == []
    ensures r.Text? ==> r.text == Encoded(data)
  {
    hide Pull, Push, Symbol, SextetAt, Holds, Symbols, Written, TextSize;
    SizeGuard(|data|);
    if |data| > (SIZES - 1) / 4 * 3 {
      return LengthError;
    }
    var retval := new bv8[TextSize(|data|)](_ => PAD);
    var outpos, bits, acc: bv32 := 0, 0, 0;
    HoldsNothing(data, acc);
    WrittenNothing(data, retval[..]);
    for i := 0 to |data|
      invariant 0 <= bits < 6 && 6 * outpos == 8 * i - bits
      invariant Holds(data, i, acc) && Written(data, retval[..], outpos)
    {
      ghost var before := acc;
      acc := Push(acc, data[i]);
      bits := bits + 8;
      assert bits <= 12 by { Pending(i, bits - 8, outpos); }
      while bits >= 6
        invariant 0 <= bits <= 12 && 6 * outpos == 8 * (i + 1) - bits
        invariant Written(data, retval[..], outpos)
      {
        SymbolsFit(i + 1, |data|, bits, outpos);
        NextSextet(data, i, before, bits, outpos);
        WrittenNext(data, retval[..], outpos);
        bits := bits - 6;
        retval[outpos] := Symbol(Pull(acc, bits));
        outpos := outpos + 1;
      }
      HoldsNext(data, i, before);
    }
    Pending(|data|, bits, outpos);
    if bits > 0 {
      LastSextet(data, acc, bits, outpos);
      WrittenNext(data, retval[..], outpos);
      acc := acc << (6 - bits);
      retval[outpos] := Symbol(acc & 0x3f);
      outpos := outpos + 1;
    }
    if outpos < (retval.Length - 2) % SIZES || outpos > retval.Length {
      return AssertionFailure;
    }
    WrittenAll(data, retval[..], outpos);
    return Text(retval[..]);
  }

  lemma HoldsNothing(d: Bytes, acc: bv32)
    ensures Holds(d, 0, acc)
  {
  }

  /** The guard on the length is exactly the bound under which the size of the text is a size. */
  lemma SizeGuard(n: nat)
    ensures n <= (SIZES - 1) / 4 * 3 <==> TextSize(n) < SIZES
  {
    var q, r := (n + 2) / 3, (n + 2) % 3;
    assert n + 2 == 3 * q + r;
  }

  // ----- Decoding -----

  /** The text without white space and padding. */
  function Significant(t: Bytes): (s: Bytes)
    ensures |s| <= |t|
  {
    if |t| == 0 then []
    else
      var c := t[|t| - 1];
      Significant(t[..|t| - 1]) + (if Skipped(c) then [] else [c])
  }

  predicate Legal(s: Bytes) {
    forall i | 0 <= i < |s| :: Value(s[i]) < 64
  }

  /** The value of the symbol at `i`, zero past the end and for a byte that is no symbol. */
  function ValueAt(s: Bytes, i: nat): (v: bv32)
    ensures v < 64
  {
    if i < |s| && Value(s[i]) < 64 then Value(s[i]) else 0
  }

  function Splice(v0: bv32, v1: bv32, v2: bv32, v3: bv32): bv32 {
    (v0 << 18) | (v1 << 12) | (v2 << 6) | v3
  }

  /** The 24 bits of four symbols. */
  function Quad(s: Bytes, k: nat): bv32 {
    Splice(ValueAt(s, 4 * k), ValueAt(s, 4 * k + 1), ValueAt(s, 4 * k + 2), ValueAt(s, 4 * k + 3))
  }

  function Octet(quad: bv32, j: nat): bv8
    requires j < 3
  {
    ((if j == 0 then quad >> 16 else if j == 1 then quad >> 8 else quad) & 0xff) as bv8
  }

  /** The byte at position `k` of the data that the symbols stand for. */
  function OctetAt(s: Bytes, k: nat): bv8 {
    Octet(Quad(s, k / 3), k % 3)
  }

  /** The whole bytes that the symbols stand for. */
  function Bits(s: Bytes): (d: Bytes)
    ensures |d| == 6 * |s| / 8 && forall k | 0 <= k < |d| :: d[k] == OctetAt(s, k)
  {
    seq(6 * |s| / 8, k requires 0 <= k => OctetAt(s, k))
  }

  datatype Decoding = Data(data: Bytes) | InvalidArgument

  function Decoded(t: Bytes): Decoding {
    var s := Significant(t);
    if Legal(s) then Data(Bits(s)) else InvalidArgument
  }

  // ----- The decoder -----

  function PushValue(acc: bv32, v: bv32): bv32 {
    (acc << 6) | v
  }

  function PullByte(acc: bv32, bits: nat): bv8
    requires bits < 32
  {
    ((acc >> bits) & 0xff) as bv8
  }

  /** The accumulator ends in the symbols of the group that has been begun. */
  ghost predicate Gathers(s: Bytes, m: nat, acc: bv32) {
    && (m % 4 == 1 ==> acc & 0x3f == ValueAt(s, m - 1))
    && (m % 4 == 2 ==> acc & 0xfff == PushValue(ValueAt(s, m - 2), ValueAt(s, m - 1)))
    && (m % 4 == 3 ==> acc & 0x3ffff == PushValue(PushValue(ValueAt(s, m - 3), ValueAt(s, m - 2)), ValueAt(s, m - 1)))
  }

  lemma GatherOne(acc: bv32, v: bv32)
    requires v < 64
    ensures PushValue(acc, v) & 0x3f == v
  {
  }

  lemma GatherTwo(acc: bv32, v0: bv32, v: bv32, v2: bv32, v3: bv32)
    requires v0 < 64 && v < 64 && v2 < 64 && v3 < 64 && acc & 0x3f == v0
    ensures PushValue(acc, v) & 0xfff == PushValue(v0, v)
    ensures PullByte(PushValue(acc, v), 4) == Octet(Splice(v0, v, v2, v3), 0)
  {
  }

  lemma GatherThree(acc: bv32, v0: bv32, v1: bv32, v: bv32, v3: bv32)
    requires v0 < 64 && v1 < 64 && v < 64 && v3 < 64 && acc & 0xfff == PushValue(v0, v1)
    ensures PushValue(acc, v) & 0x3ffff == PushValue(PushValue(v0, v1), v)
    ensures PullByte(PushValue(acc, v), 2) == Octet(Splice(v0, v1, v, v3), 1)
  {
  }

  lemma GatherFour(acc: bv32, v0: bv32, v1: bv32, v2: bv32, v: bv32)
    requires v0 < 64 && v1 < 64 && v2 < 64 && v < 64 && acc & 0x3ffff == PushValue(PushValue(v0, v1), v2)
    ensures PullByte(PushValue(acc, v), 0) == Octet(Splice(v0, v1, v2, v), 2)
  {
  }

  lemma GathersNext(s: Bytes, m: nat, acc: bv32)
    requires Gathers(s, m, acc)
    ensures Gathers(s, m + 1, PushValue(acc, ValueAt(s, m)))
  {
    hide PushValue, ValueAt;
    if m % 4 == 0 {
      GatherOne(acc, ValueAt(s, m));
    } else if m % 4 == 1 {
      GatherTwo(acc, ValueAt(s, m - 1), ValueAt(s, m), 0, 0);
    } else if m % 4 == 2 {
      GatherThree(acc, ValueAt(s, m - 2), ValueAt(s, m - 1), ValueAt(s, m), 0);
    }
  }

  lemma QuadOf(s: Bytes, m: nat)
    ensures m % 4 == 1 ==>
              Quad(s, m / 4) == Splice(ValueAt(s, m - 1), ValueAt(s, m), ValueAt(s, m + 1), ValueAt(s, m + 2))
    ensures m % 4 == 2 ==>
              Quad(s, m / 4) == Splice(ValueAt(s, m - 2), ValueAt(s, m - 1), ValueAt(s, m), ValueAt(s, m + 1))
    ensures m % 4 == 3 ==>
              Quad(s, m / 4) == Splice(ValueAt(s, m - 3), ValueAt(s, m - 2), ValueAt(s, m - 1), ValueAt(s, m))
  {
    hide Splice, ValueAt;
    assert 4 * (m / 4) == m - m % 4;
  }

  lemma NextOfTwo(s: Bytes, m: nat, acc: bv32)
    requires m % 4 == 1 && Gathers(s, m, acc)
    ensures PullByte(PushValue(acc, ValueAt(s, m)), 4) == Octet(Quad(s, m / 4), 0)
  {
    hide PushValue, PullByte, Octet, Quad, Splice, ValueAt;
    QuadOf(s, m);
    GatherTwo(acc, ValueAt(s, m - 1), ValueAt(s, m), ValueAt(s, m + 1), ValueAt(s, m + 2));
  }

  lemma NextOfThree(s: Bytes, m: nat, acc: bv32)
    requires m % 4 == 2 && Gathers(s, m, acc)
    ensures PullByte(PushValue(acc, ValueAt(s, m)), 2) == Octet(Quad(s, m / 4), 1)
  {
    hide PushValue, PullByte, Octet, Quad, Splice, ValueAt;
    QuadOf(s, m);
    GatherThree(acc, ValueAt(s, m - 2), ValueAt(s, m - 1), ValueAt(s, m), ValueAt(s, m + 1));
  }

  lemma NextOfFour(s: Bytes, m: nat, acc: bv32)
    requires m % 4 == 3 && Gathers(s, m, acc)
    ensures PullByte(PushValue(acc, ValueAt(s, m)), 0) == Octet(Quad(s, m / 4), 2)
  {
    hide PushValue, PullByte, Octet, Quad, Splice, ValueAt;
    QuadOf(s, m);
    GatherFour(acc, ValueAt(s, m - 3), ValueAt(s, m - 2), ValueAt(s, m - 1), ValueAt(s, m));
  }

  /** Which byte is next. */
  lemma OctetPosition(m: nat, bits: nat, k: nat)
    requires bits < 8 && bits + 6 >= 8 && bits == 6 * m - 8 * k
    ensures k / 3 == m / 4
    ensures (m % 4 == 1 && bits == 6 && k % 3 == 0) || (m % 4 == 2 && bits == 4 && k % 3 == 1)
            || (m % 4 == 3 && bits == 2 && k % 3 == 2)
  {
    var q, r := m / 4, m % 4;
    assert m == 4 * q + r;
    assert 8 * k == 24 * q + 6 * r - bits;
  }

  lemma NextOctet(s: Bytes, m: nat, acc: bv32, bits: nat, k: nat)
    requires Gathers(s, m, acc) && bits < 8 && bits + 6 >= 8 && bits == 6 * m - 8 * k
    ensures PullByte(PushValue(acc, ValueAt(s, m)), bits - 2) == OctetAt(s, k)
  {
    hide PushValue, PullByte, Octet, Quad, Splice, ValueAt, Gathers;
    OctetPosition(m, bits, k);
    if m % 4 == 1 {
      NextOfTwo(s, m, acc);
    } else if m % 4 == 2 {
      NextOfThree(s, m, acc);
    } else {
      NextOfFour(s, m, acc);
    }
  }

  lemma {:induction false} SignificantConcat(a: Bytes, b: Bytes)
    ensures Significant(a + b) == Significant(a) + Significant(b)
    decreases |b|
  {
    if |b| == 0 {
      assert a + b == a;
    } else {
      SignificantConcat(a, b[..|b| - 1]);
      assert (a + b)[..|a + b| - 1] == a + b[..|b| - 1];
      assert (a + b)[|a + b| - 1] == b[|b| - 1];
    }
  }

  /** Where a byte that is not skipped ends up. */
  lemma SignificantAt(t: Bytes, i: nat)
    requires i < |t|
    ensures var s, m := Significant(t), |Significant(t[..i])|;
            if Skipped(t[i]) then Significant(t[..i + 1]) == Significant(t[..i])
            else m < |s| && s[m] == t[i] && |Significant(t[..i + 1])| == m + 1
  {
    assert t == t[..i] + ([t[i]] + t[i + 1..]);
    assert t[..i + 1][..i] == t[..i];
    SignificantConcat(t[..i], [t[i]] + t[i + 1..]);
    SignificantConcat([t[i]], t[i + 1..]);
    assert [t[i]][..0] == [];
    assert Significant([t[i]]) == if Skipped(t[i]) then [] else [t[i]];
  }

  /** The decoder.  White space and padding are passed over wherever they stand; it fails exactly
      when some other byte is not a symbol. */
  method Decode(text: Bytes) returns (r: Decoding)
    ensures r == Decoded(text)
    ensures r.InvalidArgument? <==> exists i :: 0 <= i < |text| && !Skipped(text[i]) && Value(text[i]) > 63
  {
    hide PushValue, PullByte, Value, Skipped, Gathers, OctetAt, Significant;
    ghost var s := Significant(text);
    ghost var m := 0;
    var retval: Bytes := [];
    var bits, acc: bv32 := 0, 0;
    assert Gathers(s, 0, acc) by { GathersNothing(s, acc); }
    assert text[..0] == [] && Significant([]) == [] by { SignificantEmpty(); }
    for i := 0 to |text|
      invariant m == |Significant(text[..i])| <= |s|
      invariant 0 <= bits < 8 && bits == 6 * m - 8 * |retval|
      invariant Gathers(s, m, acc)
      invariant forall k | 0 <= k < |retval| :: retval[k] == OctetAt(s, k)
      invariant forall k | 0 <= k < m :: Value(s[k]) < 64
      invariant forall k | 0 <= k < i :: Skipped(text[k]) || Value(text[k]) < 64
    {
      var c := text[i];
      SignificantAt(text, i);
      if Skipped(c) {
        continue;
      }
      if Value(c) > 63 {
        assert !Legal(s);
        return InvalidArgument;
      }
      GathersNext(s, m, acc);
      if bits + 6 >= 8 {
        NextOctet(s, m, acc, bits, |retval|);
      }
      acc := PushValue(acc, Value(c));
      bits := bits + 6;
      if bits >= 8 {
        bits := bits - 8;
        retval := retval + [PullByte(acc, bits)];
      }
      m := m + 1;
    }
    assert text[..|text|] == text;
    assert Bits(s) == retval;
    return Data(retval);
  }

  lemma GathersNothing(s: Bytes, acc: bv32)
    ensures Gathers(s, 0, acc)
  {
  }

  lemma SignificantEmpty()
    ensures Significant([]) == []
  {
  }

  // ----- Round trip -----

  /** Symbols followed by padding are what is significant in an encoded text. */
  lemma {:induction false} SignificantSymbols(t: Bytes, k: nat)
    requires k <= |t| && (forall j | 0 <= j < k :: !Skipped(t[j])) && forall j | k <= j < |t| :: Skipped(t[j])
    ensures Significant(t) == t[..k]
    decreases |t|
  {
    hide Skipped;
    if |t| > 0 {
      var n := |t| - 1;
      if k == |t| {
        SignificantSymbols(t[..n], n);
        assert t == t[..n] + [t[n]];
      } else {
        SignificantSymbols(t[..n], k);
        assert t[..n][..k] == t[..k];
      }
    }
  }

  lemma EncodedSignificant(d: Bytes)
    ensures var s := Significant(Encoded(d));
            && |s| == Symbols(|d|) && Legal(s)
            && forall j | 0 <= j < |s| :: Value(s[j]) == SextetAt(d, j)
  {
    hide Skipped, Symbol, Value, SextetAt, Significant, Symbols, TextSize;
    var t, k := Encoded(d), Symbols(|d|);
    SymbolsBound(|d|);
    forall j | 0 <= j < k ensures Value(t[j]) == SextetAt(d, j) && !Skipped(t[j]) {
      SymbolHasValue(SextetAt(d, j));
    }
    PadSkipped();
    SignificantSymbols(t, k);
  }

  lemma PadSkipped()
    ensures Skipped(PAD)
  {
  }

  lemma SymbolsBound(n: nat)
    ensures Symbols(n) <= TextSize(n) && 6 * Symbols(n) / 8 == n
  {
    SizesOf(n);
  }

  /** The bytes of a group come back from its 6-bit groups, also when the last ones are missing. */
  lemma SpliceJoin(b0: bv8, b1: bv8, b2: bv8, v2: bv32, v3: bv32)
    requires v2 < 64 && v3 < 64
    ensures var g := Join(b0 as bv32, b1 as bv32, b2 as bv32);
            && Octet(Splice(Sextet(g, 0), Sextet(g, 1), v2, v3), 0) == b0
            && Octet(Splice(Sextet(g, 0), Sextet(g, 1), Sextet(g, 2), v3), 1) == b1
            && Octet(Splice(Sextet(g, 0), Sextet(g, 1), Sextet(g, 2), Sextet(g, 3)), 2) == b2
  {
  }

  lemma GroupPadded(d: Bytes, q: nat)
    ensures Group(d, q) ==
            Join(PaddedAt(d, 3 * q) as bv32, PaddedAt(d, 3 * q + 1) as bv32, PaddedAt(d, 3 * q + 2) as bv32)
  {
    hide Join;
  }

  /** The same for bits that stand for themselves. */
  lemma OctetBits(b0: bv8, b1: bv8, b2: bv8, v0: bv32, v1: bv32, v2: bv32, v3: bv32, g: bv32, j: nat)
    requires j < 3 && g == Join(b0 as bv32, b1 as bv32, b2 as bv32) && v2 < 64 && v3 < 64
    requires v0 == Sextet(g, 0) && v1 == Sextet(g, 1)
    requires (j >= 1 ==> v2 == Sextet(g, 2)) && (j == 2 ==> v3 == Sextet(g, 3))
    ensures Octet(Splice(v0, v1, v2, v3), j) == if j == 0 then b0 else if j == 1 then b1 else b2
  {
    hide *;
    SpliceJoin(b0, b1, b2, v2, v3);
  }

  /** One byte of a group comes back if the symbols that hold its bits are there. */
  lemma OctetOfGroup(d: Bytes, s: Bytes, q: nat, j: nat)
    requires j < 3 && forall i: nat | i <= j + 1 :: ValueAt(s, 4 * q + i) == Sextet(Group(d, q), i)
    ensures Octet(Quad(s, q), j) == PaddedAt(d, 3 * q + j)
  {
    hide *;
    var b0, b1, b2 := PaddedAt(d, 3 * q), PaddedAt(d, 3 * q + 1), PaddedAt(d, 3 * q + 2);
    var g := Group(d, q);
    var v0, v1, v2, v3 := ValueAt(s, 4 * q), ValueAt(s, 4 * q + 1), ValueAt(s, 4 * q + 2), ValueAt(s, 4 * q + 3);
    assert v0 == Sextet(g, 0) by { assert ValueAt(s, 4 * q + 0) == Sextet(g, 0); }
    assert v1 == Sextet(g, 1);
    assert j >= 1 ==> v2 == Sextet(g, 2);
    assert j == 2 ==> v3 == Sextet(g, 3);
    GroupPadded(d, q);
    QuadIs(s, q);
    OctetBits(b0, b1, b2, v0, v1, v2, v3, g, j);
  }

  lemma QuadIs(s: Bytes, q: nat)
    ensures Quad(s, q) == Splice(ValueAt(s, 4 * q), ValueAt(s, 4 * q + 1), ValueAt(s, 4 * q + 2), ValueAt(s, 4 * q + 3))
  {
  }

  lemma OctetBack(d: Bytes, s: Bytes, k: nat)
    requires k < |d| && |s| == Symbols(|d|) && forall j | 0 <= j < |s| :: ValueAt(s, j) == SextetAt(d, j)
    ensures OctetAt(s, k) == d[k]
  {
    hide ValueAt, Sextet, Octet, Group, Quad, Symbols, SextetAt;
    var q, r := k / 3, k % 3;
    assert 3 * q + r == k;
    SymbolsReach(|d|, k);
    SextetsOf(d, q);
    forall i: nat | i <= r + 1 ensures ValueAt(s, 4 * q + i) == Sextet(Group(d, q), i) {
      assert SextetAt(d, 4 * q + i) == Sextet(Group(d, q), i);
    }
    OctetOfGroup(d, s, q, r);
  }

  lemma SextetsOf(d: Bytes, q: nat)
    ensures forall j: nat | j < 4 :: SextetAt(d, 4 * q + j) == Sextet(Group(d, q), j)
  {
    forall j: nat | j < 4 ensures SextetAt(d, 4 * q + j) == Sextet(Group(d, q), j) {
      assert (4 * q + j) / 4 == q && (4 * q + j) % 4 == j;
    }
  }

  /** The symbols that hold the bits of byte `k` are there. */
  lemma SymbolsReach(n: nat, k: nat)
    requires k < n
    ensures 4 * (k / 3) + k % 3 + 1 < Symbols(n)
  {
    assert 8 * n + 5 >= 8 * (k + 1) + 5;
    assert k == 3 * (k / 3) + k % 3;
  }

  function PaddedAt(d: Bytes, i: nat): (b: bv8)
    ensures b as bv32 == ByteAt(d, i)
  {
    if i < |d| then d[i] else 0
  }

  /** Decoding undoes encoding, for all data. */
  lemma RoundTrip(d: Bytes)
    ensures Decoded(Encoded(d)) == Data(d)
  {
    hide SextetAt, OctetAt, Value, Significant, Symbols;
    EncodedSignificant(d);
    SymbolsBound(|d|);
    var s := Significant(Encoded(d));
    forall k | 0 <= k < |d| ensures Bits(s)[k] == d[k] {
      OctetBack(d, s, k);
    }
  }

  /** White space, or padding, anywhere in a text makes no difference, not even to whether it is legal. */
  lemma InsertedSpace(a: Bytes, space: Bytes, b: Bytes)
    requires forall i | 0 <= i < |space| :: Skipped(space[i])
    ensures Decoded(a + space + b) == Decoded(a + b)
  {
    hide Skipped;
    SignificantConcat(a + space, b);
    SignificantConcat(a, space);
    SignificantConcat(a, b);
    SignificantSymbols(space, 0);
    assert Significant(a) + Significant(space) == Significant(a);
  }

  /** White space as `isspace` knows it: tab, line feed, vertical tab, form feed, carriage return and space. */
  predicate Space(c: bv8) {
    c == 9 || c == 10 || c == 11 || c == 12 || c == 13 || c == 32
  }

  /** A letter, a digit, plus or slash. */
  predicate Letter(c: bv8) {
    65 <= c <= 90 || 97 <= c <= 122 || 48 <= c <= 57 || c == 43 || c == 47
  }

  lemma BytesByKind(c: bv8)
    ensures Skipped(c) <==> Space(c) || c == 61
    ensures Value(c) < 64 <==> Letter(c)
    ensures !(Skipped(c) && Letter(c))
  {
  }

  /** Each of the six bytes of white space, and the equals sign, may stand anywhere in any text. */
  lemma InsertedByte(a: Bytes, c: bv8, b: Bytes)
    requires Space(c) || c == 61
    ensures Decoded(a + [c] + b) == Decoded(a + b)
  {
    hide *;
    BytesByKind(c);
    InsertedSpace(a, [c], b);
  }

  /** A text is refused if and only if it holds a byte that is neither of these nor one of the 64 symbols. */
  lemma RefusedIff(t: Bytes)
    ensures Decoded(t).InvalidArgument? <==> exists i :: 0 <= i < |t| && !Space(t[i]) && t[i] != 61 && !Letter(t[i])
    decreases |t|
  {
    hide Skipped, Value, Space, Letter, Bits;
    if |t| > 0 {
      var n := |t| - 1;
      RefusedIff(t[..n]);
      BytesByKind(t[n]);
      LegalNext(t);
      assert t == t[..n] + [t[n]];
    }
  }

  lemma LegalNext(t: Bytes)
    requires |t| > 0
    ensures var n := |t| - 1;
            Legal(Significant(t)) <==> Legal(Significant(t[..n])) && (Skipped(t[n]) || Value(t[n]) < 64)
  {
    hide Skipped, Value, Legal;
    var n := |t| - 1;
    LegalAppend(Significant(t[..n]), t[n]);
    assert Skipped(t[n]) ==> Significant(t) == Significant(t[..n]);
  }

  lemma LegalAppend(s: Bytes, c: bv8)
    ensures Legal(s + [c]) <==> Legal(s) && Value(c) < 64
  {
    hide Value;
    var all := s + [c];
    assert all[|s|] == c;
    assert forall i | 0 <= i < |s| :: s[i] == all[i];
  }

  /** The three bytes of four symbols, bit by bit. */
  function Three(v0: bv32, v1: bv32, v2: bv32, v3: bv32): (d: Bytes)
    requires v0 < 64 && v1 < 64 && v2 < 64 && v3 < 64
    ensures |d| == 3
  {
    [((v0 << 2) | (v1 >> 4)) as bv8, (((v1 & 15) << 4) | (v2 >> 2)) as bv8, (((v2 & 3) << 6) | v3) as bv8]
  }

  lemma OctetsOfSymbols(v0: bv32, v1: bv32, v2: bv32, v3: bv32)
    requires v0 < 64 && v1 < 64 && v2 < 64 && v3 < 64
    ensures var q := Splice(v0, v1, v2, v3); [Octet(q, 0), Octet(q, 1), Octet(q, 2)] == Three(v0, v1, v2, v3)
  {
  }

  lemma OctetIs(s: Bytes, k: nat)
    requires k < 3
    ensures OctetAt(s, k) == Octet(Quad(s, 0), k)
  {
    hide Octet, Quad;
  }

  lemma FirstThree(s: Bytes)
    ensures [OctetAt(s, 0), OctetAt(s, 1), OctetAt(s, 2)] ==
            Three(ValueAt(s, 0), ValueAt(s, 1), ValueAt(s, 2), ValueAt(s, 3))
  {
    hide *;
    OctetIs(s, 0);
    OctetIs(s, 1);
    OctetIs(s, 2);
    QuadIs(s, 0);
    OctetsOfSymbols(ValueAt(s, 0), ValueAt(s, 1), ValueAt(s, 2), ValueAt(s, 3));
  }

  /** Four symbols further on, the groups are those of the rest. */
  lemma LaterOctet(s: Bytes, k: nat)
    requires |s| >= 4
    ensures OctetAt(s, k + 3) == OctetAt(s[4..], k)
  {
    hide Octet, Splice, Value;
    assert (k + 3) / 3 == k / 3 + 1 && (k + 3) % 3 == k % 3;
    var q := k / 3;
    forall i: nat ensures ValueAt(s, i + 4) == ValueAt(s[4..], i) {
    }
    assert 4 * (q + 1) == 4 * q + 4;
  }

  lemma BitsLong(s: Bytes)
    requires |s| >= 4
    ensures Bits(s) == Three(ValueAt(s, 0), ValueAt(s, 1), ValueAt(s, 2), ValueAt(s, 3)) + Bits(s[4..])
  {
    hide OctetAt, ValueAt, Three;
    FirstThree(s);
    var d, rest := Bits(s), Bits(s[4..]);
    assert |d| == |rest| + 3;
    forall k | 3 <= k < |d| ensures d[k] == rest[k - 3] {
      LaterOctet(s, k - 3);
    }
    assert d == d[..3] + d[3..] && d[3..] == rest;
  }

  /** Decoding from left to right: four symbols give three bytes and the rest follows; of a shorter rest
      three symbols give two bytes, two give one and one gives none. */
  lemma BitsByGroups(s: Bytes)
    ensures |s| <= 1 ==> Bits(s) == []
    ensures |s| == 2 ==> Bits(s) == Three(ValueAt(s, 0), ValueAt(s, 1), 0, 0)[..1]
    ensures |s| == 3 ==> Bits(s) == Three(ValueAt(s, 0), ValueAt(s, 1), ValueAt(s, 2), 0)[..2]
    ensures |s| >= 4 ==>
              Bits(s) == Three(ValueAt(s, 0), ValueAt(s, 1), ValueAt(s, 2), ValueAt(s, 3)) + Bits(s[4..])
  {
    hide OctetAt, Three, Value;
    if |s| >= 4 {
      BitsLong(s);
    } else {
      FirstThree(s);
    }
  }

  /** What a text without white space and padding decodes to. */
  lemma DecodedByGroups(s: Bytes)
    requires forall i | 0 <= i < |s| :: Letter(s[i])
    ensures forall i | 0 <= i < |s| :: Value(s[i]) < 64
    ensures |s| <= 1 ==> Decoded(s) == Data([])
    ensures |s| == 2 ==> Decoded(s) == Data(Three(Value(s[0]), Value(s[1]), 0, 0)[..1])
    ensures |s| == 3 ==> Decoded(s) == Data(Three(Value(s[0]), Value(s[1]), Value(s[2]), 0)[..2])
    ensures |s| >= 4 ==>
              && Decoded(s[4..]).Data?
              && Decoded(s) == Data(Three(Value(s[0]), Value(s[1]), Value(s[2]), Value(s[3])) + Decoded(s[4..]).data)
  {
    hide Three, Value, Skipped, Bits, Letter, ValueAt, Legal, Significant;
    LettersDecode(s);
    BitsByGroups(s);
    if |s| >= 4 {
      LettersDecode(s[4..]);
    }
  }

  lemma LettersDecode(s: Bytes)
    requires forall i | 0 <= i < |s| :: Letter(s[i])
    ensures Decoded(s) == Data(Bits(s)) && forall i | 0 <= i < |s| :: Value(s[i]) < 64 && ValueAt(s, i) == Value(s[i])
  {
    hide Value, Skipped, Bits, Letter;
    forall i | 0 <= i < |s| ensures Value(s[i]) < 64 && !Skipped(s[i]) {
      BytesByKind(s[i]);
    }
    SignificantSymbols(s, |s|);
  }

  /** A text whose significant bytes are those of an encoding decodes to the data. */
  lemma RoundTripWithSpace(d: Bytes, t: Bytes)
    requires Significant(t) == Significant(Encoded(d))
    ensures Decoded(t) == Data(d)
  {
    RoundTrip(d);
  }

  /** Different data have different texts. */
  lemma EncodedInjective(a: Bytes, b: Bytes)
    requires Encoded(a) == Encoded(b)
    ensures a == b
  {
    RoundTrip(a);
    RoundTrip(b);
  }

  /** The name of the cached copy of a URL (src/jepsen/Control.cpp, lines 21 and 22). */
  function CacheName(dir: Bytes, url: Bytes): Bytes {
    dir + [47] + Encoded(url)
  }

  /** Distinct URLs get distinct cache names. */
  lemma CacheNamesDistinct(dir: Bytes, a: Bytes, b: Bytes)
    requires a != b
    ensures CacheName(dir, a) != CacheName(dir, b)
  {
    if CacheName(dir, a) == CacheName(dir, b) {
      assert Encoded(a) == CacheName(dir, a)[|dir| + 1..];
      assert Encoded(b) == CacheName(dir, b)[|dir| + 1..];
      EncodedInjective(a, b);
    }
  }

  /** The two methods together: what the encoder returns the decoder turns back into the data. */
  method EncodeThenDecode(data: Bytes) returns (r: Decoding)
    requires 0 < |data| && TextSize(|data|) < SIZES
    ensures r == Data(data)
  {
    SizeGuard(|data|);
    var e := Encode(data);
    r := Decode(e.text);
    RoundTrip(data);
  }
}
