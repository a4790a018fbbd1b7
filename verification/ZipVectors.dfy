/** What the cipher, the checksum and the records are in figures: known answers, and every byte of an archive.
    Figures are passed as parameters of known value, since recursive functions are unfolded on literals without end. */
module ZipVectors {
  import opened Bits
  import opened ZipCrypto
  import opened ZipContainer
  import opened ZipNames

  // ---- The key stream ----

  lemma QuarterBits(n: nat, p: nat, b: nat)
    requires n == 4 * p + b && b < 4
    ensures WithBit1(n) == 4 * p + 2 + b % 2
  {
    assert n / 2 == 2 * p + b / 2;
  }

  lemma LowHalf(h: nat, r: nat)
    requires r < 0x1_0000
    ensures (0x1_0000 * h + r) % 0x1_0000 == r
  {
  }

  lemma BitsOfParts(n: nat, h: nat, m: nat, b: nat)
    requires n == 0x1_0000 * h + 4 * m + b && m < 0x4000 && b < 4
    ensures n % 0x1_0000 / 4 == m && WithBit1(n) % 0x1_0000 == 4 * m + 2 + b % 2
  {
    QuarterBits(n, 0x4000 * h + m, b);
    LowHalf(h, 4 * m + b);
    LowHalf(h, 4 * m + 2 + b % 2);
  }

  lemma FlipOfPair(h: nat, r: nat)
    requires r < 2
    ensures FlipBit0(2 * h + r) == 2 * h + 1 - r
  {
  }

  ghost predicate IsPair(t: nat, s: nat, q: nat) {
    (t == q && s == q + 1) || (t == q + 1 && s == q)
  }

  lemma PairOfParts(h: nat, r: nat, t: nat, q: nat)
    requires r < 2 && q == 2 * h && t == q + r
    ensures IsPair(t, FlipBit0(t), q)
  {
    FlipOfPair(h, r);
  }

  /** Setting bit 1 leaves one of two neighbours, and flipping bit 0 gives the other one. */
  lemma LowBits(n: nat)
    ensures var t := WithBit1(n) % 0x1_0000;
            IsPair(t, FlipBit0(t), n % 0x1_0000 / 4 * 4 + 2)
  {
    var low := n % 0x1_0000;
    var m, b := low / 4, low % 4;
    assert low == 4 * m + b && n == 0x1_0000 * (n / 0x1_0000) + low;
    BitsOfParts(n, n / 0x1_0000, m, b);
    PairOfParts(2 * m + 1, b % 2, WithBit1(n) % 0x1_0000, m * 4 + 2);
  }

  /** The two low bits of the third key have no effect: with bit 1 set and bit 0 clear in their place, the byte
      is taken from the product of that number and the next one. */
  lemma StreamIgnoresLowBits(k: Keys)
    ensures var q := k.k2 % 0x1_0000 / 4 * 4 + 2;
            StreamByte(k) == q * (q + 1) / 256 % 256
  {
    LowBits(k.k2);
    var t, q := WithBit1(k.k2) % 0x1_0000, k.k2 % 0x1_0000 / 4 * 4 + 2;
    Neighbours(t, FlipBit0(t), q);
  }

  lemma Neighbours(t: nat, s: nat, q: nat)
    requires IsPair(t, s, q)
    ensures t * s == q * (q + 1)
  {
  }

  /** The keys before a password, in the decimal figures of section 6.1.5 of PKWARE APPNOTE.TXT. */
  lemma FreshKeys()
    ensures KeysAfter(INITIAL_KEYS, []) == Keys(305419896, 591751049, 878082192)
  {
  }

  // ---- The checksum ----

  lemma {:induction false} EvenSteps(q: Word, n: nat, c: Word, more: nat)
    requires c == q * Pow2(n)
    ensures Steps(c, n + more) == Steps(q, more)
    decreases n
  {
    if n > 0 {
      TwicePow2(q, n);
      EvenSteps(q, n - 1, c / 2, more);
    }
  }

  lemma ByteShifted(q: Word, c: Word)
    requires c == 256 * q
    ensures Steps(c, 8) == q
  {
    assert Pow2(8) == 256;
    EvenSteps(q, 8, c, 0);
  }

  lemma OneStep(c: Word, half: Word, p: Word)
    requires c % 2 == 1 && c / 2 == half && p == 0xEDB8_8320
    ensures Step(c) == XorWord(p, half)
  {
  }

  lemma Complement(a: Word)
    ensures Xor(a, 0xFFFF_FFFF) == Xor(0xFFFF_FFFF, a) == 0xFFFF_FFFF - a
  {
    WordSize();
    XorOnes(a, 32);
    XorCommutes(a, 0xFFFF_FFFF);
  }

  lemma StepOfOne(c: Word, n: nat, p: Word)
    requires c == 1 && p == 0xEDB8_8320
    ensures Steps(c, n + 1) == Steps(p, n)
  {
    OneStep(c, 0, p);
    XorZero(p);
  }

  /** The entry of the table for 128 is the polynomial. */
  lemma TableAt128(tab: seq<Word>, i: Byte, p: Word)
    requires IsCrcTable(tab) && i == 128 && p == 0xEDB8_8320
    ensures tab[i] == p
  {
    var one: Word := 1;
    assert Pow2(7) == 128;
    EvenSteps(one, 7, i, 1);
    StepOfOne(one, 0, p);
  }

  lemma RegisterAfter(b: Byte)
    requires b == 0xFF
    ensures CrcRegister([b]) == 0xFF_FFFF
  {
    Complement(b);
    ByteShifted(0xFF_FFFF, 0xFFFF_FF00);
    assert [b][..0] == [];
  }

  /** A known answer: the CRC-32 of the byte 0xFF. */
  lemma CrcOfOnes(b: Byte)
    requires b == 0xFF
    ensures Crc32([b]) == 0xFF00_0000
  {
    RegisterAfter(b);
    Complement(0xFF_FFFF);
  }

  // ---- The key schedule ----

  lemma FirstKey(k: Word, b: Byte)
    requires k == 0x5634 && b == 0x34
    ensures CrcByte(k, b) == 0x56
  {
    ByteDisjoint(0x56, b);
    XorCancels(b, 0x5600);
    ByteShifted(0x56, 0x5600);
  }

  lemma SecondKey(k: Word, low: Byte)
    requires k == 0x2345_6783 && low == 0x56
    ensures NextK1(k, low) == 0x80AE_EB3E
  {
  }

  lemma ThirdKey(k: Word, b: Byte)
    requires k == 0x1200 && b == 0x80
    ensures CrcByte(k, b) == 0xEDB8_8332
  {
    ByteDisjoint(0x12, b);
    assert Pow2(7) == 128 && Pow2(5) == 32;
    EvenSteps(0x25, 7, 0x1280, 1);
    OneStep(0x25, 0x12, 0xEDB8_8320);
    XorDisjoint(0x76D_C419, 0x12, 5);
    assert Steps(Step(0x25), 0) == Step(0x25);
  }

  lemma UpdateParts(k: Keys, b: Byte, k0: Word, k1: Word, k2: Word)
    requires CrcByte(k.k0, b) == k0 && NextK1(k.k1, k0 % 256) == k1 && CrcByte(k.k2, k1 / 0x100_0000) == k2
    ensures Update(k, b) == Keys(k0, k1, k2)
  {
  }

  /** A known answer for the key schedule: each key takes its byte from the new value of the one before it. */
  lemma ScheduleInFigures(k: Keys, b: Byte, k0: Word, k1: Word)
    requires k == Keys(0x5634, 0x2345_6783, 0x1200) && b == 0x34 && k0 == 0x56 && k1 == 0x80AE_EB3E
    ensures Update(k, b) == Keys(k0, k1, 0xEDB8_8332)
  {
    FirstKey(k.k0, b);
    SecondKey(k.k1, k0 % 256);
    ThirdKey(k.k2, k1 / 0x100_0000);
    UpdateParts(k, b, k0, k1, 0xEDB8_8332);
  }

  /** Encrypting a zero shows the byte of the key stream. */
  lemma ZeroShowsTheStream(k: Keys, plain: Bytes)
    requires plain == [0]
    ensures Encrypted(k, plain) == [StreamByte(k)]
  {
    assert plain[..0] == [];
    XorZero(StreamByte(k));
  }

  lemma FreshStream(k: Keys)
    requires k.k2 == 0x3456_7890
    ensures StreamByte(k) == 0xAB
  {
    StreamIgnoresLowBits(k);
    assert k.k2 % 0x1_0000 / 4 * 4 + 2 == 0x7892;
    assert 0x7892 * 0x7893 / 256 % 256 == 0xAB;
  }

  /** A known answer: under the keys before a password the zero byte becomes 0xAB. */
  lemma FirstByteInFigures(k: Keys, plain: Bytes)
    requires k == INITIAL_KEYS && plain == [0]
    ensures Encrypted(k, plain) == [0xAB]
  {
    ZeroShowsTheStream(k, plain);
    FreshStream(k);
  }

  // ---- The records, byte by byte ----

  function Two(n: nat): (b: Bytes)
    ensures |b| == 2
  {
    [n % 256, n / 256 % 256]
  }

  function Four(n: nat): (b: Bytes)
    ensures |b| == 4
  {
    [n % 256, n / 256 % 256, n / 0x1_0000 % 256, n / 0x100_0000 % 256]
  }

  lemma LittleEndianInBytes(n: nat)
    ensures LittleEndian(n, 2) == Two(n) && LittleEndian(n, 4) == Four(n)
  {
    assert LittleEndian(n, 2) == [n % 256] + ([n / 256 % 256] + LittleEndian(n / 256 / 256, 0));
    var q := n / 256 / 256;
    assert LittleEndian(q, 2) == [q % 256] + ([q / 256 % 256] + LittleEndian(q / 256 / 256, 0));
    assert q == n / 0x1_0000 && q / 256 == n / 0x100_0000;
    assert LittleEndian(n, 4) == [n % 256] + ([n / 256 % 256] + LittleEndian(q, 2));
  }

  lemma PackCons(width: nat, format: Format, n: nat, values: seq<nat>)
    requires |format| == |values|
    ensures Pack([width] + format, [n] + values) == LittleEndian(n, width) + Pack(format, values)
  {
    assert ([width] + format)[1..] == format && ([n] + values)[1..] == values;
  }

  lemma PackOne(width: nat, n: nat)
    ensures Pack([width], [n]) == LittleEndian(n, width)
  {
    PackCons(width, [], n, []);
    assert [width] + [] == [width] && [n] + [] == [n];
    assert LittleEndian(n, width) + Pack([], []) == LittleEndian(n, width);
  }

  lemma PackPair(width: nat, n: nat, m: nat)
    ensures Pack([width, width], [n, m]) == LittleEndian(n, width) + LittleEndian(m, width)
  {
    PackCons(width, [width], n, [m]);
    PackOne(width, m);
    assert [width] + [width] == [width, width] && [n] + [m] == [n, m];
  }

  /** A CRC and two sizes. */
  lemma PackSums(crc: nat, comp: nat, uncomp: nat)
    ensures Pack([4, 4, 4], [crc, comp, uncomp]) == Four(crc) + Four(comp) + Four(uncomp)
  {
    PackCons(4, [4, 4], crc, [comp, uncomp]);
    PackPair(4, comp, uncomp);
    LittleEndianInBytes(crc);
    LittleEndianInBytes(comp);
    LittleEndianInBytes(uncomp);
    assert [4] + [4, 4] == [4, 4, 4] && [crc] + [comp, uncomp] == [crc, comp, uncomp];
  }

  /** The signature of a record, and its fields of two bytes. */
  lemma {:induction false} PackShorts(values: seq<nat>)
    ensures Pack(Fields(2, |values|), values) == Shorts(values)
  {
    if values != [] {
      var rest := values[1..];
      assert Fields(2, |values|) == [2] + Fields(2, |rest|) && values == [values[0]] + rest;
      PackCons(2, Fields(2, |rest|), values[0], rest);
      LittleEndianInBytes(values[0]);
      PackShorts(rest);
    }
  }

  function Shorts(values: seq<nat>): Bytes {
    if values == [] then [] else Two(values[0]) + Shorts(values[1..])
  }

  lemma {:induction false} ZeroShorts(n: nat)
    ensures Shorts(seq(n, _ => 0)) == seq(2 * n, _ => 0)
  {
    if n > 0 {
      assert seq(n, _ => 0)[1..] == seq(n - 1, _ => 0);
      ZeroShorts(n - 1);
    }
  }

  lemma PackHead(signature: nat, values: seq<nat>)
    ensures Pack([4] + Fields(2, |values|), [signature] + values) == Four(signature) + Shorts(values)
  {
    PackCons(4, Fields(2, |values|), signature, values);
    PackShorts(values);
    LittleEndianInBytes(signature);
  }

  /** The local header of section 4.3.7: version 2.0, encrypted, stored, no time, no extra field. */
  function LocalHeader(crc: nat, comp: nat, uncomp: nat, nameLength: nat): Bytes {
    [0x50, 0x4B, 3, 4, 20, 0, 1, 0, 0, 0, 0, 0, 0, 0]
    + (Four(crc) + Four(comp) + Four(uncomp)) + (Two(nameLength) + [0, 0])
  }

  /** The central header of section 4.3.12: no extra field, comment, disk and attributes, offset 0. */
  function CentralHeader(crc: nat, comp: nat, uncomp: nat, nameLength: nat): Bytes {
    [0x50, 0x4B, 1, 2, 20, 0, 20, 0, 1, 0, 0, 0, 0, 0, 0, 0]
    + (Four(crc) + Four(comp) + Four(uncomp)) + (Two(nameLength) + seq(16, _ => 0))
  }

  /** The end record of section 4.3.16: one entry on one disk, no comment. */
  function EndRecord(centralSize: nat, offset: nat): Bytes {
    [0x50, 0x4B, 5, 6, 0, 0, 0, 0, 1, 0, 1, 0] + (Four(centralSize) + Four(offset)) + [0, 0]
  }

  lemma ShortsOf(n: nat, rest: seq<nat>)
    ensures Shorts([n] + rest) == Two(n) + Shorts(rest)
  {
    assert ([n] + rest)[1..] == rest;
  }

  lemma ThreeZeros()
    ensures Shorts([0, 0, 0]) == [0, 0, 0, 0, 0, 0]
  {
    ZeroShorts(3);
    assert [0, 0, 0] == seq(3, _ => 0) && seq(6, _ => 0) == [0, 0, 0, 0, 0, 0];
  }

  lemma LocalShorts()
    ensures Shorts([20, 1, 0, 0, 0]) == [20, 0, 1, 0, 0, 0, 0, 0, 0, 0]
  {
    ThreeZeros();
    ShortsOf(1, [0, 0, 0]);
    ShortsOf(20, [1, 0, 0, 0]);
    assert [20, 1, 0, 0, 0] == [20] + [1, 0, 0, 0] && [1, 0, 0, 0] == [1] + [0, 0, 0];
  }

  lemma CentralShorts()
    ensures Shorts([20, 20, 1, 0, 0, 0]) == [20, 0, 20, 0, 1, 0, 0, 0, 0, 0, 0, 0]
  {
    LocalShorts();
    ShortsOf(20, [20, 1, 0, 0, 0]);
    assert [20, 20, 1, 0, 0, 0] == [20] + [20, 1, 0, 0, 0];
  }

  lemma EndShorts()
    ensures Shorts([0, 0, 1, 1]) == [0, 0, 0, 0, 1, 0, 1, 0]
  {
    ShortsOf(1, []);
    ShortsOf(1, [1]);
    ShortsOf(0, [1, 1]);
    ShortsOf(0, [0, 1, 1]);
    assert [0, 0, 1, 1] == [0] + [0, 1, 1] && [0, 1, 1] == [0] + [1, 1] && [1, 1] == [1] + [1] && [1] == [1] + [];
  }

  lemma Signatures()
    ensures Four(LOCAL_SIGNATURE) == [0x50, 0x4B, 3, 4]
    ensures Four(CENTRAL_SIGNATURE) == [0x50, 0x4B, 1, 2]
    ensures Four(END_SIGNATURE) == [0x50, 0x4B, 5, 6]
  {
  }

  lemma PackThree(f: Format, g: Format, h: Format, u: seq<nat>, v: seq<nat>, w: seq<nat>)
    requires |f| == |u| && |g| == |v| && |h| == |w|
    ensures Pack(f + g + h, u + v + w) == Pack(f, u) + Pack(g, v) + Pack(h, w)
  {
    PackConcat(f + g, h, u + v, w);
    PackConcat(f, g, u, v);
  }

  lemma LocalHead()
    ensures Pack([4] + Fields(2, 5), [LOCAL_SIGNATURE] + [20, 1, 0, 0, 0])
         == [0x50, 0x4B, 3, 4, 20, 0, 1, 0, 0, 0, 0, 0, 0, 0]
  {
    PackHead(LOCAL_SIGNATURE, [20, 1, 0, 0, 0]);
    LocalShorts();
    Signatures();
  }

  lemma CentralHead()
    ensures Pack([4] + Fields(2, 6), [CENTRAL_SIGNATURE] + [20, 20, 1, 0, 0, 0])
         == [0x50, 0x4B, 1, 2, 20, 0, 20, 0, 1, 0, 0, 0, 0, 0, 0, 0]
  {
    PackHead(CENTRAL_SIGNATURE, [20, 20, 1, 0, 0, 0]);
    CentralShorts();
    Signatures();
  }

  lemma EndHead()
    ensures Pack([4] + Fields(2, 4), [END_SIGNATURE] + [0, 0, 1, 1]) == [0x50, 0x4B, 5, 6, 0, 0, 0, 0, 1, 0, 1, 0]
  {
    PackHead(END_SIGNATURE, [0, 0, 1, 1]);
    EndShorts();
    Signatures();
  }

  lemma LocalTail(nameLength: nat)
    ensures Pack([2, 2], [nameLength, 0]) == Two(nameLength) + [0, 0]
  {
    PackPair(2, nameLength, 0);
    LittleEndianInBytes(nameLength);
    LittleEndianInBytes(0);
  }

  lemma EndTail(centralSize: nat, offset: nat)
    ensures Pack([4, 4], [centralSize, offset]) == Four(centralSize) + Four(offset) && Pack([2], [0]) == [0, 0]
  {
    PackPair(4, centralSize, offset);
    PackOne(2, 0);
    LittleEndianInBytes(centralSize);
    LittleEndianInBytes(offset);
    LittleEndianInBytes(0);
  }

  lemma LocalFields(crc: nat, comp: nat, uncomp: nat, nameLength: nat)
    ensures LOCAL_FORMAT == [4] + Fields(2, 5) + [4, 4, 4] + [2, 2]
    ensures LocalValues(crc, comp, uncomp, nameLength)
         == [LOCAL_SIGNATURE] + [20, 1, 0, 0, 0] + [crc, comp, uncomp] + [nameLength, 0]
  {
  }

  lemma CentralFields(crc: nat, comp: nat, uncomp: nat, nameLength: nat)
    ensures CENTRAL_FORMAT == [4] + Fields(2, 6) + [4, 4, 4] + (Fields(2, 5) + Fields(4, 2))
    ensures CentralValues(crc, comp, uncomp, nameLength)
         == [CENTRAL_SIGNATURE] + [20, 20, 1, 0, 0, 0] + [crc, comp, uncomp] + ([nameLength, 0, 0, 0, 0] + [0, 0])
  {
    assert Fields(4, 3) == [4, 4, 4];
  }

  lemma EndFields(centralSize: nat, offset: nat)
    ensures END_FORMAT == [4] + Fields(2, 4) + [4, 4] + [2]
    ensures EndValues(centralSize, offset) == [END_SIGNATURE] + [0, 0, 1, 1] + [centralSize, offset] + [0]
  {
  }

  lemma LocalHeaderInBytes(crc: nat, comp: nat, uncomp: nat, nameLength: nat)
    ensures Pack(LOCAL_FORMAT, LocalValues(crc, comp, uncomp, nameLength))
         == LocalHeader(crc, comp, uncomp, nameLength)
  {
    var f, v := [4] + Fields(2, 5), [LOCAL_SIGNATURE] + [20, 1, 0, 0, 0];
    LocalFields(crc, comp, uncomp, nameLength);
    PackThree(f, [4, 4, 4], [2, 2], v, [crc, comp, uncomp], [nameLength, 0]);
    LocalHead();
    PackSums(crc, comp, uncomp);
    LocalTail(nameLength);
  }

  /** The fields behind the length of the name in the central header. */
  lemma CentralTailIsZero(nameLength: nat)
    ensures Pack(Fields(2, 5) + Fields(4, 2), [nameLength, 0, 0, 0, 0] + [0, 0])
         == Two(nameLength) + seq(16, _ => 0)
  {
    PackConcat(Fields(2, 5), Fields(4, 2), [nameLength, 0, 0, 0, 0], [0, 0]);
    PackShorts([nameLength, 0, 0, 0, 0]);
    ShortsOf(nameLength, [0, 0, 0, 0]);
    ZeroShorts(4);
    assert [nameLength, 0, 0, 0, 0] == [nameLength] + [0, 0, 0, 0] && [0, 0, 0, 0] == seq(4, _ => 0);
    PackPair(4, 0, 0);
    LittleEndianInBytes(0);
    assert Fields(4, 2) == [4, 4];
  }

  lemma CentralHeaderInBytes(crc: nat, comp: nat, uncomp: nat, nameLength: nat)
    ensures Pack(CENTRAL_FORMAT, CentralValues(crc, comp, uncomp, nameLength))
         == CentralHeader(crc, comp, uncomp, nameLength)
  {
    var f, v := [4] + Fields(2, 6), [CENTRAL_SIGNATURE] + [20, 20, 1, 0, 0, 0];
    var g, w := Fields(2, 5) + Fields(4, 2), [nameLength, 0, 0, 0, 0] + [0, 0];
    CentralFields(crc, comp, uncomp, nameLength);
    PackThree(f, [4, 4, 4], g, v, [crc, comp, uncomp], w);
    CentralHead();
    PackSums(crc, comp, uncomp);
    CentralTailIsZero(nameLength);
  }

  lemma EndRecordInBytes(centralSize: nat, offset: nat)
    ensures Pack(END_FORMAT, EndValues(centralSize, offset)) == EndRecord(centralSize, offset)
  {
    EndFields(centralSize, offset);
    PackThree([4] + Fields(2, 4), [4, 4], [2], [END_SIGNATURE] + [0, 0, 1, 1], [centralSize, offset], [0]);
    EndHead();
    EndTail(centralSize, offset);
  }

  lemma PartsInBytes(name: Bytes, data: Bytes)
    ensures LocalPart(name, data) == LocalHeader(Crc32(data), |data| + 12, |data|, |name|) + name
    ensures CentralPart(name, data) == CentralHeader(Crc32(data), |data| + 12, |data|, |name|) + name
    ensures |LocalPart(name, data)| == 30 + |name| && |CentralPart(name, data)| == 46 + |name|
  {
    RecordSizes();
    LocalHeaderInBytes(Crc32(data), |data| + 12, |data|, |name|);
    CentralHeaderInBytes(Crc32(data), |data| + 12, |data|, |name|);
  }

  lemma EndInBytes(name: Bytes, data: Bytes, body: Bytes)
    requires |body| == 42 + |name| + |data|
    ensures Pack(END_FORMAT, EndValues(|CentralPart(name, data)|, |body|))
         == EndRecord(46 + |name|, 42 + |name| + |data|)
  {
    PartsInBytes(name, data);
    EndRecordInBytes(46 + |name|, 42 + |name| + |data|);
  }

  lemma AssembledInBytes(name: Bytes, data: Bytes, enc: Bytes)
    requires |enc| == |data| + 12
    ensures Assembled(name, data, enc)
         == LocalPart(name, data) + enc + CentralPart(name, data) + EndRecord(46 + |name|, 42 + |name| + |data|)
  {
    assert |LocalPart(name, data)| == 30 + |name| by {
      PartsInBytes(name, data);
    }
    EndInBytes(name, data, LocalPart(name, data) + enc);
  }

  /** Every byte of the archive: the local header, the name, eleven random bytes, the high byte of the checksum and
      the data under the key stream of the password, the central header with the name, and the end record. */
  lemma ArchiveInBytes(name: Bytes, data: Bytes, password: Bytes, salt: Bytes)
    requires |salt| == 11
    ensures var crc := Crc32(data);
            Archive(name, data, password, salt)
            == LocalHeader(crc, |data| + 12, |data|, |name|) + name
               + Encrypted(KeysAfter(INITIAL_KEYS, password), salt + [crc / 0x100_0000] + data)
               + (CentralHeader(crc, |data| + 12, |data|, |name|) + name)
               + EndRecord(46 + |name|, 42 + |name| + |data|)
  {
    PartsInBytes(name, data);
    AssembledInBytes(name, data, Sealed(data, password, salt));
  }

  /** The limits are those of the fields: the archive is refused only if some field does not fit. */
  lemma LimitsAreFieldLimits(name: Bytes, data: Bytes)
    ensures var crc := Crc32(data);
            WithinLimits(name, data)
            <==> && Fits(LOCAL_FORMAT, LocalValues(crc, |data| + 12, |data|, |name|))
                 && Fits(CENTRAL_FORMAT, CentralValues(crc, |data| + 12, |data|, |name|))
                 && Fits(END_FORMAT, EndValues(46 + |name|, 42 + |name| + |data|))
  {
    var local := LocalValues(Crc32(data), |data| + 12, |data|, |name|);
    var end := EndValues(46 + |name|, 42 + |name| + |data|);
    RecordSizes();
    if WithinLimits(name, data) {
      LocalFits(name, data);
      CentralFits(name, data);
      EndFits(name, data);
    } else {
      assert LOCAL_FORMAT[9] == 2 && local[9] == |name|;
      assert END_FORMAT[6] == 4 && end[6] == 42 + |name| + |data|;
    }
  }

  // ---- Names ----

  predicate IsTrail(b: int) {
    0x80 <= b < 0xC0
  }

  /** The shortest sequence of a lead byte and trail bytes of six bits each (section 3 of RFC 3629). */
  ghost predicate Encodes(b: seq<int>, n: int) {
    match |b|
    case 1 => n == b[0] < 0x80
    case 2 =>
      && 0xC0 <= b[0] < 0xE0 && IsTrail(b[1])
      && n == (b[0] - 0xC0) * 64 + (b[1] - 0x80) >= 0x80
    case 3 =>
      && 0xE0 <= b[0] < 0xF0 && IsTrail(b[1]) && IsTrail(b[2])
      && n == (b[0] - 0xE0) * 4096 + (b[1] - 0x80) * 64 + (b[2] - 0x80) >= 0x800
    case 4 =>
      && 0xF0 <= b[0] < 0xF8 && IsTrail(b[1]) && IsTrail(b[2]) && IsTrail(b[3])
      && n == (b[0] - 0xF0) * 262144 + (b[1] - 0x80) * 4096 + (b[2] - 0x80) * 64 + (b[3] - 0x80) >= 0x1_0000
    case _ => false
  }

  /** The bytes written for a character denote its code point. */
  lemma Utf8CharEncodes(c: char)
    ensures Encodes(Utf8Char(c), c as int)
  {
    var n := c as int;
    assert n / 64 == n / 64 / 64 * 64 + n / 64 % 64 && n / 64 / 64 == n / 4096;
    assert n / 4096 == n / 4096 / 64 * 64 + n / 4096 % 64 && n / 4096 / 64 == n / 262144;
  }
}
