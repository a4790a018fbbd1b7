/** Traditional PKWARE encryption (section 6.1 of PKWARE APPNOTE.TXT): the table-driven key schedule
    refines the bit-serial CRC, never merges two states, and decryption inverts encryption. */
module ZipCrypto {
  import opened Bits
  import opened Lists

  type Byte = n: nat | n < 0x100
  type Word = n: nat | n < 0x1_0000_0000
  type Bytes = seq<Byte>

  const POLYNOMIAL: Word := 0xEDB88320

  lemma WordSize()
    ensures Pow2(8) == 0x100 && Pow2(31) == 0x8000_0000 && Pow2(32) == 0x1_0000_0000
  {
    assert Pow2(4) == 16;
    assert Pow2(8) == 0x100;
    assert Pow2(12) == 0x1000;
    assert Pow2(16) == 0x1_0000;
    assert Pow2(20) == 0x10_0000;
    assert Pow2(24) == 0x100_0000;
    assert Pow2(28) == 0x1000_0000;
  }

  function XorWord(a: Word, b: Word): Word {
    WordSize();
    XorBound(a, b, 32);
    Xor(a, b)
  }

  function XorByte(a: Byte, b: Byte): Byte {
    WordSize();
    XorBound(a, b, 8);
    Xor(a, b)
  }

  // ---- The CRC register, one bit at a time ----

  function Step(c: Word): Word {
    if c % 2 == 1 then XorWord(POLYNOMIAL, c / 2) else c / 2
  }

  function Steps(c: Word, n: nat): Word
    decreases n
  {
    if n == 0 then c else Steps(Step(c), n - 1)
  }

  /** Feeding one byte into a CRC register, bit by bit. */
  function CrcByte(c: Word, b: Byte): Word {
    Steps(XorWord(c, b), 8)
  }

  ghost predicate IsCrcTable(tab: seq<Word>) {
    |tab| == 256 && forall i: Byte :: tab[i] == Steps(i, 8)
  }

  method CrcTable() returns (tab: seq<Word>)
    ensures IsCrcTable(tab)
  {
    tab := [];
    for i := 0 to 256
      invariant |tab| == i && forall j: Byte :: j < i ==> tab[j] == Steps(j, 8)
    {
      var c: Word := i;
      for n := 0 to 8
        invariant Steps(c, 8 - n) == Steps(i, 8)
      {
        c := if c % 2 == 1 then XorWord(POLYNOMIAL, c / 2) else c / 2;
      }
      tab := tab + [c];
    }
  }

  // ---- Fast refines slow ----

  lemma XorSwap(a: nat, b: nat, c: nat)
    ensures Xor(a, Xor(b, c)) == Xor(b, Xor(a, c))
  {
    XorAssociates(a, b, c);
    XorCommutes(a, b);
    XorAssociates(b, a, c);
  }

  /** A step shifts an even part along and works on the rest alone. */
  lemma StepSplit(hi: Word, lo: Word)
    requires hi % 2 == 0
    ensures Step(XorWord(hi, lo)) == XorWord(hi / 2, Step(lo))
  {
    var x, h, l := XorWord(hi, lo), hi / 2, lo / 2;
    assert x % 2 == lo % 2 && x / 2 == Xor(h, l) by {
      XorHalves(hi, lo);
    }
    if lo % 2 == 1 {
      assert Step(x) == Xor(POLYNOMIAL, Xor(h, l));
      XorSwap(POLYNOMIAL, h, l);
    }
  }

  lemma {:induction false} StepsSplit(q: nat, lo: Word, n: nat)
    requires q * Pow2(n) < 0x1_0000_0000
    ensures q < 0x1_0000_0000 && Steps(XorWord(q * Pow2(n), lo), n) == XorWord(q, Steps(lo, n))
    decreases n
  {
    if n > 0 {
      var hi := q * Pow2(n);
      assert hi == 2 * (q * Pow2(n - 1));
      StepSplit(hi, lo);
      StepsSplit(q, Step(lo), n - 1);
    }
  }

  /** One table look-up does the work of eight single-bit steps, for every register and byte. */
  lemma TableStepIsEightSteps(tab: seq<Word>, c: Word, b: Byte)
    requires IsCrcTable(tab)
    ensures CrcByte(c, b) == XorWord(c / 256, tab[XorWord(c, b) % 256])
  {
    WordSize();
    var x := XorWord(c, b);
    HighBytes(c, b);
    XorDisjoint(x / 256, x % 256, 8);
    assert x == XorWord(x / 256 * Pow2(8), x % 256);
    StepsSplit(x / 256, x % 256, 8);
  }

  lemma HighBytes(c: Word, b: Byte)
    ensures XorWord(c, b) / 256 == c / 256
  {
    WordSize();
    var q, r := c / 256, c % 256;
    XorDisjoint(q, r, 8);
    XorAssociates(q * 256, r, b);
    XorBound(r, b, 8);
    XorDisjoint(q, Xor(r, b), 8);
  }

  // ---- Keys ----

  datatype Keys = Keys(k0: Word, k1: Word, k2: Word)

  const INITIAL_KEYS := Keys(0x12345678, 0x23456789, 0x34567890)

  function NextK1(k1: Word, low: Byte): Word {
    ((k1 + low) % 0x1_0000_0000 * 134775813 + 1) % 0x1_0000_0000
  }

  /** The key schedule of the format, with the bit-serial CRC. */
  function Update(k: Keys, b: Byte): Keys {
    var k0 := CrcByte(k.k0, b);
    var k1 := NextK1(k.k1, k0 % 256);
    Keys(k0, k1, CrcByte(k.k2, k1 / 0x100_0000))
  }

  /** `n | 2`. */
  function WithBit1(n: nat): nat {
    if n / 2 % 2 == 1 then n else n + 2
  }

  /** `n ^ 1`. */
  function FlipBit0(n: nat): nat {
    if n % 2 == 1 then n - 1 else n + 1
  }

  function StreamByte(k: Keys): Byte {
    var t := WithBit1(k.k2) % 0x1_0000;
    t * FlipBit0(t) / 256 % 256
  }

  /** One byte under the key stream; the same operation encrypts and decrypts. */
  function Masked(k: Keys, b: Byte): Byte {
    XorByte(b, StreamByte(k))
  }

  lemma MaskedTwice(k: Keys, b: Byte)
    ensures Masked(k, Masked(k, b)) == b
  {
    XorCancels(StreamByte(k), b);
  }

  /** The key state once `plain` has been processed. */
  function KeysAfter(k: Keys, plain: Bytes): Keys {
    if plain == [] then k
    else Update(KeysAfter(k, plain[..|plain| - 1]), plain[|plain| - 1])
  }

  function Encrypted(k: Keys, plain: Bytes): (c: Bytes)
    ensures |c| == |plain|
  {
    if plain == [] then []
    else
      var n := |plain| - 1;
      Encrypted(k, plain[..n]) + [Masked(KeysAfter(k, plain[..n]), plain[n])]
  }

  /** Decryption updates the keys with the bytes it recovers. */
  function Decrypted(k: Keys, cipher: Bytes): (p: Bytes)
    ensures |p| == |cipher|
  {
    if cipher == [] then []
    else
      var n := |cipher| - 1;
      var p := Decrypted(k, cipher[..n]);
      p + [Masked(KeysAfter(k, p), cipher[n])]
  }

  class ZipKeys {
    const tab: seq<Word>
    var k0: Word
    var k1: Word
    var k2: Word

    function State(): Keys
      reads this
    {
      Keys(k0, k1, k2)
    }

    constructor (tab: seq<Word>, password: Bytes)
      requires IsCrcTable(tab)
      ensures this.tab == tab && State() == KeysAfter(INITIAL_KEYS, password)
    {
      this.tab := tab;
      k0, k1, k2 := 0x12345678, 0x23456789, 0x34567890;
      new;
      for i := 0 to |password|
        invariant this.tab == tab && State() == KeysAfter(INITIAL_KEYS, password[..i])
      {
        assert password[..i + 1][..i] == password[..i];
        UpdateKeys(password[i]);
      }
      assert password[..|password|] == password;
    }

    method UpdateKeys(b: Byte)
      requires IsCrcTable(tab)
      modifies this
      ensures State() == Update(old(State()), b)
    {
      TableStepIsEightSteps(tab, k0, b);
      k0 := XorWord(k0 / 256, tab[XorWord(k0, b) % 256]);
      assert k0 == CrcByte(old(k0), b);
      k1 := (k1 + k0 % 256) % 0x1_0000_0000;
      k1 := (k1 * 134775813 + 1) % 0x1_0000_0000;
      assert k1 == NextK1(old(k1), k0 % 256);
      TableStepIsEightSteps(tab, k2, k1 / 0x100_0000);
      k2 := XorWord(k2 / 256, tab[XorWord(k2, k1 / 0x100_0000) % 256]);
      assert k2 == CrcByte(old(k2), k1 / 0x100_0000);
    }

    method Stream() returns (s: Byte)
      ensures s == StreamByte(State())
    {
      var t := WithBit1(k2) % 0x1_0000;
      s := t * FlipBit0(t) / 256 % 256;
    }

    method Encrypt(data: Bytes) returns (out: Bytes)
      requires IsCrcTable(tab)
      modifies this
      ensures out == Encrypted(old(State()), data)
      ensures State() == KeysAfter(old(State()), data)
    {
      out := [];
      for i := 0 to |data|
        invariant out == Encrypted(old(State()), data[..i])
        invariant State() == KeysAfter(old(State()), data[..i])
      {
        assert data[..i + 1][..i] == data[..i];
        var s := Stream();
        out := out + [XorByte(data[i], s)];
        UpdateKeys(data[i]);
      }
      assert data[..|data|] == data;
    }

    method Decrypt(cipher: Bytes) returns (out: Bytes)
      requires IsCrcTable(tab)
      modifies this
      ensures out == Decrypted(old(State()), cipher)
      ensures State() == KeysAfter(old(State()), out)
    {
      out := [];
      for i := 0 to |cipher|
        invariant out == Decrypted(old(State()), cipher[..i])
        invariant State() == KeysAfter(old(State()), out)
      {
        assert cipher[..i + 1][..i] == cipher[..i];
        var s := Stream();
        var p := XorByte(cipher[i], s);
        assert (out + [p])[..i] == out;
        out := out + [p];
        UpdateKeys(p);
      }
      assert cipher[..|cipher|] == cipher;
    }
  }

  // ---- Encryption and decryption are inverse ----

  lemma OneMoreByte(k: Keys, plain: Bytes, b: Byte)
    ensures KeysAfter(k, plain + [b]) == Update(KeysAfter(k, plain), b)
    ensures Encrypted(k, plain + [b]) == Encrypted(k, plain) + [Masked(KeysAfter(k, plain), b)]
  {
    assert (plain + [b])[..|plain|] == plain;
  }

  lemma OneMoreCipherByte(k: Keys, cipher: Bytes, c: Byte)
    ensures var p := Decrypted(k, cipher);
            Decrypted(k, cipher + [c]) == p + [Masked(KeysAfter(k, p), c)]
  {
    assert (cipher + [c])[..|cipher|] == cipher;
  }

  /** Decryption recovers the plaintext under every key state, and ends in the state in which encryption ends. */
  lemma {:induction false} DecryptInvertsEncrypt(k: Keys, plain: Bytes)
    ensures Decrypted(k, Encrypted(k, plain)) == plain
    ensures KeysAfter(k, Decrypted(k, Encrypted(k, plain))) == KeysAfter(k, plain)
  {
    if plain != [] {
      var init, b := plain[..|plain| - 1], plain[|plain| - 1];
      assert plain == init + [b];
      DecryptInvertsEncrypt(k, init);
      DecryptOneMore(k, init, b);
    }
  }

  lemma DecryptOneMore(k: Keys, init: Bytes, b: Byte)
    requires Decrypted(k, Encrypted(k, init)) == init
    ensures Decrypted(k, Encrypted(k, init + [b])) == init + [b]
  {
    var keys := KeysAfter(k, init);
    OneMoreByte(k, init, b);
    OneMoreCipherByte(k, Encrypted(k, init), Masked(keys, b));
    MaskedTwice(keys, b);
  }

  /** Every byte string is the encryption of its decryption. */
  lemma {:induction false} EncryptInvertsDecrypt(k: Keys, cipher: Bytes)
    ensures Encrypted(k, Decrypted(k, cipher)) == cipher
  {
    if cipher != [] {
      var init, c := cipher[..|cipher| - 1], cipher[|cipher| - 1];
      assert cipher == init + [c];
      EncryptInvertsDecrypt(k, init);
      EncryptOneMore(k, init, c);
    }
  }

  lemma EncryptOneMore(k: Keys, init: Bytes, c: Byte)
    requires Encrypted(k, Decrypted(k, init)) == init
    ensures Encrypted(k, Decrypted(k, init + [c])) == init + [c]
  {
    var p := Decrypted(k, init);
    var keys := KeysAfter(k, p);
    OneMoreCipherByte(k, init, c);
    OneMoreByte(k, p, Masked(keys, c));
    MaskedTwice(keys, c);
  }

  lemma {:induction false} KeysConcat(k: Keys, a: Bytes, b: Bytes)
    ensures KeysAfter(k, a + b) == KeysAfter(KeysAfter(k, a), b)
  {
    if b == [] {
      assert a + b == a;
    } else {
      var init, x := b[..|b| - 1], b[|b| - 1];
      assert b == init + [x];
      KeysConcat(k, a, init);
      KeysConcatOneMore(k, KeysAfter(k, a), a, init, x);
    }
  }

  lemma KeysConcatOneMore(k: Keys, ka: Keys, a: Bytes, init: Bytes, x: Byte)
    requires KeysAfter(k, a + init) == KeysAfter(ka, init)
    ensures KeysAfter(k, a + (init + [x])) == KeysAfter(ka, init + [x])
  {
    Associate(a, init, [x]);
    OneMoreByte(k, a + init, x);
    OneMoreByte(ka, init, x);
  }

  /** Encrypting a concatenation is encrypting the parts with the key state carried over. */
  lemma {:induction false} EncryptConcat(k: Keys, a: Bytes, b: Bytes)
    ensures Encrypted(k, a + b) == Encrypted(k, a) + Encrypted(KeysAfter(k, a), b)
  {
    if b == [] {
      assert a + b == a;
    } else {
      var init, x := b[..|b| - 1], b[|b| - 1];
      assert b == init + [x];
      EncryptConcat(k, a, init);
      KeysConcat(k, a, init);
      ConcatOneMore(k, KeysAfter(k, a), a, init, x);
    }
  }

  lemma ConcatOneMore(k: Keys, ka: Keys, a: Bytes, init: Bytes, x: Byte)
    requires KeysAfter(k, a + init) == KeysAfter(ka, init)
    requires Encrypted(k, a + init) == Encrypted(k, a) + Encrypted(ka, init)
    ensures Encrypted(k, a + (init + [x])) == Encrypted(k, a) + Encrypted(ka, init + [x])
  {
    var m := [Masked(KeysAfter(ka, init), x)];
    calc {
      Encrypted(k, a + (init + [x]));
      { Associate(a, init, [x]); }
      Encrypted(k, a + init + [x]);
      { OneMoreByte(k, a + init, x); }
      Encrypted(k, a) + Encrypted(ka, init) + m;
      { Associate(Encrypted(k, a), Encrypted(ka, init), m); }
      Encrypted(k, a) + (Encrypted(ka, init) + m);
      { OneMoreByte(ka, init, x); }
      Encrypted(k, a) + Encrypted(ka, init + [x]);
    }
  }

  // ---- Distinct key states never merge ----

  lemma StepIsInjective(c: Word, d: Word)
    requires Step(c) == Step(d)
    ensures c == d
  {
    WordSize();
    XorLeadingBit(POLYNOMIAL, c / 2, 31);
    XorLeadingBit(POLYNOMIAL, d / 2, 31);
    XorCancels(POLYNOMIAL, c / 2);
    XorCancels(POLYNOMIAL, d / 2);
  }

  lemma {:induction false} StepsAreInjective(c: Word, d: Word, n: nat)
    requires Steps(c, n) == Steps(d, n)
    ensures c == d
    decreases n
  {
    if n > 0 {
      StepsAreInjective(Step(c), Step(d), n - 1);
      StepIsInjective(c, d);
    }
  }

  lemma CrcByteIsInjective(c: Word, d: Word, b: Byte)
    requires CrcByte(c, b) == CrcByte(d, b)
    ensures c == d
  {
    StepsAreInjective(XorWord(c, b), XorWord(d, b), 8);
    XorCancels(b, c);
    XorCancels(b, d);
  }

  /** The multiplier is odd, so multiplication by it modulo 2^32 can be undone. */
  lemma MultiplierIsInjective(x: Word, y: Word)
    requires (x * 134775813 + 1) % 0x1_0000_0000 == (y * 134775813 + 1) % 0x1_0000_0000
    ensures x == y
  {
    var qx, qy := (x * 134775813 + 1) / 0x1_0000_0000, (y * 134775813 + 1) / 0x1_0000_0000;
    DifferenceIsMultiple(x - y, qx - qy);
  }

  /** 3645876429 is the inverse of the multiplier: their product is 114407381 * 2^32 + 1. */
  lemma DifferenceIsMultiple(d: int, q: int)
    requires d * 134775813 == q * 0x1_0000_0000
    ensures d % 0x1_0000_0000 == 0
  {
    assert d == (q * 3645876429 - d * 114407381) * 0x1_0000_0000;
  }

  lemma NextK1IsInjective(x: Word, y: Word, low: Byte)
    requires NextK1(x, low) == NextK1(y, low)
    ensures x == y
  {
    MultiplierIsInjective((x + low) % 0x1_0000_0000, (y + low) % 0x1_0000_0000);
  }

  lemma UpdateIsInjective(k: Keys, l: Keys, b: Byte)
    requires Update(k, b) == Update(l, b)
    ensures k == l
  {
    CrcByteIsInjective(k.k0, l.k0, b);
    var u := Update(k, b);
    NextK1IsInjective(k.k1, l.k1, u.k0 % 256);
    CrcByteIsInjective(k.k2, l.k2, u.k1 / 0x100_0000);
  }

  /** Two key states that differ stay different over any plaintext. */
  lemma {:induction false} KeysNeverMerge(k: Keys, l: Keys, plain: Bytes)
    requires KeysAfter(k, plain) == KeysAfter(l, plain)
    ensures k == l
  {
    if plain != [] {
      var n := |plain| - 1;
      UpdateIsInjective(KeysAfter(k, plain[..n]), KeysAfter(l, plain[..n]), plain[n]);
      KeysNeverMerge(k, l, plain[..n]);
    }
  }
}
