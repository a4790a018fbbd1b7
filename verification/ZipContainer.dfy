/** The one-entry encrypted archive that `encrypted_zip` packs by hand, and a reader for the format
    (sections 4.3.7, 4.3.12 and 4.3.16 of PKWARE APPNOTE.TXT) that recovers what was packed. Like Python's
    `zipfile`, it decodes names as code page 437 up to the first NUL, refuses an empty password, and takes
    what looks like a ZIP64 locator for the sign of an archive on several disks. */
module ZipContainer {
  import opened Lists
  import opened ZipCrypto
  import opened ZipNames

  datatype Result<+T> = Ok(value: T) | Err(error: ZipError)

  datatype ZipError =
    | StructError
    | NotAZip
    | SplitArchive
    | BadHeader
    | NoSuchEntry
    | UnsupportedMethod
    | PasswordRequired
    | BadPassword
    | BadCrc
    | SelfTestFailed

  // ---- Packing of little-endian fields ----

  /** The widths in bytes of the fields of a record. */
  type Format = seq<nat>

  function Pow256(n: nat): nat {
    if n == 0 then 1 else 256 * Pow256(n - 1)
  }

  function LittleEndian(n: nat, width: nat): (b: Bytes)
    ensures |b| == width
  {
    if width == 0 then [] else [n % 256] + LittleEndian(n / 256, width - 1)
  }

  function Value(b: Bytes): nat {
    if b == [] then 0 else b[0] + 256 * Value(b[1..])
  }

  lemma {:induction false} ValueOfLittleEndian(n: nat, width: nat)
    requires n < Pow256(width)
    ensures Value(LittleEndian(n, width)) == n
  {
    if width > 0 {
      ValueOfLittleEndian(n / 256, width - 1);
      assert LittleEndian(n, width)[1..] == LittleEndian(n / 256, width - 1);
    }
  }

  function Size(format: Format): nat {
    if format == [] then 0 else format[0] + Size(format[1..])
  }

  /** Every value fits its field; packing others is an error. */
  predicate Fits(format: Format, values: seq<nat>) {
    |format| == |values| && forall i :: 0 <= i < |format| ==> values[i] < Pow256(format[i])
  }

  function Pack(format: Format, values: seq<nat>): (b: Bytes)
    requires |format| == |values|
    ensures |b| == Size(format)
  {
    if format == [] then [] else LittleEndian(values[0], format[0]) + Pack(format[1..], values[1..])
  }

  function Unpack(format: Format, b: Bytes): (values: seq<nat>)
    requires |b| == Size(format)
    ensures |values| == |format|
  {
    if format == [] then [] else [Value(b[..format[0]])] + Unpack(format[1..], b[format[0]..])
  }

  /** Reading back a packed record gives its values. */
  lemma {:induction false} UnpackPack(format: Format, values: seq<nat>)
    requires Fits(format, values)
    ensures Unpack(format, Pack(format, values)) == values
  {
    if format != [] {
      var head := LittleEndian(values[0], format[0]);
      var tail := Pack(format[1..], values[1..]);
      assert (head + tail)[..format[0]] == head && (head + tail)[format[0]..] == tail;
      ValueOfLittleEndian(values[0], format[0]);
      UnpackPack(format[1..], values[1..]);
    }
  }

  // ---- The records of an archive ----

  function Fields(width: nat, n: nat): Format {
    seq(n, _ => width)
  }

  // I 5H 3I 2H
  const LOCAL_FORMAT: Format := Fields(4, 1) + Fields(2, 5) + Fields(4, 3) + Fields(2, 2)
  // I 6H 3I 5H 2I
  const CENTRAL_FORMAT: Format := Fields(4, 1) + Fields(2, 6) + Fields(4, 3) + Fields(2, 5) + Fields(4, 2)
  // I 4H 2I H
  const END_FORMAT: Format := Fields(4, 1) + Fields(2, 4) + Fields(4, 2) + Fields(2, 1)

  const LOCAL_SIGNATURE: nat := 0x04034B50
  const CENTRAL_SIGNATURE: nat := 0x02014B50
  const END_SIGNATURE: nat := 0x06054B50

  function LocalValues(crc: nat, comp: nat, uncomp: nat, nameLength: nat): (v: seq<nat>)
    ensures |v| == |LOCAL_FORMAT|
  {
    [LOCAL_SIGNATURE, 20, 1, 0, 0, 0, crc, comp, uncomp, nameLength, 0]
  }

  function CentralValues(crc: nat, comp: nat, uncomp: nat, nameLength: nat): (v: seq<nat>)
    ensures |v| == |CENTRAL_FORMAT|
  {
    [CENTRAL_SIGNATURE, 20, 20, 1, 0, 0, 0, crc, comp, uncomp, nameLength, 0, 0, 0, 0, 0, 0]
  }

  function EndValues(centralSize: nat, bodySize: nat): (v: seq<nat>)
    ensures |v| == |END_FORMAT|
  {
    [END_SIGNATURE, 0, 0, 1, 1, centralSize, bodySize, 0]
  }

  lemma {:induction false} SizeConcat(a: Format, b: Format)
    ensures Size(a + b) == Size(a) + Size(b)
  {
    if a == [] {
      assert a + b == b;
    } else {
      assert (a + b)[1..] == a[1..] + b;
      SizeConcat(a[1..], b);
    }
  }

  lemma {:induction false} SizeOfFields(width: nat, n: nat)
    ensures Size(Fields(width, n)) == width * n
  {
    if n > 0 {
      assert Fields(width, n)[1..] == Fields(width, n - 1);
      SizeOfFields(width, n - 1);
      assert width * n == width + width * (n - 1);
    }
  }

  lemma SizeOfFour(w: seq<(nat, nat)>)
    requires |w| == 4
    ensures Size(Fields(w[0].0, w[0].1) + Fields(w[1].0, w[1].1) + Fields(w[2].0, w[2].1) + Fields(w[3].0, w[3].1))
         == w[0].0 * w[0].1 + w[1].0 * w[1].1 + w[2].0 * w[2].1 + w[3].0 * w[3].1
  {
    var f := seq(4, i requires 0 <= i < 4 => Fields(w[i].0, w[i].1));
    SizeConcat(f[0], f[1]);
    SizeConcat(f[0] + f[1], f[2]);
    SizeConcat(f[0] + f[1] + f[2], f[3]);
    forall i | 0 <= i < 4 { SizeOfFields(w[i].0, w[i].1); }
  }

  lemma RecordSizes()
    ensures Size(LOCAL_FORMAT) == 30 && Size(CENTRAL_FORMAT) == 46 && Size(END_FORMAT) == 22
    ensures Pow256(2) == 0x1_0000 && Pow256(4) == 0x1_0000_0000
  {
    SizeOfFour([(4, 1), (2, 5), (4, 3), (2, 2)]);
    SizeOfFour([(4, 1), (2, 4), (4, 2), (2, 1)]);
    SizeOfFour([(4, 1), (2, 6), (4, 3), (2, 5)]);
    SizeConcat(Fields(4, 1) + Fields(2, 6) + Fields(4, 3) + Fields(2, 5), Fields(4, 2));
    SizeOfFields(4, 2);
  }

  /** The CRC-32 of a byte string, bit by bit. */
  function CrcRegister(data: Bytes): Word {
    if data == [] then 0xFFFF_FFFF else CrcByte(CrcRegister(data[..|data| - 1]), data[|data| - 1])
  }

  function Crc32(data: Bytes): Word {
    XorWord(CrcRegister(data), 0xFFFF_FFFF)
  }

  function PasswordKeys(password: Bytes): Keys {
    KeysAfter(INITIAL_KEYS, password)
  }

  // ---- Reading ----

  /** An entry of the central directory; `raw` is its name as stored. */
  datatype EntryInfo = EntryInfo(raw: Bytes, flag: nat, compression: nat, crc: nat, comp: nat, uncomp: nat, offset: nat)

  /** The fields of the central header at `pos`. */
  function CentralAt(blob: Bytes, pos: nat, end: nat): (r: Result<seq<nat>>)
    requires pos <= end <= |blob|
    ensures r.Ok? ==> |r.value| == 17 && pos + 46 + r.value[10] + r.value[11] + r.value[12] <= end
  {
    RecordSizes();
    if pos + 46 > end then Err(BadHeader)
    else
      var v := Unpack(CENTRAL_FORMAT, blob[pos..pos + 46]);
      if v[0] != CENTRAL_SIGNATURE || pos + 46 + v[10] + v[11] + v[12] > end then Err(BadHeader)
      else Ok(v)
  }

  function EntryOf(raw: Bytes, v: seq<nat>): EntryInfo
    requires |v| == 17
  {
    EntryInfo(raw, v[3], v[4], v[7], v[8], v[9], v[16])
  }

  /** Looks `name` up in the central directory that lies between `pos` and `end`. */
  function FindEntry(page: CodePage, blob: Bytes, pos: nat, end: nat, name: string): Result<EntryInfo>
    requires pos <= end <= |blob|
    decreases end - pos
  {
    if pos == end then Err(NoSuchEntry)
    else
      match CentralAt(blob, pos, end)
      case Err(error) => Err(error)
      case Ok(v) =>
        var raw := blob[pos + 46..pos + 46 + v[10]];
        if Listed(page, raw) == name then Ok(EntryOf(raw, v))
        else FindEntry(page, blob, pos + 46 + v[10] + v[11] + v[12], end, name)
  }

  /** The stored bytes of an entry, located through its local header, which must have the same name. */
  function Payload(page: CodePage, blob: Bytes, e: EntryInfo): Result<Bytes> {
    RecordSizes();
    if e.offset + 30 > |blob| then Err(BadHeader)
    else
      var v := Unpack(LOCAL_FORMAT, blob[e.offset..e.offset + 30]);
      var start := e.offset + 30 + v[9] + v[10];
      if v[0] != LOCAL_SIGNATURE || start + e.comp > |blob| then Err(BadHeader)
      else if Decoded(page, blob[e.offset + 30..e.offset + 30 + v[9]]) != Decoded(page, e.raw) then Err(BadHeader)
      else Ok(blob[start..start + e.comp])
  }

  /** Decryption of a stored entry, with the check byte tested against the CRC. */
  function Extract(e: EntryInfo, payload: Bytes, password: Bytes): Result<Bytes> {
    if e.compression != 0 then Err(UnsupportedMethod)
    else if e.flag % 2 == 1 && password == [] then Err(PasswordRequired)
    else if e.flag % 2 == 1 && |payload| < 12 then Err(BadHeader)
    else
      var plain := if e.flag % 2 == 1 then Decrypted(PasswordKeys(password), payload) else payload;
      if e.flag % 2 == 1 && plain[11] != e.crc / 0x100_0000 then Err(BadPassword)
      else
        var data := if e.flag % 2 == 1 then plain[12..] else plain;
        if |data| != e.uncomp then Err(BadHeader)
        else if Crc32(data) != e.crc then Err(BadCrc)
        else Ok(data)
  }

  /** Where the central directory starts, according to the end record. */
  function Directory(blob: Bytes): (r: Result<nat>)
    ensures r.Ok? ==> r.value + 22 <= |blob|
  {
    RecordSizes();
    if |blob| < 22 then Err(NotAZip)
    else
      var v := Unpack(END_FORMAT, blob[|blob| - 22..]);
      if v[0] != END_SIGNATURE || v[7] != 0 || v[6] + v[5] + 22 != |blob| then Err(NotAZip)
      else Ok(v[6])
  }

  /** The signature of the ZIP64 locator, whose 20 bytes would stand before the end record. */
  const LOCATOR: Bytes := [0x50, 0x4B, 0x06, 0x07]

  predicate HasLocator(blob: Bytes) {
    |blob| >= 42 && blob[|blob| - 42..|blob| - 38] == LOCATOR
  }

  function ReadZip(page: CodePage, blob: Bytes, name: string, password: Bytes): Result<Bytes> {
    match Directory(blob)
    case Err(error) => Err(error)
    case Ok(start) =>
      if HasLocator(blob) then Err(SplitArchive)
      else ReadFound(page, blob, FindEntry(page, blob, start, |blob| - 22, name), password)
  }

  function ReadFound(page: CodePage, blob: Bytes, found: Result<EntryInfo>, password: Bytes): Result<Bytes> {
    match found
    case Err(error) => Err(error)
    case Ok(e) =>
      match Payload(page, blob, e)
      case Err(error) => Err(error)
      case Ok(payload) => Extract(e, payload, password)
  }

  // ---- Writing ----

  /** The header that precedes the data inside the encryption: 11 random bytes and the check byte. */
  function Sealed(data: Bytes, password: Bytes, salt: Bytes): (enc: Bytes)
    requires |salt| == 11
    ensures |enc| == |data| + 12
  {
    Encrypted(PasswordKeys(password), salt + [Crc32(data) / 0x100_0000] + data)
  }

  function LocalPart(name: Bytes, data: Bytes): Bytes {
    Pack(LOCAL_FORMAT, LocalValues(Crc32(data), |data| + 12, |data|, |name|)) + name
  }

  function CentralPart(name: Bytes, data: Bytes): Bytes {
    Pack(CENTRAL_FORMAT, CentralValues(Crc32(data), |data| + 12, |data|, |name|)) + name
  }

  function Assembled(name: Bytes, data: Bytes, enc: Bytes): Bytes {
    var body := LocalPart(name, data) + enc;
    var central := CentralPart(name, data);
    body + central + Pack(END_FORMAT, EndValues(|central|, |body|))
  }

  function Archive(name: Bytes, data: Bytes, password: Bytes, salt: Bytes): Bytes
    requires |salt| == 11
  {
    Assembled(name, data, Sealed(data, password, salt))
  }

  /** All fields of the three records fit their 16 and 32 bits. */
  predicate WithinLimits(name: Bytes, data: Bytes) {
    |name| < 0x1_0000 && 30 + |name| + |data| + 12 < 0x1_0000_0000
  }

  lemma Slice(blob: Bytes, pre: Bytes, x: Bytes, post: Bytes)
    requires blob == pre + x + post
    ensures blob[|pre|..|pre| + |x|] == x
  {
  }

  lemma LocalFits(name: Bytes, data: Bytes)
    requires WithinLimits(name, data)
    ensures Fits(LOCAL_FORMAT, LocalValues(Crc32(data), |data| + 12, |data|, |name|))
  {
    RecordSizes();
  }

  lemma CentralFits(name: Bytes, data: Bytes)
    requires WithinLimits(name, data)
    ensures Fits(CENTRAL_FORMAT, CentralValues(Crc32(data), |data| + 12, |data|, |name|))
  {
    RecordSizes();
  }

  lemma EndFits(name: Bytes, data: Bytes)
    requires WithinLimits(name, data)
    ensures Fits(END_FORMAT, EndValues(46 + |name|, 42 + |name| + |data|))
  {
    RecordSizes();
  }

  lemma FieldsFit(name: Bytes, data: Bytes)
    requires WithinLimits(name, data)
    ensures Fits(LOCAL_FORMAT, LocalValues(Crc32(data), |data| + 12, |data|, |name|))
    ensures Fits(CENTRAL_FORMAT, CentralValues(Crc32(data), |data| + 12, |data|, |name|))
    ensures Fits(END_FORMAT, EndValues(46 + |name|, 42 + |name| + |data|))
  {
    LocalFits(name, data);
    CentralFits(name, data);
    EndFits(name, data);
  }

  function ExpectedEntry(name: Bytes, data: Bytes): EntryInfo {
    EntryInfo(name, 1, 0, Crc32(data), |data| + 12, |data|, 0)
  }

  /** A central header is read where it was written. */
  lemma CentralIsRead(blob: Bytes, pre: Bytes, packed: Bytes, name: Bytes, post: Bytes, v: seq<nat>)
    requires blob == pre + (packed + name) + post && |post| == 22
    requires |packed| == Size(CENTRAL_FORMAT) == 46 && v == Unpack(CENTRAL_FORMAT, packed)
    requires v[0] == CENTRAL_SIGNATURE && v[10] == |name| && v[11] == v[12] == 0
    ensures CentralAt(blob, |pre|, |blob| - 22) == Ok(v)
    ensures blob[|pre| + 46..|pre| + 46 + |name|] == name
  {
    Associate(pre, packed, name);
    Associate(pre + packed, name, post);
    Slice(blob, pre, packed, name + post);
    Slice(blob, pre + packed, name, post);
  }

  /** What a directory with one entry answers. */
  function OnlyEntry(page: CodePage, e: EntryInfo, name: string): Result<EntryInfo> {
    if Listed(page, e.raw) == name then Ok(e) else Err(NoSuchEntry)
  }

  /** The only central header is found under the name it is listed with, and under no other. */
  lemma FirstEntryIsFound(page: CodePage, blob: Bytes, pos: nat, end: nat, raw: Bytes, v: seq<nat>, name: string)
    requires pos + 46 + |raw| == end <= |blob|
    requires CentralAt(blob, pos, end) == Ok(v) && v[10] == |raw| && v[11] == v[12] == 0
    requires blob[pos + 46..pos + 46 + |raw|] == raw
    ensures FindEntry(page, blob, pos, end, name) == OnlyEntry(page, EntryOf(raw, v), name)
  {
  }

  lemma EntryAt(page: CodePage, blob: Bytes, pos: nat, body: Bytes, packed: Bytes, raw: Bytes, post: Bytes, v: seq<nat>,
                name: string)
    requires blob == body + (packed + raw) + post && |post| == 22 && pos == |body|
    requires |packed| == Size(CENTRAL_FORMAT) == 46 && v == Unpack(CENTRAL_FORMAT, packed)
    requires v[0] == CENTRAL_SIGNATURE && v[10] == |raw| && v[11] == v[12] == 0
    ensures FindEntry(page, blob, pos, |blob| - 22, name) == OnlyEntry(page, EntryOf(raw, v), name)
  {
    var end := |blob| - 22;
    assert end == pos + 46 + |raw|;
    assert CentralAt(blob, pos, end) == Ok(v) && blob[pos + 46..pos + 46 + |raw|] == raw by {
      CentralIsRead(blob, body, packed, raw, post, v);
    }
    FirstEntryIsFound(page, blob, pos, end, raw, v, name);
  }

  /** The payload of an entry at offset 0 is found behind its local header. */
  lemma PayloadAt(page: CodePage, blob: Bytes, e: EntryInfo, packed: Bytes, name: Bytes, payload: Bytes, post: Bytes,
                  v: seq<nat>)
    requires blob == packed + name + payload + post
    requires e.offset == 0 && e.comp == |payload| && e.raw == name
    requires |packed| == Size(LOCAL_FORMAT) == 30 && v == Unpack(LOCAL_FORMAT, packed)
    requires v[0] == LOCAL_SIGNATURE && v[9] == |name| && v[10] == 0
    ensures Payload(page, blob, e) == Ok(payload)
  {
    var start := 30 + |name|;
    ThreeParts(blob, packed, name, payload, post);
    PayloadBehind(page, blob, e, v, start);
  }

  /** The payload behind a local header that has been read. */
  lemma PayloadBehind(page: CodePage, blob: Bytes, e: EntryInfo, v: seq<nat>, start: nat)
    requires 30 <= start && start + e.comp <= |blob| && e.offset == 0 && Size(LOCAL_FORMAT) == 30
    requires v == Unpack(LOCAL_FORMAT, blob[0..30]) && v[0] == LOCAL_SIGNATURE && v[9] == start - 30 && v[10] == 0
    requires blob[30..start] == e.raw
    ensures Payload(page, blob, e) == Ok(blob[start..start + e.comp])
  {
  }

  lemma ThreeParts(blob: Bytes, packed: Bytes, name: Bytes, payload: Bytes, post: Bytes)
    requires blob == packed + name + payload + post && |packed| == 30
    ensures var start := 30 + |name|;
            blob[0..30] == packed && blob[30..start] == name && blob[start..start + |payload|] == payload
  {
    var start := 30 + |name|;
    assert blob[0..30] == packed by {
      assert blob == [] + packed + (name + payload + post);
      Slice(blob, [], packed, name + payload + post);
    }
    assert blob[30..start] == name by {
      assert blob == packed + name + (payload + post);
      Slice(blob, packed, name, payload + post);
    }
    assert blob[start..start + |payload|] == payload by {
      Slice(blob, packed + name, payload, post);
    }
  }

  lemma ValuesOfArchive(name: Bytes, data: Bytes, body: nat, central: nat)
    ensures var v := LocalValues(Crc32(data), |data| + 12, |data|, |name|);
            v[0] == LOCAL_SIGNATURE && v[9] == |name| && v[10] == 0
    ensures var v := CentralValues(Crc32(data), |data| + 12, |data|, |name|);
            && v[0] == CENTRAL_SIGNATURE && v[10] == |name| && v[11] == v[12] == 0
            && EntryOf(name, v) == ExpectedEntry(name, data)
    ensures var v := EndValues(central, body);
            v[0] == END_SIGNATURE && v[5] == central && v[6] == body && v[7] == 0
  {
  }

  /** The end record leads to the central directory. */
  lemma DirectoryAt(blob: Bytes, body: Bytes, central: Bytes, packed: Bytes)
    requires blob == body + central + packed
    requires |packed| == Size(END_FORMAT) == 22
    requires var v := Unpack(END_FORMAT, packed);
             v[0] == END_SIGNATURE && v[5] == |central| && v[6] == |body| && v[7] == 0
    ensures Directory(blob) == Ok(|body|)
  {
    assert blob[|blob| - 22..] == packed;
  }

  /** The sealed data is accepted and recovered, unless the password is empty. */
  lemma SealIsOpened(name: Bytes, data: Bytes, password: Bytes, salt: Bytes)
    requires |salt| == 11
    ensures Extract(ExpectedEntry(name, data), Sealed(data, password, salt), password)
         == if password == [] then Err(PasswordRequired) else Ok(data)
  {
    var plain := salt + [Crc32(data) / 0x100_0000] + data;
    DecryptInvertsEncrypt(PasswordKeys(password), plain);
    assert plain[11] == Crc32(data) / 0x100_0000 && plain[12..] == data;
  }

  /** The reader finds entry `e`, and nothing else, in the directory, and its stored bytes `payload`. */
  ghost predicate Located(page: CodePage, blob: Bytes, e: EntryInfo, payload: Bytes, name: string) {
    && Directory(blob).Ok?
    && FindEntry(page, blob, Directory(blob).value, |blob| - 22, name) == OnlyEntry(page, e, name)
    && Payload(page, blob, e) == Ok(payload)
  }

  lemma PartsAreLocated(page: CodePage, blob: Bytes, local: Bytes, raw: Bytes, enc: Bytes, central: Bytes, end: Bytes,
                        e: EntryInfo, name: string)
    requires blob == local + raw + enc + (central + raw) + end
    requires |local| == Size(LOCAL_FORMAT) == 30 && |central| == Size(CENTRAL_FORMAT) == 46
    requires |end| == Size(END_FORMAT) == 22
    requires e.offset == 0 && e.comp == |enc| && e.raw == raw
    requires var v := Unpack(LOCAL_FORMAT, local);
             v[0] == LOCAL_SIGNATURE && v[9] == |raw| && v[10] == 0
    requires var v := Unpack(CENTRAL_FORMAT, central);
             v[0] == CENTRAL_SIGNATURE && v[10] == |raw| && v[11] == v[12] == 0 && EntryOf(raw, v) == e
    requires var v := Unpack(END_FORMAT, end);
             v[0] == END_SIGNATURE && v[5] == |central + raw| && v[6] == |local + raw + enc| && v[7] == 0
    ensures Located(page, blob, e, enc, name)
  {
    var body := local + raw + enc;
    DirectoryAt(blob, body, central + raw, end);
    EntryAt(page, blob, |body|, body, central, raw, end, Unpack(CENTRAL_FORMAT, central), name);
    Associate(body, central + raw, end);
    PayloadAt(page, blob, e, local, raw, enc, central + raw + end, Unpack(LOCAL_FORMAT, local));
  }

  /** The reader finds the CRC and both sizes in the central directory, under the name as it decodes it, and the
      payload behind the local header. */
  lemma ArchiveIsLocated(page: CodePage, raw: Bytes, data: Bytes, password: Bytes, salt: Bytes, name: string)
    requires |salt| == 11 && WithinLimits(raw, data)
    ensures Located(page, Archive(raw, data, password, salt), ExpectedEntry(raw, data), Sealed(data, password, salt),
                    name)
  {
    RecordSizes();
    FieldsFit(raw, data);
    var n, enc := |data|, Sealed(data, password, salt);
    var local := Packed(LOCAL_FORMAT, LocalValues(Crc32(data), n + 12, n, |raw|));
    var central := Packed(CENTRAL_FORMAT, CentralValues(Crc32(data), n + 12, n, |raw|));
    var end := Packed(END_FORMAT, EndValues(|central + raw|, |local + raw + enc|));
    ValuesOfArchive(raw, data, |local + raw + enc|, |central + raw|);
    PartsAreLocated(page, Archive(raw, data, password, salt), local, raw, enc, central, end, ExpectedEntry(raw, data),
                    name);
  }

  lemma Packed(format: Format, values: seq<nat>) returns (b: Bytes)
    requires Fits(format, values)
    ensures b == Pack(format, values) && Unpack(format, b) == values
  {
    UnpackPack(format, values);
    b := Pack(format, values);
  }

  // ---- Names that look like a ZIP64 locator ----

  /** The last 20 bytes of a name stand where the locator would. */
  predicate EndsInLocator(raw: Bytes) {
    |raw| >= 20 && raw[|raw| - 20..|raw| - 16] == LOCATOR
  }

  lemma {:induction false} PackConcat(f: Format, g: Format, v: seq<nat>, w: seq<nat>)
    requires |f| == |v| && |g| == |w|
    ensures Pack(f + g, v + w) == Pack(f, v) + Pack(g, w)
  {
    if f == [] {
      assert f + g == g && v + w == w;
    } else {
      assert (f + g)[1..] == f[1..] + g && (v + w)[1..] == v[1..] + w;
      PackConcat(f[1..], g, v[1..], w);
    }
  }

  lemma {:induction false} ZeroBytes(width: nat)
    ensures forall i :: 0 <= i < width ==> LittleEndian(0, width)[i] == 0
  {
    if width > 0 {
      ZeroBytes(width - 1);
    }
  }

  lemma {:induction false} ZeroFields(f: Format, v: seq<nat>)
    requires |f| == |v| && forall i :: 0 <= i < |v| ==> v[i] == 0
    ensures forall i :: 0 <= i < Size(f) ==> Pack(f, v)[i] == 0
  {
    if f != [] {
      ZeroBytes(f[0]);
      ZeroFields(f[1..], v[1..]);
    }
  }

  /** The last fields of the central header: after 28 bytes the length of the name, and then zeros. */
  lemma CentralTail(crc: nat, comp: nat, uncomp: nat, length: nat)
    requires length < 256
    ensures var b := Pack(CENTRAL_FORMAT, CentralValues(crc, comp, uncomp, length));
            |b| == 46 && forall i :: 29 <= i < 46 ==> b[i] == 0
  {
    RecordSizes();
    var f, g := Fields(4, 1) + Fields(2, 6) + Fields(4, 3), Fields(2, 4) + Fields(4, 2);
    var v, w := [CENTRAL_SIGNATURE, 20, 20, 1, 0, 0, 0, crc, comp, uncomp], [0, 0, 0, 0, 0, 0];
    assert CENTRAL_FORMAT == f + ([2] + g);
    assert CentralValues(crc, comp, uncomp, length) == v + ([length] + w);
    PackConcat(f, [2] + g, v, [length] + w);
    PackConcat([2], g, [length], w);
    ZeroFields(g, w);
    HeadSizes();
    assert LittleEndian(length, 2)[1] == 0;
    assert Pack([2], [length]) == LittleEndian(length, 2) + Pack([], []);
  }

  lemma HeadSizes()
    ensures Size(Fields(4, 1) + Fields(2, 6) + Fields(4, 3)) == 28
  {
    SizeConcat(Fields(4, 1) + Fields(2, 6), Fields(4, 3));
    SizeConcat(Fields(4, 1), Fields(2, 6));
    SizeOfFields(4, 1);
    SizeOfFields(2, 6);
    SizeOfFields(4, 3);
  }

  lemma LocatorAt(blob: Bytes, body: Bytes, packed: Bytes, raw: Bytes, post: Bytes)
    requires blob == body + (packed + raw) + post && |packed| == 46 && |post| == 22
    requires |raw| < 20 ==> forall i :: 29 <= i < 46 ==> packed[i] == 0
    ensures HasLocator(blob) <==> EndsInLocator(raw)
  {
    var at := |blob| - 42;
    var t := packed + raw;
    assert blob[at..at + 4] == t[26 + |raw|..30 + |raw|] by {
      assert forall i :: 0 <= i < |t| ==> blob[|body| + i] == t[i];
    }
    if |raw| >= 20 {
      assert t[26 + |raw|..30 + |raw|] == raw[|raw| - 20..|raw| - 16];
    } else {
      var z := if |raw| <= 3 then 3 - |raw| else 0;
      assert t[26 + |raw|..30 + |raw|][z] == t[26 + |raw| + z] == 0;
      assert LOCATOR[z] != 0;
    }
  }

  /** A locator is seen in an archive if and only if its name ends like one. */
  lemma ArchiveLocator(raw: Bytes, data: Bytes, password: Bytes, salt: Bytes)
    requires |salt| == 11
    ensures HasLocator(Archive(raw, data, password, salt)) <==> EndsInLocator(raw)
  {
    RecordSizes();
    var body := LocalPart(raw, data) + Sealed(data, password, salt);
    var packed := Pack(CENTRAL_FORMAT, CentralValues(Crc32(data), |data| + 12, |data|, |raw|));
    var end := Pack(END_FORMAT, EndValues(|packed + raw|, |body|));
    if |raw| < 20 {
      CentralTail(Crc32(data), |data| + 12, |data|, |raw|);
    }
    LocatorAt(Archive(raw, data, password, salt), body, packed, raw, end);
  }

  // ---- The round trip ----

  /** Names under which the reader finds what the writer wrote. */
  predicate IsReadable(name: string) {
    IsPlain(name) && !EndsInLocator(Utf8(name))
  }

  /** What the self-test reads. */
  function ReadBack(page: CodePage, name: string, data: Bytes, password: string, salt: Bytes): Result<Bytes>
    requires |salt| == 11
  {
    ReadZip(page, Archive(Utf8(name), data, Utf8(password), salt), name, Utf8(password))
  }

  /** Within the field limits, the archive is read back under its name and password if and only if the name is
      ASCII without NUL, does not end like a ZIP64 locator, and the password is not empty. */
  lemma ArchiveIsReadBack(page: CodePage, name: string, data: Bytes, password: string, salt: Bytes)
    requires IsCodePage(page) && |salt| == 11 && WithinLimits(Utf8(name), data)
    ensures ReadBack(page, name, data, password, salt) == Ok(data) <==> IsReadable(name) && password != ""
  {
    var raw := Utf8(name);
    ArchiveIsLocated(page, raw, data, Utf8(password), salt, name);
    ArchiveLocator(raw, data, Utf8(password), salt);
    ListedAsWritten(page, name);
    SealIsOpened(raw, data, Utf8(password), salt);
    Utf8Length(password);
  }

  /** So a name outside ASCII, such as one with an umlaut, is not found again, */
  lemma UmlautIsNotFound(page: CodePage, data: Bytes, password: string, salt: Bytes)
    requires IsCodePage(page) && |salt| == 11 && |data| < 0x8000_0000
    ensures ReadBack(page, "pr\U{FC}fung.txt", data, password, salt) != Ok(data)
  {
    var name := "pr\U{FC}fung.txt";
    assert name[2] == '\U{FC}';
    ShortNameFits(name, data);
    ArchiveIsReadBack(page, name, data, password, salt);
  }

  /** a NUL cuts the name short, */
  lemma NulIsNotFound(page: CodePage, data: Bytes, password: string, salt: Bytes)
    requires IsCodePage(page) && |salt| == 11 && |data| < 0x8000_0000
    ensures ReadBack(page, "a\0b", data, password, salt) != Ok(data)
  {
    var name := "a\0b";
    assert name[1] == '\0';
    ShortNameFits(name, data);
    ArchiveIsReadBack(page, name, data, password, salt);
  }

  lemma LocatorName(name: string)
    requires |name| == 20 && IsPlain(name) && name[..4] == "PK\U{06}\U{07}"
    ensures EndsInLocator(Utf8(name))
  {
    Utf8OfAscii(name);
    assert name[0] == name[..4][0] && name[1] == name[..4][1] && name[2] == name[..4][2] && name[3] == name[..4][3];
    assert Utf8(name)[..4] == LOCATOR;
  }

  /** a name of 20 characters that starts with the signature of the locator hides the entry, */
  lemma LocatorIsNotFound(page: CodePage, data: Bytes, password: string, salt: Bytes)
    requires IsCodePage(page) && |salt| == 11 && |data| < 0x8000_0000
    ensures ReadBack(page, "PK\U{06}\U{07}aaaaaaaaaaaaaaaa", data, password, salt) != Ok(data)
  {
    var name := "PK\U{06}\U{07}aaaaaaaaaaaaaaaa";
    assert name[..4] == "PK\U{06}\U{07}";
    LocatorName(name);
    ShortNameFits(name, data);
    ArchiveIsReadBack(page, name, data, password, salt);
  }

  /** and an empty password counts as none. */
  lemma EmptyPasswordIsRefused(page: CodePage, name: string, data: Bytes, salt: Bytes)
    requires IsCodePage(page) && |salt| == 11 && WithinLimits(Utf8(name), data)
    ensures ReadBack(page, name, data, "", salt) != Ok(data)
  {
    ArchiveIsReadBack(page, name, data, "", salt);
  }

  lemma ShortNameFits(name: string, data: Bytes)
    requires |name| < 0x1000 && |data| < 0x8000_0000
    ensures WithinLimits(Utf8(name), data)
  {
    Utf8Limit(name);
  }

  /** The packing of the records around the encrypted data, which fails if a field does not fit. */
  method PackArchive(raw: Bytes, data: Bytes, enc: Bytes, crc: Word) returns (r: Result<Bytes>)
    requires crc == Crc32(data) && |enc| == |data| + 12
    ensures r == if WithinLimits(raw, data) then Ok(Assembled(raw, data, enc)) else Err(StructError)
  {
    var compSize, uncompSize := |enc|, |data|;
    if !(compSize < 0x1_0000_0000 && uncompSize < 0x1_0000_0000 && |raw| < 0x1_0000) {
      return Err(StructError);
    }
    var local := Pack(LOCAL_FORMAT, LocalValues(crc, compSize, uncompSize, |raw|)) + raw;
    var body := local + enc;
    var central := Pack(CENTRAL_FORMAT, CentralValues(crc, compSize, uncompSize, |raw|)) + raw;
    RecordSizes();
    if |body| >= 0x1_0000_0000 {
      return Err(StructError);
    }
    r := Ok(body + central + Pack(END_FORMAT, EndValues(|central|, |body|)));
  }

  /** Reads the archive back and returns it if that gives the data. */
  method SelfTest(page: CodePage, blob: Bytes, name: string, data: Bytes, password: string, salt: Bytes)
    returns (r: Result<Bytes>)
    requires IsCodePage(page) && |salt| == 11 && WithinLimits(Utf8(name), data)
    requires blob == Archive(Utf8(name), data, Utf8(password), salt)
    ensures r.Ok? <==> IsReadable(name) && password != ""
    ensures r.Ok? ==> r.value == blob
  {
    ArchiveIsReadBack(page, name, data, password, salt);
    var read := ReadZip(page, blob, name, Utf8(password));
    if read.Err? {
      return read;
    }
    if read.value != data {
      return Err(SelfTestFailed);
    }
    r := Ok(blob);
  }

  /** `salt` stands for the random bytes, and `page` for the decoding of names by the library. */
  method EncryptedZip(tab: seq<Word>, page: CodePage, name: string, data: Bytes, password: string, salt: Bytes)
    returns (r: Result<Bytes>)
    requires IsCrcTable(tab) && IsCodePage(page) && |salt| == 11
    ensures r.Ok? <==> WithinLimits(Utf8(name), data) && IsReadable(name) && password != ""
    ensures r.Ok? ==> r.value == Archive(Utf8(name), data, Utf8(password), salt)
    ensures !WithinLimits(Utf8(name), data) ==> r == Err(StructError)
  {
    var crc := Crc32(data);
    var header := salt + [crc / 0x100_0000];
    var keys := new ZipKeys(tab, Utf8(password));
    var enc := keys.Encrypt(header + data);
    assert enc == Sealed(data, Utf8(password), salt);
    r := PackArchive(Utf8(name), data, enc, crc);
    if r.Ok? {
      r := SelfTest(page, r.value, name, data, password, salt);
    }
  }
}
