/** Names of entries: encoded as UTF-8 by the writer, and decoded as code page 437 by a reader that finds the
    UTF-8 flag unset. */
module ZipNames {
  import opened Text
  import opened ZipCrypto

  // ---- UTF-8 ----

  function Utf8Char(c: char): (b: Bytes)
    ensures 1 <= |b| <= 4 && (|b| == 1 <==> c < '\U{80}') && (c < '\U{80}' ==> b[0] == c as int)
    ensures c != '\0' ==> forall i :: 0 <= i < |b| ==> b[i] != 0
  {
    var n := c as int;
    if n < 0x80 then [n]
    else if n < 0x800 then [0xC0 + n / 64, 0x80 + n % 64]
    else if n < 0x1_0000 then [0xE0 + n / 4096, 0x80 + n / 64 % 64, 0x80 + n % 64]
    else [0xF0 + n / 262144, 0x80 + n / 4096 % 64, 0x80 + n / 64 % 64, 0x80 + n % 64]
  }

  /** `s.encode()`. */
  function Utf8(s: string): Bytes {
    if s == [] then [] else Utf8(s[..|s| - 1]) + Utf8Char(s[|s| - 1])
  }

  lemma {:induction false} Utf8Length(s: string)
    ensures |s| <= |Utf8(s)| && (|Utf8(s)| == |s| <==> IsAscii(s))
  {
    if s != [] {
      var front := s[..|s| - 1];
      assert s == front + [s[|s| - 1]];
      Utf8Length(front);
    }
  }

  lemma {:induction false} Utf8Limit(s: string)
    ensures |Utf8(s)| <= 4 * |s|
  {
    if s != [] {
      Utf8Limit(s[..|s| - 1]);
    }
  }

  lemma {:induction false} Utf8OfAscii(s: string)
    requires IsAscii(s)
    ensures |Utf8(s)| == |s| && forall i :: 0 <= i < |s| ==> Utf8(s)[i] == s[i] as int
  {
    if s != [] {
      Utf8OfAscii(s[..|s| - 1]);
    }
  }

  lemma {:induction false} Utf8WithoutNul(s: string)
    requires '\0' !in s
    ensures 0 !in Utf8(s)
  {
    if s != [] {
      var front, last := s[..|s| - 1], s[|s| - 1];
      assert s == front + [last];
      Utf8WithoutNul(front);
    }
  }

  // ---- Code page 437 ----

  type CodePage = Byte -> char

  /** ASCII in the lower half and characters outside ASCII in the upper one, as every IBM code page. */
  ghost predicate IsCodePage(page: CodePage) {
    forall b: Byte :: if b < 0x80 then page(b) == b as char else page(b) >= '\U{80}'
  }

  function Decoded(page: CodePage, raw: Bytes): (s: string)
    ensures |s| == |raw|
  {
    seq(|raw|, i requires 0 <= i < |raw| => page(raw[i]))
  }

  /** Everything before the first NUL. */
  function CutAtNul(s: string): (r: string)
    ensures '\0' !in r && r <= s && ('\0' !in s ==> r == s)
  {
    if s == [] || s[0] == '\0' then [] else [s[0]] + CutAtNul(s[1..])
  }

  /** The name under which an entry is listed. */
  function Listed(page: CodePage, raw: Bytes): string {
    CutAtNul(Decoded(page, raw))
  }

  /** Names that survive the change of encoding. */
  predicate IsPlain(name: string) {
    IsAscii(name) && '\0' !in name
  }

  lemma DecodedWithoutNul(page: CodePage, raw: Bytes)
    requires IsCodePage(page) && 0 !in raw
    ensures '\0' !in Decoded(page, raw)
  {
    forall i | 0 <= i < |raw|
      ensures Decoded(page, raw)[i] != '\0'
    {
      assert raw[i] in raw;
    }
  }

  /** An entry is listed under the name it was written with if and only if the name is plain. */
  lemma ListedAsWritten(page: CodePage, name: string)
    requires IsCodePage(page)
    ensures Listed(page, Utf8(name)) == name <==> IsPlain(name)
  {
    if '\0' !in name {
      Utf8WithoutNul(name);
      DecodedWithoutNul(page, Utf8(name));
      Utf8Length(name);
      if IsAscii(name) {
        Utf8OfAscii(name);
        assert Decoded(page, Utf8(name)) == name;
      }
    }
  }
}
