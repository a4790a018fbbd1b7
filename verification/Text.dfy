/** The few string operations the modelled code relies on, over Unicode characters. */
module Text {

  /** The characters on which Python's `str.strip` and `str.split` act. */
  predicate IsSpace(c: char) {
    || '\t' <= c <= '\r' || '\U{1C}' <= c <= ' ' || c == '\U{85}' || c == '\U{A0}'
    || c == '\U{1680}' || '\U{2000}' <= c <= '\U{200A}' || c == '\U{2028}' || c == '\U{2029}'
    || c == '\U{202F}' || c == '\U{205F}' || c == '\U{3000}'
  }

  /** The characters at which Python's `str.splitlines` ends a line. */
  predicate IsBreak(c: char) {
    || '\n' <= c <= '\r' || '\U{1C}' <= c <= '\U{1E}' || c == '\U{85}'
    || c == '\U{2028}' || c == '\U{2029}'
  }

  function LowerChar(c: char): char {
    if 'A' <= c <= 'Z' then c - 'A' + 'a' else c
  }

  /** ASCII lower-casing; characters outside ASCII are left alone. */
  function Lower(s: string): (r: string)
    ensures |r| == |s|
  {
    seq(|s|, i requires 0 <= i < |s| => LowerChar(s[i]))
  }

  predicate IsAscii(s: string) {
    forall i :: 0 <= i < |s| ==> s[i] < '\U{80}'
  }

  predicate StartsWith(s: string, prefix: string) {
    prefix <= s
  }

  predicate EndsWith(s: string, suffix: string) {
    |suffix| <= |s| && s[|s| - |suffix|..] == suffix
  }

  /** `s.split()`: the maximal runs of characters that are not whitespace. */
  function SplitSpace(s: string): seq<string> {
    if s == [] then []
    else if IsSpace(s[0]) then SplitSpace(s[1..])
    else
      var n := RunLength(s);
      [s[..n]] + SplitSpace(s[n..])
  }

  function RunLength(s: string): (n: nat)
    ensures n <= |s|
    ensures s != [] && !IsSpace(s[0]) ==> n > 0
    ensures forall i :: 0 <= i < n ==> !IsSpace(s[i])
    ensures n < |s| ==> IsSpace(s[n])
  {
    if s == [] || IsSpace(s[0]) then 0 else 1 + RunLength(s[1..])
  }

  lemma {:induction false} RunLengthOfWord(w: string, rest: string)
    requires forall i :: 0 <= i < |w| ==> !IsSpace(w[i])
    requires rest == [] || IsSpace(rest[0])
    ensures RunLength(w + rest) == |w|
  {
    if w == [] {
      assert w + rest == rest;
    } else {
      assert (w + rest)[1..] == w[1..] + rest;
      RunLengthOfWord(w[1..], rest);
    }
  }

  /** The first word of a text is split off at the space that follows it. */
  lemma {:induction false} SplitSpaceWord(w: string, rest: string)
    requires w != [] && forall i :: 0 <= i < |w| ==> !IsSpace(w[i])
    ensures SplitSpace(w + [' '] + rest) == [w] + SplitSpace(rest)
  {
    var s := w + ([' '] + rest);
    assert s == w + [' '] + rest;
    RunLengthOfWord(w, [' '] + rest);
    assert s[..|w|] == w && s[|w|..] == [' '] + rest;
    assert ([' '] + rest)[1..] == rest;
  }

  lemma {:induction false} SplitSpaceLastWord(w: string)
    requires w != [] && forall i :: 0 <= i < |w| ==> !IsSpace(w[i])
    ensures SplitSpace(w) == [w]
  {
    RunLengthOfWord(w, []);
    assert w + [] == w;
    assert w[..|w|] == w && w[|w|..] == [];
  }

  /** `s.split(c, 1)[0]` and the key part of `s.partition(c)`: everything before the first `c`. */
  function Before(s: string, c: char): (r: string)
    ensures r <= s && c !in r
    ensures r == s || s[|r|] == c
  {
    if s == [] || s[0] == c then [] else [s[0]] + Before(s[1..], c)
  }

  /** The value part of `s.partition(c)`: everything after the first `c`, or nothing. */
  function After(s: string, c: char): string {
    var n := |Before(s, c)|;
    if n == |s| then [] else s[n + 1..]
  }

  /** `s.split(c)` for a single character. */
  function SplitOn(s: string, c: char): (parts: seq<string>)
    ensures parts != []
    decreases |s|
  {
    var head := Before(s, c);
    if head == s then [s] else [head] + SplitOn(After(s, c), c)
  }

  /** `sep.join(parts)`. */
  function Join(parts: seq<string>, sep: string): string {
    if parts == [] then []
    else if |parts| == 1 then parts[0]
    else parts[0] + sep + Join(parts[1..], sep)
  }

  lemma {:induction false} BeforeSeparator(head: string, c: char, rest: string)
    requires c !in head
    ensures Before(head + [c] + rest, c) == head && After(head + [c] + rest, c) == rest
  {
    var s := head + [c] + rest;
    if head == [] {
      assert s[0] == c && s[1..] == rest;
    } else {
      assert s[1..] == head[1..] + [c] + rest;
      BeforeSeparator(head[1..], c, rest);
      assert s[|head| + 1..] == rest;
    }
  }

  lemma {:induction false} BeforeWithout(s: string, c: char)
    requires c !in s
    ensures Before(s, c) == s
  {
    if s != [] {
      BeforeWithout(s[1..], c);
    }
  }

  /** Splitting undoes joining if the separator occurs in no part. */
  lemma {:induction false} SplitOnJoin(parts: seq<string>, c: char)
    requires parts != [] && forall i :: 0 <= i < |parts| ==> c !in parts[i]
    ensures SplitOn(Join(parts, [c]), c) == parts
  {
    if |parts| == 1 {
      BeforeWithout(parts[0], c);
    } else {
      BeforeSeparator(parts[0], c, Join(parts[1..], [c]));
      SplitOnJoin(parts[1..], c);
    }
  }

  lemma BeforeAfter(s: string, c: char)
    requires Before(s, c) != s
    ensures s == Before(s, c) + [c] + After(s, c)
  {
  }

  /** Joining undoes splitting. */
  lemma {:induction false} JoinOfSplitOn(s: string, c: char)
    ensures Join(SplitOn(s, c), [c]) == s
    decreases |s|
  {
    var head := Before(s, c);
    if head != s {
      var rest := SplitOn(After(s, c), c);
      JoinOfSplitOn(After(s, c), c);
      BeforeAfter(s, c);
      assert SplitOn(s, c) == [head] + rest;
      JoinCons(head, rest, [c]);
    }
  }

  lemma JoinCons(head: string, rest: seq<string>, sep: string)
    requires rest != []
    ensures Join([head] + rest, sep) == head + sep + Join(rest, sep)
  {
    assert ([head] + rest)[1..] == rest;
  }

  lemma {:induction false} SplitOnParts(s: string, c: char)
    ensures forall i :: 0 <= i < |SplitOn(s, c)| ==> c !in SplitOn(s, c)[i]
    decreases |s|
  {
    if Before(s, c) != s {
      SplitOnParts(After(s, c), c);
    }
  }

  // ---- Stripping ----

  function StripLeft(s: string): string {
    if s == [] || !IsSpace(s[0]) then s else StripLeft(s[1..])
  }

  function StripRight(s: string): string {
    if s == [] || !IsSpace(s[|s| - 1]) then s else StripRight(s[..|s| - 1])
  }

  /** `s.strip()`. */
  function Strip(s: string): string {
    StripRight(StripLeft(s))
  }

  lemma {:induction false} StripRightCons(c: char, w: string)
    ensures StripRight([c] + w)
         == if StripRight(w) != [] || !IsSpace(c) then [c] + StripRight(w) else []
  {
    var s := [c] + w;
    if w == [] {
      assert s[..0] == [];
    } else if IsSpace(w[|w| - 1]) {
      assert s[..|s| - 1] == [c] + w[..|w| - 1];
      StripRightCons(c, w[..|w| - 1]);
    }
  }

  lemma {:induction false} StripCommutes(s: string)
    ensures StripLeft(StripRight(s)) == StripRight(StripLeft(s))
  {
    if s != [] {
      assert s == [s[0]] + s[1..];
      StripRightCons(s[0], s[1..]);
      if IsSpace(s[0]) {
        StripCommutes(s[1..]);
        assert ([s[0]] + StripRight(s[1..]))[1..] == StripRight(s[1..]);
      }
    }
  }

  lemma {:induction false} StripRightTwice(s: string)
    ensures StripRight(StripRight(s)) == StripRight(s)
  {
    if s != [] && IsSpace(s[|s| - 1]) {
      StripRightTwice(s[..|s| - 1]);
    }
  }

  lemma StripOfStripRight(s: string)
    ensures Strip(StripRight(s)) == Strip(s)
  {
    StripCommutes(s);
    StripRightTwice(StripLeft(s));
  }

  lemma {:induction false} StripRightAppend(a: string, b: string)
    requires a != [] && !IsSpace(a[|a| - 1])
    ensures StripRight(a + b) == a + StripRight(b)
  {
    if b == [] {
      assert a + b == a;
    } else if IsSpace(b[|b| - 1]) {
      assert (a + b)[..|a + b| - 1] == a + b[..|b| - 1];
      StripRightAppend(a, b[..|b| - 1]);
    }
  }

  lemma {:induction false} StripLeftIsSuffix(s: string)
    ensures |StripLeft(s)| <= |s| && StripLeft(s) == s[|s| - |StripLeft(s)|..]
    ensures StripLeft(s) != [] ==> !IsSpace(StripLeft(s)[0])
  {
    if s != [] && IsSpace(s[0]) {
      StripLeftIsSuffix(s[1..]);
    }
  }

  lemma {:induction false} StripRightIsPrefix(s: string)
    ensures StripRight(s) <= s
    ensures StripRight(s) != [] ==> !IsSpace(StripRight(s)[|StripRight(s)| - 1])
  {
    if s != [] && IsSpace(s[|s| - 1]) {
      StripRightIsPrefix(s[..|s| - 1]);
    }
  }

  /** Stripping never adds a character. */
  lemma StripShortens(s: string)
    ensures |Strip(s)| <= |s|
    ensures forall i :: 0 <= i < |Strip(s)| ==> Strip(s)[i] in s
  {
    StripLeftIsSuffix(s);
    StripRightIsPrefix(StripLeft(s));
  }
}
