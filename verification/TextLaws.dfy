/** What the string operations do, in terms of the characters themselves. */
module TextLaws {
  import opened Lists
  import opened Text

  // ---- Character classes ----

  const SPACES: string :=
    "\t\n\U{0B}\U{0C}\r\U{1C}\U{1D}\U{1E}\U{1F} \U{85}\U{A0}\U{1680}\U{2000}\U{2001}\U{2002}\U{2003}\U{2004}\U{2005}"
    + "\U{2006}\U{2007}\U{2008}\U{2009}\U{200A}\U{2028}\U{2029}\U{202F}\U{205F}\U{3000}"

  const BREAKS: string := "\n\U{0B}\U{0C}\r\U{1C}\U{1D}\U{1E}\U{85}\U{2028}\U{2029}"

  /** The 29 whitespace characters of Unicode as Python sees them, and the ten at which a line ends. */
  lemma CharactersAreListed(c: char)
    ensures IsSpace(c) <==> c in SPACES
    ensures IsBreak(c) <==> c in BREAKS
  {
  }

  // ---- Case ----

  /** `t` is `s`, which has no capital letters, with any of its letters as capitals. */
  ghost predicate IsCasingOf(t: string, s: string) {
    && |t| == |s|
    && forall i :: 0 <= i < |s| ==>
         && !('A' <= s[i] <= 'Z')
         && (t[i] == s[i] || ('a' <= s[i] <= 'z' && t[i] as int + 32 == s[i] as int))
  }

  /** Lower-casing undoes any use of capital letters. */
  lemma LowerOfCasing(t: string, s: string)
    requires IsCasingOf(t, s)
    ensures Lower(t) == s
  {
  }

  // ---- Stripping ----

  ghost predicate IsBlank(s: string) {
    forall i :: 0 <= i < |s| ==> IsSpace(s[i])
  }

  ghost predicate IsStripped(s: string) {
    s != "" ==> !IsSpace(s[0]) && !IsSpace(s[|s| - 1])
  }

  lemma {:induction false} StripLeftPad(pad: string, s: string)
    requires IsBlank(pad)
    ensures StripLeft(pad + s) == StripLeft(s)
  {
    if pad == "" {
      assert pad + s == s;
    } else {
      assert (pad + s)[1..] == pad[1..] + s;
      StripLeftPad(pad[1..], s);
    }
  }

  lemma {:induction false} StripRightPad(s: string, pad: string)
    requires IsBlank(pad)
    ensures StripRight(s + pad) == StripRight(s)
  {
    if pad == "" {
      assert s + pad == s;
    } else {
      assert (s + pad)[..|s + pad| - 1] == s + pad[..|pad| - 1];
      StripRightPad(s, pad[..|pad| - 1]);
    }
  }

  /** Stripping takes off whatever whitespace stands around a text, and nothing else. */
  lemma StripTakesPads(pad: string, s: string, pad': string)
    requires IsBlank(pad) && IsBlank(pad') && IsStripped(s)
    ensures Strip(pad + s + pad') == s
  {
    Associate(pad, s, pad');
    StripLeftPad(pad, s + pad');
    StripCommutes(s + pad');
    StripRightPad(s, pad');
  }

  // ---- Words ----

  ghost predicate IsWord(w: string) {
    w != "" && forall i :: 0 <= i < |w| ==> !IsSpace(w[i])
  }

  /** Words, each followed by whitespace. */
  function Spaced(words: seq<string>, gaps: seq<string>): string
    requires |words| == |gaps|
  {
    if words == [] then "" else words[0] + gaps[0] + Spaced(words[1..], gaps[1..])
  }

  lemma {:induction false} SplitSkipsBlank(pad: string, s: string)
    requires IsBlank(pad)
    ensures SplitSpace(pad + s) == SplitSpace(s)
  {
    if pad == "" {
      assert pad + s == s;
    } else {
      assert (pad + s)[1..] == pad[1..] + s;
      SplitSkipsBlank(pad[1..], s);
    }
  }

  lemma SplitFirstWord(w: string, gap: string, rest: string)
    requires IsWord(w) && IsBlank(gap) && (gap == "" ==> rest == "")
    ensures SplitSpace(w + gap + rest) == [w] + SplitSpace(rest)
  {
    var s := w + (gap + rest);
    Associate(w, gap, rest);
    RunLengthOfWord(w, gap + rest);
    assert s[..|w|] == w && s[|w|..] == gap + rest;
    SplitSkipsBlank(gap, rest);
  }

  /** Splitting a text of words, with any whitespace before, between and after them, gives the words. */
  lemma {:induction false} SplitGivesWords(pad: string, words: seq<string>, gaps: seq<string>)
    requires |words| == |gaps| && IsBlank(pad)
    requires forall i :: 0 <= i < |words| ==> IsWord(words[i]) && IsBlank(gaps[i])
    requires forall i :: 0 <= i < |words| - 1 ==> gaps[i] != ""
    ensures SplitSpace(pad + Spaced(words, gaps)) == words
    decreases |words|
  {
    SplitSkipsBlank(pad, Spaced(words, gaps));
    if words != [] {
      var rest := Spaced(words[1..], gaps[1..]);
      SplitGivesWords("", words[1..], gaps[1..]);
      assert "" + rest == rest;
      SplitFirstWord(words[0], gaps[0], rest);
    }
  }
}
