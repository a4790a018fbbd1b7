/** Reading and rewriting of the .env file. A file is its text after the translation of line ends; a
    missing file reads as the empty text. */
module EnvFile {
  import opened Options
  import opened Text

  // ---- Lines ----

  predicate BreakFree(s: string) {
    forall i :: 0 <= i < |s| ==> !IsBreak(s[i])
  }

  function BreakAt(s: string): (n: nat)
    ensures n <= |s| && BreakFree(s[..n])
    ensures n < |s| ==> IsBreak(s[n])
  {
    if s == [] || IsBreak(s[0]) then 0
    else
      var n := BreakAt(s[1..]);
      assert s[..n + 1] == [s[0]] + s[1..][..n];
      n + 1
  }

  /** `text.splitlines()`. */
  function Lines(s: string): (ls: seq<string>)
    ensures forall i :: 0 <= i < |ls| ==> BreakFree(ls[i])
  {
    if s == [] then []
    else
      var n := BreakAt(s);
      [s[..n]] + if n == |s| then [] else Lines(s[n + 1..])
  }

  /** The text that `write_env` stores for a list of lines. */
  function FinalText(ls: seq<string>): string {
    var text := Join(ls, "\n");
    if text != "" && !EndsWith(text, "\n") then text + "\n" else text
  }

  /** Each line with a line end. */
  function Terminated(ls: seq<string>): string {
    if ls == [] then [] else ls[0] + "\n" + Terminated(ls[1..])
  }

  /** One trailing empty line is lost in the stored text. */
  function WithoutTrailingBlank(ls: seq<string>): seq<string> {
    if ls != [] && ls[|ls| - 1] == "" then ls[..|ls| - 1] else ls
  }

  ghost predicate AllBreakFree(ls: seq<string>) {
    forall i :: 0 <= i < |ls| ==> BreakFree(ls[i])
  }

  lemma {:induction false} BreakAfterLine(l: string, rest: string)
    requires BreakFree(l)
    ensures BreakAt(l + "\n" + rest) == |l|
  {
    var s := l + "\n" + rest;
    if l == [] {
      assert s[0] == '\n';
    } else {
      assert s[1..] == l[1..] + "\n" + rest;
      BreakAfterLine(l[1..], rest);
    }
  }

  lemma {:induction false} LinesOfTerminated(ls: seq<string>)
    requires AllBreakFree(ls)
    ensures Lines(Terminated(ls)) == ls
  {
    if ls != [] {
      var s := Terminated(ls);
      BreakAfterLine(ls[0], Terminated(ls[1..]));
      LinesOfTerminated(ls[1..]);
      assert s[..|ls[0]|] == ls[0] && s[|ls[0]| + 1..] == Terminated(ls[1..]);
    }
  }

  lemma {:induction false} JoinIsTerminated(ls: seq<string>)
    requires ls != []
    ensures Join(ls, "\n") + "\n" == Terminated(ls)
  {
    if |ls| == 1 {
      assert Terminated(ls[1..]) == [];
    } else {
      JoinIsTerminated(ls[1..]);
    }
  }

  lemma {:induction false} TerminatedSnoc(ls: seq<string>, l: string)
    ensures Terminated(ls + [l]) == Terminated(ls) + (l + "\n")
  {
    if ls == [] {
      assert Terminated([l][1..]) == [];
    } else {
      assert (ls + [l])[1..] == ls[1..] + [l];
      TerminatedSnoc(ls[1..], l);
    }
  }

  lemma {:induction false} JoinEnd(ls: seq<string>)
    requires ls != [] && ls[|ls| - 1] != "" && AllBreakFree(ls)
    ensures var text := Join(ls, "\n"); text != "" && !IsBreak(text[|text| - 1])
  {
    if |ls| > 1 {
      JoinEnd(ls[1..]);
    }
  }

  lemma FinalTextIsTerminated(ls: seq<string>)
    requires AllBreakFree(ls)
    ensures FinalText(ls) == Terminated(WithoutTrailingBlank(ls))
  {
    if ls != [] {
      JoinIsTerminated(ls);
      if ls[|ls| - 1] == "" {
        var init := ls[..|ls| - 1];
        assert ls == init + [""];
        TerminatedSnoc(init, "");
        BlankEnd(init, Join(ls, "\n"));
      } else {
        JoinEnd(ls);
        var text := Join(ls, "\n");
        assert text[|text| - 1..] == [text[|text| - 1]];
      }
    }
  }

  lemma BlankEnd(init: seq<string>, text: string)
    requires text + "\n" == Terminated(init) + "\n"
    ensures text == Terminated(init)
    ensures text != "" ==> EndsWith(text, "\n")
  {
    assert (text + "\n")[..|text|] == (Terminated(init) + "\n")[..|text|];
    if init != [] {
      TerminatedSnoc(init[..|init| - 1], init[|init| - 1]);
      assert init == init[..|init| - 1] + [init[|init| - 1]];
    }
  }

  /** Storing and reading back keeps all lines, except for one trailing empty line. */
  lemma LinesOfFinalText(ls: seq<string>)
    requires AllBreakFree(ls)
    ensures Lines(FinalText(ls)) == WithoutTrailingBlank(ls)
  {
    FinalTextIsTerminated(ls);
    LinesOfTerminated(WithoutTrailingBlank(ls));
  }

  // ---- Assignments ----

  predicate Quoted(v: string) {
    v != [] && v[0] == v[|v| - 1] && (v[0] == '"' || v[0] == '\'')
  }

  /** Drops one pair of surrounding quotes; a single quote character counts as a pair. */
  function Unquote(v: string): string {
    if !Quoted(v) then v else if |v| == 1 then "" else v[1..|v| - 1]
  }

  /** The key and the raw value that a line assigns, if it assigns any. */
  function Assignment(line: string): Option<(string, string)> {
    var t := Strip(line);
    if t == "" || t[0] == '#' || '=' !in t then None
    else Some((Strip(Before(t, '=')), Strip(After(t, '='))))
  }

  function LineFor(k: string, v: string): string {
    k + "=" + v
  }

  /** What is read back for a value that was written. */
  function Stored(v: string): string {
    Unquote(Strip(v))
  }

  predicate GoodKey(k: string) {
    Strip(k) == k && '=' !in k && BreakFree(k) && (k == "" || k[0] != '#')
  }

  predicate GoodValue(v: string) {
    BreakFree(v) && Strip(v) == v && !Quoted(v)
  }

  lemma StrippedEnds(s: string)
    requires Strip(s) == s && s != ""
    ensures !IsSpace(s[0]) && !IsSpace(s[|s| - 1])
  {
    StripLeftIsSuffix(s);
    StripRightIsPrefix(StripLeft(s));
  }

  /** A written line assigns its key, and its value without surrounding whitespace. */
  lemma AssignmentOfLine(k: string, v: string)
    requires GoodKey(k)
    ensures Assignment(LineFor(k, v)) == Some((k, Strip(v)))
  {
    var head := k + "=";
    if k != "" {
      StrippedEnds(k);
    }
    var line := LineFor(k, v);
    assert line == head + v;
    assert StripLeft(line) == line by {
      assert line[0] == head[0];
    }
    StripRightAppend(head, v);
    var t := k + ['='] + StripRight(v);
    assert Strip(line) == t;
    BeforeSeparator(k, '=', StripRight(v));
    StripOfStripRight(v);
    assert t[|k|] == '=';
    assert t[0] != '#';
  }

  /** A value is stored as itself exactly if it is stripped and not wrapped in matching quotes. */
  lemma StoredAsItself(v: string)
    requires BreakFree(v)
    ensures Stored(v) == v <==> GoodValue(v)
  {
    StripShortens(v);
    if Strip(v) == v && Quoted(v) {
      assert |Unquote(v)| < |v|;
    }
    if Strip(v) != v && |Strip(v)| == |v| {
      StripLeftIsSuffix(v);
      StripRightIsPrefix(StripLeft(v));
    }
  }

  // ---- Reading ----

  function AddLine(m: map<string, string>, line: string): map<string, string> {
    match Assignment(line)
    case None => m
    case Some((k, v)) => m[k := Unquote(v)]
  }

  function ReadLines(ls: seq<string>): map<string, string> {
    if ls == [] then map[] else AddLine(ReadLines(ls[..|ls| - 1]), ls[|ls| - 1])
  }

  /** One turn of the loop. */
  method ReadLine(before: map<string, string>, text: string) returns (out: map<string, string>)
    ensures out == AddLine(before, text)
  {
    out := before;
    var line := Strip(text);
    if line == "" || line[0] == '#' {
      return;
    }
    if '=' !in line {
      return;
    }
    var k := Strip(Before(line, '='));
    var v := Strip(After(line, '='));
    if Quoted(v) {
      v := if |v| == 1 then "" else v[1..|v| - 1];
    }
    out := out[k := v];
  }

  method ReadEnv(text: string) returns (out: map<string, string>)
    ensures out == ReadLines(Lines(text))
  {
    out := map[];
    var ls := Lines(text);
    for i := 0 to |ls|
      invariant out == ReadLines(ls[..i])
    {
      assert ls[..i + 1][..i] == ls[..i];
      out := ReadLine(out, ls[i]);
    }
    assert ls[..|ls|] == ls;
  }

  // ---- Writing ----

  /** The updates in their order, with distinct keys. */
  type Updates = seq<(string, string)>

  ghost predicate DistinctKeys(u: Updates) {
    forall i, j :: 0 <= i < j < |u| ==> u[i].0 != u[j].0
  }

  function ToMap(u: Updates): map<string, string> {
    if u == [] then map[] else ToMap(u[..|u| - 1])[u[|u| - 1].0 := u[|u| - 1].1]
  }

  /** The key of `m` that a line assigns, if any. */
  function UpdatedKey(m: map<string, string>, line: string): Option<string> {
    match Assignment(line)
    case None => None
    case Some((k, _)) => if k in m then Some(k) else None
  }

  function Rewritten(m: map<string, string>, line: string): string {
    match UpdatedKey(m, line)
    case None => line
    case Some(k) => LineFor(k, m[k])
  }

  function RewriteAll(m: map<string, string>, ls: seq<string>): (r: seq<string>)
    ensures |r| == |ls|
  {
    if ls == [] then []
    else RewriteAll(m, ls[..|ls| - 1]) + [Rewritten(m, ls[|ls| - 1])]
  }

  /** The updated keys that the lines assign. */
  function SeenKeys(m: map<string, string>, ls: seq<string>): set<string> {
    if ls == [] then {}
    else
      var k := UpdatedKey(m, ls[|ls| - 1]);
      var before := SeenKeys(m, ls[..|ls| - 1]);
      if k.Some? then before + {k.value} else before
  }

  /** One entry for every line whose value the rewrite changes. */
  function ChangedKeys(m: map<string, string>, ls: seq<string>): seq<string> {
    if ls == [] then []
    else
      var line := ls[|ls| - 1];
      var before := ChangedKeys(m, ls[..|ls| - 1]);
      var k := UpdatedKey(m, line);
      if k.Some? && Unquote(Assignment(line).value.1) != m[k.value] then before + [k.value] else before
  }

  function MissingKeys(u: Updates, seen: set<string>): seq<string> {
    if u == [] then []
    else
      var k := u[|u| - 1].0;
      var before := MissingKeys(u[..|u| - 1], seen);
      if k in seen then before else before + [k]
  }

  function AppendedLines(u: Updates, seen: set<string>): seq<string> {
    if u == [] then []
    else
      var (k, v) := u[|u| - 1];
      var before := AppendedLines(u[..|u| - 1], seen);
      if k in seen then before else before + [LineFor(k, v)]
  }

  /** An empty line that separates appended keys from a last line that is not blank. */
  function Separator(ls: seq<string>): seq<string> {
    if ls != [] && Strip(ls[|ls| - 1]) != "" then [""] else []
  }

  function NewLines(u: Updates, ls: seq<string>): seq<string> {
    var m := ToMap(u);
    var kept := RewriteAll(m, ls);
    var appended := AppendedLines(u, SeenKeys(m, ls));
    if appended == [] then kept else kept + Separator(kept) + appended
  }

  /** The loop over the existing lines. */
  method RewriteLines(m: map<string, string>, ls: seq<string>)
    returns (newLines: seq<string>, seen: set<string>, changed: seq<string>)
    ensures newLines == RewriteAll(m, ls) && seen == SeenKeys(m, ls) && changed == ChangedKeys(m, ls)
  {
    newLines, seen, changed := [], {}, [];
    for i := 0 to |ls|
      invariant newLines == RewriteAll(m, ls[..i]) && seen == SeenKeys(m, ls[..i]) && changed == ChangedKeys(m, ls[..i])
    {
      assert ls[..i + 1][..i] == ls[..i];
      var line := ls[i];
      var stripped := Strip(line);
      if stripped == "" || stripped[0] == '#' || '=' !in stripped {
        newLines := newLines + [line];
        continue;
      }
      var k := Strip(Before(stripped, '='));
      if k in m {
        var oldValue := Strip(After(stripped, '='));
        if Unquote(oldValue) != m[k] {
          changed := changed + [k];
        }
        newLines := newLines + [LineFor(k, m[k])];
        seen := seen + {k};
      } else {
        newLines := newLines + [line];
      }
    }
    assert ls[..|ls|] == ls;
  }

  /** The loop over the updates. */
  method AppendMissing(u: Updates, seen: set<string>) returns (appended: seq<string>, missing: seq<string>)
    ensures appended == AppendedLines(u, seen) && missing == MissingKeys(u, seen)
  {
    appended, missing := [], [];
    for i := 0 to |u|
      invariant appended == AppendedLines(u[..i], seen) && missing == MissingKeys(u[..i], seen)
    {
      assert u[..i + 1][..i] == u[..i];
      if u[i].0 !in seen {
        appended := appended + [LineFor(u[i].0, u[i].1)];
        missing := missing + [u[i].0];
      }
    }
    assert u[..|u|] == u;
  }

  method WriteEnv(u: Updates, text: string) returns (newText: string, changed: seq<string>)
    ensures newText == FinalText(NewLines(u, Lines(text)))
    ensures var m := ToMap(u);
            changed == ChangedKeys(m, Lines(text)) + MissingKeys(u, SeenKeys(m, Lines(text)))
  {
    var newLines, seen, rewritten := RewriteLines(ToMap(u), Lines(text));
    var appended, missing := AppendMissing(u, seen);
    changed := rewritten + missing;
    if appended != [] {
      newLines := newLines + Separator(newLines) + appended;
    }
    newText := FinalText(newLines);
  }
}
