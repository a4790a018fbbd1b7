/** What lines of a .env file mean, what a rewrite puts into the file, and which keys it reports. */
module EnvForms {
  import opened Lists
  import opened Options
  import opened Text
  import opened TextLaws
  import opened EnvFile
  import opened EnvLaws

  // ---- Lines ----

  lemma StripRightKeepsStart(c: char, s: string)
    requires !IsSpace(c)
    ensures StripRight([c] + s) == [c] + StripRight(s)
  {
    StripRightCons(c, s);
  }

  lemma StripPads(pad: string, s: string)
    requires IsBlank(pad) && s != "" && !IsSpace(s[0])
    ensures Strip(pad + s) == StripRight(s) && Strip(pad + s) != "" && Strip(pad + s)[0] == s[0]
  {
    assert Strip(pad + s) == StripRight(s) by {
      StripLeftPad(pad, s);
    }
    StripRightKeepsStart(s[0], s[1..]);
    assert s == [s[0]] + s[1..];
  }

  /** A comment, indented or not, assigns nothing, whatever it says. */
  lemma CommentAssignsNothing(pad: string, s: string)
    requires IsBlank(pad)
    ensures Assignment(pad + "#" + s) == None
  {
    Associate(pad, "#", s);
    StripPads(pad, "#" + s);
  }

  /** Nor does a line without an equals sign. */
  lemma WordAssignsNothing(line: string)
    requires '=' !in line
    ensures Assignment(line) == None
  {
    StripShortens(line);
  }

  lemma StripOfAssignment(pad: string, head: string, v: string)
    requires IsBlank(pad) && head != "" && !IsSpace(head[0])
    ensures Strip(pad + (head + ['='] + v)) == head + ['='] + StripRight(v)
  {
    StripPads(pad, head + ['='] + v);
    StripRightAppend(head + ['='], v);
  }

  lemma AssignmentOfStripped(line: string, head: string, w: string)
    requires Strip(line) == head + ['='] + w && '=' !in head && head != "" && head[0] != '#'
    ensures Assignment(line) == Some((Strip(head), Strip(w)))
  {
    var t := Strip(line);
    assert t[|head|] == '=' && t[0] == head[0];
    BeforeSeparator(head, '=', w);
  }

  lemma StripOfPadded(k: string, pad: string)
    requires IsBlank(pad) && Strip(k) == k
    ensures Strip(k + pad) == k
  {
    if k != "" {
      StrippedEnds(k);
    }
    StripTakesPads("", k, pad);
    assert "" + k + pad == k + pad;
  }

  /** A key may be indented, and there may be whitespace around the equals sign and at the end. */
  lemma SpacedAssignment(pad: string, k: string, pad': string, v: string)
    requires IsBlank(pad) && IsBlank(pad') && GoodKey(k) && k != ""
    ensures Assignment(pad + (k + pad' + ['='] + v)) == Some((k, Strip(v)))
  {
    var head := k + pad';
    StrippedEnds(k);
    StripOfAssignment(pad, head, v);
    AssignmentOfStripped(pad + (head + ['='] + v), head, StripRight(v));
    StripOfPadded(k, pad');
    StripOfStripRight(v);
  }

  /** One pair of equal quotes around a value is dropped, and nothing else. */
  lemma QuotesAreDropped(s: string, q: char)
    ensures q == '"' || q == '\'' ==> Unquote([q] + s + [q]) == s
    ensures s != "" && (s[0] != s[|s| - 1] || (s[0] != '"' && s[0] != '\'')) ==> Unquote(s) == s
    ensures Unquote("") == ""
  {
    var t := [q] + s + [q];
    assert t[0] == q && t[|t| - 1] == q && t[1..|t| - 1] == s;
  }

  // ---- What is written ----

  /** A line of one update, for a value without a line break. */
  ghost predicate IsUpdate(k: string, v: string) {
    GoodKey(k) && BreakFree(v)
  }

  function AssignedKey(line: string): Option<string> {
    match Assignment(line)
    case None => None
    case Some((k, _)) => Some(k)
  }

  lemma OneLine(k: string, v: string, l: string)
    ensures var m := ToMap([(k, v)]);
            && RewriteAll(m, [l]) == [if AssignedKey(l) == Some(k) then k + "=" + v else l]
            && SeenKeys(m, [l]) == if AssignedKey(l) == Some(k) then {k} else {}
  {
    assert [(k, v)][..0] == [] && [l][..0] == [];
    assert ToMap([(k, v)]) == map[k := v];
  }

  lemma OneEntry(k: string, v: string)
    ensures AppendedLines([(k, v)], {k}) == [] && AppendedLines([(k, v)], {}) == [k + "=" + v]
  {
    assert [(k, v)][..0] == [];
  }

  lemma NewLinesOfOne(k: string, v: string, l: string)
    ensures NewLines([(k, v)], [l])
         == if AssignedKey(l) == Some(k) then [k + "=" + v]
            else if Strip(l) == "" then [l, k + "=" + v]
            else [l, "", k + "=" + v]
  {
    OneLine(k, v, l);
    OneEntry(k, v);
  }

  lemma EndsWithoutBreak(k: string, v: string)
    requires IsUpdate(k, v)
    ensures BreakFree(k + "=" + v) && k + "=" + v != ""
  {
  }

  lemma TerminatedLines(a: string, b: string, c: string)
    ensures Terminated([a]) == a + "\n" && Terminated([a, b]) == a + "\n" + b + "\n"
    ensures Terminated([a, b, c]) == a + "\n" + b + "\n" + c + "\n"
  {
    assert [a][1..] == [] && [a, b][1..] == [b] && [b][1..] == [];
    assert [a, b, c][1..] == [b, c] && [b, c][1..] == [c] && [c][1..] == [];
    assert Terminated([c]) == c + "\n" && Terminated([b]) == b + "\n";
    assert Terminated([b, c]) == b + "\n" + (c + "\n");
  }

  /** Writing one key to a file of one line: the line is replaced if it assigns the key; otherwise the key is
      appended as a line of its own, behind an empty line unless the file ends in a blank one. */
  lemma OneKeyIsWritten(k: string, v: string, l: string)
    requires IsUpdate(k, v) && BreakFree(l)
    ensures Written([(k, v)], l + "\n")
         == if AssignedKey(l) == Some(k) then k + "=" + v + "\n"
            else if Strip(l) == "" then l + "\n" + (k + "=" + v) + "\n"
            else l + "\n" + "" + "\n" + (k + "=" + v) + "\n"
  {
    assert Written([(k, v)], l + "\n") == FinalText(NewLines([(k, v)], [l])) by {
      TerminatedLines(l, "", "");
      LinesOfTerminated([l]);
    }
    NewLinesOfOne(k, v, l);
    EndsWithoutBreak(k, v);
    FinalTextOfUpTo3(l, k + "=" + v);
  }

  lemma FinalTextOfUpTo3(l: string, line: string)
    requires BreakFree(l) && BreakFree(line) && line != ""
    ensures FinalText([line]) == line + "\n" && FinalText([l, line]) == l + "\n" + line + "\n"
    ensures FinalText([l, "", line]) == l + "\n" + "" + "\n" + line + "\n"
  {
    TerminatedLines(line, "", "");
    TerminatedLines(l, line, "");
    TerminatedLines(l, "", line);
    FinalTextIsTerminated([line]);
    FinalTextIsTerminated([l, line]);
    FinalTextIsTerminated([l, "", line]);
  }

  // ---- What is reported ----

  /** A line that assigns an updated key a value other than the new one. */
  ghost predicate Differs(m: map<string, string>, line: string, k: string) {
    UpdatedKey(m, line) == Some(k) && Unquote(Assignment(line).value.1) != m[k]
  }

  ghost predicate AnyDiffers(m: map<string, string>, ls: seq<string>, k: string) {
    exists i :: 0 <= i < |ls| && Differs(m, ls[i], k)
  }

  lemma AnyDiffersSnoc(m: map<string, string>, ls: seq<string>, l: string, k: string)
    ensures AnyDiffers(m, ls + [l], k) <==> AnyDiffers(m, ls, k) || Differs(m, l, k)
  {
    var all := ls + [l];
    assert all[|ls|] == l && forall i :: 0 <= i < |ls| ==> all[i] == ls[i];
  }

  lemma {:induction false} ChangedIfDiffers(m: map<string, string>, ls: seq<string>, k: string)
    ensures k in ChangedKeys(m, ls) <==> AnyDiffers(m, ls, k)
  {
    if ls != [] {
      var front, l := ls[..|ls| - 1], ls[|ls| - 1];
      assert ls == front + [l];
      ChangedIfDiffers(m, front, k);
      AnyDiffersSnoc(m, front, l, k);
    }
  }

  lemma {:induction false} MissingIfUnseen(u: Updates, seen: set<string>, k: string)
    ensures k in MissingKeys(u, seen) <==> k in ToMap(u) && k !in seen
  {
    if u != [] {
      MissingIfUnseen(u[..|u| - 1], seen, k);
    }
  }

  /** A write reports exactly those updated keys that the file did not assign, or assigned in some line a value
      other than the new one. */
  lemma ReportedIfChanged(u: Updates, text: string, k: string)
    ensures k in Changed(u, text)
       <==> k in ToMap(u) && (k !in ReadText(text) || AnyDiffers(ToMap(u), Lines(text), k))
  {
    var m, ls := ToMap(u), Lines(text);
    ChangedIfDiffers(m, ls, k);
    MissingIfUnseen(u, SeenKeys(m, ls), k);
    SeenKeysAreRead(m, ls);
  }
}
