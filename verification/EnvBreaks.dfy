/** Values with line breaks, which a rewrite of the .env file spreads over several lines. */
module EnvBreaks {
  import opened Lists
  import opened Options
  import opened Text
  import opened EnvFile
  import opened EnvLaws

  // ---- The lines of a text that are not empty ----

  function NonEmpty(ls: seq<string>): seq<string> {
    if ls == [] then []
    else if ls[0] == "" then NonEmpty(ls[1..])
    else [ls[0]] + NonEmpty(ls[1..])
  }

  function Filled(s: string): seq<string> {
    NonEmpty(Lines(s))
  }

  lemma {:induction false} NonEmptyMembers(ls: seq<string>, l: string)
    requires l in NonEmpty(ls)
    ensures l in ls
  {
    if ls[0] == "" || l != ls[0] {
      NonEmptyMembers(ls[1..], l);
    }
  }

  lemma BreakAtIs(s: string, n: nat)
    requires n <= |s| && BreakFree(s[..n]) && (n < |s| ==> IsBreak(s[n]))
    ensures BreakAt(s) == n
  {
    var m := BreakAt(s);
    assert forall i :: 0 <= i < n ==> s[..n][i] == s[i];
    assert forall i :: 0 <= i < m ==> s[..m][i] == s[i];
  }

  lemma NonEmptyCons(l: string, ls: seq<string>)
    ensures NonEmpty([l] + ls) == (if l == "" then [] else [l]) + NonEmpty(ls)
  {
    assert ([l] + ls)[1..] == ls;
  }

  lemma LinesFromBreak(s: string, n: nat)
    requires n < |s| && BreakFree(s[..n]) && IsBreak(s[n])
    ensures Lines(s) == [s[..n]] + Lines(s[n + 1..])
  {
    BreakAtIs(s, n);
  }

  lemma FilledOfLine(l: string)
    requires BreakFree(l)
    ensures Filled(l) == if l == "" then [] else [l]
  {
    assert l[..|l|] == l;
    BreakAtIs(l, |l|);
    if l != "" {
      assert Lines(l) == [l];
      NonEmptyCons(l, []);
      assert [l] + [] == [l];
    }
  }

  lemma FilledFromBreak(first: string, c: char, rest: string)
    requires BreakFree(first) && IsBreak(c)
    ensures Filled(first + [c] + rest) == Filled(first) + Filled(rest)
  {
    var s, n := first + [c] + rest, |first|;
    assert s[..n] == first && s[n + 1..] == rest;
    LinesFromBreak(s, n);
    NonEmptyCons(first, Lines(rest));
    FilledOfLine(first);
  }

  lemma CutAt(s: string, n: nat)
    requires n < |s|
    ensures s == s[..n] + [s[n]] + s[n + 1..]
  {
  }

  lemma Regrouped(first: string, c0: char, rest: string, c: char, b: string)
    ensures first + [c0] + rest + [c] + b == first + [c0] + (rest + [c] + b)
  {
  }

  /** A line break separates the lines before it from those behind it. */
  lemma {:induction false} FilledAtBreak(a: string, c: char, b: string)
    requires IsBreak(c)
    ensures Filled(a + [c] + b) == Filled(a) + Filled(b)
    decreases |a|
  {
    var n := BreakAt(a);
    if n == |a| {
      assert a[..n] == a;
      FilledFromBreak(a, c, b);
    } else {
      var first, rest := a[..n], a[n + 1..];
      CutAt(a, n);
      FilledAtBreak(rest, c, b);
      BreakAfterFirst(first, a[n], rest, c, b);
    }
  }

  lemma BreakAfterFirst(first: string, c0: char, rest: string, c: char, b: string)
    requires BreakFree(first) && IsBreak(c0) && Filled(rest + [c] + b) == Filled(rest) + Filled(b)
    ensures Filled(first + [c0] + rest + [c] + b) == Filled(first + [c0] + rest) + Filled(b)
  {
    FilledFromBreak(first, c0, rest);
    FilledFromBreak(first, c0, rest + [c] + b);
    Regrouped(first, c0, rest, c, b);
    Associate(Filled(first), Filled(rest), Filled(b));
  }

  /** The lines that the entries of a list are spread over. */
  function Flat(ls: seq<string>): seq<string> {
    if ls == [] then [] else Filled(ls[0]) + Flat(ls[1..])
  }

  lemma {:induction false} FilledOfJoin(ls: seq<string>)
    ensures Filled(Join(ls, "\n")) == Flat(ls)
  {
    if |ls| == 1 {
      assert Flat(ls[1..]) == [];
    } else if ls != [] {
      FilledOfJoin(ls[1..]);
      FilledAtBreak(ls[0], '\n', Join(ls[1..], "\n"));
    }
  }

  lemma FilledOfFinalText(ls: seq<string>)
    ensures Filled(FinalText(ls)) == Flat(ls)
  {
    var text := Join(ls, "\n");
    FilledOfJoin(ls);
    FilledAtBreak(text, '\n', "");
    assert text + ['\n'] + "" == text + "\n";
  }

  lemma {:induction false} FlatConcat(a: seq<string>, b: seq<string>)
    ensures Flat(a + b) == Flat(a) + Flat(b)
  {
    if a == [] {
      assert a + b == b;
    } else {
      assert (a + b)[1..] == a[1..] + b;
      FlatConcat(a[1..], b);
    }
  }

  lemma FlatSnoc(ls: seq<string>, l: string)
    ensures Flat(ls + [l]) == Flat(ls) + Filled(l)
  {
    FlatConcat(ls, [l]);
    assert Flat([l]) == Filled(l) + Flat([]);
  }

  lemma {:induction false} FlatMember(ls: seq<string>, i: nat, l: string)
    requires i < |ls| && l in Filled(ls[i])
    ensures l in Flat(ls)
  {
    if i > 0 {
      FlatMember(ls[1..], i - 1, l);
    }
  }

  lemma {:induction false} FlatOfBreakFree(ls: seq<string>)
    requires AllBreakFree(ls)
    ensures Flat(ls) == NonEmpty(ls)
  {
    if ls != [] {
      FilledOfLine(ls[0]);
      FlatOfBreakFree(ls[1..]);
    }
  }

  // ---- What a second write adds ----

  /** Nothing but a line break may end a value; stripped values and values without line breaks qualify. */
  predicate EndsInText(v: string) {
    v == "" || !IsBreak(v[|v| - 1])
  }

  lemma EndOfRest(s: string, n: nat)
    requires n < |s| && IsBreak(s[n]) && EndsInText(s)
    ensures s[n + 1..] != "" && EndsInText(s[n + 1..])
  {
  }

  lemma {:induction false} TextFillsALine(s: string)
    requires s != "" && EndsInText(s)
    ensures Filled(s) != []
    decreases |s|
  {
    var n := BreakAt(s);
    if n < |s| {
      EndOfRest(s, n);
      TextFillsALine(s[n + 1..]);
      CutAt(s, n);
      FilledFromBreak(s[..n], s[n], s[n + 1..]);
    } else {
      assert s[..n] == s;
      FilledOfLine(s);
    }
  }

  lemma EntryLine(k: string, x: string)
    requires BreakFree(k) && BreakFree(x)
    ensures Filled(LineFor(k, x)) == [LineFor(k, x)]
  {
    var line := LineFor(k, x);
    assert BreakFree(line) by {
      assert forall i :: 0 <= i < |line| ==> line[i] in k || line[i] == '=' || line[i] in x;
    }
    FilledOfLine(line);
  }

  lemma EntryAtBreak(k: string, x: string, c: char, rest: string)
    ensures LineFor(k, x + [c] + rest) == LineFor(k, x) + [c] + rest
  {
  }

  /** The lines of a written entry: the first assigns the key, and a break in the value makes others. */
  lemma FilledOfEntry(k: string, v: string)
    requires BreakFree(k)
    ensures var f := Filled(LineFor(k, v));
            f != [] && f[0] == LineFor(k, v[..BreakAt(v)]) && (!BreakFree(v) && EndsInText(v) ==> |f| >= 2)
  {
    var n := BreakAt(v);
    EntryLine(k, v[..n]);
    if n < |v| {
      CutAt(v, n);
      EntryAtBreak(k, v[..n], v[n], v[n + 1..]);
      FilledAtBreak(LineFor(k, v[..n]), v[n], v[n + 1..]);
      if EndsInText(v) {
        EndOfRest(v, n);
        TextFillsALine(v[n + 1..]);
      }
    } else {
      assert v[..n] == v;
    }
  }

  ghost predicate HasKeys(m: map<string, string>) {
    forall k :: k in m ==> GoodKey(k)
  }

  /** Whether a line assigns a key whose new value has a line break in it. */
  ghost predicate Spreads(m: map<string, string>, line: string) {
    var k := UpdatedKey(m, line);
    k.Some? && !BreakFree(m[k.value]) && EndsInText(m[k.value])
  }

  lemma RewrittenFills(m: map<string, string>, line: string)
    requires HasKeys(m) && BreakFree(line)
    ensures |Filled(Rewritten(m, line))| >= |Filled(line)|
    ensures Spreads(m, line) ==> |Filled(Rewritten(m, line))| > |Filled(line)|
  {
    FilledOfLine(line);
    var k := UpdatedKey(m, line);
    if k.Some? {
      FilledOfEntry(k.value, m[k.value]);
    }
  }

  ghost predicate AnySpreads(m: map<string, string>, ls: seq<string>) {
    exists i :: 0 <= i < |ls| && Spreads(m, ls[i])
  }

  lemma AnySpreadsSnoc(m: map<string, string>, ls: seq<string>, line: string)
    ensures AnySpreads(m, ls + [line]) <==> AnySpreads(m, ls) || Spreads(m, line)
  {
    var all := ls + [line];
    assert all[|ls|] == line && forall i :: 0 <= i < |ls| ==> all[i] == ls[i];
  }

  lemma {:induction false} RewriteFills(m: map<string, string>, ls: seq<string>)
    requires HasKeys(m) && AllBreakFree(ls)
    ensures |Flat(RewriteAll(m, ls))| >= |Flat(ls)|
    ensures AnySpreads(m, ls) ==> |Flat(RewriteAll(m, ls))| > |Flat(ls)|
  {
    if ls != [] {
      var front, line := ls[..|ls| - 1], ls[|ls| - 1];
      assert ls == front + [line];
      RewriteFills(m, front);
      RewrittenFills(m, line);
      FlatSnoc(RewriteAll(m, front), Rewritten(m, line));
      FlatSnoc(front, line);
      AnySpreadsSnoc(m, front, line);
    }
  }

  lemma {:induction false} SeenIsRewritten(m: map<string, string>, ls: seq<string>, k: string) returns (i: nat)
    requires k in SeenKeys(m, ls)
    ensures i < |ls| && k in m && RewriteAll(m, ls)[i] == LineFor(k, m[k])
  {
    var n := |ls| - 1;
    if UpdatedKey(m, ls[n]) == Some(k) {
      i := n;
    } else {
      i := SeenIsRewritten(m, ls[..n], k);
    }
  }

  lemma {:induction false} UnseenIsAppended(u: Updates, seen: set<string>, i: nat)
    requires i < |u| && u[i].0 !in seen
    ensures LineFor(u[i].0, u[i].1) in AppendedLines(u, seen)
  {
    if i < |u| - 1 {
      UnseenIsAppended(u[..|u| - 1], seen, i);
    }
  }

  lemma EntryIsWritten(u: Updates, ls: seq<string>, i: nat)
    requires DistinctKeys(u) && i < |u|
    ensures LineFor(u[i].0, u[i].1) in NewLines(u, ls)
  {
    var m := ToMap(u);
    ToMapValues(u);
    if u[i].0 in SeenKeys(m, ls) {
      var j := SeenIsRewritten(m, ls, u[i].0);
      assert RewriteAll(m, ls)[j] in RewriteAll(m, ls);
    } else {
      UnseenIsAppended(u, SeenKeys(m, ls), i);
    }
  }

  /** After a first write some line assigns the key of each update. */
  lemma EntryIsAssigned(u: Updates, text: string, i: nat) returns (j: nat)
    requires HasGoodKeys(u) && i < |u|
    ensures var ls := Lines(Written(u, text));
            j < |ls| && UpdatedKey(ToMap(u), ls[j]) == Some(u[i].0)
  {
    var (k, v) := u[i];
    var new1 := NewLines(u, Lines(text));
    var first := LineFor(k, v[..BreakAt(v)]);
    EntryIsWritten(u, Lines(text), i);
    var at :| 0 <= at < |new1| && new1[at] == LineFor(k, v);
    FilledOfEntry(k, v);
    FlatMember(new1, at, first);
    FilledOfFinalText(new1);
    NonEmptyMembers(Lines(Written(u, text)), first);
    AssignmentOfLine(k, v[..BreakAt(v)]);
    ToMapValues(u);
    j :| 0 <= j < |Lines(Written(u, text))| && Lines(Written(u, text))[j] == first;
  }

  lemma FlatOfNewLines(u: Updates, ls: seq<string>)
    ensures |Flat(NewLines(u, ls))| >= |Flat(RewriteAll(ToMap(u), ls))|
  {
    var m := ToMap(u);
    var kept, appended := RewriteAll(m, ls), AppendedLines(u, SeenKeys(m, ls));
    FlatConcat(kept, Separator(kept));
    FlatConcat(kept + Separator(kept), appended);
  }

  /** Every further write of a value with a line break adds lines to the file. */
  lemma SecondWriteAddsLines(u: Updates, text: string)
    requires HasGoodKeys(u) && !Writable(u)
    requires forall i :: 0 <= i < |u| ==> EndsInText(u[i].1)
    ensures |Filled(Written(u, Written(u, text)))| > |Filled(Written(u, text))|
  {
    var m, ls := ToMap(u), Lines(Written(u, text));
    ToMapKeys(u);
    ToMapValues(u);
    var i :| 0 <= i < |u| && !BreakFree(u[i].1);
    var j := EntryIsAssigned(u, text, i);
    assert AnySpreads(m, ls) by {
      assert Spreads(m, ls[j]);
    }
    RewriteFills(m, ls);
    FlatOfBreakFree(ls);
    FlatOfNewLines(u, ls);
    FilledOfFinalText(NewLines(u, ls));
  }

  /** Where no value ends in a line break, a second identical write leaves the text as it is if and only if no
      value contains one and the first write did not have to drop an empty line. */
  lemma SecondWriteKeepsText(u: Updates, text: string)
    requires HasGoodKeys(u) && forall i :: 0 <= i < |u| ==> EndsInText(u[i].1)
    ensures Written(u, Written(u, text)) == Written(u, text) <==> Writable(u) && !LosesALine(u, text)
  {
    if Writable(u) {
      SecondWriteOfLines(u, text);
    } else {
      SecondWriteAddsLines(u, text);
    }
  }

  // ---- Reading back ----

  lemma StoredKeepsBreaks(v: string)
    requires Strip(v) == v && BreakFree(Stored(v))
    ensures BreakFree(v)
  {
    if v != "" {
      StrippedEnds(v);
      forall i | 0 <= i < |v|
        ensures !IsBreak(v[i])
      {
        if Quoted(v) && 0 < i < |v| - 1 {
          assert Stored(v)[i - 1] == v[i];
        }
      }
    }
  }

  /** Where only stripped values contain line breaks, all updates are read back as they are stored, without
      surrounding whitespace and quotes, if and only if no value contains a line break. */
  lemma StoredIsReadIffWritable(u: Updates, text: string)
    requires HasGoodKeys(u) && forall i :: 0 <= i < |u| ==> BreakFree(u[i].1) || Strip(u[i].1) == u[i].1
    ensures ReadText(Written(u, text)) == ReadText(text) + StoredMap(u) <==> Writable(u)
  {
    if Writable(u) {
      ReadAfterWrite(u, text);
    }
    if ReadText(Written(u, text)) == ReadText(text) + StoredMap(u) {
      ToMapValues(u);
      ReadValuesAreBreakFree(Lines(Written(u, text)));
      forall i | 0 <= i < |u|
        ensures BreakFree(u[i].1)
      {
        assert ReadText(Written(u, text))[u[i].0] == Stored(u[i].1);
        if Strip(u[i].1) == u[i].1 {
          StoredKeepsBreaks(u[i].1);
        }
      }
    }
  }

  // ---- An example ----

  /** One update whose value has a second line `l`. */
  function Broken(k: string, v: string, l: string): Updates {
    [(k, v + ['\n'] + l)]
  }

  ghost predicate IsBroken(k: string, v: string, l: string) {
    && GoodKey(k) && BreakFree(v) && BreakFree(l) && l != ""
    && (Assignment(l).Some? ==> Assignment(l).value.0 != k)
  }

  lemma TwoTerminated(a: string, b: string)
    ensures Terminated([a, b]) == a + ['\n'] + b + ['\n']
  {
    assert [a, b][1..] == [b] && [b][1..] == [];
    assert Terminated([b]) == b + ['\n'];
  }

  lemma ThreeTerminated(a: string, b: string, c: string)
    ensures Terminated([a, b, c]) == a + ['\n'] + b + ['\n'] + c + ['\n']
  {
    assert [a, b, c][1..] == [b, c];
    TwoTerminated(b, c);
    assert a + ['\n'] + (b + ['\n'] + c + ['\n']) == a + ['\n'] + b + ['\n'] + c + ['\n'];
  }

  /** Only a final line break keeps a text from being terminated. */
  lemma FinalTextOfTwo(a: string, b: string)
    requires b != "" && b[|b| - 1] != '\n'
    ensures FinalText([b]) == b + ['\n'] && FinalText([a, b]) == a + ['\n'] + b + ['\n']
  {
    assert [a, b][1..] == [b];
    assert Join([b], "\n") == b && Join([a, b], "\n") == a + "\n" + b;
  }

  lemma RewriteOne(m: map<string, string>, l: string)
    ensures RewriteAll(m, [l]) == [Rewritten(m, l)]
    ensures SeenKeys(m, [l]) == if UpdatedKey(m, l).Some? then {UpdatedKey(m, l).value} else {}
  {
    assert [l][..0] == [];
  }

  lemma RewriteTwo(m: map<string, string>, l: string, l': string)
    requires UpdatedKey(m, l').None?
    ensures RewriteAll(m, [l, l']) == [Rewritten(m, l), l'] && SeenKeys(m, [l, l']) == SeenKeys(m, [l])
  {
    assert [l, l'][..1] == [l];
    RewriteOne(m, l);
  }

  lemma MapOfBroken(k: string, v: string, l: string)
    ensures ToMap(Broken(k, v, l)) == map[k := v + ['\n'] + l]
    ensures LineFor(k, v + ['\n'] + l) == LineFor(k, v) + ['\n'] + l
  {
    assert Broken(k, v, l)[..0] == [];
  }

  /** What a line that assigns the key becomes. */
  lemma BrokenLine(k: string, v: string, l: string, x: string)
    requires IsBroken(k, v, l)
    ensures var m, line := ToMap(Broken(k, v, l)), LineFor(k, x);
            && UpdatedKey(m, line) == Some(k) && UpdatedKey(m, l).None?
            && Rewritten(m, line) == LineFor(k, v) + ['\n'] + l
  {
    AssignmentOfLine(k, x);
    MapOfBroken(k, v, l);
  }

  lemma FirstNewLines(k: string, v: string, l: string, x: string)
    requires IsBroken(k, v, l)
    ensures NewLines(Broken(k, v, l), [LineFor(k, x)]) == [LineFor(k, v) + ['\n'] + l]
  {
    BrokenLine(k, v, l, x);
    RewriteOne(ToMap(Broken(k, v, l)), LineFor(k, x));
    NothingMissing(Broken(k, v, l), {k});
  }

  lemma SecondNewLines(k: string, v: string, l: string)
    requires IsBroken(k, v, l)
    ensures NewLines(Broken(k, v, l), [LineFor(k, v), l]) == [LineFor(k, v) + ['\n'] + l, l]
  {
    BrokenLine(k, v, l, v);
    RewriteOne(ToMap(Broken(k, v, l)), LineFor(k, v));
    RewriteTwo(ToMap(Broken(k, v, l)), LineFor(k, v), l);
    NothingMissing(Broken(k, v, l), {k});
  }

  lemma BrokenEnds(k: string, v: string, l: string)
    requires IsBroken(k, v, l)
    ensures var line := LineFor(k, v) + ['\n'] + l;
            line != "" && line[|line| - 1] != '\n' && l[|l| - 1] != '\n' && BreakFree(LineFor(k, v))
  {
  }

  lemma FirstBrokenWrite(k: string, v: string, l: string, x: string)
    requires IsBroken(k, v, l) && BreakFree(LineFor(k, x))
    ensures Written(Broken(k, v, l), Terminated([LineFor(k, x)])) == Terminated([LineFor(k, v), l])
  {
    LinesOfTerminated([LineFor(k, x)]);
    FirstNewLines(k, v, l, x);
    BrokenEnds(k, v, l);
    FinalTextOfTwo("", LineFor(k, v) + ['\n'] + l);
    TwoTerminated(LineFor(k, v), l);
  }

  lemma SecondBrokenWrite(k: string, v: string, l: string)
    requires IsBroken(k, v, l)
    ensures Written(Broken(k, v, l), Terminated([LineFor(k, v), l])) == Terminated([LineFor(k, v), l, l])
  {
    BrokenEnds(k, v, l);
    LinesOfTerminated([LineFor(k, v), l]);
    SecondNewLines(k, v, l);
    FinalTextOfTwo(LineFor(k, v) + ['\n'] + l, l);
    ThreeTerminated(LineFor(k, v), l, l);
  }

  /** A value of two lines, written to a file that assigns its key: each further write adds the second line once
      more, although nothing is appended and the file does not end in empty lines. */
  lemma BrokenValueGrows(k: string, v: string, l: string, x: string)
    requires IsBroken(k, v, l) && BreakFree(x)
    ensures var u, text := Broken(k, v, l), Terminated([LineFor(k, x)]);
            && Written(u, text) == Terminated([LineFor(k, v), l])
            && Written(u, Written(u, text)) == Terminated([LineFor(k, v), l, l]) != Written(u, text)
  {
    FirstBrokenWrite(k, v, l, x);
    SecondBrokenWrite(k, v, l);
    TwoTerminated(LineFor(k, v), l);
    ThreeTerminated(LineFor(k, v), l, l);
  }
}
