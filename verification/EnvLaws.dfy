/** What a rewrite of the .env file keeps and changes: the round trip, the surviving lines, and a second
    identical write. */
module EnvLaws {
  import opened Options
  import opened Text
  import opened EnvFile

  /** What `write_env` leaves in the file. */
  function Written(u: Updates, text: string): string {
    FinalText(NewLines(u, Lines(text)))
  }

  function ReadText(text: string): map<string, string> {
    ReadLines(Lines(text))
  }

  /** What `write_env` reports. */
  function Changed(u: Updates, text: string): seq<string> {
    ChangedKeys(ToMap(u), Lines(text)) + MissingKeys(u, SeenKeys(ToMap(u), Lines(text)))
  }

  ghost predicate HasGoodKeys(u: Updates) {
    DistinctKeys(u) && forall i :: 0 <= i < |u| ==> GoodKey(u[i].0)
  }

  /** No value contains a line break, so that every update is one line. */
  ghost predicate Writable(u: Updates) {
    HasGoodKeys(u) && forall i :: 0 <= i < |u| ==> BreakFree(u[i].1)
  }

  ghost predicate Good(u: Updates) {
    Writable(u) && forall i :: 0 <= i < |u| ==> GoodValue(u[i].1)
  }

  ghost predicate WritableMap(m: map<string, string>) {
    forall k :: k in m ==> GoodKey(k) && BreakFree(m[k])
  }

  lemma {:induction false} ToMapKeys(u: Updates)
    ensures forall k :: k in ToMap(u) ==> exists i :: 0 <= i < |u| && u[i] == (k, ToMap(u)[k])
    ensures forall i :: 0 <= i < |u| ==> u[i].0 in ToMap(u)
  {
    if u != [] {
      var n := |u| - 1;
      ToMapKeys(u[..n]);
      forall k | k in ToMap(u)
        ensures exists i :: 0 <= i < |u| && u[i] == (k, ToMap(u)[k])
      {
        if k == u[n].0 {
          assert u[n] == (k, ToMap(u)[k]);
        } else {
          var i :| 0 <= i < n && u[..n][i] == (k, ToMap(u[..n])[k]);
          assert u[i] == (k, ToMap(u)[k]);
        }
      }
      forall i | 0 <= i < |u|
        ensures u[i].0 in ToMap(u)
      {
        if i < n {
          assert u[..n][i].0 in ToMap(u[..n]);
        }
      }
    }
  }

  lemma WritableToMap(u: Updates)
    requires Writable(u)
    ensures WritableMap(ToMap(u))
  {
    ToMapKeys(u);
  }

  // ---- Reading concatenations ----

  lemma ReadSnoc(ls: seq<string>, l: string)
    ensures ReadLines(ls + [l]) == AddLine(ReadLines(ls), l)
  {
    assert (ls + [l])[..|ls|] == ls;
  }

  lemma AddLineToUnion(a: map<string, string>, b: map<string, string>, l: string)
    ensures AddLine(a + b, l) == a + AddLine(b, l)
  {
  }

  lemma {:induction false} ReadConcat(a: seq<string>, b: seq<string>)
    ensures ReadLines(a + b) == ReadLines(a) + ReadLines(b)
  {
    if b == [] {
      assert a + b == a;
    } else {
      var init, l := b[..|b| - 1], b[|b| - 1];
      ReadConcat(a, init);
      assert a + b == a + init + [l];
      ReadSnoc(a + init, l);
      AddLineToUnion(ReadLines(a), ReadLines(init), l);
    }
  }

  lemma BlankAssignsNothing()
    ensures Assignment("") == None && ReadLines([""]) == map[]
  {
    assert [""][..0] == [];
  }

  lemma TrailingBlankIsNotRead(ls: seq<string>)
    ensures ReadLines(WithoutTrailingBlank(ls)) == ReadLines(ls)
  {
    BlankAssignsNothing();
  }

  // ---- The round trip ----

  /** The old values with those of updated keys replaced by what is read back for the update. */
  function Overridden(m: map<string, string>, old0: map<string, string>): map<string, string> {
    map k | k in old0 :: if k in m then Stored(m[k]) else old0[k]
  }

  lemma OverriddenOneMore(m: map<string, string>, old0: map<string, string>, line: string)
    requires WritableMap(m)
    ensures Overridden(m, AddLine(old0, line)) == AddLine(Overridden(m, old0), Rewritten(m, line))
  {
    if Assignment(line).Some? {
      var (k, v) := Assignment(line).value;
      OverriddenUpdate(m, old0, k, Unquote(v));
      if k in m {
        AssignmentOfLine(k, m[k]);
      }
    }
  }

  lemma OverriddenUpdate(m: map<string, string>, old0: map<string, string>, k: string, x: string)
    ensures Overridden(m, old0[k := x]) == Overridden(m, old0)[k := if k in m then Stored(m[k]) else x]
  {
  }

  lemma {:induction false} ReadRewritten(m: map<string, string>, ls: seq<string>)
    requires WritableMap(m)
    ensures ReadLines(RewriteAll(m, ls)) == Overridden(m, ReadLines(ls))
  {
    if ls != [] {
      var n := |ls| - 1;
      ReadRewritten(m, ls[..n]);
      OverriddenOneMore(m, ReadLines(ls[..n]), ls[n]);
      ReadSnoc(RewriteAll(m, ls[..n]), Rewritten(m, ls[n]));
    }
  }

  lemma {:induction false} SeenKeysAreRead(m: map<string, string>, ls: seq<string>)
    ensures SeenKeys(m, ls) == ReadLines(ls).Keys * m.Keys
  {
    if ls != [] {
      SeenKeysAreRead(m, ls[..|ls| - 1]);
    }
  }

  /** What is read from the appended lines. */
  function AppendedMap(u: Updates, seen: set<string>): map<string, string> {
    map k | k in ToMap(u) && k !in seen :: Stored(ToMap(u)[k])
  }

  lemma AppendedMapOneMore(u: Updates, seen: set<string>)
    requires u != []
    ensures var n := |u| - 1;
            var (k, v) := u[n];
            AppendedMap(u, seen)
            == if k in seen then AppendedMap(u[..n], seen) else AppendedMap(u[..n], seen)[k := Stored(v)]
  {
    var n := |u| - 1;
    var (k, v) := u[n];
    assert ToMap(u) == ToMap(u[..n])[k := v];
    if k in seen {
      assert AppendedMap(u, seen) == AppendedMap(u[..n], seen);
    } else {
      assert AppendedMap(u, seen) == AppendedMap(u[..n], seen)[k := Stored(v)];
    }
  }

  lemma {:induction false} ReadAppended(u: Updates, seen: set<string>)
    requires forall i :: 0 <= i < |u| ==> GoodKey(u[i].0)
    ensures ReadLines(AppendedLines(u, seen)) == AppendedMap(u, seen)
  {
    if u != [] {
      var n := |u| - 1;
      var (k, v) := u[n];
      ReadAppended(u[..n], seen);
      if k !in seen {
        AssignmentOfLine(k, v);
        ReadSnoc(AppendedLines(u[..n], seen), LineFor(k, v));
      }
      AppendedMapOneMore(u, seen);
    }
  }

  lemma NewLinesAreBreakFree(u: Updates, ls: seq<string>)
    requires Writable(u) && AllBreakFree(ls)
    ensures AllBreakFree(NewLines(u, ls))
  {
    WritableToMap(u);
    RewrittenAreBreakFree(ToMap(u), ls);
    AppendedAreBreakFree(u, SeenKeys(ToMap(u), ls));
  }

  lemma {:induction false} RewrittenAreBreakFree(m: map<string, string>, ls: seq<string>)
    requires WritableMap(m) && AllBreakFree(ls)
    ensures AllBreakFree(RewriteAll(m, ls))
  {
    if ls != [] {
      RewrittenAreBreakFree(m, ls[..|ls| - 1]);
    }
  }

  lemma {:induction false} AppendedAreBreakFree(u: Updates, seen: set<string>)
    requires forall i :: 0 <= i < |u| ==> GoodKey(u[i].0) && BreakFree(u[i].1)
    ensures AllBreakFree(AppendedLines(u, seen))
  {
    if u != [] {
      AppendedAreBreakFree(u[..|u| - 1], seen);
    }
  }

  lemma LinesOfWritten(u: Updates, text: string)
    requires Writable(u)
    ensures Lines(Written(u, text)) == WithoutTrailingBlank(NewLines(u, Lines(text)))
  {
    NewLinesAreBreakFree(u, Lines(text));
    LinesOfFinalText(NewLines(u, Lines(text)));
  }

  function StoredMap(u: Updates): map<string, string> {
    map k | k in ToMap(u) :: Stored(ToMap(u)[k])
  }

  lemma ReadNewLines(u: Updates, ls: seq<string>)
    requires Writable(u)
    ensures ReadLines(NewLines(u, ls)) == ReadLines(ls) + StoredMap(u)
  {
    var m := ToMap(u);
    var kept, seen := RewriteAll(m, ls), SeenKeys(m, ls);
    var appended := AppendedLines(u, seen);
    WritableToMap(u);
    assert ReadLines(NewLines(u, ls)) == ReadLines(kept) + ReadLines(appended) by {
      ReadParts(kept, appended);
    }
    ReadRewritten(m, ls);
    ReadAppended(u, seen);
    SeenKeysAreRead(m, ls);
    OverrideAndAppend(u, ReadLines(ls), seen);
  }

  lemma ReadParts(kept: seq<string>, appended: seq<string>)
    ensures ReadLines(if appended == [] then kept else kept + Separator(kept) + appended)
         == ReadLines(kept) + ReadLines(appended)
  {
    BlankAssignsNothing();
    ReadConcat(kept, Separator(kept));
    ReadConcat(kept + Separator(kept), appended);
  }

  lemma OverrideAndAppend(u: Updates, old0: map<string, string>, seen: set<string>)
    requires seen == old0.Keys * ToMap(u).Keys
    ensures Overridden(ToMap(u), old0) + AppendedMap(u, seen) == old0 + StoredMap(u)
  {
  }

  /** Reading after writing gives the old assignments overridden by the updates, whatever the file and
      however often it assigns a key; an update is read back without surrounding whitespace and quotes. */
  lemma ReadAfterWrite(u: Updates, text: string)
    requires Writable(u)
    ensures ReadText(Written(u, text)) == ReadText(text) + StoredMap(u)
  {
    LinesOfWritten(u, text);
    TrailingBlankIsNotRead(NewLines(u, Lines(text)));
    ReadNewLines(u, Lines(text));
  }

  lemma {:induction false} ToMapValues(u: Updates)
    requires DistinctKeys(u)
    ensures forall i :: 0 <= i < |u| ==> u[i].0 in ToMap(u) && ToMap(u)[u[i].0] == u[i].1
  {
    if u != [] {
      var n := |u| - 1;
      ToMapValues(u[..n]);
      forall i | 0 <= i < n
        ensures u[i].0 in ToMap(u) && ToMap(u)[u[i].0] == u[i].1
      {
        assert u[..n][i] == u[i];
      }
    }
  }

  /** No value that contains a line break is ever read back. */
  lemma {:induction false} ReadValuesAreBreakFree(ls: seq<string>)
    requires AllBreakFree(ls)
    ensures forall k :: k in ReadLines(ls) ==> BreakFree(ReadLines(ls)[k])
  {
    if ls != [] {
      var line := ls[|ls| - 1];
      ReadValuesAreBreakFree(ls[..|ls| - 1]);
      if Assignment(line).Some? {
        ValueIsBreakFree(line);
      }
    }
  }

  lemma ValueIsBreakFree(line: string)
    requires BreakFree(line) && Assignment(line).Some?
    ensures BreakFree(Unquote(Assignment(line).value.1))
  {
    var t := Strip(line);
    var v := After(t, '=');
    StripKeepsBreakFree(line);
    assert forall i :: 0 <= i < |v| ==> v[i] == t[|t| - |v| + i];
    StripKeepsBreakFree(v);
  }

  lemma StripKeepsBreakFree(s: string)
    requires BreakFree(s)
    ensures BreakFree(Strip(s))
  {
    StripShortens(s);
  }

  lemma StoredIfGood(u: Updates)
    requires Writable(u)
    ensures StoredMap(u) == ToMap(u) <==> Good(u)
  {
    ToMapKeys(u);
    ToMapValues(u);
    forall k | k in ToMap(u) { StoredAsItself(ToMap(u)[k]); }
    if !Good(u) {
      var i :| 0 <= i < |u| && !GoodValue(u[i].1);
      assert StoredMap(u)[u[i].0] != ToMap(u)[u[i].0];
    }
  }

  lemma OnlyBreakFreeIsRead(u: Updates, text: string)
    requires HasGoodKeys(u) && ToMap(u).Keys <= ReadText(text).Keys
    requires forall k :: k in ToMap(u) ==> ReadText(text)[k] == ToMap(u)[k]
    ensures Writable(u)
  {
    ToMapValues(u);
    ReadValuesAreBreakFree(Lines(text));
  }

  /** Every update is read back as written if and only if every value is free of line breaks, stripped and not
      wrapped in matching quotes. */
  lemma UpdatesAreReadBackIffGood(u: Updates, text: string)
    requires HasGoodKeys(u)
    ensures ReadText(Written(u, text)) == ReadText(text) + ToMap(u) <==> Good(u)
  {
    if ReadText(Written(u, text)) == ReadText(text) + ToMap(u) {
      OnlyBreakFreeIsRead(u, Written(u, text));
    }
    if Writable(u) {
      ReadAfterWrite(u, text);
      StoredIfGood(u);
      SumsDiffer(ReadText(text), StoredMap(u), ToMap(u));
    }
  }

  lemma SumsDiffer(old0: map<string, string>, a: map<string, string>, b: map<string, string>)
    requires a.Keys == b.Keys
    ensures old0 + a == old0 + b <==> a == b
  {
    if a != b {
      var k :| k in a && a[k] != b[k];
      assert (old0 + a)[k] != (old0 + b)[k];
    }
  }

  // ---- Surviving lines ----

  /** The lines that do not assign an updated key. */
  function Others(m: map<string, string>, ls: seq<string>): seq<string> {
    if ls == [] then []
    else
      var before := Others(m, ls[..|ls| - 1]);
      if UpdatedKey(m, ls[|ls| - 1]).None? then before + [ls[|ls| - 1]] else before
  }

  lemma OthersSnoc(m: map<string, string>, ls: seq<string>, l: string)
    ensures Others(m, ls + [l]) == if UpdatedKey(m, l).None? then Others(m, ls) + [l] else Others(m, ls)
  {
    assert (ls + [l])[..|ls|] == ls;
  }

  lemma OthersOneMore(m: map<string, string>, ls: seq<string>, more: seq<string>, l: string)
    ensures Others(m, ls + (more + [l]))
         == if UpdatedKey(m, l).None? then Others(m, ls + more) + [l] else Others(m, ls + more)
  {
    assert ls + (more + [l]) == ls + more + [l];
    OthersSnoc(m, ls + more, l);
  }

  lemma {:induction false} OthersOfRewritten(m: map<string, string>, ls: seq<string>)
    requires WritableMap(m)
    ensures Others(m, RewriteAll(m, ls)) == Others(m, ls)
  {
    if ls != [] {
      var n := |ls| - 1;
      OthersOfRewritten(m, ls[..n]);
      OthersSnoc(m, RewriteAll(m, ls[..n]), Rewritten(m, ls[n]));
      var k := UpdatedKey(m, ls[n]);
      if k.Some? {
        AssignmentOfLine(k.value, m[k.value]);
      }
    }
  }

  lemma {:induction false} OthersOfAppended(m: map<string, string>, ls: seq<string>, u: Updates, seen: set<string>)
    requires forall i :: 0 <= i < |u| ==> GoodKey(u[i].0) && u[i].0 in m
    ensures Others(m, ls + AppendedLines(u, seen)) == Others(m, ls)
  {
    if u == [] {
      assert ls + [] == ls;
    } else {
      var n := |u| - 1;
      var (k, v) := u[n];
      OthersOfAppended(m, ls, u[..n], seen);
      if k !in seen {
        var before := AppendedLines(u[..n], seen);
        OthersOneMore(m, ls, before, LineFor(k, v));
        AssignmentOfLine(k, v);
      }
    }
  }

  lemma {:induction false} LastAppended(u: Updates, seen: set<string>)
    ensures var a := AppendedLines(u, seen); a != [] ==> a[|a| - 1] != ""
  {
    if u != [] {
      LastAppended(u[..|u| - 1], seen);
    }
  }

  /** Every line that assigns no updated key survives as it is and in order. Before appended keys there may
      be one new empty line; without any, one trailing empty line of the file is lost. */
  lemma OtherLinesSurvive(u: Updates, text: string)
    requires Writable(u)
    ensures var m := ToMap(u);
            var old0, new0 := Others(m, Lines(text)), Others(m, Lines(Written(u, text)));
            if AppendedLines(u, SeenKeys(m, Lines(text))) != [] then
              new0 == old0 + Separator(RewriteAll(m, Lines(text)))
            else
              old0 == new0 + if WithoutTrailingBlank(Lines(text)) != Lines(text) then [""] else []
  {
    var m, ls := ToMap(u), Lines(text);
    WritableToMap(u);
    LinesOfWritten(u, text);
    OthersOfRewritten(m, ls);
    if AppendedLines(u, SeenKeys(m, ls)) != [] {
      OthersBehindSeparator(u, ls);
    } else {
      TrailingBlankOfRewritten(m, ls);
      OthersWithoutBlank(m, RewriteAll(m, ls));
    }
  }

  lemma OthersBehindSeparator(u: Updates, ls: seq<string>)
    requires Writable(u) && AppendedLines(u, SeenKeys(ToMap(u), ls)) != []
    ensures var m, kept := ToMap(u), RewriteAll(ToMap(u), ls);
            && WithoutTrailingBlank(NewLines(u, ls)) == NewLines(u, ls)
            && Others(m, NewLines(u, ls)) == Others(m, kept) + Separator(kept)
  {
    var m, kept, seen := ToMap(u), RewriteAll(ToMap(u), ls), SeenKeys(ToMap(u), ls);
    BlankAssignsNothing();
    assert Others(m, kept + Separator(kept)) == Others(m, kept) + Separator(kept) by {
      if Separator(kept) != [] {
        OthersSnoc(m, kept, "");
      } else {
        assert kept + Separator(kept) == kept;
      }
    }
    ToMapKeys(u);
    OthersOfAppended(m, kept + Separator(kept), u, seen);
    LastAppended(u, seen);
  }

  lemma OthersWithoutBlank(m: map<string, string>, ls: seq<string>)
    ensures Others(m, ls)
         == Others(m, WithoutTrailingBlank(ls)) + if WithoutTrailingBlank(ls) != ls then [""] else []
  {
    BlankAssignsNothing();
    if WithoutTrailingBlank(ls) != ls {
      assert ls == ls[..|ls| - 1] + [""];
      OthersSnoc(m, ls[..|ls| - 1], "");
    }
  }

  /** Rewriting keeps empty lines empty and never makes a line empty. */
  lemma {:induction false} BlanksOfRewritten(m: map<string, string>, ls: seq<string>)
    ensures forall i :: 0 <= i < |ls| ==> (RewriteAll(m, ls)[i] == "" <==> ls[i] == "")
  {
    if ls != [] {
      BlanksOfRewritten(m, ls[..|ls| - 1]);
      BlankAssignsNothing();
    }
  }

  lemma TrailingBlankOfRewritten(m: map<string, string>, ls: seq<string>)
    ensures var kept := RewriteAll(m, ls);
            WithoutTrailingBlank(kept) != kept <==> WithoutTrailingBlank(ls) != ls
  {
    BlanksOfRewritten(m, ls);
  }

  // ---- A second identical write ----

  /** A line that a rewrite leaves as it is. */
  ghost predicate Settled(m: map<string, string>, line: string) {
    Rewritten(m, line) == line
  }

  ghost predicate AllSettled(m: map<string, string>, ls: seq<string>) {
    forall i :: 0 <= i < |ls| ==> Settled(m, ls[i])
  }

  lemma LineForIsSettled(m: map<string, string>, k: string)
    requires k in m && GoodKey(k)
    ensures Settled(m, LineFor(k, m[k]))
  {
    AssignmentOfLine(k, m[k]);
  }

  lemma {:induction false} RewrittenAreSettled(m: map<string, string>, ls: seq<string>)
    requires WritableMap(m)
    ensures AllSettled(m, RewriteAll(m, ls))
  {
    if ls != [] {
      var line := ls[|ls| - 1];
      RewrittenAreSettled(m, ls[..|ls| - 1]);
      var k := UpdatedKey(m, line);
      if k.Some? {
        LineForIsSettled(m, k.value);
      }
    }
  }

  lemma {:induction false} AppendedAreSettled(m: map<string, string>, u: Updates, seen: set<string>)
    requires forall i :: 0 <= i < |u| ==> GoodKey(u[i].0) && u[i].0 in m && m[u[i].0] == u[i].1
    ensures AllSettled(m, AppendedLines(u, seen))
  {
    if u != [] {
      AppendedAreSettled(m, u[..|u| - 1], seen);
      LineForIsSettled(m, u[|u| - 1].0);
    }
  }

  lemma {:induction false} SettledLinesStay(m: map<string, string>, ls: seq<string>)
    requires AllSettled(m, ls)
    ensures RewriteAll(m, ls) == ls
  {
    if ls != [] {
      SettledLinesStay(m, ls[..|ls| - 1]);
    }
  }

  lemma {:induction false} NothingMissing(u: Updates, seen: set<string>)
    requires forall i :: 0 <= i < |u| ==> u[i].0 in seen
    ensures AppendedLines(u, seen) == [] && MissingKeys(u, seen) == []
  {
    if u != [] {
      NothingMissing(u[..|u| - 1], seen);
    }
  }

  lemma NewLinesAreSettled(u: Updates, ls: seq<string>)
    requires Writable(u)
    ensures AllSettled(ToMap(u), NewLines(u, ls))
  {
    var m := ToMap(u);
    WritableToMap(u);
    ToMapKeys(u);
    ToMapValues(u);
    RewrittenAreSettled(m, ls);
    AppendedAreSettled(m, u, SeenKeys(m, ls));
    BlankAssignsNothing();
  }

  /** A second write finds every updated key and rewrites no line. */
  lemma SecondWriteKeepsLines(u: Updates, text: string)
    requires Writable(u)
    ensures NewLines(u, Lines(Written(u, text))) == Lines(Written(u, text))
  {
    var m := ToMap(u);
    var ls := Lines(Written(u, text));
    LinesOfWritten(u, text);
    NewLinesAreSettled(u, Lines(text));
    SettledLinesStay(m, ls);
    ReadAfterWrite(u, text);
    SeenKeysAreRead(m, ls);
    ToMapKeys(u);
    NothingMissing(u, SeenKeys(m, ls));
  }

  lemma {:induction false} MissingIfNotSeen(u: Updates, seen: set<string>)
    ensures MissingKeys(u, seen) == [] <==> forall i :: 0 <= i < |u| ==> u[i].0 in seen
  {
    if u != [] {
      var n := |u| - 1;
      MissingIfNotSeen(u[..n], seen);
      assert forall i :: 0 <= i < n ==> u[..n][i] == u[i];
    }
  }

  /** A key whose value is not the one to be written is reported. */
  lemma {:induction false} DifferenceIsReported(m: map<string, string>, ls: seq<string>, k: string)
    requires k in m && k in ReadLines(ls) && ReadLines(ls)[k] != m[k]
    ensures ChangedKeys(m, ls) != []
  {
    var front, line := ls[..|ls| - 1], ls[|ls| - 1];
    if k in ReadLines(front) && ReadLines(front)[k] != m[k] {
      DifferenceIsReported(m, front, k);
    } else {
      assert Assignment(line).Some? && Assignment(line).value.0 == k;
    }
  }

  /** Nothing is reported if all values are read as they are to be written. */
  ghost predicate AllAsWritten(m: map<string, string>, ls: seq<string>) {
    forall i :: 0 <= i < |ls| && UpdatedKey(m, ls[i]).Some? ==>
      Unquote(Assignment(ls[i]).value.1) == m[UpdatedKey(m, ls[i]).value]
  }

  lemma {:induction false} NothingToReport(m: map<string, string>, ls: seq<string>)
    requires AllAsWritten(m, ls)
    ensures ChangedKeys(m, ls) == []
  {
    if ls != [] {
      var n := |ls| - 1;
      assert AllAsWritten(m, ls[..n]) by {
        assert forall i :: 0 <= i < n ==> ls[..n][i] == ls[i];
      }
      NothingToReport(m, ls[..n]);
    }
  }

  ghost predicate GoodMap(m: map<string, string>) {
    forall k :: k in m ==> GoodKey(k) && GoodValue(m[k])
  }

  lemma SettledIsAsWritten(m: map<string, string>, line: string)
    requires GoodMap(m) && Settled(m, line) && UpdatedKey(m, line).Some?
    ensures Unquote(Assignment(line).value.1) == m[UpdatedKey(m, line).value]
  {
    var k := UpdatedKey(m, line).value;
    AssignmentOfLine(k, m[k]);
  }

  lemma GoodIsNotReported(u: Updates, text: string)
    requires Good(u)
    ensures Changed(u, Written(u, text)) == []
  {
    var m := ToMap(u);
    var ls := Lines(Written(u, text));
    LinesOfWritten(u, text);
    NewLinesAreSettled(u, Lines(text));
    ToMapKeys(u);
    assert GoodMap(m);
    forall i | 0 <= i < |ls| && UpdatedKey(m, ls[i]).Some?
      ensures Unquote(Assignment(ls[i]).value.1) == m[UpdatedKey(m, ls[i]).value]
    {
      SettledIsAsWritten(m, ls[i]);
    }
    NothingToReport(m, ls);
    ReadAfterWrite(u, text);
    SeenKeysAreRead(m, ls);
    NothingMissing(u, SeenKeys(m, ls));
  }

  lemma UnreportedIsRead(u: Updates, text: string)
    requires HasGoodKeys(u) && Changed(u, text) == []
    ensures ToMap(u).Keys <= ReadText(text).Keys
    ensures forall k :: k in ToMap(u) ==> ReadText(text)[k] == ToMap(u)[k]
  {
    var m, ls := ToMap(u), Lines(text);
    ToMapKeys(u);
    MissingIfNotSeen(u, SeenKeys(m, ls));
    SeenKeysAreRead(m, ls);
    forall k | k in m
      ensures k in ReadLines(ls) && ReadLines(ls)[k] == m[k]
    {
      if ReadLines(ls)[k] != m[k] {
        DifferenceIsReported(m, ls, k);
      }
    }
  }

  /** A second identical write reports no change if and only if every value is free of line breaks, stripped and
      not wrapped in matching quotes. */
  lemma SecondWriteReportsNothing(u: Updates, text: string)
    requires HasGoodKeys(u)
    ensures Changed(u, Written(u, text)) == [] <==> Good(u)
  {
    if Good(u) {
      GoodIsNotReported(u, text);
    }
    if Changed(u, Written(u, text)) == [] {
      UnreportedIsRead(u, Written(u, text));
      OnlyBreakFreeIsRead(u, Written(u, text));
      ReadAfterWrite(u, text);
      StoredIfGood(u);
      assert StoredMap(u) == ToMap(u);
    }
  }

  ghost predicate EndsInTwoBlanks(ls: seq<string>) {
    |ls| >= 2 && ls[|ls| - 1] == "" && ls[|ls| - 2] == ""
  }

  /** No key has to be appended and the file ends in two empty lines. */
  ghost predicate LosesALine(u: Updates, text: string) {
    AppendedLines(u, SeenKeys(ToMap(u), Lines(text))) == [] && EndsInTwoBlanks(Lines(text))
  }

  /** If no value contains a line break, it leaves the text as it is, unless no key had to be appended and the
      file ended in two empty lines: then each further write drops one more of them. */
  lemma SecondWriteOfLines(u: Updates, text: string)
    requires Writable(u)
    ensures Written(u, Written(u, text)) == Written(u, text) <==> !LosesALine(u, text)
  {
    var m, ls := ToMap(u), Lines(text);
    var new1 := NewLines(u, ls);
    var once := WithoutTrailingBlank(new1);
    SecondWriteKeepsLines(u, text);
    LinesOfWritten(u, text);
    NewLinesAreBreakFree(u, ls);
    FinalTextIsTerminated(new1);
    FinalTextIsTerminated(once);
    assert Written(u, text) == Terminated(once);
    assert Written(u, Written(u, text)) == Terminated(WithoutTrailingBlank(once));
    LinesOfTerminated(once);
    LinesOfTerminated(WithoutTrailingBlank(once));
    TwoBlanksOfNewLines(u, ls);
  }

  lemma LinesOfWitness()
    ensures Lines("A=0\n\n\n") == ["A=0", "", ""]
  {
    var ls := ["A=0", "", ""];
    assert ls[1..] == ["", ""] && ls[1..][1..] == [""] && ls[1..][1..][1..] == [];
    assert Terminated(ls) == "A=0\n\n\n";
    LinesOfTerminated(ls);
  }

  /** One key, its line, and two empty lines: a second write drops one of them. */
  lemma SecondWriteDropsALine()
    ensures var u, text := [("A", "1")], "A=0\n\n\n";
            Written(u, Written(u, text)) != Written(u, text)
  {
    var u, text: string := [("A", "1")], "A=0\n\n\n";
    WitnessIsGood();
    WitnessIsSeen();
    LinesOfWitness();
    SecondWriteOfLines(u, text);
  }

  lemma WitnessIsGood()
    ensures Good([("A", "1")])
  {
  }

  lemma WitnessIsSeen()
    ensures AppendedLines([("A", "1")], SeenKeys(ToMap([("A", "1")]), ["A=0", "", ""])) == []
  {
    var m, ls := ToMap([("A", "1")]), ["A=0", "", ""];
    assert [("A", "1")][..0] == [] && "A" in m;
    assert LineFor("A", "0") == "A=0";
    AssignmentOfLine("A", "0");
    BlankAssignsNothing();
    assert ls[..2] == ["A=0", ""] && ls[..2][..1] == ["A=0"] && ls[..2][..1][..0] == [];
    assert UpdatedKey(m, "A=0") == Some("A");
    assert SeenKeys(m, ["A=0"]) == {"A"};
    assert "A" in SeenKeys(m, ["A=0", ""]);
    assert "A" in SeenKeys(m, ls);
    NothingMissing([("A", "1")], SeenKeys(m, ls));
  }

  lemma TwoBlanksOfNewLines(u: Updates, ls: seq<string>)
    ensures var once := WithoutTrailingBlank(NewLines(u, ls));
            WithoutTrailingBlank(once) == once
            <==> !(AppendedLines(u, SeenKeys(ToMap(u), ls)) == [] && EndsInTwoBlanks(ls))
  {
    BlanksOfRewritten(ToMap(u), ls);
    LastAppended(u, SeenKeys(ToMap(u), ls));
  }
}
