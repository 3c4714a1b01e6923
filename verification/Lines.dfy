/** The raw lines of a file: what splitting and joining do to every character, and which
    lines of a rewritten file come from where (split and join of
    internal/dnsfile/writer.go). */
module Lines {
  import opened Text

  // ----- carriage returns -----

  predicate BreakAt(s: string, i: nat) {
    i + 1 < |s| && s[i] == '\r' && s[i + 1] == '\n'
  }

  predicate HasBreak(s: string) {
    exists i :: 0 <= i < |s| && BreakAt(s, i)
  }

  /** Without a CRLF nothing changes. */
  lemma {:induction false} NoBreaksNoChange(s: string)
    requires !HasBreak(s)
    ensures DropReturns(s) == s
  {
    if s != "" {
      assert !BreakAt(s, 0);
      forall i | 0 <= i < |s[1..]|
        ensures !BreakAt(s[1..], i)
      {
        assert !BreakAt(s, i + 1);
      }
      NoBreaksNoChange(s[1..]);
      assert [s[0]] + s[1..] == s;
    }
  }

  /** Every CRLF becomes a newline, wherever it stands. */
  lemma {:induction false} BreakIsNewline(a: string, b: string)
    ensures DropReturns(a + "\r\n" + b) == DropReturns(a) + "\n" + DropReturns(b)
  {
    var s := a + "\r\n" + b;
    if a == "" {
      assert s == ['\r'] + (['\n'] + b);
      DropReturnsOfBreak(b);
    } else {
      var rest := a[1..] + "\r\n" + b;
      BreakIsNewline(a[1..], b);
      assert s == [a[0]] + rest && a == [a[0]] + a[1..];
      assert a[1..] != "" ==> rest[0] == a[1];
      assert a[1..] == "" ==> rest[0] == '\r';
      DropReturnsFirst(a[0], rest);
      DropReturnsFirst(a[0], a[1..]);
      hide DropReturns;
      var first := if a[0] == '\r' && a[1..] != "" && a[1] == '\n' then "" else [a[0]];
      CatAssoc(first, DropReturns(a[1..]), "\n");
      CatAssoc(first, DropReturns(a[1..]) + "\n", DropReturns(b));
    }
  }

  lemma DropReturnsFirst(c: char, rest: string)
    ensures DropReturns([c] + rest) == (if c == '\r' && rest != "" && rest[0] == '\n' then "" else [c]) + DropReturns(rest)
  {
    assert ([c] + rest)[1..] == rest;
  }

  // ----- splitting and joining -----

  lemma {:induction false} JoinOfSplitLines(s: string)
    ensures Join(SplitLines(s)) == s + "\n"
  {
    if s != "" {
      JoinOfSplitLines(s[1..]);
      JoinFirst(s[0], SplitLines(s[1..]), s[1..]);
      assert [s[0]] + s[1..] == s;
    }
  }

  lemma {:induction false} LastOfSplit(s: string)
    ensures s != "" ==> (SplitLines(s)[|SplitLines(s)| - 1] == "" <==> s[|s| - 1] == '\n')
    ensures |SplitLines(s)| == 1 ==> SplitLines(s)[0] == s
  {
    if s != "" {
      LastOfSplit(s[1..]);
      SplitLinesOfCons(s[0], s[1..]);
      assert [s[0]] + s[1..] == s;
      hide SplitLines;
    }
  }

  lemma JoinFirst(c: char, rest: seq<string>, s: string)
    requires rest != [] && Join(rest) == s + "\n"
    ensures Join([""] + rest) == "\n" + (s + "\n")
    ensures Join([[c] + rest[0]] + rest[1..]) == [c] + (s + "\n")
  {
    JoinBefore("", rest);
    JoinBefore([c] + rest[0], rest[1..]);
    JoinBefore(rest[0], rest[1..]);
    assert [rest[0]] + rest[1..] == rest;
    hide Join;
    assert "" + "\n" == "\n";
    assert ([c] + rest[0]) + "\n" == [c] + (rest[0] + "\n");
    CatAssoc([c], rest[0] + "\n", Join(rest[1..]));
  }

  lemma JoinBefore(line: string, rest: seq<string>)
    ensures Join([line] + rest) == line + "\n" + Join(rest)
  {
    assert ([line] + rest)[1..] == rest;
  }

  /** A file that is split and joined keeps every character but the returns in front of
      newlines, and ends in a newline. */
  lemma JoinOfSplit(content: string)
    ensures var d := DropReturns(content);
            Join(Split(content)) == if d == "" || d[|d| - 1] == '\n' then d else d + "\n"
  {
    var d := DropReturns(content);
    SplitIs(content);
    JoinOfSplitLines(d);
    LastOfSplit(d);
    hide Join, SplitLines, DropReturns, Split;
    if d == "" {
      NothingJoined();
    } else {
      var lines := SplitLines(d);
      if lines[|lines| - 1] == "" {
        assert lines == lines[..|lines| - 1] + [""];
        JoinWithTail(lines[..|lines| - 1]);
        assert d + "\n" == Join(lines[..|lines| - 1]) + "\n";
        SameFront(d, Join(lines[..|lines| - 1]));
      }
    }
  }

  lemma NothingJoined()
    ensures Join(WithoutTail(SplitLines(""))) == ""
  {
  }

  lemma SameFront(a: string, b: string)
    requires a + "\n" == b + "\n"
    ensures a == b
  {
    assert (a + "\n")[..|a|] == a && (b + "\n")[..|b|] == b;
  }

  lemma {:induction false} JoinConcat(a: seq<string>, b: seq<string>)
    ensures Join(a + b) == Join(a) + Join(b)
  {
    if a == [] {
      assert a + b == b;
    } else {
      assert (a + b)[1..] == a[1..] + b;
      JoinConcat(a[1..], b);
      CatAssoc(a[0] + "\n", Join(a[1..]), Join(b));
    }
  }

  lemma JoinWithTail(lines: seq<string>)
    ensures Join(lines + [""]) == Join(lines) + "\n"
  {
    JoinConcat(lines, [""]);
    assert [""][1..] == [];
  }

  // ----- where lines come from -----

  /** The same line, some trailing returns aside. */
  predicate LostTail(line: string, raw: string) {
    line <= raw && forall i :: |line| <= i < |raw| ==> raw[i] == '\r'
  }

  /** A line is one of these, or was a line of the file before. */
  ghost predicate Known(line: string, before: seq<string>, added: set<string>) {
    line in added || exists raw :: raw in before && LostTail(line, raw)
  }

  ghost predicate AllKnown(lines: seq<string>, before: seq<string>, added: set<string>) {
    forall k :: 0 <= k < |lines| ==> Known(lines[k], before, added)
  }

  /** The file is untouched, or rewritten from lines it had and new ones, each character
      for character. */
  ghost predicate Rewritten(after: string, before: string, added: set<string>) {
    after == before
    || exists lines :: after == Join(lines) && AllOneLine(lines) && AllKnown(lines, Split(before), added)
  }

  /** Each line is one of the old or one of the new. */
  predicate Drawn(lines: seq<string>, before: seq<string>, added: set<string>) {
    forall k :: 0 <= k < |lines| ==> lines[k] in added || lines[k] in before
  }

  lemma RewrittenIntro(lines: seq<string>, before: string, added: set<string>)
    requires AllOneLine(lines) && Drawn(lines, Split(before), added)
    ensures Rewritten(Join(lines), before, added)
  {
    hide Join, Split, OneLine;
    forall k | 0 <= k < |lines|
      ensures Known(lines[k], Split(before), added)
    {
      if lines[k] !in added {
        assert LostTail(lines[k], lines[k]);
      }
    }
  }

  lemma SplitOfJoinRaw(lines: seq<string>)
    requires AllOneLine(lines)
    ensures |Split(Join(lines))| == |lines| && forall k :: 0 <= k < |lines| ==> LostTail(Split(Join(lines))[k], lines[k])
  {
    var content := Join(lines);
    SplitLinesOfJoin(lines);
    ReturnsAreSpace(content);
    SplitIs(content);
    var dropped := SplitLines(DropReturns(content));
    hide Join, SplitLines, DropReturns, Split, OneLine;
    assert dropped[|dropped| - 1] == (lines + [""])[|lines|] == "";
    forall k | 0 <= k < |lines|
      ensures LostTail(dropped[k], lines[k])
    {
      assert (lines + [""])[k] == lines[k];
    }
  }

  lemma KnownThrough(line: string, middle: seq<string>, lines: seq<string>, before: seq<string>, added: set<string>)
    requires Known(line, middle, added) && AllKnown(lines, before, added)
    requires |middle| == |lines| && forall k :: 0 <= k < |lines| ==> LostTail(middle[k], lines[k])
    requires forall f :: f in added ==> NoReturnEnds(f)
    ensures Known(line, before, added)
  {
    hide LostTail, NoReturnEnds;
    if line !in added {
      var m :| m in middle && LostTail(line, m);
      var k :| 0 <= k < |middle| && middle[k] == m;
      TailThrough(line, m, lines[k]);
      if lines[k] in added {
        TailOfFresh(line, lines[k]);
      } else {
        var raw :| raw in before && LostTail(lines[k], raw);
        TailThrough(line, lines[k], raw);
      }
    }
  }

  predicate NoReturnEnds(line: string) {
    line != "" && line[|line| - 1] != '\r'
  }

  lemma TailThrough(a: string, b: string, c: string)
    requires LostTail(a, b) && LostTail(b, c)
    ensures LostTail(a, c)
  {
    assert forall i :: 0 <= i < |b| ==> c[i] == b[i];
  }

  lemma TailOfFresh(line: string, added: string)
    requires LostTail(line, added) && NoReturnEnds(added)
    ensures line == added
  {
  }

  /** Two rewritings in a row are one. */
  lemma RewrittenTwice(after: string, middle: string, before: string, added: set<string>)
    requires Rewritten(after, middle, added) && Rewritten(middle, before, added)
    requires forall f :: f in added ==> NoReturnEnds(f)
    ensures Rewritten(after, before, added)
  {
    hide Join, Split, OneLine, Known, NoReturnEnds;
    if after != middle && middle != before {
      var last :| after == Join(last) && AllOneLine(last) && AllKnown(last, Split(middle), added);
      var lines :| middle == Join(lines) && AllOneLine(lines) && AllKnown(lines, Split(before), added);
      SplitOfJoinRaw(lines);
      forall k | 0 <= k < |last|
        ensures Known(last[k], Split(before), added)
      {
        KnownThrough(last[k], Split(middle), lines, Split(before), added);
      }
    }
  }

  lemma RewrittenMore(after: string, before: string, added: set<string>, more: set<string>)
    requires Rewritten(after, before, added) && added <= more
    ensures Rewritten(after, before, more)
  {
    hide Join, Split, LostTail;
    if after != before {
      var lines :| after == Join(lines) && AllOneLine(lines) && AllKnown(lines, Split(before), added);
      assert AllKnown(lines, Split(before), more);
    }
  }
}
