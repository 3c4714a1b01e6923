/** What the gate of the agent keeps out (cmd/jbound-agent/content.go): every directive
    that is no record, wherever on its line it stands. */
module Gate {
  import opened Text
  import opened Records
  import opened Blocks
  import opened Entries
  import opened Edits
  import opened KeySets
  import opened Agent
  import Writer

  /** Letters, digits, a hyphen and an underscore. */
  predicate IsWordChar(c: char) {
    || 'a' <= c <= 'z' || 'A' <= c <= 'Z'
    || c in "0123456789-_"
  }

  /** A word that becomes a directive with a colon behind it. */
  predicate DirectiveWord(w: string) {
    w != "" && forall i :: 0 <= i < |w| ==> IsWordChar(w[i])
  }

  lemma DirectiveWordIs(w: string)
    requires DirectiveWord(w)
    ensures w != "" && forall i :: 0 <= i < |w| ==> IsDirectiveChar(w[i]) && w[i] != '#'
  {
    forall i | 0 <= i < |w|
      ensures IsDirectiveChar(w[i]) && w[i] != '#'
    {
      assert IsWordChar(w[i]);
    }
  }

  /** A line that starts with a directive. */
  function Directed(word: string, rest: string): string {
    word + ":" + rest
  }

  /** A line with a second directive behind the quoted text of the first. */
  function DirectedTwice(word: string, gap: string, body: string, sep: string, second: string, rest: string): string {
    Directed(word, gap + (Enclose(body) + (sep + Directed(second, rest))))
  }

  lemma ScanDirective(before: seq<string>, word: string, rest: string)
    requires DirectiveWord(word)
    ensures var found := before + [word + ":"];
            && ScanText(Scan(false, "", before), Directed(word, rest)) == ScanText(Scan(false, "", found), rest)
            && found <= ScanText(Scan(false, "", before), Directed(word, rest)).tokens
  {
    hide ScanText, ScanChar, DirectiveWord;
    DirectiveWordIs(word);
    var s, found := Scan(false, "", before), before + [word + ":"];
    ScanWord(s, word);
    assert "" + word == word;
    ScanOne(Scan(false, word, before), ':');
    ColonEnds(word, before);
    ScanConcat(s, word, ":");
    ScanConcat(s, word + ":", rest);
    ScanBehind(Scan(false, "", []), found, rest);
    assert found + [] == found;
  }

  lemma ColonEnds(word: string, before: seq<string>)
    requires word != ""
    ensures ScanChar(Scan(false, word, before), ':') == Scan(false, "", before + [word + ":"])
  {
  }

  lemma {:induction false} ScanBlanks(before: seq<string>, gap: string)
    requires AllBlank(gap)
    ensures ScanText(Scan(false, "", before), gap) == Scan(false, "", before)
    decreases |gap|
  {
    if gap != "" {
      ScanBlanks(before, gap[1..]);
    }
  }

  /** Text in front of a directive that is none itself: words, blanks and signs without a
      quote or a colon, and a gap behind them. */
  predicate Leading(before: string) {
    '"' !in before && ':' !in before && (before != "" ==> !IsWordChar(before[|before| - 1]))
  }

  lemma {:induction false} ScanLeading(s: Scan, before: string)
    requires !s.inQuote && '"' !in before && ':' !in before
    ensures var t := ScanText(s, before);
            !t.inQuote && t.tokens == s.tokens && (before != "" && !IsWordChar(before[|before| - 1]) ==> t.word == "")
    decreases |before|
  {
    if before != "" {
      ScanLeading(ScanChar(s, before[0]), before[1..]);
    }
  }

  /** The agent refuses every line whose first directive is another than the three of a
      records file, whatever stands in front of it and comes behind it. */
  lemma OtherDirectiveRefused(before: string, word: string, rest: string)
    requires Leading(before) && Foreign(word) && Ordinary(before + Directed(word, rest))
    ensures !AllowedLine(before + Directed(word, rest))
  {
    hide Tokens, DirectiveWord, Leading, Directed;
    var line := before + Directed(word, rest);
    FirstToken(before, word, rest);
    OtherToken(word);
    assert |Tokens(line)| == 1 ==> Tokens(line)[0] == word + ":";
  }

  /** No comment, no header and not empty. */
  predicate Ordinary(line: string) {
    line != "" && !("#" <= line) && line != "server:"
  }

  lemma FirstToken(before: string, word: string, rest: string)
    requires Leading(before) && DirectiveWord(word)
    ensures var tokens := Tokens(before + Directed(word, rest)); tokens != [] && tokens[0] == word + ":"
  {
    hide ScanText, Directed;
    ScanLeading(Scan(false, "", []), before);
    if before == "" {
      NothingScanned(Scan(false, "", []));
    }
    ScanConcat(Scan(false, "", []), before, Directed(word, rest));
    ScanDirective([], word, rest);
    assert [] + [word + ":"] == [word + ":"];
  }

  lemma NothingScanned(s: Scan)
    ensures ScanText(s, "") == s
  {
  }

  /** Another directive than the three of a records file. */
  predicate Foreign(word: string) {
    DirectiveWord(word) && word != "local-data" && word != "local-data-ptr" && word != "local-zone"
  }

  lemma NotAComment(word: string, rest: string)
    requires DirectiveWord(word)
    ensures Directed(word, rest) != "" && !("#" <= Directed(word, rest))
  {
    hide DirectiveWord;
    DirectiveWordIs(word);
    assert Directed(word, rest)[0] == word[0];
  }

  lemma OtherToken(word: string)
    requires word != "local-data" && word != "local-data-ptr" && word != "local-zone"
    ensures !AllowedDirective(word + ":")
  {
    WithoutColon(word, "local-data");
    WithoutColon(word, "local-data-ptr");
    WithoutColon(word, "local-zone");
    assert DATA == "local-data" + ":" && PTR == "local-data-ptr" + ":" && ZONE == "local-zone" + ":";
  }

  lemma WithoutColon(a: string, b: string)
    ensures a + ":" == b + ":" ==> a == b
  {
    assert (a + ":")[..|a|] == a && (b + ":")[..|b|] == b;
  }

  /** It refuses every line with a second directive behind the quotes, whatever the two
      are. */
  lemma SecondDirectiveRefused(word: string, gap: string, body: string, sep: string, second: string, rest: string)
    requires DirectiveWord(word) && DirectiveWord(second)
    requires AllBlank(gap) && '"' !in body && AllBlank(sep)
    ensures !AllowedLine(DirectedTwice(word, gap, body, sep, second, rest))
  {
    hide ScanText, DirectiveWord, Directed;
    var one, tail := [word + ":"], sep + Directed(second, rest);
    var s := Scan(false, "", one);
    ScanDirective([], word, gap + (Enclose(body) + tail));
    assert [] + one == one;
    ScanBlanks(one, gap);
    ScanConcat(s, gap, Enclose(body) + tail);
    ScanEnclosed(s, body);
    ScanConcat(s, Enclose(body), tail);
    ScanBlanks(one, sep);
    ScanConcat(s, sep, Directed(second, rest));
    ScanDirective(one, second, rest);
    TwoAreTooMany(word, gap + (Enclose(body) + tail), one + [second + ":"]);
  }

  lemma TwoAreTooMany(word: string, rest: string, found: seq<string>)
    requires DirectiveWord(word) && |found| == 2 && found <= Tokens(Directed(word, rest))
    ensures !AllowedLine(Directed(word, rest))
  {
    hide Tokens;
    NotAComment(word, rest);
    var line := Directed(word, rest);
    if line == HEADER {
      HeaderIsOne();
    }
  }

  lemma HeaderIsOne()
    ensures |Tokens(HEADER)| == 1
  {
    ServerWord();
    hide ScanText;
    ScanDirective([], "server", "");
    NothingScanned(Scan(false, "", ["server:"]));
    assert "server" + ":" == "server:" && [] + ["server:"] == ["server:"];
    assert HEADER == Directed("server", "");
  }

  lemma ServerWord()
    ensures DirectiveWord("server")
  {
  }

  /** A record's own shape is accepted exactly when its directive is one of the three. */
  lemma ShapeIsAllowedIff(word: string, body: string, tail: string)
    requires DirectiveWord(word) && '"' !in body && forall i :: 0 <= i < |tail| ==> IsDirectiveChar(tail[i])
    ensures AllowedLine(word + ":" + (" " + (Enclose(body) + (" " + tail)))) <==>
      word == "local-data" || word == "local-data-ptr" || word == "local-zone"
  {
    hide Tokens, DirectiveWord;
    DirectiveWordIs(word);
    var rest := " " + (Enclose(body) + (" " + tail));
    OneDirective(word, body, tail);
    HasMore(word, rest);
    if word != "local-data" && word != "local-data-ptr" && word != "local-zone" {
      NotAComment(word, rest);
      NothingLeads(Directed(word, rest));
      OtherDirectiveRefused("", word, rest);
    } else {
      RecordWords();
    }
  }

  lemma NothingLeads(line: string)
    ensures Leading("") && "" + line == line
  {
  }

  lemma RecordWords()
    ensures "local-data" + ":" == DATA && "local-data-ptr" + ":" == PTR && "local-zone" + ":" == ZONE
  {
  }

  lemma HasMore(word: string, rest: string)
    requires rest != "" && rest[0] == ' '
    ensures Directed(word, rest) != "server:"
  {
    assert ' ' !in "server:";
    assert Directed(word, rest)[|word| + 1] == ' ';
  }

  /** Empty lines, comments and the header pass. */
  lemma HarmlessAllowed(line: string)
    requires line == "" || "#" <= line || line == "server:"
    ensures AllowedLine(line)
  {
  }

  // ----- whole contents -----

  predicate Doubled(word: string, gap: string, body: string, sep: string, second: string) {
    DirectiveWord(word) && DirectiveWord(second) && AllBlank(gap) && '"' !in body && AllBlank(sep)
  }

  /** The line carries a directive a records file must not. */
  ghost predicate Smuggles(line: string) {
    || (Ordinary(line) && exists before, word, rest :: line == before + Directed(word, rest) && Leading(before) && Foreign(word))
    || (exists word, gap, body, sep, second, rest ::
          line == DirectedTwice(word, gap, body, sep, second, rest) && Doubled(word, gap, body, sep, second))
  }

  lemma SmugglerRefused(line: string)
    requires Smuggles(line)
    ensures !AllowedLine(line)
  {
    hide AllowedLine, DirectiveWord, Directed, DirectedTwice, Leading, Foreign, Ordinary;
    if Ordinary(line) && exists before, word, rest :: line == before + Directed(word, rest) && Leading(before) && Foreign(word) {
      var before, word, rest :| line == before + Directed(word, rest) && Leading(before) && Foreign(word);
      OtherDirectiveRefused(before, word, rest);
    } else {
      var word, gap, body, sep, second, rest :|
        line == DirectedTwice(word, gap, body, sep, second, rest) && Doubled(word, gap, body, sep, second);
      SecondDirectiveRefused(word, gap, body, sep, second, rest);
    }
  }

  /** One such line, wherever it stands, and the agent refuses the whole content, with the
      header in front of it as without. */
  lemma SmugglingRefused(content: string, k: nat)
    requires k < |View(content)| && Smuggles(View(content)[k].text)
    ensures !AllowedContent(content) && !AllowedContent(Writer.EnsureHeader(content))
  {
    hide *;
    SmugglerRefused(View(content)[k].text);
    AllowedIs(View(content)[k]);
    GateIsView(content);
    EveryAt(View(content), k);
    Writer.EnsureHeaderView(content);
    HeaderKeeps(View(content), k);
    GateIsView(Writer.EnsureHeader(content));
  }

  lemma EveryAt(es: seq<Entry>, k: nat)
    requires k < |es| && !Allowed(es[k])
    ensures !Every(es, Allowed)
  {
    hide Allowed;
  }

  lemma HeaderKeeps(es: seq<Entry>, k: nat)
    requires k < |es| && !Allowed(es[k])
    ensures !Every(EnsureHeaderIn(es), Allowed)
  {
    hide Allowed, EntryOf, HasHeader;
    assert ([EntryOf(HEADER)] + es)[k + 1] == es[k];
  }
}
