/** The string functions the records file is read and written with. Content is a
    sequence of decoded characters. */
module Text {
  import opened Platform

  // ----- scanning -----

  /** How many leading characters satisfy p. */
  function Span(s: string, p: char -> bool): (n: nat)
    ensures n <= |s|
    ensures forall i :: 0 <= i < n ==> p(s[i])
    ensures n < |s| ==> !p(s[n])
  {
    if s != "" && p(s[0]) then 1 + Span(s[1..], p) else 0
  }

  lemma SpanIs(s: string, p: char -> bool, n: nat)
    requires n <= |s|
    requires forall i :: 0 <= i < n ==> p(s[i])
    requires n < |s| ==> !p(s[n])
    ensures Span(s, p) == n
  {
  }

  /** The first position at which m occurs in s, or |s| when it does not. */
  function IndexOf(s: string, m: string): (i: nat)
    ensures i <= |s|
  {
    if s == "" || m <= s then 0 else 1 + IndexOf(s[1..], m)
  }

  predicate Occurs(m: string, s: string) {
    exists i :: 0 <= i <= |s| && m <= s[i..]
  }

  lemma {:induction false} IndexOfIs(s: string, m: string, i: nat)
    requires i <= |s| && m <= s[i..]
    requires forall j :: 0 <= j < i ==> !(m <= s[j..])
    ensures IndexOf(s, m) == i
  {
    if i > 0 {
      assert !(m <= s[0..]);
      assert s[1..][i - 1..] == s[i..];
      assert forall j :: 0 <= j < i - 1 ==> s[1..][j..] == s[j + 1..];
      IndexOfIs(s[1..], m, i - 1);
    }
  }

  lemma {:induction false} IndexOfOccurs(s: string, m: string)
    requires Occurs(m, s)
    ensures m <= s[IndexOf(s, m)..]
  {
    var i :| 0 <= i <= |s| && m <= s[i..];
    if s != "" && !(m <= s) {
      assert i > 0;
      assert m <= s[1..][i - 1..] by {
        assert s[1..][i - 1..] == s[i..];
      }
      IndexOfOccurs(s[1..], m);
      assert s[1..][IndexOf(s[1..], m)..] == s[IndexOf(s, m)..];
    }
  }

  function TrimPrefix(s: string, p: string): string {
    if p <= s then s[|p|..] else s
  }

  /** strings.TrimSuffix(s, "."): at most one dot goes. */
  function TrimDot(s: string): (t: string)
    ensures s == t || s == t + "."
  {
    if s != "" && s[|s| - 1] == '.' then s[..|s| - 1] else s
  }

  // ----- trimming -----

  predicate AllSpace(s: string) {
    forall i :: 0 <= i < |s| ==> IsSpace(s[i])
  }

  /** Nothing to trim on either side. */
  predicate Tight(s: string) {
    s != "" ==> !IsSpace(s[0]) && !IsSpace(s[|s| - 1])
  }

  function TrimRight(s: string): (t: string)
    ensures t <= s && AllSpace(s[|t|..])
    ensures t != "" ==> !IsSpace(t[|t| - 1])
  {
    if s != "" && IsSpace(s[|s| - 1]) then
      var t := TrimRight(s[..|s| - 1]);
      assert s[|t|..] == s[..|s| - 1][|t|..] + [s[|s| - 1]];
      t
    else s
  }

  function TrimSpace(s: string): (t: string)
    ensures Tight(t)
    ensures forall c :: c in t ==> c in s
  {
    TrimRight(s[Span(s, IsSpace)..])
  }

  lemma {:induction false} TrimRightIs(t: string, b: string)
    requires AllSpace(b) && (t != "" ==> !IsSpace(t[|t| - 1]))
    ensures TrimRight(t + b) == t
  {
    hide IsSpace;
    if b == "" {
      assert t + b == t;
    } else {
      TrimRightIs(t, b[..|b| - 1]);
      assert (t + b)[..|t + b| - 1] == t + b[..|b| - 1];
    }
  }

  /** The trimmed text is the one tight text with white space around it. */
  lemma TrimIs(a: string, t: string, b: string)
    requires AllSpace(a) && AllSpace(b) && Tight(t)
    ensures TrimSpace(a + t + b) == t
  {
    var s := a + t + b;
    if t == "" {
      SpanIs(s, IsSpace, |s|);
    } else {
      SpanIs(s, IsSpace, |a|);
      var rest := s[|a|..];
      assert rest == t + b;
      TrimRightIs(t, b);
    }
  }

  lemma TrimTight(t: string)
    requires Tight(t)
    ensures TrimSpace(t) == t
  {
    TrimIs("", t, "");
    assert "" + t + "" == t;
  }

  lemma TrimTail(s: string, c: char)
    requires IsSpace(c)
    ensures TrimSpace(s + [c]) == TrimSpace(s)
  {
    var n := Span(s, IsSpace);
    if n == |s| {
      SpanIs(s + [c], IsSpace, n + 1);
    } else {
      SpanIs(s + [c], IsSpace, n);
      var rest := s[n..];
      assert (s + [c])[n..] == rest + [c];
      assert (rest + [c])[..|rest + [c]| - 1] == rest;
    }
  }

  // ----- words -----

  /** regexp.Split on \s+ with no limit. */
  function Fields(s: string): (parts: seq<string>)
    ensures |parts| >= 1
    decreases |s|
  {
    var n := Span(s, NotBlank);
    if n == |s| then [s]
    else
      var rest := s[n..];
      var gap := Span(rest, IsBlank);
      [s[..n]] + Fields(rest[gap..])
  }

  predicate IsWord(w: string) {
    w != "" && forall i :: 0 <= i < |w| ==> !IsBlank(w[i])
  }

  lemma FieldsOfWord(w: string)
    requires IsWord(w)
    ensures Fields(w) == [w]
  {
    SpanIs(w, NotBlank, |w|);
  }

  lemma FieldsCut(s: string, n: nat, gap: nat)
    requires n < |s| && Span(s, NotBlank) == n && Span(s[n..], IsBlank) == gap
    ensures Fields(s) == [s[..n]] + Fields(s[n..][gap..])
  {
    hide Span;
  }

  lemma FieldsWhole(s: string)
    requires Span(s, NotBlank) == |s|
    ensures Fields(s) == [s] && JoinWords([s]) == s
  {
    hide Span;
  }

  lemma FieldsStep(w: string, rest: string)
    requires IsWord(w) && rest != "" && !IsBlank(rest[0])
    ensures Fields(w + " " + rest) == [w] + Fields(rest)
  {
    hide Span, Fields;
    var s := w + " " + rest;
    SpanIs(s, NotBlank, |w|);
    assert s[..|w|] == w && s[|w|..] == " " + rest;
    SpanIs(" " + rest, IsBlank, 1);
    assert (" " + rest)[1..] == rest;
    FieldsCut(s, |w|, 1);
  }

  predicate AllWords(parts: seq<string>) {
    forall k :: 0 <= k < |parts| ==> IsWord(parts[k])
  }

  lemma {:induction false} FieldsOfJoin(parts: seq<string>, rest: string)
    requires parts != [] && AllWords(parts)
    requires rest != "" && !IsBlank(rest[0])
    ensures Fields(JoinWords(parts) + " " + rest) == parts + Fields(rest)
  {
    if |parts| == 1 {
      FieldsStep(parts[0], rest);
    } else {
      var more := JoinWords(parts[1..]) + " " + rest;
      FieldsOfJoin(parts[1..], rest);
      JoinStartsWithWord(parts[1..]);
      FieldsStep(parts[0], more);
      JoinStep(parts, rest);
      ConsAssoc(parts, Fields(rest));
    }
  }

  lemma ConsAssoc<T>(xs: seq<T>, ys: seq<T>)
    requires xs != []
    ensures [xs[0]] + (xs[1..] + ys) == xs + ys
  {
  }

  lemma JoinStep(parts: seq<string>, rest: string)
    requires |parts| > 1
    ensures JoinWords(parts) + " " + rest == parts[0] + " " + (JoinWords(parts[1..]) + " " + rest)
  {
  }

  lemma JoinStartsWithWord(parts: seq<string>)
    requires parts != [] && AllWords(parts)
    ensures JoinWords(parts) != "" && JoinWords(parts)[0] == parts[0][0] && !IsBlank(parts[0][0])
  {
  }

  /** strings.Join(parts, " ") */
  function JoinWords(parts: seq<string>): string {
    if parts == [] then ""
    else if |parts| == 1 then parts[0]
    else parts[0] + " " + JoinWords(parts[1..])
  }

  /** No blank but the ASCII one, and never two in a row. */
  predicate Singly(s: string) {
    && (forall i :: 0 <= i < |s| && IsBlank(s[i]) ==> s[i] == ' ')
    && (forall i, j :: 0 <= i < |s| && 0 <= j < |s| && j == i + 1 && IsBlank(s[i]) ==> !IsBlank(s[j]))
  }

  /** Words with one ASCII blank between them, which is what a value reads back
      as. The empty text counts. */
  predicate Spaced(s: string) {
    Singly(s) && (s != "" ==> !IsBlank(s[0]) && !IsBlank(s[|s| - 1]))
  }

  lemma {:induction false} JoinOfFields(s: string)
    requires Spaced(s)
    ensures JoinWords(Fields(s)) == s
    decreases |s|
  {
    hide *;
    var n := Span(s, NotBlank);
    if n < |s| {
      SpacedTail(s, n);
      JoinOfFields(s[n + 1..]);
      FieldsCut(s, n, 1);
      JoinCons(s[..n], Fields(s[n + 1..]));
    } else {
      FieldsWhole(s);
    }
  }

  lemma SpacedTail(s: string, n: nat)
    requires Spaced(s) && n < |s| && Span(s, NotBlank) == n
    ensures n + 1 < |s| && Span(s[n..], IsBlank) == 1 && Spaced(s[n + 1..])
    ensures s == s[..n] + " " + s[n + 1..] && s[n..][1..] == s[n + 1..]
  {
    hide *;
    BlankBetween(s, n);
    BlankOnce(s, n);
    SpacedFrom(s, n + 1);
    Around(s, n);
  }

  lemma BlankBetween(s: string, n: nat)
    requires Spaced(s) && n < |s| && Span(s, NotBlank) == n
    ensures n + 1 < |s| && IsBlank(s[n]) && !IsBlank(s[n + 1]) && s[n] == ' '
  {
    hide Span, IsBlank;
    assert !NotBlank(s[n]) && IsBlank(s[n]);
  }

  lemma Around(s: string, n: nat)
    requires n < |s|
    ensures s == s[..n] + [s[n]] + s[n + 1..] && s[n..][1..] == s[n + 1..]
  {
  }

  lemma BlankOnce(s: string, n: nat)
    requires n + 1 < |s| && IsBlank(s[n]) && !IsBlank(s[n + 1])
    ensures Span(s[n..], IsBlank) == 1
  {
    hide IsBlank, Span;
    SpanIs(s[n..], IsBlank, 1);
  }

  lemma SpacedFrom(s: string, k: nat)
    requires Spaced(s) && k < |s| && !IsBlank(s[k])
    ensures Spaced(s[k..])
  {
    hide IsBlank;
    var t := s[k..];
    assert forall i :: 0 <= i < |t| ==> t[i] == s[k + i];
  }

  lemma JoinCons(w: string, parts: seq<string>)
    requires parts != []
    ensures JoinWords([w] + parts) == w + " " + JoinWords(parts)
  {
    assert ([w] + parts)[1..] == parts;
  }

  /** Every part of a text with a non-blank at both ends is a word. */
  lemma {:induction false} FieldsAreWords(s: string)
    requires s != "" && !IsBlank(s[0]) && !IsBlank(s[|s| - 1])
    ensures AllWords(Fields(s))
    ensures forall k :: 0 <= k < |Fields(s)| ==> forall c :: c in Fields(s)[k] ==> c in s
    decreases |s|
  {
    var n := Span(s, NotBlank);
    if n < |s| {
      var rest := s[n..];
      var gap := Span(rest, IsBlank);
      var tail := rest[gap..];
      assert rest[|rest| - 1] == s[|s| - 1];
      assert gap < |rest|;
      assert tail[|tail| - 1] == s[|s| - 1];
      FieldsAreWords(tail);
      assert Fields(s) == [s[..n]] + Fields(tail);
    }
  }

  lemma {:induction false} JoinIsSpaced(parts: seq<string>)
    requires AllWords(parts)
    ensures Spaced(JoinWords(parts))
    ensures parts != [] ==> JoinWords(parts) != "" && !IsBlank(JoinWords(parts)[0])
    ensures forall c :: c in JoinWords(parts) ==> c == ' ' || exists k :: 0 <= k < |parts| && c in parts[k]
  {
    if |parts| > 1 {
      var tail := JoinWords(parts[1..]);
      JoinIsSpaced(parts[1..]);
      var s := parts[0] + " " + tail;
      forall i | 0 <= i < |s| && IsBlank(s[i])
        ensures s[i] == ' ' && (i > 0 ==> !IsBlank(s[i - 1]))
      {
        if i > |parts[0]| {
          assert s[i] == tail[i - |parts[0]| - 1];
        }
      }
      forall c | c in s
        ensures c == ' ' || exists k :: 0 <= k < |parts| && c in parts[k]
      {
        if c in tail && c != ' ' {
          var k :| 0 <= k < |parts[1..]| && c in parts[1..][k];
          assert c in parts[k + 1];
        }
      }
    }
  }

  // ----- case -----

  function ToLower(s: string): (t: string)
    ensures |t| == |s| && forall i :: 0 <= i < |s| ==> t[i] == LOWER_OF(s[i])
  {
    seq(|s|, i requires 0 <= i < |s| => LOWER_OF(s[i]))
  }

  function ToUpper(s: string): (t: string)
    ensures |t| == |s| && forall i :: 0 <= i < |s| ==> t[i] == UPPER_OF(s[i])
  {
    seq(|s|, i requires 0 <= i < |s| => UPPER_OF(s[i]))
  }

  // ----- numbers -----

  predicate IsDigit(c: char) {
    '0' <= c <= '9'
  }

  /** The %d verb. */
  function Decimal(n: int): string {
    if n < 0 then "-" + DecimalNat(-n) else DecimalNat(n)
  }

  function DecimalNat(n: nat): (s: string)
    ensures s != "" && forall i :: 0 <= i < |s| ==> IsDigit(s[i])
  {
    var digit := [((n % 10) + 48) as char];
    if n < 10 then digit else DecimalNat(n / 10) + digit
  }

  function DigitsValue(s: string): nat
    requires forall i :: 0 <= i < |s| ==> IsDigit(s[i])
  {
    if s == "" then 0
    else
      assert IsDigit(s[|s| - 1]);
      10 * DigitsValue(s[..|s| - 1]) + (s[|s| - 1] as int - 48)
  }

  /** strconv.Atoi on a 64 bit host: an optional sign, digits, no overflow. */
  function Atoi(s: string): Option<int> {
    var digits := if s != "" && (s[0] == '-' || s[0] == '+') then s[1..] else s;
    if digits == "" || Span(digits, IsDigit) < |digits| then None
    else
      var n: int := if s[0] == '-' then 0 - DigitsValue(digits) else DigitsValue(digits);
      if -0x8000_0000_0000_0000 <= n < 0x8000_0000_0000_0000 then Some(n) else None
  }

  lemma {:induction false} DigitsOfDecimal(n: nat)
    ensures DigitsValue(DecimalNat(n)) == n
  {
    if n >= 10 {
      DigitsOfDecimal(n / 10);
      var s := DecimalNat(n);
      assert s[..|s| - 1] == DecimalNat(n / 10);
    } else {
      assert DecimalNat(n)[..0] == "";
    }
  }

  lemma AtoiOfDecimal(n: nat)
    requires n <= 65535
    ensures Atoi(Decimal(n)) == Some(n)
  {
    DigitsOfDecimal(n);
  }

  // ----- the %q verb -----

  function HexDigit(n: nat): char
    requires n < 16
  {
    if n < 10 then (n + 48) as char else (n + 87) as char
  }

  function Hex(n: nat, width: nat): (s: string)
    ensures |s| == width
    ensures forall c :: c in s ==> c != '"' && !IsBlank(c)
  {
    if width == 0 then "" else Hex(n / 16, width - 1) + [HexDigit(n % 16)]
  }

  /** No character %q would write as an escape. */
  predicate NeedsNoEscape(c: char) {
    PRINTABLE(c) && c != '"' && c != '\\'
  }

  function EscapeChar(c: char): (s: string)
    ensures NeedsNoEscape(c) ==> s == [c]
    ensures !NeedsNoEscape(c) ==> |s| >= 2 && s[0] == '\\'
    ensures forall i :: 0 <= i < |s| && IsBlank(s[i]) ==> s == " " && c == ' '
    ensures c != '"' ==> '"' !in s
  {
    if c == '"' || c == '\\' then ['\\', c]
    else if PRINTABLE(c) then [c]
    else if c == '\U{07}' then "\\a"
    else if c == '\U{08}' then "\\b"
    else if c == '\U{0C}' then "\\f"
    else if c == '\n' then "\\n"
    else if c == '\r' then "\\r"
    else if c == '\t' then "\\t"
    else if c == '\U{0B}' then "\\v"
    else if c < ' ' || c == '\U{7F}' then "\\x" + Hex(c as int, 2)
    else if c as int < 0x10000 then "\\u" + Hex(c as int, 4)
    else "\\U" + Hex(c as int, 8)
  }

  function Escape(s: string): string {
    if s == "" then "" else EscapeChar(s[0]) + Escape(s[1..])
  }

  function Enclose(s: string): string {
    "\"" + s + "\""
  }

  function Quote(s: string): string {
    Enclose(Escape(s))
  }

  predicate PlainText(s: string) {
    forall i :: 0 <= i < |s| ==> NeedsNoEscape(s[i])
  }

  lemma {:induction false} EscapeOfPlain(s: string)
    ensures |Escape(s)| >= |s|
    ensures PlainText(s) ==> Escape(s) == s
    ensures !PlainText(s) ==> |Escape(s)| > |s|
  {
    if s != "" {
      EscapeOfPlain(s[1..]);
    }
  }

  lemma EscapeStep(a: string, b: string)
    requires a != ""
    ensures Escape(a + b) == EscapeChar(a[0]) + Escape(a[1..] + b)
    ensures Escape(a) == EscapeChar(a[0]) + Escape(a[1..])
  {
    hide EscapeChar;
    assert (a + b)[1..] == a[1..] + b;
  }

  lemma CatAssoc<T>(a: seq<T>, b: seq<T>, c: seq<T>)
    ensures a + b + c == a + (b + c)
  {
  }

  lemma {:induction false} EscapeConcat(a: string, b: string)
    ensures Escape(a + b) == Escape(a) + Escape(b)
  {
    hide EscapeChar;
    if a == "" {
      assert a + b == b;
    } else {
      EscapeConcat(a[1..], b);
      EscapeStep(a, b);
      CatAssoc(EscapeChar(a[0]), Escape(a[1..]), Escape(b));
    }
  }

  lemma {:induction false} EscapeKeepsShape(s: string)
    requires '"' !in s
    ensures '"' !in Escape(s)
    ensures Singly(s) ==> Singly(Escape(s))
    ensures s != "" ==> Escape(s) != "" && (IsBlank(Escape(s)[0]) ==> s[0] == ' ')
    ensures s != "" ==> (IsBlank(Escape(s)[|Escape(s)| - 1]) ==> s[|s| - 1] == ' ')
  {
    hide EscapeChar, IsBlank, Singly, NeedsNoEscape;
    if s != "" {
      var head, tail := EscapeChar(s[0]), Escape(s[1..]);
      EscapeKeepsShape(s[1..]);
      if Singly(s) {
        SinglyRest(s);
        SinglyBehind(s[0], s[1..], tail);
      }
      if s[1..] != "" {
        assert (head + tail)[|head + tail| - 1] == tail[|tail| - 1];
      }
    }
  }

  lemma SinglyRest(s: string)
    requires s != "" && Singly(s)
    ensures Singly(s[1..]) && (|s| > 1 && s[0] == ' ' ==> s[1] != ' ')
  {
    assert forall i :: 0 <= i < |s[1..]| ==> s[1..][i] == s[1 + i];
  }

  lemma SinglyBehind(c: char, rest: string, tail: string)
    requires Singly(tail) && (tail != "" && c == ' ' ==> rest != "" && (IsBlank(tail[0]) ==> rest[0] == ' ') && rest[0] != ' ')
    ensures Singly(EscapeChar(c) + tail)
  {
    hide EscapeChar, NeedsNoEscape;
    var head := EscapeChar(c);
    var e := head + tail;
    forall i | 0 <= i < |e| && IsBlank(e[i])
      ensures e[i] == ' ' && (i + 1 < |e| ==> !IsBlank(e[i + 1]))
    {
      if i >= |head| {
        assert e[i] == tail[i - |head|];
        assert i + 1 < |e| ==> e[i + 1] == tail[i + 1 - |head|];
      } else {
        assert e[i] == head[i] && head == " ";
        assert i + 1 < |e| ==> e[i + 1] == tail[0];
      }
    }
  }

  /** %q leaves plain words before a value alone. */
  lemma EscapeAfterWords(words: seq<string>, value: string)
    requires forall k :: 0 <= k < |words| ==> PlainText(words[k])
    ensures Escape(JoinWords(words) + " " + value) == JoinWords(words) + " " + Escape(value)
  {
    var head := JoinWords(words) + " ";
    JoinOfPlain(words);
    assert IsAscii(' ') && NeedsNoEscape(' ');
    EscapeOfPlain(head);
    EscapeConcat(head, value);
  }

  /** Words %q leaves alone stay so when they are joined. */
  lemma {:induction false} JoinOfPlain(parts: seq<string>)
    requires forall k :: 0 <= k < |parts| ==> PlainText(parts[k])
    ensures PlainText(JoinWords(parts))
  {
    if |parts| > 1 {
      JoinOfPlain(parts[1..]);
      assert IsAscii(' ') && NeedsNoEscape(' ');
    }
  }

  // ----- lines -----

  /** strings.Split(s, "\n") */
  function SplitLines(s: string): (lines: seq<string>)
    ensures |lines| >= 1
  {
    if s == "" then [""]
    else
      var rest := SplitLines(s[1..]);
      if s[0] == '\n' then [""] + rest else [[s[0]] + rest[0]] + rest[1..]
  }

  /** strings.ReplaceAll(s, "\r\n", "\n") */
  function DropReturns(s: string): string {
    if s == "" then ""
    else if |s| >= 2 && s[0] == '\r' && s[1] == '\n' then DropReturns(s[1..])
    else [s[0]] + DropReturns(s[1..])
  }

  /** The lines of a file, without the empty tail a trailing newline leaves. */
  function Split(content: string): seq<string> {
    if content == "" then []
    else
      var lines := SplitLines(DropReturns(content));
      if lines[|lines| - 1] == "" then lines[..|lines| - 1] else lines
  }

  function WithoutTail(lines: seq<string>): seq<string> {
    if lines != [] && lines[|lines| - 1] == "" then lines[..|lines| - 1] else lines
  }

  lemma SplitIs(content: string)
    ensures Split(content) == WithoutTail(SplitLines(DropReturns(content)))
  {
    hide DropReturns, SplitLines;
    NothingToSplit();
  }

  lemma NothingToSplit()
    ensures SplitLines(DropReturns("")) == [""]
  {
  }

  /** strings.Join(lines, "\n") + "\n", and nothing at all for no lines. */
  function Join(lines: seq<string>): string {
    if lines == [] then "" else lines[0] + "\n" + Join(lines[1..])
  }

  predicate OneLine(s: string) {
    '\n' !in s
  }

  predicate AllOneLine(lines: seq<string>) {
    forall k :: 0 <= k < |lines| ==> OneLine(lines[k])
  }

  /** Two renderings of the same lines that differ in surrounding white space. */
  predicate SameTrimmed(a: seq<string>, b: seq<string>) {
    |a| == |b| && forall k :: 0 <= k < |a| ==> TrimSpace(a[k]) == TrimSpace(b[k])
  }

  lemma {:induction false} SplitLinesAreLines(s: string)
    ensures AllOneLine(SplitLines(s))
  {
    if s != "" {
      SplitLinesAreLines(s[1..]);
    }
  }

  lemma SplitLinesOfCons(c: char, s: string)
    ensures SplitLines([c] + s) == if c == '\n' then [""] + SplitLines(s)
                                   else [[c] + SplitLines(s)[0]] + SplitLines(s)[1..]
  {
    assert ([c] + s)[1..] == s;
  }

  /** Two line lists of which the first has lost trailing returns, the last line
      excepted. */
  predicate LostReturns(a: seq<string>, b: seq<string>) {
    && |a| == |b| >= 1
    && a[|a| - 1] == b[|b| - 1]
    && forall k :: 0 <= k < |a| ==> b[k] == a[k] || b[k] == a[k] + "\r"
  }

  lemma {:induction false} LostReturnsCons(c: char, a: seq<string>, b: seq<string>)
    requires LostReturns(a, b)
    ensures LostReturns([[c] + a[0]] + a[1..], [[c] + b[0]] + b[1..])
    ensures LostReturns([""] + a, [""] + b)
  {
    var x, y := [[c] + a[0]] + a[1..], [[c] + b[0]] + b[1..];
    assert b[0] == a[0] + "\r" ==> [c] + b[0] == ([c] + a[0]) + "\r";
    forall k | 0 <= k < |x|
      ensures y[k] == x[k] || y[k] == x[k] + "\r"
    {
      if k > 0 {
        assert x[k] == a[k] && y[k] == b[k];
      }
    }
    EmptyFirst(a, b);
  }

  lemma EmptyFirst(a: seq<string>, b: seq<string>)
    requires LostReturns(a, b)
    ensures LostReturns([""] + a, [""] + b)
  {
    var x, y := [""] + a, [""] + b;
    forall k | 0 <= k < |x|
      ensures y[k] == x[k] || y[k] == x[k] + "\r"
    {
      if k > 0 {
        assert x[k] == a[k - 1] && y[k] == b[k - 1];
      }
    }
  }

  /** Dropping the returns changes each line by one trailing return at most. */
  lemma {:induction false} ReturnsAreSpace(s: string)
    ensures LostReturns(SplitLines(DropReturns(s)), SplitLines(s))
  {
    if s != "" {
      var a, b := SplitLines(DropReturns(s[1..])), SplitLines(s[1..]);
      ReturnsAreSpace(s[1..]);
      LostReturnsCons(s[0], a, b);
      if |s| >= 2 && s[0] == '\r' && s[1] == '\n' {
        ReturnGoes(s, a, b);
      } else {
        SplitLinesOfCons(s[0], DropReturns(s[1..]));
        hide LostReturns;
      }
    }
  }

  lemma ReturnGoes(s: string, a: seq<string>, b: seq<string>)
    requires |s| >= 2 && s[0] == '\r' && s[1] == '\n'
    requires a == SplitLines(DropReturns(s[1..])) && b == SplitLines(s[1..]) && LostReturns(a, b)
    ensures LostReturns(SplitLines(DropReturns(s)), SplitLines(s))
  {
    hide *;
    var u := s[2..];
    assert s[1..] == ['\n'] + u && s == ['\r'] + (['\n'] + u);
    DropReturnsOfBreak(u);
    SplitLinesOfCons('\n', DropReturns(u));
    SplitLinesOfCons('\n', u);
    SplitLinesOfCons('\r', ['\n'] + u);
    LostFirstReturn(SplitLines(DropReturns(u)), SplitLines(u));
  }

  lemma DropReturnsOfBreak(u: string)
    ensures DropReturns(['\n'] + u) == ['\n'] + DropReturns(u)
    ensures DropReturns(['\r'] + (['\n'] + u)) == ['\n'] + DropReturns(u)
  {
    var t := ['\n'] + u;
    assert t[1..] == u && (['\r'] + t)[1..] == t;
  }

  lemma LostFirstReturn(a: seq<string>, b: seq<string>)
    requires a != [] && b != [] && LostReturns([""] + a, [""] + b)
    ensures LostReturns([""] + a, [['\r'] + ([""] + b)[0]] + ([""] + b)[1..])
  {
    var x, y, z := [""] + a, [""] + b, [['\r'] + ([""] + b)[0]] + ([""] + b)[1..];
    assert z[0] == "" + "\r";
    assert forall k :: 0 < k < |z| ==> z[k] == y[k];
  }

  lemma LostReturnsTrim(a: seq<string>, b: seq<string>)
    requires LostReturns(a, b)
    ensures SameTrimmed(a, b)
  {
    forall k | 0 <= k < |a|
      ensures TrimSpace(a[k]) == TrimSpace(b[k])
    {
      TrimTail(a[k], '\r');
    }
  }

  lemma {:induction false} SplitLinesOfCut(line: string, rest: string)
    requires OneLine(line)
    ensures SplitLines(line + "\n" + rest) == [line] + SplitLines(rest)
  {
    var s := line + "\n" + rest;
    if line == "" {
      assert s == ['\n'] + rest;
      SplitLinesOfCons('\n', rest);
    } else {
      SplitLinesOfCut(line[1..], rest);
      SplitLinesOfCons(line[0], line[1..] + "\n" + rest);
      assert s == [line[0]] + (line[1..] + "\n" + rest);
      assert line[0] in line;
      assert [line[0]] + line[1..] == line;
      assert ([line[1..]] + SplitLines(rest))[1..] == SplitLines(rest);
    }
  }

  lemma {:induction false} SplitLinesOfJoin(lines: seq<string>)
    requires AllOneLine(lines)
    ensures SplitLines(Join(lines)) == lines + [""]
  {
    if lines != [] {
      SplitLinesOfJoin(lines[1..]);
      SplitLinesOfCut(lines[0], Join(lines[1..]));
    }
  }

  lemma SplitIsLines(content: string)
    ensures AllOneLine(Split(content))
  {
    if content != "" {
      SplitLinesAreLines(DropReturns(content));
    }
  }

  /** Splitting what was joined gives the lines back, up to a trailing return. */
  lemma SplitOfJoin(lines: seq<string>)
    requires AllOneLine(lines)
    ensures SameTrimmed(Split(Join(lines)), lines)
  {
    if lines != [] {
      var content := Join(lines);
      var dropped := SplitLines(DropReturns(content));
      SplitLinesOfJoin(lines);
      ReturnsAreSpace(content);
      LostReturnsTrim(dropped, SplitLines(content));
      assert content != "" by {
        assert '\n' in lines[0] + "\n";
      }
      assert Split(content) == dropped[..|lines|];
      ShorterSameTrimmed(dropped, lines);
    }
  }

  lemma ShorterSameTrimmed(a: seq<string>, b: seq<string>)
    requires SameTrimmed(a, b + [""])
    ensures SameTrimmed(a[..|b|], b)
  {
    forall k | 0 <= k < |b|
      ensures TrimSpace(a[..|b|][k]) == TrimSpace(b[k])
    {
      assert (b + [""])[k] == b[k] && TrimSpace(a[k]) == TrimSpace((b + [""])[k]);
    }
  }
}
