/**
 Regular-expression filters built from plain values (mongo/bsonutil.go:28-42):
 with a parser and a matcher for the patterns they use, they mean prefix,
 suffix and substring.
 */
module Filters {
  import opened Wrappers

  // ---------- regexp.QuoteMeta ----------

  predicate Special(c: char) {
    c in "\\.+*?()|[]{}^$"
  }

  function Quote(c: char): string {
    if Special(c) then ['\\', c] else [c]
  }

  function QuoteMeta(s: string): string {
    if s == "" then ""
    else Quote(s[0]) + QuoteMeta(s[1..])
  }

  function StartsWith(value: string): string {
    "^" + QuoteMeta(value)
  }

  function EndsWith(value: string): string {
    QuoteMeta(value) + "$"
  }

  function Contains(value: string): string {
    QuoteMeta(value)
  }

  // ---------- patterns ----------

  datatype Item =
    | Literal(c: char)
    | Start      // ^
    | End        // $

  predicate Alphanumeric(c: char) {
    '0' <= c <= '9' || 'a' <= c <= 'z' || 'A' <= c <= 'Z'
  }

  // The bytes that mean something else than themselves in a pattern.
  predicate Operator(c: char) {
    c == '\\' || c == '^' || c == '$' || c == '.' || c == '[' || c == '|' || c == '(' || c == ')' || c == '?'
    || c == '*' || c == '+' || c == '{'
  }

  // The server's reading of a pattern, as far as these filters go: an escaped
  // byte that is not alphanumeric stands for itself; the operators other than
  // the anchors are not read.
  function ParsePattern(p: string): Option<seq<Item>> {
    if p == "" then Some([])
    else if p[0] == '\\' then
      if |p| < 2 || Alphanumeric(p[1]) then None
      else
        var rest :- ParsePattern(p[2..]);
        Some([Literal(p[1])] + rest)
    else
      var item :- if p[0] == '^' then Some(Start) else if p[0] == '$' then Some(End)
                  else if Operator(p[0]) then None else Some(Literal(p[0]));
      var rest :- ParsePattern(p[1..]);
      Some([item] + rest)
  }

  // Without the multi-line option the end of a text is its very end, or the
  // place before a final newline.
  predicate AtEnd(text: string, i: nat) {
    i == |text| || (i == |text| - 1 && text[i] == '\n')
  }

  predicate MatchesAt(items: seq<Item>, text: string, i: nat) {
    if items == [] then true
    else match items[0]
      case Literal(c) => i < |text| && text[i] == c && MatchesAt(items[1..], text, i + 1)
      case Start => i == 0 && MatchesAt(items[1..], text, i)
      case End => AtEnd(text, i) && MatchesAt(items[1..], text, i)
  }

  // An unanchored search, as $regex does it.
  ghost predicate Matches(items: seq<Item>, text: string) {
    exists i: nat :: i <= |text| && MatchesAt(items, text, i)
  }

  ghost predicate Selects(pattern: string, text: string) {
    ParsePattern(pattern).Some? && Matches(ParsePattern(pattern).value, text)
  }

  // ---------- what the filters mean ----------

  function Literals(s: string): (items: seq<Item>)
    ensures |items| == |s|
  {
    if s == "" then [] else [Literal(s[0])] + Literals(s[1..])
  }

  function Prefixed(items: seq<Item>, rest: Option<seq<Item>>): Option<seq<Item>> {
    if rest.Some? then Some(items + rest.value) else None
  }

  lemma PrefixedTwice(a: seq<Item>, b: seq<Item>, rest: Option<seq<Item>>)
    ensures Prefixed(a, Prefixed(b, rest)) == Prefixed(a + b, rest)
    ensures Prefixed([], rest) == rest
  {
    if rest.Some? {
      assert a + (b + rest.value) == (a + b) + rest.value && [] + rest.value == rest.value;
    }
  }

  lemma QuotedByteParses(c: char, rest: string)
    ensures ParsePattern(Quote(c) + rest) == Prefixed([Literal(c)], ParsePattern(rest))
  {
    var p := Quote(c) + rest;
    assert p[|Quote(c)|..] == rest;
  }

  // What is escaped: the operators, and the two brackets that close them.
  lemma QuotedExactly(c: char)
    ensures Quote(c) == if Operator(c) || c == ']' || c == '}' then ['\\', c] else [c]
  {
  }

  // Were an operator left as it is, the pattern would not mean itself.
  lemma OperatorsMustBeQuoted(c: char)
    ensures ParsePattern([c]) == Some([Literal(c)]) <==> !Operator(c)
  {
    assert [c][1..] == "" && ParsePattern("") == Some([]);
    assert [Literal(c)] + [] == [Literal(c)] && ([Start] + [])[0] == Start && ([End] + [])[0] == End;
  }

  // Quoting is undone by the parser, metacharacters and all.
  lemma {:induction false} QuotedParses(s: string, rest: string)
    ensures ParsePattern(QuoteMeta(s) + rest) == Prefixed(Literals(s), ParsePattern(rest))
  {
    var parsed := ParsePattern(rest);
    if s == "" {
      assert QuoteMeta(s) + rest == rest;
      PrefixedTwice([], [], parsed);
    } else {
      var tail := QuoteMeta(s[1..]) + rest;
      assert QuoteMeta(s) + rest == Quote(s[0]) + tail;
      QuotedParses(s[1..], rest);
      QuotedByteParses(s[0], tail);
      PrefixedTwice([Literal(s[0])], Literals(s[1..]), parsed);
    }
  }

  predicate OccursAt(value: string, text: string, i: nat) {
    i + |value| <= |text| && text[i..i + |value|] == value
  }

  lemma OccursFromHead(value: string, text: string, i: nat)
    requires value != ""
    ensures OccursAt(value, text, i) <==> i < |text| && text[i] == value[0] && OccursAt(value[1..], text, i + 1)
  {
    assert value == [value[0]] + value[1..];
    if i + |value| <= |text| {
      assert text[i..i + |value|] == [text[i]] + text[i + 1..i + |value|];
      assert text[i..i + |value|][0] == text[i] && text[i..i + |value|][1..] == text[i + 1..i + |value|];
    }
  }

  lemma {:induction false} LiteralsMatch(value: string, more: seq<Item>, text: string, i: nat)
    requires i <= |text|
    ensures MatchesAt(Literals(value) + more, text, i)
            <==> OccursAt(value, text, i) && MatchesAt(more, text, i + |value|)
  {
    var items := Literals(value) + more;
    if value == "" {
      assert items == more;
    } else {
      assert items[1..] == Literals(value[1..]) + more;
      OccursFromHead(value, text, i);
      if i < |text| {
        LiteralsMatch(value[1..], more, text, i + 1);
      }
    }
  }

  // StartsWith selects a text exactly when the value is a prefix of it.
  lemma StartsWithMeansPrefix(value: string, text: string)
    ensures Selects(StartsWith(value), text) <==> value <= text
  {
    QuotedParses(value, "");
    assert QuoteMeta(value) + "" == QuoteMeta(value);
    assert ("^" + QuoteMeta(value))[1..] == QuoteMeta(value);
    var items := [Start] + (Literals(value) + []);
    assert ParsePattern(StartsWith(value)) == Some(items);
    assert items[1..] == Literals(value) + [];
    LiteralsMatch(value, [], text, 0);
    assert MatchesAt(items, text, 0) <==> OccursAt(value, text, 0);
    assert forall i: nat :: i <= |text| && MatchesAt(items, text, i) ==> i == 0;
  }

  // Contains: when the value occurs anywhere in it.
  lemma ContainsMeansSubstring(value: string, text: string)
    ensures Selects(Contains(value), text) <==> exists i: nat :: OccursAt(value, text, i)
  {
    QuotedParses(value, "");
    assert QuoteMeta(value) + "" == QuoteMeta(value);
    var items := Literals(value) + [];
    forall i: nat | i <= |text|
      ensures MatchesAt(items, text, i) <==> OccursAt(value, text, i)
    {
      LiteralsMatch(value, [], text, i);
    }
    assert forall i: nat :: OccursAt(value, text, i) ==> i <= |text|;
  }

  predicate IsSuffix(value: string, text: string) {
    |value| <= |text| && text[|text| - |value|..] == value
  }

  lemma EndsWithMatches(value: string, text: string)
    ensures Selects(EndsWith(value), text)
            <==> exists i: nat :: OccursAt(value, text, i) && AtEnd(text, i + |value|)
  {
    assert "$"[1..] == "" && [End] + [] == [End] && [End][1..] == [];
    assert ParsePattern("$") == Some([End]);
    QuotedParses(value, "$");
    var items := Literals(value) + [End];
    assert ParsePattern(EndsWith(value)) == Some(items);
    forall i: nat | i <= |text|
      ensures MatchesAt(items, text, i) <==> OccursAt(value, text, i) && AtEnd(text, i + |value|)
    {
      LiteralsMatch(value, [End], text, i);
    }
    assert forall i: nat :: OccursAt(value, text, i) ==> i <= |text|;
  }

  predicate SuffixBeforeNewline(value: string, text: string) {
    text != "" && text[|text| - 1] == '\n' && IsSuffix(value, text[..|text| - 1])
  }

  lemma OccursAtVeryEnd(value: string, text: string, i: nat)
    requires i + |value| == |text|
    ensures OccursAt(value, text, i) <==> IsSuffix(value, text)
  {
    assert text[i..i + |value|] == text[i..];
  }

  lemma OccursBeforeLast(value: string, text: string, i: nat)
    requires i + |value| == |text| - 1
    ensures OccursAt(value, text, i) <==> IsSuffix(value, text[..|text| - 1])
  {
    assert text[..|text| - 1][i..] == text[i..i + |value|];
  }

  // EndsWith: when the value is a suffix of the text, or of the text without
  // its final newline.
  lemma EndsWithMeansSuffix(value: string, text: string)
    ensures Selects(EndsWith(value), text) <==> IsSuffix(value, text) || SuffixBeforeNewline(value, text)
  {
    EndsWithMatches(value, text);
    if i: nat :| OccursAt(value, text, i) && AtEnd(text, i + |value|) {
      if i + |value| == |text| {
        OccursAtVeryEnd(value, text, i);
      } else {
        OccursBeforeLast(value, text, i);
      }
    }
    if IsSuffix(value, text) {
      OccursAtVeryEnd(value, text, |text| - |value|);
    }
    if SuffixBeforeNewline(value, text) {
      OccursBeforeLast(value, text, |text| - 1 - |value|);
    }
  }

  // So it is not just the suffix: a final newline is looked past.
  lemma NewlineLookedPast(value: string)
    requires value == "" || value[|value| - 1] != '\n'
    ensures Selects(EndsWith(value), value + "\n")
    ensures value != "" ==> !IsSuffix(value, value + "\n")
  {
    var text := value + "\n";
    EndsWithMeansSuffix(value, text);
    assert text[..|value|] == value;
    if value != "" {
      assert text[1..][|value| - 1] == '\n';
    }
  }
}
