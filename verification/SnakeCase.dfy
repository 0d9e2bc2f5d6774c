/**
 Collection names derived from type names (mongo/collection.go:43-57).
 */
module SnakeCase {

  // The runtime's letter tables, where they matter: which runes are upper-case
  // and what they lower to.
  datatype Letters = Letters(isUpper: char -> bool, toLower: char -> char)

  function Rune(letters: Letters, c: char, first: bool): string {
    if letters.isUpper(c) then (if first then "" else "_") + [letters.toLower(c)] else [c]
  }

  function ToSnakeCase(letters: Letters, input: string): string {
    if input == "" then ""
    else ToSnakeCase(letters, input[..|input| - 1]) + Rune(letters, input[|input| - 1], |input| == 1)
  }

  method BuildSnakeCase(letters: Letters, input: string) returns (b: string)
    ensures b == ToSnakeCase(letters, input)
  {
    b := "";
    for i := 0 to |input|
      invariant b == ToSnakeCase(letters, input[..i])
    {
      var r := input[i];
      assert input[..i + 1][..i] == input[..i];
      if letters.isUpper(r) {
        if i > 0 {
          b := b + "_";
        }
        b := b + [letters.toLower(r)];
        continue;
      }
      b := b + [r];
    }
    assert input[..|input|] == input;
  }

  // ---------- which names share a collection ----------

  predicate IsUpperASCII(c: char) {
    'A' <= c <= 'Z'
  }

  predicate IsLowerASCII(c: char) {
    'a' <= c <= 'z'
  }

  function LowerASCII(c: char): char {
    if IsUpperASCII(c) then (c as int + 32) as char else c
  }

  function UpperASCII(c: char): char {
    if IsLowerASCII(c) then (c as int - 32) as char else c
  }

  // The tables agree with ASCII on ASCII; elsewhere they may be anything.
  ghost predicate ASCIITables(letters: Letters) {
    forall c: char :: c < '\U{80}' ==> letters.isUpper(c) == IsUpperASCII(c) && letters.toLower(c) == LowerASCII(c)
  }

  predicate ASCII(s: string) {
    forall i :: 0 <= i < |s| ==> s[i] < '\U{80}'
  }

  // Names of exported types: ASCII, with an upper-case letter first.
  predicate TypeName(s: string) {
    s != "" && IsUpperASCII(s[0]) && ASCII(s)
  }

  // An underscore before a lower-case letter, which an upper-case letter
  // becomes as well.
  predicate MarksLetter(s: string, i: nat) {
    i + 1 < |s| && s[i] == '_' && IsLowerASCII(s[i + 1])
  }

  ghost predicate Ambiguous(s: string) {
    exists i: nat :: MarksLetter(s, i)
  }

  // Every such underscore and letter read as the upper-case letter.
  function Collapse(s: string): string {
    if s == "" then ""
    else if MarksLetter(s, 0) then [UpperASCII(s[1])] + Collapse(s[2..])
    else [s[0]] + Collapse(s[1..])
  }

  // Back from a collection name: its first letter was upper-case.
  function Unsnake(s: string): string {
    if s == "" then "" else [UpperASCII(s[0])] + Collapse(s[1..])
  }

  // What the runes after the first one become.
  function SnakeRest(s: string): string {
    if s == "" then "" else (if IsUpperASCII(s[0]) then ['_', LowerASCII(s[0])] else [s[0]]) + SnakeRest(s[1..])
  }

  lemma {:induction false} SnakeRestAppend(s: string, c: char)
    ensures SnakeRest(s + [c]) == SnakeRest(s) + if IsUpperASCII(c) then ['_', LowerASCII(c)] else [c]
  {
    if s == "" {
      assert s + [c] == [c] && [c][1..] == "";
    } else {
      assert (s + [c])[1..] == s[1..] + [c];
      SnakeRestAppend(s[1..], c);
    }
  }

  lemma {:induction false} SnakeByParts(letters: Letters, name: string)
    requires ASCIITables(letters) && TypeName(name)
    ensures ToSnakeCase(letters, name) == [LowerASCII(name[0])] + SnakeRest(name[1..])
  {
    var before, c := name[..|name| - 1], name[|name| - 1];
    if before == "" {
      assert ToSnakeCase(letters, name) == [LowerASCII(c)];
    } else {
      SnakeByParts(letters, before);
      SnakeRestAppend(before[1..], c);
      assert name[1..] == before[1..] + [c];
    }
  }

  lemma HeadOfSnakeRest(s: string)
    ensures s == "" ==> SnakeRest(s) == ""
    ensures s != "" ==> SnakeRest(s) != "" && SnakeRest(s)[0] == if IsUpperASCII(s[0]) then '_' else s[0]
  {
  }

  lemma CollapsePair(c: char, s: string)
    requires IsLowerASCII(c)
    ensures Collapse(['_', c] + s) == [UpperASCII(c)] + Collapse(s)
  {
    assert (['_', c] + s)[2..] == s;
  }

  lemma CollapseOne(c: char, s: string)
    requires !MarksLetter([c] + s, 0)
    ensures Collapse([c] + s) == [c] + Collapse(s)
  {
    assert ([c] + s)[1..] == s;
  }

  lemma SnakeRestPair(c: char, s: string)
    requires IsLowerASCII(c)
    ensures SnakeRest(['_', c] + s) == ['_', c] + SnakeRest(s)
  {
    assert (['_', c] + s)[1..] == [c] + s && ([c] + s)[1..] == s;
  }

  // Snake case neither adds nor removes what Collapse sees.
  lemma {:induction false} CollapseOfSnakeRest(s: string)
    ensures Collapse(SnakeRest(s)) == Collapse(s)
    decreases |s|
  {
    if s == "" {
    } else if MarksLetter(s, 0) {
      assert s == ['_', s[1]] + s[2..];
      SnakeRestPair(s[1], s[2..]);
      CollapsePair(s[1], SnakeRest(s[2..]));
      CollapseOfSnakeRest(s[2..]);
    } else {
      CollapseOfSnakeRest(s[1..]);
      if IsUpperASCII(s[0]) {
        CollapsePair(LowerASCII(s[0]), SnakeRest(s[1..]));
      } else {
        HeadOfSnakeRest(s[1..]);
        CollapseOne(s[0], SnakeRest(s[1..]));
      }
    }
  }

  lemma {:induction false} SnakeRestOfCollapse(s: string)
    ensures SnakeRest(Collapse(s)) == SnakeRest(s)
    decreases |s|
  {
    if s == "" {
    } else if MarksLetter(s, 0) {
      assert s == ['_', s[1]] + s[2..];
      SnakeRestPair(s[1], s[2..]);
      SnakeRestOfCollapse(s[2..]);
      assert Collapse(s)[1..] == Collapse(s[2..]);
    } else {
      SnakeRestOfCollapse(s[1..]);
      assert Collapse(s)[1..] == Collapse(s[1..]);
    }
  }

  lemma SnakeRestOfLower(c: char, s: string)
    requires IsLowerASCII(c)
    ensures SnakeRest([c] + s) == [c] + SnakeRest(s)
  {
    assert ([c] + s)[1..] == s;
  }

  predicate Lowers(s: string) {
    forall i :: 0 <= i < |s| ==> IsLowerASCII(s[i])
  }

  lemma {:induction false} SnakeRestOfLowers(s: string, t: string)
    requires Lowers(s)
    ensures SnakeRest(s + t) == s + SnakeRest(t)
  {
    if s == "" {
      assert s + t == t;
    } else {
      assert s + t == [s[0]] + (s[1..] + t) && s == [s[0]] + s[1..];
      SnakeRestOfLower(s[0], s[1..] + t);
      SnakeRestOfLowers(s[1..], t);
    }
  }

  lemma SnakeRestOfUpper(c: char, s: string)
    requires IsUpperASCII(c) && Lowers(s)
    ensures SnakeRest([c] + s) == ['_', LowerASCII(c)] + s
  {
    assert ([c] + s)[1..] == s && s + "" == s;
    SnakeRestOfLowers(s, "");
  }

  // The words of a name: AnalysisJob gives analysis_job.
  lemma TwoWords(letters: Letters, c: char, first: string, d: char, second: string)
    requires ASCIITables(letters) && IsUpperASCII(c) && Lowers(first) && IsUpperASCII(d) && Lowers(second)
    ensures ToSnakeCase(letters, [c] + (first + ([d] + second)))
            == [LowerASCII(c)] + (first + (['_', LowerASCII(d)] + second))
  {
    var name := [c] + (first + ([d] + second));
    assert name[1..] == first + ([d] + second);
    SnakeRestOfUpper(d, second);
    SnakeRestOfLowers(first, [d] + second);
    SnakeByParts(letters, name);
  }

  // A collection name gives its type name back up to Collapse.
  lemma UnsnakeInverts(letters: Letters, name: string)
    requires ASCIITables(letters) && TypeName(name)
    ensures Unsnake(ToSnakeCase(letters, name)) == Collapse(name)
  {
    SnakeByParts(letters, name);
    var rest := SnakeRest(name[1..]);
    assert ([LowerASCII(name[0])] + rest)[1..] == rest;
    CollapseOfSnakeRest(name[1..]);
  }

  // Which two type names share a collection: exactly those that are equal once
  // every underscore before a lower-case letter is read as marking upper case.
  lemma SharedExactly(letters: Letters, x: string, y: string)
    requires ASCIITables(letters) && TypeName(x) && TypeName(y)
    ensures ToSnakeCase(letters, x) == ToSnakeCase(letters, y) <==> Collapse(x) == Collapse(y)
  {
    UnsnakeInverts(letters, x);
    UnsnakeInverts(letters, y);
    if Collapse(x) == Collapse(y) {
      assert Collapse(x)[1..] == Collapse(x[1..]) && Collapse(y)[1..] == Collapse(y[1..]);
      assert Collapse(x)[0] == x[0] && Collapse(y)[0] == y[0];
      SnakeRestOfCollapse(x[1..]);
      SnakeRestOfCollapse(y[1..]);
      SnakeByParts(letters, x);
      SnakeByParts(letters, y);
    }
  }

  lemma {:induction false} CollapseKeepsExactly(s: string)
    ensures |Collapse(s)| <= |s|
    ensures Collapse(s) == s <==> !Ambiguous(s)
    decreases |s|
  {
    if s == "" {
    } else if MarksLetter(s, 0) {
      CollapseKeepsExactly(s[2..]);
    } else {
      CollapseKeepsExactly(s[1..]);
      assert forall i: nat :: MarksLetter(s[1..], i) ==> MarksLetter(s, i + 1);
      assert forall i: nat :: MarksLetter(s, i) ==> i > 0 && MarksLetter(s[1..], i - 1);
      assert Collapse(s)[1..] == Collapse(s[1..]);
    }
  }

  lemma {:induction false} CollapseIsNormal(s: string)
    requires ASCII(s)
    ensures Collapse(Collapse(s)) == Collapse(s) && ASCII(Collapse(s))
    ensures s != "" ==> Collapse(s) != "" && (IsLowerASCII(Collapse(s)[0]) <==> IsLowerASCII(s[0]))
    decreases |s|
  {
    if s == "" {
    } else if MarksLetter(s, 0) {
      CollapseIsNormal(s[2..]);
      CollapseOne(UpperASCII(s[1]), Collapse(s[2..]));
    } else {
      CollapseIsNormal(s[1..]);
      CollapseOne(s[0], Collapse(s[1..]));
    }
  }

  // The unambiguous type names have a collection each, and every other type
  // name shares the collection of one of them.
  lemma CollidesExactly(letters: Letters, x: string)
    requires ASCIITables(letters) && TypeName(x)
    ensures Ambiguous(x) <==>
            exists y :: TypeName(y) && !Ambiguous(y) && y != x && ToSnakeCase(letters, y) == ToSnakeCase(letters, x)
  {
    CollapseKeepsExactly(x);
    if Ambiguous(x) {
      var y := Collapse(x);
      CollapseIsNormal(x);
      CollapseKeepsExactly(y);
      assert y[0] == x[0];
      SharedExactly(letters, x, y);
    } else {
      forall y | TypeName(y) && !Ambiguous(y) && ToSnakeCase(letters, y) == ToSnakeCase(letters, x)
        ensures y == x
      {
        SharedExactly(letters, x, y);
        CollapseKeepsExactly(y);
      }
    }
  }

  // An underscore before a lower-case letter reads back as an upper-case letter.
  lemma {:induction false} CollapseBringsUpper(s: string)
    requires Ambiguous(s)
    ensures exists i :: 0 <= i < |Collapse(s)| && IsUpperASCII(Collapse(s)[i]) && (MarksLetter(s, 0) || i > 0)
    decreases |s|
  {
    if MarksLetter(s, 0) {
      assert IsUpperASCII(Collapse(s)[0]);
    } else {
      var i: nat :| MarksLetter(s, i);
      assert MarksLetter(s[1..], i - 1);
      CollapseBringsUpper(s[1..]);
      var j :| 0 <= j < |Collapse(s[1..])| && IsUpperASCII(Collapse(s[1..])[j]);
      assert Collapse(s)[j + 1] == Collapse(s[1..])[j];
    }
  }

  // Where the head of a text is read, its rest is what counts.
  lemma AfterPair(prefix: string, s: string)
    requires MarksLetter(prefix, 0)
    ensures Collapse(prefix) == [UpperASCII(prefix[1])] + Collapse(prefix[2..])
    ensures Collapse(prefix + s) == [UpperASCII(prefix[1])] + Collapse(prefix[2..] + s)
  {
    assert prefix + s == ['_', prefix[1]] + (prefix[2..] + s);
    CollapsePair(prefix[1], prefix[2..] + s);
  }

  lemma AfterOne(prefix: string, s: string)
    requires prefix != "" && !MarksLetter(prefix, 0)
    requires |prefix| > 1 || prefix[0] != '_' || s == "" || !IsLowerASCII(s[0])
    ensures Collapse(prefix) == [prefix[0]] + Collapse(prefix[1..])
    ensures Collapse(prefix + s) == [prefix[0]] + Collapse(prefix[1..] + s)
  {
    var rest := prefix[1..] + s;
    assert prefix + s == [prefix[0]] + rest;
    assert rest != "" ==> rest[0] == if |prefix| == 1 then s[0] else prefix[1];
    CollapseOne(prefix[0], rest);
  }

  lemma Joined(a: string, b: string, c: string)
    ensures a + (b + c) == (a + b) + c
  {
  }

  lemma {:induction false} CollapseAfter(prefix: string, s: string)
    requires prefix == "" || prefix[|prefix| - 1] != '_' || s == "" || !IsLowerASCII(s[0])
    ensures Collapse(prefix + s) == Collapse(prefix) + Collapse(s)
    decreases |prefix|
  {
    if prefix == "" {
      assert prefix + s == s;
    } else if MarksLetter(prefix, 0) {
      AfterPair(prefix, s);
      CollapseAfter(prefix[2..], s);
      Joined([UpperASCII(prefix[1])], Collapse(prefix[2..]), Collapse(s));
    } else {
      AfterOne(prefix, s);
      CollapseAfter(prefix[1..], s);
      Joined([prefix[0]], Collapse(prefix[1..]), Collapse(s));
    }
  }

  // Marking a letter with an underscore or by upper case makes two names of
  // one collection, at any place and in any name.
  lemma UnderscoreCollides(letters: Letters, x: string, i: nat)
    requires ASCIITables(letters) && TypeName(x) && MarksLetter(x, i)
    ensures var y := x[..i] + [UpperASCII(x[i + 1])] + x[i + 2..];
            TypeName(y) && y != x && ToSnakeCase(letters, y) == ToSnakeCase(letters, x)
  {
    var before, c, after := x[..i], x[i + 1], x[i + 2..];
    var y := before + [UpperASCII(c)] + after;
    assert x == before + (['_', c] + after) && y == before + ([UpperASCII(c)] + after);
    CollapseAfter(before, ['_', c] + after);
    CollapseAfter(before, [UpperASCII(c)] + after);
    CollapsePair(c, after);
    CollapseOne(UpperASCII(c), after);
    SharedExactly(letters, x, y);
  }

  lemma UpperIsShared(letters: Letters, x: string, i: nat) returns (y: string)
    requires ASCIITables(letters) && TypeName(x) && 1 <= i < |x| && IsUpperASCII(x[i])
    ensures TypeName(y) && y != x && ToSnakeCase(letters, y) == ToSnakeCase(letters, x)
  {
    var before, after := x[..i], x[i + 1..];
    y := before + ['_', LowerASCII(x[i])] + after;
    assert y[i] == '_' && y[i + 1] == LowerASCII(x[i]) && y[0] == x[0];
    assert x == before + [UpperASCII(y[i + 1])] + after;
    assert y[..i] == before && y[i + 2..] == after;
    UnderscoreCollides(letters, y, i);
  }

  lemma NeitherIsShared(letters: Letters, x: string, y: string)
    requires ASCIITables(letters) && TypeName(x) && TypeName(y)
    requires ToSnakeCase(letters, y) == ToSnakeCase(letters, x)
    requires !Ambiguous(x) && forall i :: 1 <= i < |x| ==> !IsUpperASCII(x[i])
    ensures y == x
  {
    SharedExactly(letters, x, y);
    CollapseKeepsExactly(x);
    CollapseKeepsExactly(y);
    if Ambiguous(y) {
      CollapseBringsUpper(y);
    }
  }

  // Whatever the other name: a type name has its collection to itself exactly
  // when it has no such underscore and no upper-case letter but its first.
  lemma AloneExactly(letters: Letters, x: string)
    requires ASCIITables(letters) && TypeName(x)
    ensures (forall y :: TypeName(y) && ToSnakeCase(letters, y) == ToSnakeCase(letters, x) ==> y == x)
            <==> !Ambiguous(x) && forall i :: 1 <= i < |x| ==> !IsUpperASCII(x[i])
  {
    if Ambiguous(x) {
      CollidesExactly(letters, x);
    } else if i: nat :| 1 <= i < |x| && IsUpperASCII(x[i]) {
      var y := UpperIsShared(letters, x, i);
    } else {
      forall y | TypeName(y) && ToSnakeCase(letters, y) == ToSnakeCase(letters, x) ensures y == x {
        NeitherIsShared(letters, x, y);
      }
    }
  }

  lemma JobRunCollides(letters: Letters)
    requires ASCIITables(letters)
    ensures ToSnakeCase(letters, "JobRun") == ToSnakeCase(letters, "Job_run")
  {
    var x := "Job_run";
    assert x[..3] + [UpperASCII(x[4])] + x[5..] == "JobRun";
    UnderscoreCollides(letters, x, 3);
  }

  // So distinct unambiguous names never share a collection.
  lemma DistinctNamesDistinctCollections(letters: Letters, x: string, y: string)
    requires ASCIITables(letters) && TypeName(x) && TypeName(y) && !Ambiguous(x) && !Ambiguous(y)
    ensures ToSnakeCase(letters, x) == ToSnakeCase(letters, y) <==> x == y
  {
    SharedExactly(letters, x, y);
    CollapseKeepsExactly(x);
    CollapseKeepsExactly(y);
  }
}
