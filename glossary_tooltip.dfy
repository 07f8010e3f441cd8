/**
 * The glossary highlighter of src/components/GlossaryTooltip.tsx: the escaping
 * of the terms, their longest-first order, the whole-word case-insensitive
 * scan (the regular expression `\b(t1|t2|...)\b` with flags `gi`, written out
 * as a scanner), the split of the text into plain and matched parts, and the
 * tooltip's definition lookup.
 */
module GlossaryTooltip {
  import opened Basics
  import opened JsString

  /** One entry of the glossary object, in its insertion order. */
  datatype Entry = Entry(term: string, definition: string)

  const ReinforcementLearning: string := "Reinforcement Learning"
  const NeuralNetwork: string := "Neural Network"
  const EligibilityTraces: string := "Eligibility Traces"

  /** The built-in glossary. */
  const Glossary: seq<Entry> := [
    Entry(ReinforcementLearning,
          "A type of machine learning where an agent learns to make decisions by receiving rewards or penalties."),
    Entry(NeuralNetwork,
          "A computational model inspired by the human brain, used in machine learning to recognize patterns."),
    Entry(EligibilityTraces,
          "A mechanism in reinforcement learning that helps an agent assign credit to actions and states that happened in the recent past, making learning more efficient.")
  ]

  /** `Object.keys`: the terms in insertion order. */
  function Keys(entries: seq<Entry>): (keys: seq<string>)
    ensures |keys| == |entries|
    ensures forall i :: 0 <= i < |entries| ==> keys[i] == entries[i].term
  {
    if entries == [] then [] else [entries[0].term] + Keys(entries[1..])
  }

  // ---------------------------------------------------------------- escaping

  /** The characters `escapeRegExp` prefixes: `. * + ? ^ $ { } ( ) | [ ] \`. */
  predicate IsRegExpSpecial(c: char) {
    || c == '.' || c == '*' || c == '+' || c == '?' || c == '^' || c == '$'
    || c == '{' || c == '}' || c == '(' || c == ')' || c == '|' || c == '[' || c == ']' || c == '\\'
  }

  /**
   * Reading a pattern as literal text, as a regular expression does outside
   * classes and groups: a backslash followed by a special character stands
   * for that character, any other character that is not special stands for
   * itself, and a bare special character, a trailing backslash or a
   * backslash before an ordinary character is not a literal (None).
   */
  function ReadLiteral(p: string): Option<string> {
    if p == [] then Some([])
    else if p[0] == '\\' then
      if |p| >= 2 && IsRegExpSpecial(p[1]) then
        match ReadLiteral(p[2..]) case Some(rest) => Some([p[1]] + rest) case None => None
      else None
    else if IsRegExpSpecial(p[0]) then None
    else
      match ReadLiteral(p[1..]) case Some(rest) => Some([p[0]] + rest) case None => None
  }

  /** One character as `escapeRegExp` writes it: a literal pattern for exactly that character. */
  function EscapeChar(c: char): (r: string)
    ensures |r| >= 1 && r[|r| - 1] == c
    ensures ReadLiteral(r) == Some([c])
  {
    if IsRegExpSpecial(c) then
      assert ReadLiteral(['\\', c][2..]) == Some([]) && [c] + [] == [c];
      ['\\', c]
    else
      assert ReadLiteral([c][1..]) == Some([]) && [c] + [] == [c];
      [c]
  }

  /**
   * `escapeRegExp`: every special character gets a backslash in front of it,
   * so the result is a literal pattern for exactly the input, and a pattern
   * built from escaped terms matches the terms literally.
   */
  function EscapeRegExp(s: string): (r: string)
    ensures |r| >= |s|
    ensures ReadLiteral(r) == Some(s)
  {
    if s == [] then []
    else
      var e := EscapeRegExp(s[1..]);
      var p := EscapeChar(s[0]) + e;
      if IsRegExpSpecial(s[0]) then
        assert p[0] == '\\' && p[1] == s[0] && p[2..] == e;
        assert [s[0]] + s[1..] == s;
        p
      else
        assert p[0] == s[0] && p[1..] == e;
        assert [s[0]] + s[1..] == s;
        p
  }

  /** Escaping works character by character: it distributes over concatenation. */
  lemma {:induction false} EscapeConcat(a: string, b: string)
    ensures EscapeRegExp(a + b) == EscapeRegExp(a) + EscapeRegExp(b)
  {
    if a == [] {
      assert a + b == b;
    } else {
      assert (a + b)[0] == a[0];
      assert (a + b)[1..] == a[1..] + b;
      EscapeConcat(a[1..], b);
      calc {
        EscapeRegExp(a + b);
        EscapeChar(a[0]) + EscapeRegExp(a[1..] + b);
        EscapeChar(a[0]) + (EscapeRegExp(a[1..]) + EscapeRegExp(b));
        (EscapeChar(a[0]) + EscapeRegExp(a[1..])) + EscapeRegExp(b);
      }
    }
  }

  /**
   * The escaped text is the only literal pattern for the text: every special
   * character, and no other, is preceded by a backslash.
   */
  lemma {:induction false} LiteralIsEscaped(p: string, s: string)
    requires ReadLiteral(p) == Some(s)
    ensures p == EscapeRegExp(s)
    decreases |p|
  {
    if p != [] {
      if p[0] == '\\' {
        var rest := ReadLiteral(p[2..]).value;
        assert s == [p[1]] + rest;
        LiteralIsEscaped(p[2..], rest);
        assert s[1..] == rest;
        assert p == ['\\', p[1]] + p[2..];
      } else {
        var rest := ReadLiteral(p[1..]).value;
        assert s == [p[0]] + rest;
        LiteralIsEscaped(p[1..], rest);
        assert s[1..] == rest;
        assert p == [p[0]] + p[1..];
      }
    }
  }

  /** A string without special characters is its own escaped form. */
  lemma {:induction false} EscapePlain(s: string)
    requires forall i :: 0 <= i < |s| ==> !IsRegExpSpecial(s[i])
    ensures EscapeRegExp(s) == s
  {
    if s != [] {
      EscapePlain(s[1..]);
    }
  }

  /** The glossary's terms contain only letters and spaces, so escaping leaves them alone. */
  lemma GlossaryTermsNeedNoEscape()
    ensures forall i :: 0 <= i < |Glossary| ==> EscapeRegExp(Glossary[i].term) == Glossary[i].term
  {
    forall i | 0 <= i < |Glossary| ensures EscapeRegExp(Glossary[i].term) == Glossary[i].term {
      LettersAndSpacesNeedNoEscape(Glossary[i].term);
    }
  }

  /** A term of ASCII letters and spaces is its own escaped form. */
  lemma LettersAndSpacesNeedNoEscape(t: string)
    requires forall k :: 0 <= k < |t| ==> t[k] == ' ' || 'A' <= t[k] <= 'Z' || 'a' <= t[k] <= 'z'
    ensures EscapeRegExp(t) == t
  {
    EscapePlain(t);
  }

  // ----------------------------------------------------------------- sorting

  /** Non-increasing length: longest first. */
  predicate LongestFirst(terms: seq<string>) {
    forall i, j :: 0 <= i < j < |terms| ==> |terms[i]| >= |terms[j]|
  }

  /** Insert `x` into a list after every leading term at least as long as `x`. */
  function InsertByLength(x: string, sorted: seq<string>): seq<string> {
    if sorted == [] || |sorted[0]| < |x| then [x] + sorted
    else [sorted[0]] + InsertByLength(x, sorted[1..])
  }

  /**
   * `sort((a, b) => b.length - a.length)`: a stable sort by decreasing length
   * (each term is inserted after the earlier terms that are at least as long).
   */
  function SortLongestFirst(terms: seq<string>): seq<string> {
    if terms == [] then [] else InsertByLength(terms[|terms| - 1], SortLongestFirst(terms[..|terms| - 1]))
  }

  /** A term put in front keeps the order when it is at least as long as every other. */
  lemma LongestFirstCons(x: string, tail: seq<string>)
    requires LongestFirst(tail)
    requires forall k :: 0 <= k < |tail| ==> |tail[k]| <= |x|
    ensures LongestFirst([x] + tail)
  {
    var r := [x] + tail;
    forall i, j | 0 <= i < j < |r| ensures |r[i]| >= |r[j]| {
      assert r[j] == tail[j - 1];
      if i > 0 { assert r[i] == tail[i - 1]; }
    }
  }

  /** Inserting keeps a longest-first list longest first and bounded by its longest element. */
  lemma {:induction false} InsertKeepsOrder(x: string, sorted: seq<string>)
    requires LongestFirst(sorted)
    ensures LongestFirst(InsertByLength(x, sorted))
    ensures |InsertByLength(x, sorted)| == |sorted| + 1
    ensures forall k :: 0 <= k < |InsertByLength(x, sorted)| ==>
      |InsertByLength(x, sorted)[k]| <= Max(|x|, if sorted == [] then 0 else |sorted[0]|)
  {
    if sorted == [] || |sorted[0]| < |x| {
      LongestFirstCons(x, sorted);
    } else {
      var rest := InsertByLength(x, sorted[1..]);
      InsertKeepsOrder(x, sorted[1..]);
      assert forall k :: 0 <= k < |rest| ==> |rest[k]| <= |sorted[0]| by {
        if |sorted| > 1 { assert sorted[1..][0] == sorted[1]; }
      }
      LongestFirstCons(sorted[0], rest);
    }
  }

  /** Inserting adds exactly `x`. */
  lemma {:induction false} InsertAddsElement(x: string, sorted: seq<string>)
    ensures multiset(InsertByLength(x, sorted)) == multiset(sorted) + multiset{x}
  {
    if sorted != [] && |sorted[0]| >= |x| {
      InsertAddsElement(x, sorted[1..]);
      assert sorted == [sorted[0]] + sorted[1..];
    }
  }

  /** The sorted terms are longest first. */
  lemma {:induction false} SortIsLongestFirst(terms: seq<string>)
    ensures LongestFirst(SortLongestFirst(terms))
  {
    if terms != [] {
      SortIsLongestFirst(terms[..|terms| - 1]);
      InsertKeepsOrder(terms[|terms| - 1], SortLongestFirst(terms[..|terms| - 1]));
    }
  }

  /** The sorted terms are a permutation of the terms. */
  lemma {:induction false} SortIsPermutation(terms: seq<string>)
    ensures multiset(SortLongestFirst(terms)) == multiset(terms)
  {
    if terms != [] {
      var init := terms[..|terms| - 1];
      SortIsPermutation(init);
      InsertAddsElement(terms[|terms| - 1], SortLongestFirst(init));
      assert terms == init + [terms[|terms| - 1]];
    }
  }

  /** The terms of length `n`, in their order. */
  function OfLength(terms: seq<string>, n: nat): seq<string> {
    if terms == [] then []
    else (if |terms[0]| == n then [terms[0]] else []) + OfLength(terms[1..], n)
  }

  lemma {:induction false} OfLengthAppend(a: seq<string>, b: seq<string>, n: nat)
    ensures OfLength(a + b, n) == OfLength(a, n) + OfLength(b, n)
  {
    if a == [] {
      assert a + b == b;
    } else {
      assert (a + b)[0] == a[0] && (a + b)[1..] == a[1..] + b;
      OfLengthAppend(a[1..], b, n);
      var head := if |a[0]| == n then [a[0]] else [];
      assert OfLength(a + b, n) == head + OfLength(a[1..] + b, n);
      assert OfLength(a, n) == head + OfLength(a[1..], n);
    }
  }

  lemma {:induction false} NoneOfLength(terms: seq<string>, n: nat)
    requires forall k :: 0 <= k < |terms| ==> |terms[k]| != n
    ensures OfLength(terms, n) == []
  {
    if terms != [] {
      NoneOfLength(terms[1..], n);
    }
  }

  /** Inserting into a longest-first list puts `x` after every term of its own length. */
  lemma {:induction false} InsertOfLength(x: string, sorted: seq<string>, n: nat)
    requires LongestFirst(sorted)
    ensures OfLength(InsertByLength(x, sorted), n) == OfLength(sorted, n) + (if |x| == n then [x] else [])
  {
    if sorted == [] || |sorted[0]| < |x| {
      var r := [x] + sorted;
      assert r[0] == x && r[1..] == sorted;
      if |x| == n {
        NoneOfLength(sorted, n);
      }
    } else {
      var r := [sorted[0]] + InsertByLength(x, sorted[1..]);
      assert r[0] == sorted[0] && r[1..] == InsertByLength(x, sorted[1..]);
      InsertOfLength(x, sorted[1..], n);
    }
  }

  /**
   * The sort is stable: for every length, the terms of that length keep
   * their input order, as `Array.prototype.sort` guarantees.
   */
  lemma {:induction false} SortIsStable(terms: seq<string>, n: nat)
    ensures OfLength(SortLongestFirst(terms), n) == OfLength(terms, n)
  {
    if terms != [] {
      var init, x := terms[..|terms| - 1], terms[|terms| - 1];
      var last := if |x| == n then [x] else [];
      assert OfLength(SortLongestFirst(terms), n) == OfLength(SortLongestFirst(init), n) + last by {
        SortIsLongestFirst(init);
        InsertOfLength(x, SortLongestFirst(init), n);
      }
      assert OfLength(SortLongestFirst(init), n) == OfLength(init, n) by {
        SortIsStable(init, n);
      }
      assert OfLength(terms, n) == OfLength(init, n) + last by {
        assert terms == init + [x];
        OfLengthAppend(init, [x], n);
        assert OfLength([x], n) == last + OfLength([], n);
      }
    }
  }

  function Max(a: nat, b: nat): nat {
    if a >= b then a else b
  }

  lemma TermLengths()
    ensures |ReinforcementLearning| == 22 && |NeuralNetwork| == 14 && |EligibilityTraces| == 18
  {
  }

  /** The order the component builds its alternation in. */
  lemma GlossaryTermOrder()
    ensures SortLongestFirst(Keys(Glossary)) == [ReinforcementLearning, EligibilityTraces, NeuralNetwork]
  {
    var rl, nn, et := ReinforcementLearning, NeuralNetwork, EligibilityTraces;
    TermLengths();
    assert Keys(Glossary) == [rl, nn, et];
    assert [rl, nn, et][..2] == [rl, nn];
    assert [rl, nn][..1] == [rl];
    assert [rl][..0] == [];
    assert SortLongestFirst([rl]) == [rl];
    assert [rl][1..] == [];
    assert InsertByLength(nn, [rl]) == [rl, nn];
    assert SortLongestFirst([rl, nn]) == [rl, nn];
    assert InsertByLength(et, [nn]) == [et, nn];
    assert InsertByLength(et, [rl, nn]) == [rl, et, nn];
  }

  // ---------------------------------------------------------------- matching

  /** Every term has at least one character (an empty alternative would never advance the scan). */
  predicate NonEmptyTerms(terms: seq<string>) {
    forall i :: 0 <= i < |terms| ==> |terms[i]| > 0
  }

  /** `\b term \b` matches at `p`, ignoring ASCII case. */
  predicate TermMatchesAt(text: string, term: string, p: nat) {
    IsWordBoundary(text, p) && StartsWithIgnoreCase(text, p, term) && IsWordBoundary(text, p + |term|)
  }

  /** The alternation tries the terms in order from index `i`: the first that matches at `p`. */
  function FirstTermAt(text: string, terms: seq<string>, p: nat, i: nat): (r: Option<nat>)
    requires i <= |terms|
    ensures r.Some? ==> i <= r.value < |terms| && p + |terms[r.value]| <= |text|
    decreases |terms| - i
  {
    if i == |terms| then None
    else if TermMatchesAt(text, terms[i], p) then Some(i)
    else FirstTermAt(text, terms, p, i + 1)
  }

  /**
   * The alternative taken is a term that matches there, and no earlier term
   * in the alternation matches; no alternative is taken only when none matches.
   */
  lemma {:induction false} FirstTermAtIsFirstMatch(text: string, terms: seq<string>, p: nat, i: nat)
    requires i <= |terms|
    ensures var r := FirstTermAt(text, terms, p, i);
      && (r.Some? ==> TermMatchesAt(text, terms[r.value], p))
      && (r.Some? ==> forall j :: i <= j < r.value ==> !TermMatchesAt(text, terms[j], p))
      && (r.None? ==> forall j :: i <= j < |terms| ==> !TermMatchesAt(text, terms[j], p))
    decreases |terms| - i
  {
    if i < |terms| && !TermMatchesAt(text, terms[i], p) {
      FirstTermAtIsFirstMatch(text, terms, p, i + 1);
    }
  }

  /** The index of the alternative the regular expression takes at position `p`, if any. */
  function MatchAt(text: string, terms: seq<string>, p: nat): Option<nat> {
    FirstTermAt(text, terms, p, 0)
  }

  /** A match of the alternation: where it starts and which term it took. */
  datatype Match = Match(start: nat, term: nat)

  /** What `regex.exec` finds from `lastIndex = from`: the leftmost position with a match. */
  function FindFrom(text: string, terms: seq<string>, from: nat): (r: Option<Match>)
    requires from <= |text|
    ensures r.Some? ==> (from <= r.value.start && r.value.term < |terms|
                         && r.value.start + |terms[r.value.term]| <= |text|)
    decreases |text| - from
  {
    var m := MatchAt(text, terms, from);
    if m.Some? then Some(Match(from, m.value))
    else if from == |text| then None
    else FindFrom(text, terms, from + 1)
  }

  /** The position found is the leftmost from `from` on where some alternative matches. */
  lemma {:induction false} FindFromIsLeftmost(text: string, terms: seq<string>, from: nat)
    requires from <= |text|
    ensures var r := FindFrom(text, terms, from);
      && (r.Some? ==> MatchAt(text, terms, r.value.start) == Some(r.value.term))
      && (r.Some? ==> forall q :: from <= q < r.value.start ==> MatchAt(text, terms, q).None?)
      && (r.None? ==> forall q :: from <= q <= |text| ==> MatchAt(text, terms, q).None?)
    decreases |text| - from
  {
    if MatchAt(text, terms, from).None? && from < |text| {
      FindFromIsLeftmost(text, terms, from + 1);
    }
  }

  /** What the component renders for a string: plain slices and wrapped terms. */
  datatype Part = TextPart(text: string) | TermPart(word: string)

  function PartsText(parts: seq<Part>): string {
    if parts == [] then []
    else (if parts[0].TextPart? then parts[0].text else parts[0].word) + PartsText(parts[1..])
  }

  lemma PartsTextAppend(a: seq<Part>, b: seq<Part>)
    ensures PartsText(a + b) == PartsText(a) + PartsText(b)
  {
    if a == [] {
      assert a + b == b;
    } else {
      assert (a + b)[1..] == a[1..] + b;
      PartsTextAppend(a[1..], b);
    }
  }

  /** The matched words, in order. */
  function TermWords(parts: seq<Part>): seq<string> {
    if parts == [] then []
    else (if parts[0].TermPart? then [parts[0].word] else []) + TermWords(parts[1..])
  }

  lemma TermWordsAppend(a: seq<Part>, b: seq<Part>)
    ensures TermWords(a + b) == TermWords(a) + TermWords(b)
  {
    if a == [] {
      assert a + b == b;
    } else {
      assert (a + b)[1..] == a[1..] + b;
      TermWordsAppend(a[1..], b);
    }
  }

  /** The parts one match adds after `lastIndex`: the slice before it, if any, then the word. */
  function MatchStep(text: string, lastIndex: nat, start: nat, end: nat): seq<Part>
    requires lastIndex <= start <= end <= |text|
  {
    (if start > lastIndex then [TextPart(text[lastIndex..start])] else []) + [TermPart(text[start..end])]
  }

  /** The parts the loop pushes from `lastIndex = from` on. */
  function PartsFrom(text: string, terms: seq<string>, from: nat): seq<Part>
    requires from <= |text|
    requires NonEmptyTerms(terms)
    decreases |text| - from
  {
    var m := FindFrom(text, terms, from);
    if m.None? then
      if from < |text| then [TextPart(text[from..])] else []
    else
      var end := m.value.start + |terms[m.value.term]|;
      MatchStep(text, from, m.value.start, end) + PartsFrom(text, terms, end)
  }

  /** One match found from `from`: its parts, then the parts after it. */
  lemma PartsFromMatch(text: string, terms: seq<string>, from: nat, m: Match)
    requires from <= |text| && NonEmptyTerms(terms)
    requires FindFrom(text, terms, from) == Some(m)
    ensures PartsFrom(text, terms, from)
         == MatchStep(text, from, m.start, MatchEnd(terms, m)) + PartsFrom(text, terms, MatchEnd(terms, m))
  {
  }

  /** The loop's step: the parts pushed so far, then one match, then the parts after it. */
  lemma PartsAfterMatch(text: string, terms: seq<string>, from: nat, m: Match, parts: seq<Part>)
    requires from <= |text| && NonEmptyTerms(terms)
    requires FindFrom(text, terms, from) == Some(m)
    ensures parts + PartsFrom(text, terms, from)
         == parts + MatchStep(text, from, m.start, MatchEnd(terms, m)) + PartsFrom(text, terms, MatchEnd(terms, m))
  {
    PartsFromMatch(text, terms, from, m);
    AppendAssoc(parts, MatchStep(text, from, m.start, MatchEnd(terms, m)), PartsFrom(text, terms, MatchEnd(terms, m)));
  }

  /** No match from `from`: the rest of the text, if any, is one plain part. */
  lemma PartsFromNoMatch(text: string, terms: seq<string>, from: nat)
    requires from <= |text| && NonEmptyTerms(terms)
    requires FindFrom(text, terms, from).None?
    ensures PartsFrom(text, terms, from) == if from < |text| then [TextPart(text[from..])] else []
  {
  }

  /** The pushes for one match: the text since `lastIndex`, when there is any, then the matched word. */
  method PushMatch(text: string, parts: seq<Part>, lastIndex: nat, start: nat, end: nat) returns (pushed: seq<Part>)
    requires lastIndex <= start <= end <= |text|
    ensures pushed == parts + MatchStep(text, lastIndex, start, end)
  {
    pushed := parts;
    if start > lastIndex {
      pushed := pushed + [TextPart(text[lastIndex..start])];
    }
    pushed := pushed + [TermPart(text[start..end])];
  }

  /** The loop of the component, over the terms of its alternation. */
  method SplitByTerms(text: string, terms: seq<string>) returns (parts: seq<Part>)
    requires NonEmptyTerms(terms)
    ensures parts == PartsFrom(text, terms, 0)
  {
    parts := [];
    var lastIndex: nat := 0;
    var m := FindFrom(text, terms, 0);
    while m.Some?
      invariant lastIndex <= |text|
      invariant m == FindFrom(text, terms, lastIndex)
      invariant parts + PartsFrom(text, terms, lastIndex) == PartsFrom(text, terms, 0)
      decreases |text| - lastIndex
    {
      var end := MatchEnd(terms, m.value);
      PartsAfterMatch(text, terms, lastIndex, m.value, parts);
      parts := PushMatch(text, parts, lastIndex, m.value.start, end);
      lastIndex := end;
      m := FindFrom(text, terms, lastIndex);
    }
    ghost var done := parts;
    if lastIndex < |text| {
      parts := parts + [TextPart(text[lastIndex..])];
    }
    assert parts == done + PartsFrom(text, terms, lastIndex) by {
      PartsFromNoMatch(text, terms, lastIndex);
    }
  }

  lemma PartsTextOfStep(text: string, from: nat, start: nat, end: nat)
    requires from <= start <= end <= |text|
    ensures PartsText(MatchStep(text, from, start, end)) == text[from..end]
  {
    var before := if start > from then [TextPart(text[from..start])] else [];
    PartsTextAppend(before, [TermPart(text[start..end])]);
    assert PartsText([TermPart(text[start..end])]) == text[start..end] + PartsText([]);
    assert PartsText(before) == text[from..start] by {
      if start > from {
        assert PartsText(before) == text[from..start] + PartsText([]);
      }
    }
    assert text[from..end] == text[from..start] + text[start..end];
  }

  lemma {:induction false} PartsFromReconstruct(text: string, terms: seq<string>, from: nat)
    requires from <= |text| && NonEmptyTerms(terms)
    ensures PartsText(PartsFrom(text, terms, from)) == text[from..]
    decreases |text| - from
  {
    var m := FindFrom(text, terms, from);
    if m.None? {
      var tail: seq<Part> := if from < |text| then [TextPart(text[from..])] else [];
      assert PartsFrom(text, terms, from) == tail by {
        PartsFromNoMatch(text, terms, from);
      }
      if from < |text| {
        assert PartsText(tail) == text[from..] + PartsText([]);
      }
    } else {
      PartsFromReconstruct(text, terms, MatchEnd(terms, m.value));
      ReconstructAfterMatch(text, terms, from, m.value);
    }
  }

  /** One match step: the parts from `from` spell the text when those after the match do. */
  lemma ReconstructAfterMatch(text: string, terms: seq<string>, from: nat, m: Match)
    requires from <= |text| && NonEmptyTerms(terms)
    requires FindFrom(text, terms, from) == Some(m)
    requires PartsText(PartsFrom(text, terms, MatchEnd(terms, m))) == text[MatchEnd(terms, m)..]
    ensures PartsText(PartsFrom(text, terms, from)) == text[from..]
  {
    var end := MatchEnd(terms, m);
    var step, rest := MatchStep(text, from, m.start, end), PartsFrom(text, terms, end);
    assert PartsText(PartsFrom(text, terms, from)) == PartsText(step) + PartsText(rest) by {
      PartsFromMatch(text, terms, from, m);
      PartsTextAppend(step, rest);
    }
    assert PartsText(step) == text[from..end] by {
      PartsTextOfStep(text, from, m.start, end);
    }
    assert text[from..] == text[from..end] + text[end..];
  }

  /** The plain slices and the matched words, concatenated in order, are the text. */
  lemma GlossaryPartsReconstruct(text: string, terms: seq<string>)
    requires NonEmptyTerms(terms)
    ensures PartsText(PartsFrom(text, terms, 0)) == text
  {
    PartsFromReconstruct(text, terms, 0);
  }

  /** Every plain part is non-empty. */
  predicate NoEmptyText(parts: seq<Part>) {
    forall i :: 0 <= i < |parts| ==> parts[i].TextPart? ==> parts[i].text != []
  }

  /**
   * A plain slice is pushed only when the match starts after `lastIndex`, and
   * the trailing slice only when text is left: no plain part is empty.
   */
  lemma {:induction false} PartsFromNoEmptyText(text: string, terms: seq<string>, from: nat)
    requires from <= |text| && NonEmptyTerms(terms)
    ensures NoEmptyText(PartsFrom(text, terms, from))
    decreases |text| - from
  {
    var m := FindFrom(text, terms, from);
    if m.None? {
      PartsFromNoMatch(text, terms, from);
    } else {
      var end := MatchEnd(terms, m.value);
      PartsFromNoEmptyText(text, terms, end);
      PartsFromMatch(text, terms, from, m.value);
      var step := MatchStep(text, from, m.value.start, end);
      var rest := PartsFrom(text, terms, end);
      var all: seq<Part> := step + rest;
      assert NoEmptyText(step);
      forall i | 0 <= i < |all| && all[i].TextPart? ensures all[i].text != [] {
        if i >= |step| { assert all[i] == rest[i - |step|]; } else { assert all[i] == step[i]; }
      }
    }
  }

  /** The matches the scan makes from `from` on: start position and alternative. */
  ghost function MatchesFrom(text: string, terms: seq<string>, from: nat): seq<Match>
    requires from <= |text|
    requires NonEmptyTerms(terms)
    decreases |text| - from
  {
    var m := FindFrom(text, terms, from);
    if m.None? then [] else [m.value] + MatchesFrom(text, terms, m.value.start + |terms[m.value.term]|)
  }

  /** The end of a match. */
  function MatchEnd(terms: seq<string>, m: Match): (end: nat)
    requires m.term < |terms|
    ensures m.start <= end
  {
    m.start + |terms[m.term]|
  }

  /** `m` is a match the alternation makes at or after `from`. */
  predicate IsMatchFrom(text: string, terms: seq<string>, from: nat, m: Match) {
    from <= m.start && m.term < |terms| && MatchAt(text, terms, m.start) == Some(m.term)
    && m.start + |terms[m.term]| <= |text|
  }

  /** `a` is a non-empty match that ends at or before `b` starts. */
  predicate Precedes(terms: seq<string>, a: Match, b: Match) {
    a.term < |terms| && a.start < a.start + |terms[a.term]| <= b.start
  }

  /**
   * The scan's matches are real matches, lie after `from`, are not empty and
   * do not overlap, in increasing order.
   */
  lemma {:induction false} MatchesAreOrdered(text: string, terms: seq<string>, from: nat)
    requires from <= |text| && NonEmptyTerms(terms)
    ensures forall i :: 0 <= i < |MatchesFrom(text, terms, from)| ==>
      IsMatchFrom(text, terms, from, MatchesFrom(text, terms, from)[i])
    ensures forall i :: 0 <= i < |MatchesFrom(text, terms, from)| - 1 ==>
      Precedes(terms, MatchesFrom(text, terms, from)[i], MatchesFrom(text, terms, from)[i + 1])
    decreases |text| - from
  {
    FindFromIsLeftmost(text, terms, from);
    var m := FindFrom(text, terms, from);
    if m.Some? {
      var end := MatchEnd(terms, m.value);
      var rest := MatchesFrom(text, terms, end);
      var ms := [m.value] + rest;
      assert MatchesFrom(text, terms, from) == ms;
      MatchesAreOrdered(text, terms, end);
      assert IsMatchFrom(text, terms, from, ms[0]);
      forall i | 0 < i < |ms| ensures IsMatchFrom(text, terms, from, ms[i]) {
        assert ms[i] == rest[i - 1];
        assert IsMatchFrom(text, terms, end, rest[i - 1]);
      }
      forall i | 0 <= i < |ms| - 1 ensures Precedes(terms, ms[i], ms[i + 1]) {
        if i == 0 {
          assert ms[1] == rest[0];
          assert IsMatchFrom(text, terms, end, rest[0]);
        } else {
          assert ms[i] == rest[i - 1] && ms[i + 1] == rest[i];
          assert Precedes(terms, rest[i - 1], rest[i]);
        }
      }
    }
  }

  /** Position `q` lies inside match `m`. */
  predicate Covers(terms: seq<string>, m: Match, q: nat) {
    m.term < |terms| && m.start <= q < m.start + |terms[m.term]|
  }

  /**
   * Nothing is skipped: every position where some term matches is the start
   * of a scan match or lies inside one.
   */
  lemma {:induction false} MatchesCoverEveryMatch(text: string, terms: seq<string>, from: nat)
    requires from <= |text| && NonEmptyTerms(terms)
    ensures forall q :: from <= q <= |text| && MatchAt(text, terms, q).Some? ==>
      exists i :: 0 <= i < |MatchesFrom(text, terms, from)| && Covers(terms, MatchesFrom(text, terms, from)[i], q)
    decreases |text| - from
  {
    FindFromIsLeftmost(text, terms, from);
    var m := FindFrom(text, terms, from);
    if m.Some? {
      var end := MatchEnd(terms, m.value);
      var rest := MatchesFrom(text, terms, end);
      var ms := [m.value] + rest;
      assert MatchesFrom(text, terms, from) == ms;
      MatchesCoverEveryMatch(text, terms, end);
      forall q | from <= q <= |text| && MatchAt(text, terms, q).Some?
        ensures exists i :: 0 <= i < |ms| && Covers(terms, ms[i], q)
      {
        if q < end {
          assert Covers(terms, ms[0], q);
        } else {
          var i :| 0 <= i < |rest| && Covers(terms, rest[i], q);
          assert ms[i + 1] == rest[i];
        }
      }
    }
  }

  lemma TermWordsOfStep(text: string, from: nat, start: nat, end: nat)
    requires from <= start <= end <= |text|
    ensures TermWords(MatchStep(text, from, start, end)) == [text[start..end]]
  {
    var before := if start > from then [TextPart(text[from..start])] else [];
    TermWordsAppend(before, [TermPart(text[start..end])]);
    assert TermWords([TermPart(text[start..end])]) == [text[start..end]] + TermWords([]);
    assert TermWords(before) == [];
  }

  /** Match `m` names a term and lies inside the text. */
  predicate InText(text: string, terms: seq<string>, m: Match) {
    m.term < |terms| && m.start + |terms[m.term]| <= |text|
  }

  /** The word at each match, as the text spells it. */
  predicate WordsAtMatches(text: string, terms: seq<string>, words: seq<string>, ms: seq<Match>) {
    |words| == |ms|
    && forall i :: 0 <= i < |ms| ==>
      InText(text, terms, ms[i]) && words[i] == text[ms[i].start..ms[i].start + |terms[ms[i].term]|]
  }

  lemma WordsAtMatchesCons(text: string, terms: seq<string>, w: string, m: Match, words: seq<string>, ms: seq<Match>)
    requires InText(text, terms, m) && w == text[m.start..m.start + |terms[m.term]|]
    requires WordsAtMatches(text, terms, words, ms)
    ensures WordsAtMatches(text, terms, [w] + words, [m] + ms)
  {
    var ws, all := [w] + words, [m] + ms;
    forall i | 0 < i < |all|
      ensures InText(text, terms, all[i]) && ws[i] == text[all[i].start..all[i].start + |terms[all[i].term]|]
    {
      assert all[i] == ms[i - 1] && ws[i] == words[i - 1];
    }
  }

  /** The wrapped words are exactly the text at the scan's matches, one per match, in order. */
  lemma {:induction false} TermPartsAreMatches(text: string, terms: seq<string>, from: nat)
    requires from <= |text| && NonEmptyTerms(terms)
    ensures WordsAtMatches(text, terms, TermWords(PartsFrom(text, terms, from)), MatchesFrom(text, terms, from))
    decreases |text| - from
  {
    var m := FindFrom(text, terms, from);
    if m.None? {
      PartsFromNoMatch(text, terms, from);
      if from < |text| {
        assert TermWords([TextPart(text[from..])]) == [] + TermWords([]);
      }
    } else {
      TermPartsAreMatches(text, terms, MatchEnd(terms, m.value));
      TermPartsStep(text, terms, from, m.value);
    }
  }

  lemma TermPartsStep(text: string, terms: seq<string>, from: nat, m: Match)
    requires from <= |text| && NonEmptyTerms(terms)
    requires FindFrom(text, terms, from) == Some(m)
    requires WordsAtMatches(text, terms, TermWords(PartsFrom(text, terms, MatchEnd(terms, m))),
                            MatchesFrom(text, terms, MatchEnd(terms, m)))
    ensures WordsAtMatches(text, terms, TermWords(PartsFrom(text, terms, from)), MatchesFrom(text, terms, from))
  {
    var end := MatchEnd(terms, m);
    var rest := PartsFrom(text, terms, end);
    var step := MatchStep(text, from, m.start, end);
    var w := text[m.start..end];
    assert TermWords(PartsFrom(text, terms, from)) == [w] + TermWords(rest) by {
      PartsFromMatch(text, terms, from, m);
      TermWordsAppend(step, rest);
      TermWordsOfStep(text, from, m.start, end);
    }
    assert MatchesFrom(text, terms, from) == [m] + MatchesFrom(text, terms, end) by {
      MatchesFromMatch(text, terms, from, m);
    }
    WordsAtMatchesCons(text, terms, w, m, TermWords(rest), MatchesFrom(text, terms, end));
  }

  /** Lower-casing the whole text: the case-insensitive view of it. */
  function LowerAll(s: string): (r: string)
    ensures |r| == |s| && forall i :: 0 <= i < |s| ==> r[i] == ToLower(s[i])
  {
    if s == [] then [] else [ToLower(s[0])] + LowerAll(s[1..])
  }

  lemma TermMatchIgnoresCase(text: string, term: string, p: nat)
    ensures TermMatchesAt(LowerAll(text), term, p) == TermMatchesAt(text, term, p)
  {
    var low := LowerAll(text);
    forall i | 0 <= i < |text| ensures IsWordChar(low[i]) == IsWordChar(text[i]) {
      ToLowerKeepsWordChar(text[i]);
    }
    assert IsWordBoundary(low, p) == IsWordBoundary(text, p);
    assert IsWordBoundary(low, p + |term|) == IsWordBoundary(text, p + |term|);
  }

  /** The case of the text does not change which alternative matches where. */
  lemma {:induction false} MatchIgnoresCase(text: string, terms: seq<string>, p: nat, i: nat)
    requires i <= |terms|
    ensures FirstTermAt(LowerAll(text), terms, p, i) == FirstTermAt(text, terms, p, i)
    decreases |terms| - i
  {
    if i < |terms| {
      TermMatchIgnoresCase(text, terms[i], p);
      MatchIgnoresCase(text, terms, p, i + 1);
    }
  }

  /** The case of the text does not change where the scan finds its next match. */
  lemma {:induction false} FindFromIgnoresCase(text: string, terms: seq<string>, from: nat)
    requires from <= |text|
    ensures FindFrom(LowerAll(text), terms, from) == FindFrom(text, terms, from)
    decreases |text| - from
  {
    MatchIgnoresCase(text, terms, from, 0);
    if MatchAt(text, terms, from).None? && from < |text| {
      FindFromIgnoresCase(text, terms, from + 1);
    }
  }

  /** One match found from `from`: it, then the matches after it. */
  lemma MatchesFromMatch(text: string, terms: seq<string>, from: nat, m: Match)
    requires from <= |text| && NonEmptyTerms(terms)
    requires FindFrom(text, terms, from) == Some(m)
    ensures MatchesFrom(text, terms, from) == [m] + MatchesFrom(text, terms, MatchEnd(terms, m))
  {
  }

  /**
   * Matching is case-insensitive: the text and its lower-cased form are
   * matched at exactly the same positions, with the same terms.
   */
  lemma {:induction false} MatchesIgnoreCase(text: string, terms: seq<string>, from: nat)
    requires from <= |text| && NonEmptyTerms(terms)
    ensures MatchesFrom(LowerAll(text), terms, from) == MatchesFrom(text, terms, from)
    decreases |text| - from
  {
    var low := LowerAll(text);
    FindFromIgnoresCase(text, terms, from);
    var m := FindFrom(text, terms, from);
    if m.Some? {
      var end := MatchEnd(terms, m.value);
      MatchesIgnoreCase(text, terms, end);
      MatchesFromMatch(text, terms, from, m.value);
      MatchesFromMatch(low, terms, from, m.value);
    } else {
      assert FindFrom(low, terms, from).None?;
    }
  }

  /**
   * With the terms longest first, the alternative taken at a position is the
   * longest term that matches there as a whole word: a longer term is always
   * tried before a shorter one.
   */
  lemma LongestTermWins(text: string, terms: seq<string>, p: nat)
    requires LongestFirst(terms)
    requires MatchAt(text, terms, p).Some?
    ensures forall j :: 0 <= j < |terms| && TermMatchesAt(text, terms[j], p) ==>
      |terms[j]| <= |terms[MatchAt(text, terms, p).value]|
  {
    FirstTermAtIsFirstMatch(text, terms, p, 0);
  }

  /** The terms of the built-in alternation. */
  function GlossaryTerms(): (terms: seq<string>)
    ensures terms == [ReinforcementLearning, EligibilityTraces, NeuralNetwork]
    ensures NonEmptyTerms(terms)
  {
    GlossaryTermOrder();
    TermLengths();
    SortLongestFirst(Keys(Glossary))
  }


  /**
   * What the component renders: the split text when `text` is a string,
   * otherwise its children when they are truthy, otherwise nothing.
   */
  datatype Content<N> = Parts(parts: seq<Part>) | Children(node: N) | Nothing

  method RenderContent<N>(text: Option<string>, children: Option<N>) returns (content: Content<N>)
    ensures text.Some? ==> content == Parts(PartsFrom(text.value, GlossaryTerms(), 0))
    ensures text.None? && children.Some? ==> content == Children(children.value)
    ensures text.None? && children.None? ==> content == Nothing
  {
    if text.Some? {
      var parts := SplitByTerms(text.value, GlossaryTerms());
      content := Parts(parts);
    } else if children.Some? {
      content := Children(children.value);
    } else {
      content := Nothing;
    }
  }

  // ----------------------------------------------------------------- example

  /** No alternative matches where there is no word boundary. */
  lemma NoMatchWithoutBoundary(text: string, terms: seq<string>, q: nat)
    requires !IsWordBoundary(text, q)
    ensures MatchAt(text, terms, q).None?
  {
    FirstTermAtIsFirstMatch(text, terms, q, 0);
  }

  /** No alternative matches at a character that no term starts with. */
  lemma NoMatchOnFirstChar(text: string, terms: seq<string>, q: nat)
    requires q < |text|
    requires forall j :: 0 <= j < |terms| ==> terms[j] != [] && ToLower(terms[j][0]) != ToLower(text[q])
    ensures MatchAt(text, terms, q).None?
  {
    FirstTermAtIsFirstMatch(text, terms, q, 0);
  }

  /** No alternative matches at the very end of the text. */
  lemma NoMatchAtEnd(text: string, terms: seq<string>)
    requires NonEmptyTerms(terms)
    ensures MatchAt(text, terms, |text|).None?
  {
    FirstTermAtIsFirstMatch(text, terms, |text|, 0);
  }

  /** The scan passes over positions where nothing matches. */
  lemma {:induction false} FindFromSkips(text: string, terms: seq<string>, a: nat, b: nat)
    requires a <= b <= |text|
    requires forall q :: a <= q < b ==> MatchAt(text, terms, q).None?
    ensures FindFrom(text, terms, a) == FindFrom(text, terms, b)
    decreases b - a
  {
    if a < b {
      FindFromSkips(text, terms, a + 1, b);
    }
  }

  const ModelsUse: string := " models use "

  /** A sentence naming two of the glossary's terms. */
  const ExampleSentence: string := NeuralNetwork + ModelsUse + ReinforcementLearning

  lemma ExampleFirstMatch()
    ensures FindFrom(ExampleSentence, GlossaryTerms(), 0) == Some(Match(0, 2))
  {
    var text, terms := ExampleSentence, GlossaryTerms();
    TermLengths();
    assert forall k :: 0 <= k < 14 ==> text[k] == NeuralNetwork[k];
    assert TermMatchesAt(text, terms[2], 0);
    assert text[0] == 'N' && terms[0][0] == 'R' && terms[1][0] == 'E';
    assert ToLower(text[0]) != ToLower(terms[0][0]) && ToLower(text[0]) != ToLower(terms[1][0]);
    assert !TermMatchesAt(text, terms[0], 0) && !TermMatchesAt(text, terms[1], 0);
  }

  lemma ExampleGap(q: nat)
    requires 14 <= q < 26
    ensures MatchAt(ExampleSentence, GlossaryTerms(), q).None?
  {
    var text, terms := ExampleSentence, GlossaryTerms();
    TermLengths();
    assert text[q] == ModelsUse[q - 14];
    assert text[q - 1] == (NeuralNetwork + ModelsUse)[q - 1];
    if IsWordBoundary(text, q) {
      NoMatchOnFirstChar(text, terms, q);
    } else {
      NoMatchWithoutBoundary(text, terms, q);
    }
  }

  lemma ExampleSecondMatch()
    ensures FindFrom(ExampleSentence, GlossaryTerms(), 14) == Some(Match(26, 0))
  {
    var text, terms := ExampleSentence, GlossaryTerms();
    TermLengths();
    forall q | 14 <= q < 26 ensures MatchAt(text, terms, q).None? {
      ExampleGap(q);
    }
    FindFromSkips(text, terms, 14, 26);
    assert forall k :: 0 <= k < 22 ==> text[26 + k] == ReinforcementLearning[k];
    assert text[25] == ' ';
    assert TermMatchesAt(text, terms[0], 26);
  }

  /**
   * "Neural Network models use Reinforcement Learning": both terms are wrapped,
   * once each, and the longer term is found whole.
   */
  lemma ExampleSentenceParts()
    ensures PartsFrom(ExampleSentence, GlossaryTerms(), 0)
         == [TermPart(NeuralNetwork), TextPart(ModelsUse), TermPart(ReinforcementLearning)]
  {
    var text, terms := ExampleSentence, GlossaryTerms();
    TermLengths();
    assert |text| == 48;
    assert text[..14] == NeuralNetwork && text[14..26] == ModelsUse && text[26..48] == ReinforcementLearning;
    ExampleFirstMatch();
    ExampleSecondMatch();
    NoMatchAtEnd(text, terms);
    assert FindFrom(text, terms, 48) == None;
    PartsFromMatch(text, terms, 0, Match(0, 2));
    PartsFromMatch(text, terms, 14, Match(26, 0));
    PartsFromNoMatch(text, terms, 48);
  }

  // ----------------------------------------------------------------- tooltip

  /** `GLOSSARY[key]`: the definition stored under exactly this key. */
  function Lookup(entries: seq<Entry>, key: string): (r: Option<string>)
    ensures r.Some? <==> exists i :: 0 <= i < |entries| && entries[i].term == key
    ensures r.Some? ==> exists i :: 0 <= i < |entries| && entries[i].term == key && entries[i].definition == r.value
  {
    if entries == [] then None
    else if entries[0].term == key then Some(entries[0].definition)
    else
      assert forall i :: 0 < i < |entries| ==> entries[i] == entries[1..][i - 1];
      Lookup(entries[1..], key)
  }

  /** Equal up to ASCII case. */
  predicate EqualIgnoreCase(a: string, b: string) {
    |a| == |b| && StartsWithIgnoreCase(a, 0, b)
  }

  /** The definition of the entry whose term equals `key` up to ASCII case. */
  function LookupIgnoreCase(entries: seq<Entry>, key: string): (r: Option<string>)
    ensures r.Some? <==> exists i :: 0 <= i < |entries| && EqualIgnoreCase(key, entries[i].term)
    ensures r.Some? ==>
      exists i :: 0 <= i < |entries| && EqualIgnoreCase(key, entries[i].term) && entries[i].definition == r.value
  {
    if entries == [] then None
    else if EqualIgnoreCase(key, entries[0].term) then Some(entries[0].definition)
    else
      assert forall i :: 0 < i < |entries| ==> entries[i] == entries[1..][i - 1];
      LookupIgnoreCase(entries[1..], key)
  }

  /** Every key the exact lookup finds, the case-insensitive one finds too. */
  lemma LookupIgnoreCaseExtendsLookup(entries: seq<Entry>, key: string)
    requires Lookup(entries, key).Some?
    ensures LookupIgnoreCase(entries, key).Some?
  {
    var i :| 0 <= i < |entries| && entries[i].term == key;
    assert EqualIgnoreCase(key, entries[i].term);
  }

  /**
   * As written, the panel looks the matched text up as an exact key: the
   * lower-case sentence "neural network" is matched and wrapped, but the
   * panel finds no definition for it.
   */
  lemma LowercaseMatchHasNoDefinition()
    ensures TermWords(PartsFrom("neural network", GlossaryTerms(), 0)) == ["neural network"]
    ensures Lookup(Glossary, "neural network") == None
  {
    var text, terms := "neural network", GlossaryTerms();
    TermLengths();
    LowercaseFirstMatch(text);
    NoMatchAtEnd(text, terms);
    assert FindFrom(text, terms, 14) == None;
    PartsFromMatch(text, terms, 0, Match(0, 2));
    PartsFromNoMatch(text, terms, 14);
    TermWordsOfStep(text, 0, 0, 14);
    TermWordsAppend(MatchStep(text, 0, 0, 14), []);
    assert text[0..14] == text;
    assert NeuralNetwork != text by { assert NeuralNetwork[0] != text[0]; }
    assert ReinforcementLearning != text && EligibilityTraces != text;
  }

  lemma LowercaseFirstMatch(text: string)
    requires text == "neural network"
    ensures FindFrom(text, GlossaryTerms(), 0) == Some(Match(0, 2))
  {
    var terms := GlossaryTerms();
    TermLengths();
    assert TermMatchesAt(text, terms[2], 0);
    assert !TermMatchesAt(text, terms[0], 0) && !TermMatchesAt(text, terms[1], 0);
  }

  /** A word the scan wraps at match `m` equals the matched term up to case. */
  lemma MatchedWordEqualsTerm(text: string, terms: seq<string>, m: Match)
    requires IsMatchFrom(text, terms, 0, m)
    ensures EqualIgnoreCase(text[m.start..m.start + |terms[m.term]|], terms[m.term])
  {
    FirstTermAtIsFirstMatch(text, terms, m.start, 0);
    assert TermMatchesAt(text, terms[m.term], m.start);
  }

  /** Every term of the alternation is a key of the glossary. */
  lemma TermsAreKeys(t: string)
    requires t in GlossaryTerms()
    ensures exists e :: 0 <= e < |Glossary| && Glossary[e].term == t
  {
    assert Glossary[0].term == ReinforcementLearning;
    assert Glossary[1].term == NeuralNetwork;
    assert Glossary[2].term == EligibilityTraces;
  }

  /**
   * With the lookup done up to case, every word the scan wraps has a
   * definition: each matched word equals one of the glossary's terms up to case.
   */
  lemma EveryMatchHasDefinition(text: string)
    ensures forall w :: w in TermWords(PartsFrom(text, GlossaryTerms(), 0)) ==> LookupIgnoreCase(Glossary, w).Some?
  {
    var terms := GlossaryTerms();
    forall j | 0 <= j < |terms| ensures IsKey(terms[j]) {
      TermsAreKeys(terms[j]);
    }
    MatchesOfKeysHaveDefinitions(text, terms);
  }

  /** `t` is the term of one of the glossary's entries. */
  predicate IsKey(t: string) {
    exists e :: 0 <= e < |Glossary| && Glossary[e].term == t
  }

  /** For any alternation made of glossary keys, every wrapped word has a definition up to case. */
  lemma MatchesOfKeysHaveDefinitions(text: string, terms: seq<string>)
    requires NonEmptyTerms(terms)
    requires forall j :: 0 <= j < |terms| ==> IsKey(terms[j])
    ensures forall w :: w in TermWords(PartsFrom(text, terms, 0)) ==> LookupIgnoreCase(Glossary, w).Some?
  {
    var words := TermWords(PartsFrom(text, terms, 0));
    var ms := MatchesFrom(text, terms, 0);
    assert WordsAtMatches(text, terms, words, ms) by {
      TermPartsAreMatches(text, terms, 0);
    }
    assert forall i :: 0 <= i < |ms| ==> SpellsTerm(text, terms, ms[i]) by {
      MatchesSpellTerms(text, terms, 0);
    }
    forall i | 0 <= i < |words| ensures LookupIgnoreCase(Glossary, words[i]).Some? {
      assert SpellsTerm(text, terms, ms[i]) && words[i] == text[ms[i].start..ms[i].start + |terms[ms[i].term]|];
      MatchOfKeyHasDefinition(text, terms, ms[i], words[i]);
    }
  }

  /** A word spelling a glossary key up to case has a definition up to case. */
  lemma MatchOfKeyHasDefinition(text: string, terms: seq<string>, m: Match, w: string)
    requires SpellsTerm(text, terms, m) && IsKey(terms[m.term])
    requires w == text[m.start..m.start + |terms[m.term]|]
    ensures LookupIgnoreCase(Glossary, w).Some?
  {
    var e :| 0 <= e < |Glossary| && Glossary[e].term == terms[m.term];
    assert EqualIgnoreCase(w, Glossary[e].term);
  }

  /** The text at match `m` spells its term up to case. */
  predicate SpellsTerm(text: string, terms: seq<string>, m: Match) {
    InText(text, terms, m) && EqualIgnoreCase(text[m.start..m.start + |terms[m.term]|], terms[m.term])
  }

  /** Every match of the scan spells the term it took. */
  lemma {:induction false} MatchesSpellTerms(text: string, terms: seq<string>, from: nat)
    requires from <= |text| && NonEmptyTerms(terms)
    ensures forall i :: 0 <= i < |MatchesFrom(text, terms, from)| ==> SpellsTerm(text, terms, MatchesFrom(text, terms, from)[i])
    decreases |text| - from
  {
    var m := FindFrom(text, terms, from);
    if m.Some? {
      var end := MatchEnd(terms, m.value);
      var rest := MatchesFrom(text, terms, end);
      var ms := [m.value] + rest;
      assert SpellsTerm(text, terms, m.value) by {
        FindFromIsLeftmost(text, terms, from);
        MatchedWordEqualsTerm(text, terms, m.value);
      }
      assert MatchesFrom(text, terms, from) == ms by {
        MatchesFromMatch(text, terms, from, m.value);
      }
      MatchesSpellTerms(text, terms, end);
      forall i | 0 < i < |ms| ensures SpellsTerm(text, terms, ms[i]) {
        assert ms[i] == rest[i - 1];
      }
    }
  }

  /** A page element the mouse can rest on: where its box's left and bottom edges are. */
  datatype Element = Element(left: int, bottom: int)

  /** The floating panel: the hovered word, its definition, and where it is placed. */
  datatype Panel = Panel(word: string, definition: Option<string>, left: int, top: int)

  /** The hover state: the word under the mouse and its element, set on enter and cleared on leave. */
  class TooltipState {
    var hovered: Option<string>
    var anchor: Option<Element>

    constructor ()
      ensures hovered == None && anchor == None
    {
      hovered := None;
      anchor := None;
    }

    method MouseEnter(word: string, target: Element)
      modifies this
      ensures hovered == Some(word) && anchor == Some(target)
    {
      hovered := Some(word);
      anchor := Some(target);
    }

    method MouseLeave()
      modifies this
      ensures hovered == None && anchor == None
    {
      hovered := None;
      anchor := None;
    }

    /**
     * `hovered && anchor && ...`: the panel is shown only while a non-empty word
     * and its element are set; it sits 6 pixels below the element and shows the
     * definition stored under exactly the hovered word.
     */
    function Shown(): (r: Option<Panel>)
      reads this
      ensures r.Some? <==> hovered.Some? && hovered.value != [] && anchor.Some?
      ensures r.Some? ==> r.value.word == hovered.value && r.value.definition == Lookup(Glossary, hovered.value)
      ensures r.Some? ==> r.value.left == anchor.value.left && r.value.top == anchor.value.bottom + 6
    {
      if hovered.Some? && hovered.value != [] && anchor.Some? then
        Some(Panel(hovered.value, Lookup(Glossary, hovered.value), anchor.value.left, anchor.value.bottom + 6))
      else None
    }
  }
}
