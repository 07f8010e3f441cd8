/**
 * `stripThinkContent` of src/services/aiService.ts: the global,
 * case-insensitive replacement of `<think>[\s\S]*?</think>` by nothing,
 * followed by `trim`. The lazy `[\s\S]*?` makes every match end at the first
 * closing tag after its opening tag; the global replacement scans once from
 * left to right and resumes after each match, so the text it produces is not
 * scanned again.
 */
module ThinkTags {
  import opened Basics
  import opened JsString

  const Open: string := "<think>"
  const Close: string := "</think>"
  const OpenLength: nat := 7
  const CloseLength: nat := 8

  predicate OpenAt(s: string, i: nat) {
    StartsWithIgnoreCase(s, i, Open)
  }

  predicate CloseAt(s: string, j: nat) {
    StartsWithIgnoreCase(s, j, Close)
  }

  /** The first closing tag at or after `j`, if any. */
  function CloseFrom(s: string, j: nat): (r: Option<nat>)
    ensures r.Some? ==> j <= r.value && r.value + CloseLength <= |s|
    decreases |s| - j
  {
    if j + CloseLength > |s| then None
    else if CloseAt(s, j) then Some(j)
    else CloseFrom(s, j + 1)
  }

  lemma {:induction false} CloseFromIsFirst(s: string, j: nat)
    ensures CloseFrom(s, j).Some? ==> CloseAt(s, CloseFrom(s, j).value)
    ensures CloseFrom(s, j).Some? ==> forall x :: j <= x < CloseFrom(s, j).value ==> !CloseAt(s, x)
    ensures CloseFrom(s, j).None? ==> forall x :: j <= x ==> !CloseAt(s, x)
    decreases |s| - j
  {
    if j + CloseLength <= |s| && !CloseAt(s, j) {
      CloseFromIsFirst(s, j + 1);
    }
  }

  /** Where a match starting at `i` ends: an opening tag at `i` and the first closing tag after it. */
  function MatchEnd(s: string, i: nat): (r: Option<nat>)
    ensures r.Some? ==> i + OpenLength + CloseLength <= r.value <= |s|
  {
    if OpenAt(s, i) then
      var c := CloseFrom(s, i + OpenLength);
      if c.Some? then Some(c.value + CloseLength) else None
    else None
  }

  /** What the replacement keeps of `s[i..]`. */
  function RemoveFrom(s: string, i: nat): (r: string)
    ensures |r| <= |s| - i || i >= |s|
    decreases |s| - i
  {
    if i >= |s| then []
    else
      var e := MatchEnd(s, i);
      if e.Some? then RemoveFrom(s, e.value) else [s[i]] + RemoveFrom(s, i + 1)
  }

  /** `stripThinkContent`. */
  function StripThinkContent(s: string): string {
    Trim(RemoveFrom(s, 0))
  }

  /** A match is an opening tag, followed by any text without a closing tag, followed by a closing tag. */
  lemma MatchEndIsLazy(s: string, i: nat)
    requires MatchEnd(s, i).Some?
    ensures OpenAt(s, i) && CloseAt(s, MatchEnd(s, i).value - CloseLength)
    ensures forall x :: i + OpenLength <= x < MatchEnd(s, i).value - CloseLength ==> !CloseAt(s, x)
  {
    CloseFromIsFirst(s, i + OpenLength);
  }

  /** `s` holds an opening tag with a closing tag somewhere after it. */
  predicate HasPair(s: string) {
    exists i: nat, k: nat :: i + OpenLength <= k < |s| && OpenAt(s, i) && CloseAt(s, k)
  }

  /** An opening tag with a closing tag after it is always matched. */
  lemma PairIsMatched(s: string, i: nat, k: nat)
    requires i + OpenLength <= k && OpenAt(s, i) && CloseAt(s, k)
    ensures MatchEnd(s, i).Some?
  {
    CloseFromIsFirst(s, i + OpenLength);
  }

  /** Without an opening tag at or after `i`, the rest is kept as it is. */
  lemma {:induction false} NoMatchKeepsRest(s: string, i: nat)
    requires i <= |s|
    requires forall x :: i <= x < |s| ==> MatchEnd(s, x).None?
    ensures RemoveFrom(s, i) == s[i..]
    decreases |s| - i
  {
    if i < |s| {
      NoMatchKeepsRest(s, i + 1);
      assert s[i..] == [s[i]] + s[i + 1..];
    }
  }

  /** When a pair is left at or after `i`, the replacement removes something. */
  lemma {:induction false} PairShortens(s: string, from: nat, i: nat, k: nat)
    requires from <= i && i + OpenLength <= k && OpenAt(s, i) && CloseAt(s, k)
    ensures |RemoveFrom(s, from)| < |s| - from
    decreases |s| - from
  {
    assert k + CloseLength <= |s|;
    var e := MatchEnd(s, from);
    if e.None? {
      if from == i {
        PairIsMatched(s, i, k);
      }
      PairShortens(s, from + 1, i, k);
    }
  }

  /** Nothing but the trim changes a text without a pair, and a text with a pair always loses something. */
  lemma UnchangedIffNoPair(s: string)
    ensures RemoveFrom(s, 0) == s <==> !HasPair(s)
    ensures !HasPair(s) ==> StripThinkContent(s) == Trim(s)
  {
    if HasPair(s) {
      var i: nat, k: nat :| i + OpenLength <= k < |s| && OpenAt(s, i) && CloseAt(s, k);
      PairShortens(s, 0, i, k);
    } else {
      forall x | 0 <= x < |s| ensures MatchEnd(s, x).None? {
        if MatchEnd(s, x).Some? {
          MatchEndIsLazy(s, x);
        }
      }
      NoMatchKeepsRest(s, 0);
    }
  }

  /** The positions of `s` the replacement keeps, from `i` on. */
  ghost function Kept(s: string, i: nat): (r: seq<nat>)
    decreases |s| - i
  {
    if i >= |s| then []
    else
      var e := MatchEnd(s, i);
      if e.Some? then Kept(s, e.value) else [i] + Kept(s, i + 1)
  }

  /** Increasing indices of `s` from `from` on. */
  ghost predicate IncreasingIn(idx: seq<nat>, s: string, from: nat) {
    (forall k :: 0 <= k < |idx| ==> from <= idx[k] < |s|)
    && (forall k :: 0 <= k < |idx| - 1 ==> idx[k] < idx[k + 1])
  }

  /** The kept characters are characters of `s` in their original order. */
  lemma {:induction false} KeptInOrder(s: string, i: nat)
    ensures IncreasingIn(Kept(s, i), s, i)
    ensures |Kept(s, i)| == |RemoveFrom(s, i)|
    ensures forall k :: 0 <= k < |Kept(s, i)| ==> RemoveFrom(s, i)[k] == s[Kept(s, i)[k]]
    decreases |s| - i
  {
    if i < |s| {
      var e := MatchEnd(s, i);
      if e.Some? {
        KeptInOrder(s, e.value);
      } else {
        KeptInOrder(s, i + 1);
      }
    }
  }

  /** A subsequence of `t` (its characters, in order, perhaps with gaps). */
  ghost predicate IsSubsequence(r: string, t: string) {
    exists idx: seq<nat> :: |idx| == |r| && IncreasingIn(idx, t, 0)
      && forall k :: 0 <= k < |r| ==> r[k] == t[idx[k]]
  }

  /** Removing the pairs keeps the rest of the text in order. */
  lemma RemovalKeepsOrder(s: string)
    ensures IsSubsequence(RemoveFrom(s, 0), s)
  {
    KeptInOrder(s, 0);
    var idx := Kept(s, 0);
    assert |idx| == |RemoveFrom(s, 0)| && IncreasingIn(idx, s, 0);
  }

  /** Only a `<` can start a closing tag. */
  lemma NoCloseAtOther(s: string, x: nat)
    requires x < |s| && s[x] != '<'
    ensures !CloseAt(s, x)
  {
    assert ToLower(s[x]) != ToLower(Close[0]);
    assert s[x + 0] == s[x];
  }

  /** The first closing tag at or after `j` is the one at `k` when none lies between. */
  lemma {:induction false} CloseFromAt(s: string, j: nat, k: nat)
    requires j <= k && CloseAt(s, k)
    requires forall x :: j <= x < k ==> !CloseAt(s, x)
    ensures CloseFrom(s, j) == Some(k)
    decreases k - j
  {
    if j < k {
      CloseFromAt(s, j + 1, k);
    }
  }

  /** Whether a pattern starts at a position depends only on the characters under it. */
  lemma SameWindow(s: string, i: nat, t: string, j: nat, pattern: string)
    requires i + |pattern| <= |s| && j + |pattern| <= |t|
    requires s[i..i + |pattern|] == t[j..j + |pattern|]
    ensures StartsWithIgnoreCase(s, i, pattern) == StartsWithIgnoreCase(t, j, pattern)
  {
    var a, b := s[i..i + |pattern|], t[j..j + |pattern|];
    assert forall k :: 0 <= k < |pattern| ==> s[i + k] == a[k] && t[j + k] == b[k];
  }

  /** Unmatched positions are copied one by one. */
  lemma {:induction false} SkipPlain(s: string, i: nat, j: nat)
    requires i <= j <= |s|
    requires forall x :: i <= x < j ==> MatchEnd(s, x).None?
    ensures RemoveFrom(s, i) == s[i..j] + RemoveFrom(s, j)
    decreases j - i
  {
    if i < j {
      assert RemoveFrom(s, i) == [s[i]] + RemoveFrom(s, i + 1) by {
        assert MatchEnd(s, i).None?;
      }
      SkipPlain(s, i + 1, j);
      assert s[i..j] == [s[i]] + s[i + 1..j];
      AppendAssoc([s[i]], s[i + 1..j], RemoveFrom(s, j));
    }
  }

  /** No position of `t` before `n` starts an opening tag. */
  predicate NoOpenBefore(t: string, n: nat) {
    forall x :: 0 <= x < n ==> !StartsWithIgnoreCase(t, x, Open)
  }

  /** The part before `p` is kept when none of its positions sees an opening tag in `s[..p + OpenLength]`. */
  lemma KeepPrefix(s: string, p: nat)
    requires p + OpenLength <= |s|
    requires NoOpenBefore(s[..p + OpenLength], p)
    ensures RemoveFrom(s, 0) == s[..p] + RemoveFrom(s, p)
  {
    forall x | 0 <= x < p ensures !OpenAt(s, x) {
      SameWindow(s, x, s[..p + OpenLength], x, Open);
    }
    SkipPlain(s, 0, p);
  }

  /** The part from `e` on is kept when it holds no opening tag. */
  lemma KeepSuffix(s: string, e: nat)
    requires e <= |s|
    requires NoOpenBefore(s[e..], |s| - e)
    ensures RemoveFrom(s, e) == s[e..]
  {
    forall x | e <= x < |s| ensures !OpenAt(s, x) {
      if x + OpenLength <= |s| {
        SameWindow(s, x, s[e..], x - e, Open);
      }
    }
    NoMatchKeepsRest(s, e);
  }

  /** With no `<` in `s[m..c]` and a closing tag at `c`, the first closing tag from `m` is at `c`. */
  lemma FirstCloseAt(s: string, m: nat, c: nat)
    requires m <= c && c + CloseLength <= |s| && s[c..c + CloseLength] == Close
    requires '<' !in s[m..c]
    ensures CloseFrom(s, m) == Some(c)
  {
    forall x | m <= x < c ensures !CloseAt(s, x) {
      assert s[x] == s[m..c][x - m];
      NoCloseAtOther(s, x);
    }
    SameWindow(s, c, Close, 0, Close);
    CloseFromAt(s, m, c);
  }

  /** A match is dropped whole. */
  lemma SkipMatch(s: string, i: nat)
    requires i < |s| && MatchEnd(s, i).Some?
    ensures RemoveFrom(s, i) == RemoveFrom(s, MatchEnd(s, i).value)
  {
  }

  /** An opening tag at `p` with no `<` up to a closing tag at `c` is one match. */
  lemma PairMatchAt(s: string, p: nat, c: nat)
    requires p + OpenLength <= c && c + CloseLength <= |s|
    requires s[p..p + OpenLength] == Open && s[c..c + CloseLength] == Close
    requires '<' !in s[p + OpenLength..c]
    ensures MatchEnd(s, p) == Some(c + CloseLength)
  {
    SameWindow(s, p, Open, 0, Open);
    FirstCloseAt(s, p + OpenLength, c);
  }

  /**
   * A match from `p` to `e` is removed with all it encloses, and the text on
   * either side joins up, when neither side starts a match.
   */
  lemma PairRemovedAt(s: string, p: nat, e: nat)
    requires p + OpenLength <= |s| && e <= |s|
    requires MatchEnd(s, p) == Some(e)
    requires NoOpenBefore(s[..p + OpenLength], p)
    requires NoOpenBefore(s[e..], |s| - e)
    ensures RemoveFrom(s, 0) == s[..p] + s[e..]
  {
    KeepPrefix(s, p);
    SkipMatch(s, p);
    KeepSuffix(s, e);
  }

  /** The text made of `pre`, an opening tag, `mid`, a closing tag and `post`. */
  function Framed(pre: string, mid: string, post: string): string {
    pre + Open + mid + Close + post
  }

  /** Where the pieces of a framed text lie. */
  lemma FramedPieces(s: string, pre: string, mid: string, post: string)
    requires s == Framed(pre, mid, post)
    ensures |s| == |pre| + OpenLength + |mid| + CloseLength + |post|
    ensures s[..|pre|] == pre && s[..|pre| + OpenLength] == pre + Open
    ensures s[|pre|..|pre| + OpenLength] == Open
    ensures s[|pre| + OpenLength..|pre| + OpenLength + |mid|] == mid
    ensures s[|pre| + OpenLength + |mid|..|pre| + OpenLength + |mid| + CloseLength] == Close
    ensures s[|pre| + OpenLength + |mid| + CloseLength..] == post
  {
  }

  /** The opening tag of a framed text with no `<` in `mid` is matched up to the end of its closing tag. */
  lemma FramedMatch(s: string, pre: string, mid: string, post: string)
    requires s == Framed(pre, mid, post)
    requires '<' !in mid
    ensures MatchEnd(s, |pre|) == Some(|pre| + OpenLength + |mid| + CloseLength)
  {
    FramedTags(s, pre, mid, post);
    PairMatchAt(s, |pre|, |pre| + OpenLength + |mid|);
  }

  /** The tags and the enclosed text of a framed text. */
  lemma FramedTags(s: string, pre: string, mid: string, post: string)
    requires s == Framed(pre, mid, post)
    requires '<' !in mid
    ensures |pre| + OpenLength + |mid| + CloseLength <= |s|
    ensures s[|pre|..|pre| + OpenLength] == Open
    ensures s[|pre| + OpenLength + |mid|..|pre| + OpenLength + |mid| + CloseLength] == Close
    ensures '<' !in s[|pre| + OpenLength..|pre| + OpenLength + |mid|]
  {
    assert s[|pre| + OpenLength..|pre| + OpenLength + |mid|] == mid;
  }

  /**
   * A pair of tags with no `<` between them is removed with all it encloses,
   * and the text on either side joins up, when neither side starts a match.
   */
  lemma PairRemoved(s: string, pre: string, mid: string, post: string)
    requires s == Framed(pre, mid, post)
    requires NoOpenBefore(pre + Open, |pre|)
    requires '<' !in mid
    requires NoOpenBefore(post, |post|)
    ensures RemoveFrom(s, 0) == pre + post
  {
    FramedMatch(s, pre, mid, post);
    FramedPieces(s, pre, mid, post);
    PairRemovedAt(s, |pre|, |pre| + OpenLength + |mid| + CloseLength);
  }

  lemma HiddenExampleRemoved(s: string)
    requires s == Framed("A", "hidden", "B")
    ensures RemoveFrom(s, 0) == "AB"
  {
    assert !StartsWithIgnoreCase("A" + Open, 0, Open) by {
      assert ToLower(("A" + Open)[0]) != ToLower(Open[0]);
    }
    PairRemoved(s, "A", "hidden", "B");
  }

  /** A reply that is nothing but a reasoning block strips to the empty string. */
  lemma ReasoningOnlyStripsToEmpty(content: string)
    requires content == Framed("", "x", "")
    ensures content != [] && StripThinkContent(content) == []
  {
    assert NoOpenBefore("" + Open, 0);
    assert NoOpenBefore("", 0);
    PairRemoved(content, "", "x", "");
    assert RemoveFrom(content, 0) == [];
    assert Trim([]) == [];
  }

  /** `A<think>hidden</think>B` becomes `AB`: the reasoning disappears and the text around it joins up. */
  lemma StripExample(s: string)
    requires s == Framed("A", "hidden", "B")
    ensures StripThinkContent(s) == "AB"
  {
    HiddenExampleRemoved(s);
    TrimOfTrimmed("AB");
  }

  lemma NestedPreNoOpen(pre: string)
    requires pre == "<thi"
    ensures NoOpenBefore(pre + Open, |pre|)
  {
    forall x | 0 <= x < |pre| ensures !StartsWithIgnoreCase(pre + Open, x, Open) {
      var w := pre + Open;
      if x == 0 {
        assert ToLower(w[4]) != ToLower(Open[4]);
      } else {
        assert ToLower(w[x]) != ToLower(Open[0]);
      }
    }
  }

  lemma NestedPostNoOpen(post: string)
    requires post == "nk></think>"
    ensures NoOpenBefore(post, |post|)
  {
    forall y | 0 <= y < |post| ensures !StartsWithIgnoreCase(post, y, Open) {
      if y == 3 {
        assert ToLower(post[4]) != ToLower(Open[1]);
      } else if y < 5 {
        assert ToLower(post[y]) != ToLower(Open[0]);
      }
    }
  }

  lemma NestedExampleRemoved(s: string)
    requires s == Framed("<thi", "x", "nk></think>")
    ensures RemoveFrom(s, 0) == "<thi" + "nk></think>"
  {
    NestedPreNoOpen("<thi");
    NestedPostNoOpen("nk></think>");
    PairRemoved(s, "<thi", "x", "nk></think>");
  }

  /** `<think></think>` is itself a pair. */
  lemma EmptyPairIsPair(r: string)
    requires r == Open + Close
    ensures HasPair(r)
  {
    SameWindow(r, 0, Open, 0, Open);
    SameWindow(r, 7, Close, 0, Close);
    assert OpenAt(r, 0) && CloseAt(r, 7);
  }

  /**
   * One pass only: in `<thi<think>x</think>nk></think>`, removing the inner
   * pair joins the halves of the split tag into a new pair, `<think></think>`
   * (a pair, by `EmptyPairIsPair`), which stays in the result.
   */
  lemma SinglePassExample(s: string)
    requires s == Framed("<thi", "x", "nk></think>")
    ensures StripThinkContent(s) == Open + Close
  {
    NestedExampleRemoved(s);
    var r := RemoveFrom(s, 0);
    assert r == Open + Close;
    TrimOfTrimmed(r);
  }
}
