/**
 * The user highlighter of src/components/HighlightableText.tsx: the selection
 * offsets, the split of the text into plain and marked parts, and the state
 * the mouse-up and colour-choice handlers update.
 */
module HighlightableText {
  import opened Basics
  import opened JsString

  /** A user-created mark: character offsets into the text and a CSS colour. */
  datatype Highlight = Highlight(start: nat, end: nat, color: string)

  /** A selection waiting for its colour. */
  datatype Range = Range(start: nat, end: nat)

  /** What the component renders: a plain slice or a `<mark>` with its colour. */
  datatype Part = Plain(text: string) | Mark(text: string, color: string)

  /** `text.slice(from, to)` for non-negative bounds: both are clamped to the length. */
  function Slice(text: string, from: nat, to: nat): (r: string)
    ensures from <= to <= |text| ==> r == text[from..to]
    ensures |r| <= |text|
  {
    var a := if from < |text| then from else |text|;
    var b := if to < |text| then to else |text|;
    if a < b then text[a..b] else []
  }

  /** The characters the parts display, in order. */
  function Flatten(parts: seq<Part>): string {
    if parts == [] then [] else parts[0].text + Flatten(parts[1..])
  }

  lemma FlattenAppend(a: seq<Part>, b: seq<Part>)
    ensures Flatten(a + b) == Flatten(a) + Flatten(b)
  {
    if a == [] {
      assert a + b == b;
    } else {
      assert (a + b)[1..] == a[1..] + b;
      FlattenAppend(a[1..], b);
    }
  }

  /** The marked parts, in order. */
  function Marks(parts: seq<Part>): seq<Part> {
    if parts == [] then []
    else (if parts[0].Mark? then [parts[0]] else []) + Marks(parts[1..])
  }

  lemma {:induction false} MarksAppend(a: seq<Part>, b: seq<Part>)
    ensures Marks(a + b) == Marks(a) + Marks(b)
  {
    if a == [] {
      assert a + b == b;
    } else {
      var head := if a[0].Mark? then [a[0]] else [];
      assert (a + b)[0] == a[0];
      assert (a + b)[1..] == a[1..] + b;
      MarksAppend(a[1..], b);
      assert Marks(a + b) == head + (Marks(a[1..]) + Marks(b));
      assert Marks(a) == head + Marks(a[1..]);
    }
  }

  /**
   * The selection offsets of `getSelectionOffsets`: the selection starts after
   * the text preceding it and is as long as the selected text. An empty
   * selection gives no offsets.
   */
  function SelectionOffsets(precedingLength: nat, selectedLength: nat): (r: Option<Range>)
    ensures r.None? <==> selectedLength == 0
    ensures r.Some? ==> (r.value.start == precedingLength
                         && r.value.end == r.value.start + selectedLength)
  {
    var start := precedingLength;
    var end := start + selectedLength;
    if start == end then None else Some(Range(start, end))
  }

  /** The mark a highlight produces. */
  function MarkFor(text: string, h: Highlight): Part {
    Mark(Slice(text, h.start, h.end), h.color)
  }

  /**
   * The parts one highlight adds when the previous one ended at `last`: a plain
   * slice if the highlight starts after `last`, then its mark.
   */
  function Step(text: string, h: Highlight, last: nat): (r: seq<Part>) {
    (if last < h.start then [Plain(Slice(text, last, h.start))] else []) + [MarkFor(text, h)]
  }

  /**
   * The parts `splitByHighlights` pushes once `last` characters are behind it:
   * for each highlight a plain slice if it starts after `last`, then its mark;
   * finally the rest of the text if any is left.
   */
  function PartsFrom(text: string, hs: seq<Highlight>, last: nat): seq<Part>
    decreases |hs|
  {
    if hs == [] then
      (if last < |text| then [Plain(Slice(text, last, |text|))] else [])
    else
      Step(text, hs[0], last) + PartsFrom(text, hs[1..], hs[0].end)
  }

  /** The result of `splitByHighlights`: the whole text when there are no highlights. */
  function Highlighted(text: string, hs: seq<Highlight>): seq<Part> {
    if hs == [] then [Plain(text)] else PartsFrom(text, hs, 0)
  }

  /** `splitByHighlights`, as the loop the component runs. */
  method SplitByHighlights(text: string, hs: seq<Highlight>) returns (parts: seq<Part>)
    ensures parts == Highlighted(text, hs)
  {
    if |hs| == 0 {
      return [Plain(text)];
    }
    parts := [];
    var last: nat := 0;
    var i := 0;
    while i < |hs|
      invariant 0 <= i <= |hs|
      invariant parts + PartsFrom(text, hs[i..], last) == PartsFrom(text, hs, 0)
    {
      var h := hs[i];
      ghost var before := parts;
      if last < h.start {
        parts := parts + [Plain(Slice(text, last, h.start))];
      }
      parts := parts + [Mark(Slice(text, h.start, h.end), h.color)];
      assert parts == before + Step(text, h, last);
      StepKeepsInvariant(text, hs, i, last, before);
      last := h.end;
      i := i + 1;
    }
    if last < |text| {
      parts := parts + [Plain(Slice(text, last, |text|))];
    }
  }

  /** One iteration of the loop: the parts pushed so far plus those still to come are unchanged. */
  lemma StepKeepsInvariant(text: string, hs: seq<Highlight>, i: nat, last: nat, before: seq<Part>)
    requires i < |hs|
    ensures before + Step(text, hs[i], last) + PartsFrom(text, hs[i + 1..], hs[i].end)
         == before + PartsFrom(text, hs[i..], last)
  {
    assert hs[i..][1..] == hs[i + 1..];
    AppendAssoc(before, Step(text, hs[i], last), PartsFrom(text, hs[i + 1..], hs[i].end));
  }

  /** With no highlights the text comes back as a single unsplit part. */
  lemma NoHighlightsOnePart(text: string)
    ensures Highlighted(text, []) == [Plain(text)]
    ensures Flatten(Highlighted(text, [])) == text
  {
  }

  /** The highlights are in order, do not overlap and lie within a text of length `n`. */
  ghost predicate WellFormed(hs: seq<Highlight>, n: nat) {
    && (forall i :: 0 <= i < |hs| ==> hs[i].start <= hs[i].end <= n)
    && (forall i :: 0 < i < |hs| ==> hs[i - 1].end <= hs[i].start)
  }

  /**
   * Each highlight yields exactly one mark, holding its slice of the text and
   * its colour, and the marks come in the order of the list.
   */
  lemma {:induction false} MarksFollowHighlights(text: string, hs: seq<Highlight>, last: nat)
    ensures |Marks(PartsFrom(text, hs, last))| == |hs|
    ensures forall i :: 0 <= i < |hs| ==> Marks(PartsFrom(text, hs, last))[i] == MarkFor(text, hs[i])
    decreases |hs|
  {
    if hs == [] {
    } else {
      var rest := PartsFrom(text, hs[1..], hs[0].end);
      MarksFollowHighlights(text, hs[1..], hs[0].end);
      MarksAppend(Step(text, hs[0], last), rest);
      StepMarks(text, hs[0], last);
      assert Marks(PartsFrom(text, hs, last)) == [MarkFor(text, hs[0])] + Marks(rest);
      forall i | 0 < i < |hs| ensures Marks(PartsFrom(text, hs, last))[i] == MarkFor(text, hs[i]) {
        assert hs[1..][i - 1] == hs[i];
      }
    }
  }

  lemma StepMarks(text: string, h: Highlight, last: nat)
    ensures Marks(Step(text, h, last)) == [MarkFor(text, h)]
  {
    var before := if last < h.start then [Plain(Slice(text, last, h.start))] else [];
    MarksAppend(before, [MarkFor(text, h)]);
    assert Marks([MarkFor(text, h)]) == [MarkFor(text, h)] + Marks([]);
  }

  lemma StepFlatten(text: string, h: Highlight, last: nat)
    requires last <= h.start <= h.end <= |text|
    ensures Flatten(Step(text, h, last)) == text[last..h.end]
  {
    var before := if last < h.start then [Plain(Slice(text, last, h.start))] else [];
    FlattenAppend(before, [MarkFor(text, h)]);
    assert Flatten(before) == text[last..h.start];
    assert Flatten([MarkFor(text, h)]) == text[h.start..h.end] + Flatten([]);
    assert text[last..h.end] == text[last..h.start] + text[h.start..h.end];
  }

  /** The component shows one mark per highlight, in list order. */
  lemma MarkPerHighlight(text: string, hs: seq<Highlight>)
    requires hs != []
    ensures |Marks(Highlighted(text, hs))| == |hs|
    ensures forall i :: 0 <= i < |hs| ==>
      Marks(Highlighted(text, hs))[i] == Mark(Slice(text, hs[i].start, hs[i].end), hs[i].color)
  {
    MarksFollowHighlights(text, hs, 0);
  }

  lemma {:induction false} PartsFromReconstruct(text: string, hs: seq<Highlight>, last: nat)
    requires WellFormed(hs, |text|)
    requires last <= |text|
    requires hs != [] ==> last <= hs[0].start
    ensures Flatten(PartsFrom(text, hs, last)) == text[last..]
    decreases |hs|
  {
    if hs != [] {
      var h := hs[0];
      var rest := PartsFrom(text, hs[1..], h.end);
      WellFormedTail(hs, |text|);
      assert Flatten(rest) == text[h.end..] by {
        PartsFromReconstruct(text, hs[1..], h.end);
      }
      assert Flatten(PartsFrom(text, hs, last)) == Flatten(Step(text, h, last)) + Flatten(rest) by {
        FlattenAppend(Step(text, h, last), rest);
      }
      assert Flatten(Step(text, h, last)) == text[last..h.end] by {
        StepFlatten(text, h, last);
      }
      assert text[last..] == text[last..h.end] + text[h.end..];
    }
  }

  /** Dropping the first highlight keeps the list well formed, and the next one starts after it ends. */
  lemma WellFormedTail(hs: seq<Highlight>, n: nat)
    requires WellFormed(hs, n) && hs != []
    ensures WellFormed(hs[1..], n)
    ensures hs[0].start <= hs[0].end <= n
    ensures hs[1..] != [] ==> hs[0].end <= hs[1..][0].start
  {
    forall i | 0 < i < |hs[1..]| ensures hs[1..][i - 1].end <= hs[1..][i].start {
      assert hs[1..][i - 1] == hs[i] && hs[1..][i] == hs[i + 1];
    }
  }

  /**
   * For highlights in order, not overlapping and within the text, the plain
   * parts and the marks together spell the original text.
   */
  lemma HighlightedReconstructs(text: string, hs: seq<Highlight>)
    requires WellFormed(hs, |text|)
    ensures Flatten(Highlighted(text, hs)) == text
  {
    if hs != [] {
      PartsFromReconstruct(text, hs, 0);
    }
  }

  lemma {:induction false} PartsFromNoEmptyPlain(text: string, hs: seq<Highlight>, last: nat)
    requires forall i :: 0 <= i < |hs| ==> hs[i].start <= |text|
    ensures forall k :: 0 <= k < |PartsFrom(text, hs, last)| && PartsFrom(text, hs, last)[k].Plain? ==>
      PartsFrom(text, hs, last)[k].text != []
    decreases |hs|
  {
    if hs != [] {
      var h := hs[0];
      var step := Step(text, h, last);
      var rest := PartsFrom(text, hs[1..], h.end);
      assert forall i :: 0 <= i < |hs[1..]| ==> hs[1..][i] == hs[i + 1];
      PartsFromNoEmptyPlain(text, hs[1..], h.end);
      var parts := step + rest;
      forall k | 0 <= k < |parts| && parts[k].Plain? ensures parts[k].text != [] {
        if k >= |step| {
          assert parts[k] == rest[k - |step|];
        } else {
          assert parts[k] == step[k];
        }
      }
    }
  }

  /**
   * A plain part is pushed only when text lies between `last` and the next
   * start, or after the last highlight: with highlights that start within the
   * text, no plain part is empty.
   */
  lemma NoEmptyPlainParts(text: string, hs: seq<Highlight>)
    requires hs != []
    requires forall i :: 0 <= i < |hs| ==> hs[i].start <= |text|
    ensures forall k :: 0 <= k < |Highlighted(text, hs)| && Highlighted(text, hs)[k].Plain? ==>
      Highlighted(text, hs)[k].text != []
  {
    PartsFromNoEmptyPlain(text, hs, 0);
  }

  /**
   * Highlights are appended without any check, so a selection made before an
   * earlier highlight breaks the order and the rendered text repeats characters.
   */
  lemma OutOfOrderHighlightsRepeatText()
    ensures Flatten(Highlighted("abcdef", [Highlight(3, 5, "y"), Highlight(0, 2, "g")])) == "abcdeabcdef"
  {
    var parts := [Plain("abc"), Mark("de", "y"), Mark("ab", "g"), Plain("cdef")];
    OutOfOrderParts();
    assert Flatten(parts) == "abcdeabcdef" by {
      assert Flatten([Plain("cdef")]) == "cdef" + Flatten([]);
      FlattenAppend([Mark("ab", "g")], [Plain("cdef")]);
      FlattenAppend([Mark("de", "y")], [Mark("ab", "g"), Plain("cdef")]);
      FlattenAppend([Plain("abc")], [Mark("de", "y"), Mark("ab", "g"), Plain("cdef")]);
      assert Flatten([Mark("ab", "g")]) == "ab" + Flatten([]);
      assert Flatten([Mark("de", "y")]) == "de" + Flatten([]);
      assert Flatten([Plain("abc")]) == "abc" + Flatten([]);
      assert parts == [Plain("abc")] + ([Mark("de", "y")] + ([Mark("ab", "g")] + [Plain("cdef")]));
    }
  }

  /** The parts the out-of-order example renders. */
  lemma OutOfOrderParts()
    ensures Highlighted("abcdef", [Highlight(3, 5, "y"), Highlight(0, 2, "g")])
         == [Plain("abc"), Mark("de", "y"), Mark("ab", "g"), Plain("cdef")]
  {
    var text := "abcdef";
    var hs := [Highlight(3, 5, "y"), Highlight(0, 2, "g")];
    assert hs[1..] == [Highlight(0, 2, "g")];
    assert hs[1..][1..] == [];
    assert Slice(text, 0, 3) == "abc" && Slice(text, 3, 5) == "de";
    assert Slice(text, 0, 2) == "ab" && Slice(text, 2, 6) == "cdef";
    assert Step(text, hs[0], 0) == [Plain("abc"), Mark("de", "y")];
    assert Step(text, hs[1], 5) == [Mark("ab", "g")];
    assert PartsFrom(text, [], 2) == [Plain("cdef")];
  }

  /** The component's state. `text` is its prop; the rest are its `useState` fields. */
  class HighlightableTextView {
    const text: string
    var highlights: seq<Highlight>
    var showMenu: bool
    var menuPos: Option<(int, int)>
    var pending: Option<Range>
    var colorChoice: Option<string>

    /** Every stored or pending highlight covers at least one character. */
    ghost predicate Valid()
      reads this
    {
      && (forall i :: 0 <= i < |highlights| ==> highlights[i].start < highlights[i].end)
      && (pending.Some? ==> pending.value.start < pending.value.end)
    }

    constructor (text: string)
      ensures Valid()
      ensures this.text == text && highlights == [] && !showMenu
      ensures menuPos == None && pending == None && colorChoice == None
    {
      this.text := text;
      highlights := [];
      showMenu := false;
      menuPos := None;
      pending := None;
      colorChoice := None;
    }

    /**
     * `handleMouseUp`. `mounted` is whether the container element exists;
     * `measured` is the pair of lengths read from the DOM selection, absent
     * when there is no selection inside the container; `(x, y)` is the mouse position.
     */
    method HandleMouseUp(mounted: bool, measured: Option<(nat, nat)>, x: int, y: int)
      requires Valid()
      modifies this
      ensures Valid()
      ensures highlights == old(highlights) && colorChoice == old(colorChoice)
      ensures !mounted ==> showMenu == old(showMenu) && pending == old(pending) && menuPos == old(menuPos)
      ensures mounted ==> var sel := if measured.Some? then SelectionOffsets(measured.value.0, measured.value.1) else None;
        if sel.Some? then pending == sel && showMenu && menuPos == Some((x, y))
        else pending == None && !showMenu && menuPos == old(menuPos)
    {
      if !mounted {
        return;
      }
      var sel := if measured.Some? then SelectionOffsets(measured.value.0, measured.value.1) else None;
      if sel.Some? {
        pending := sel;
        showMenu := true;
        menuPos := Some((x, y));
      } else {
        showMenu := false;
        pending := None;
      }
    }

    /**
     * `handleHighlight`: a pending selection becomes one new highlight at the
     * end of the list; the menu, the pending selection and the colour choice
     * are cleared whether or not one was pending.
     */
    method HandleHighlight(color: string)
      requires Valid()
      modifies this
      ensures Valid()
      ensures old(pending).Some? ==>
        highlights == old(highlights) + [Highlight(old(pending).value.start, old(pending).value.end, color)]
      ensures old(pending).None? ==> highlights == old(highlights)
      ensures !showMenu && pending == None && colorChoice == None && menuPos == old(menuPos)
    {
      if pending.Some? {
        highlights := highlights + [Highlight(pending.value.start, pending.value.end, color)];
      }
      showMenu := false;
      pending := None;
      colorChoice := None;
    }

    /** What the container renders for the current highlights. */
    method Render() returns (parts: seq<Part>)
      requires Valid()
      ensures parts == Highlighted(text, highlights)
      ensures |Marks(parts)| == |highlights|
      ensures forall i :: 0 <= i < |highlights| ==>
        Marks(parts)[i] == MarkFor(text, highlights[i]) && highlights[i].start < highlights[i].end
    {
      parts := SplitByHighlights(text, highlights);
      if highlights != [] {
        MarkPerHighlight(text, highlights);
      }
    }
  }
}
