/**
 * Greedy character-budget line wrap (`canvasTextAutoLine` in Watermark.ts).
 *
 * The text is walked one character at a time and the measured glyph widths are added up.
 * As soon as the running total passes `width - initX`, everything from the last flush point up
 * to (not including) the current character is drawn on the current line, the pen moves one
 * line down and the running total is reset to 0.  The character that overflowed starts the next
 * line, but its own width is not counted again.  At the last character the rest is drawn.
 *
 * `Scan` is the loop as written; `Overflows`, `Cut` and `Place` are an independent description
 * in terms of sums over slices, and `ScanIsGreedy` proves the two agree.
 */
module AutoLine {

  /** One `fillText(text, x, y)` call. */
  datatype DrawCall = DrawCall(text: string, x: real, y: real)

  /** Sum of the measured widths of the characters of `t` (`measureText` per character). */
  function Width(measure: char -> real, text: string): real
  {
    if text == [] then 0.0 else Width(measure, text[..|text| - 1]) + measure(text[|text| - 1])
  }

  /** Width of the characters `s[c..e]`, the running total when counting from `c` up to `e`. */
  function Counted(s: string, measure: char -> real, c: nat, e: nat): real
    requires c <= e <= |s|
  {
    Width(measure, s[c..e])
  }

  /** The texts of a list of draw calls, in order. */
  function Texts(calls: seq<DrawCall>): (ts: seq<string>)
    ensures |ts| == |calls|
    ensures forall k :: 0 <= k < |calls| ==> ts[k] == calls[k].text
  {
    seq(|calls|, k requires 0 <= k < |calls| => calls[k].text)
  }

  /** Concatenation of a list of strings. */
  function Join(parts: seq<string>): string
  {
    if parts == [] then [] else parts[0] + Join(parts[1..])
  }

  // ---------------------------------------------------------------------------------------------
  // The loop as written
  // ---------------------------------------------------------------------------------------------

  /**
   * Iterations `i .. |s|-1` of the loop, with `budget` = `width - initX`, `last` = `lastSubStrIndex`, `lineWidth` the running
   * total and `y` the current `initY`; the result is the `fillText` calls still to come.
   */
  function Scan(s: string, measure: char -> real, budget: real, initX: real, lineHeight: real,
                i: nat, last: nat, lineWidth: real, y: real): seq<DrawCall>
    requires last <= i <= |s|
    decreases |s| - i
  {
    if i == |s| then []
    else if lineWidth + measure(s[i]) > budget then
      // flush `s[last..i]`, move down, reset the total; `s[i]` starts the next line
      [DrawCall(s[last..i], initX, y)]
      + (if i == |s| - 1 then [DrawCall(s[i..i + 1], initX, y + lineHeight)] else [])
      + Scan(s, measure, budget, initX, lineHeight, i + 1, i, 0.0, y + lineHeight)
    else
      (if i == |s| - 1 then [DrawCall(s[last..i + 1], initX, y)] else [])
      + Scan(s, measure, budget, initX, lineHeight, i + 1, last, lineWidth + measure(s[i]), y)
  }

  /** `canvasTextAutoLine(ctx, width, s, initX, initY, lineHeight)`: the `fillText` calls it makes. */
  function CanvasTextAutoLine(s: string, measure: char -> real, width: real,
                              initX: real, initY: real, lineHeight: real): seq<DrawCall>
  {
    Scan(s, measure, width - initX, initX, lineHeight, 0, 0, 0.0, initY)
  }

  // ---------------------------------------------------------------------------------------------
  // Reference description
  // ---------------------------------------------------------------------------------------------

  /**
   * The first index `b >= j` at which the widths counted from `c` (that is, of `s[c..b+1]`)
   * exceed `budget`, or `|s|` when there is none.
   */
  function FindOverflow(s: string, measure: char -> real, budget: real, c: nat, j: nat): (b: nat)
    requires c <= j <= |s|
    ensures j <= b <= |s|
    ensures b < |s| ==> Counted(s, measure, c, b + 1) > budget
    ensures forall e :: j < e <= b ==> Counted(s, measure, c, e) <= budget
    decreases |s| - j
  {
    if j == |s| then |s|
    else if Counted(s, measure, c, j + 1) > budget then j
    else FindOverflow(s, measure, budget, c, j + 1)
  }

  /**
   * `bs` is a strictly increasing list of positions below `n`, the first at or after `from`.
   */
  ghost predicate Breaks(bs: seq<nat>, from: nat, n: nat)
    decreases |bs|
  {
    bs == [] || (from <= bs[0] < n && Breaks(bs[1..], bs[0] + 1, n))
  }

  /**
   * The overflow positions, with counting started at `c` and searching from `j`.  After an
   * overflow at `b` the next line's text starts at `b`, but counting restarts at `b + 1`.
   */
  function Overflows(s: string, measure: char -> real, budget: real, c: nat, j: nat): (bs: seq<nat>)
    requires c <= j <= |s|
    ensures Breaks(bs, j, |s|)
    decreases |s| - j
  {
    var b := FindOverflow(s, measure, budget, c, j);
    if b == |s| then [] else [b] + Overflows(s, measure, budget, b + 1, b + 1)
  }

  /** The overflow positions of the whole text. */
  function LineBreaks(s: string, measure: char -> real, budget: real): seq<nat>
  {
    Overflows(s, measure, budget, 0, 0)
  }

  lemma BreaksLower(bs: seq<nat>, from: nat, lower: nat, n: nat)
    requires lower <= from
    requires Breaks(bs, from, n)
    ensures Breaks(bs, lower, n)
  {
  }

  /** `s[start..]` cut at the positions `bs`. */
  function Cut(s: string, bs: seq<nat>, start: nat): (lines: seq<string>)
    requires start <= |s|
    requires Breaks(bs, start, |s|)
    ensures |lines| == |bs| + 1
    decreases |bs|
  {
    if bs == [] then [s[start..]]
    else
      BreaksLower(bs[1..], bs[0] + 1, bs[0], |s|);
      [s[start..bs[0]]] + Cut(s, bs[1..], bs[0])
  }

  /** The lines drawn one below the other: the first at `(x, y)`, each next `lineHeight` lower. */
  function Place(lines: seq<string>, x: real, y: real, lineHeight: real): (calls: seq<DrawCall>)
    ensures |calls| == |lines|
  {
    if lines == [] then [] else [DrawCall(lines[0], x, y)] + Place(lines[1..], x, y + lineHeight, lineHeight)
  }

  // ---------------------------------------------------------------------------------------------
  // The loop agrees with the reference
  // ---------------------------------------------------------------------------------------------

  lemma WidthSnoc(measure: char -> real, s: string, c: nat, i: nat)
    requires c <= i < |s|
    ensures Counted(s, measure, c, i + 1) == Counted(s, measure, c, i) + measure(s[i])
  {
    assert s[c..i + 1][..i - c] == s[c..i];
  }

  lemma CountedEmpty(s: string, measure: char -> real, c: nat)
    requires c <= |s|
    ensures Counted(s, measure, c, c) == 0.0
  {
  }

  /** Line `k` is drawn at `(x, y + k * lineHeight)`. */
  lemma {:induction false} PlaceAt(lines: seq<string>, x: real, y: real, lineHeight: real)
    ensures forall k :: 0 <= k < |lines| ==>
              Place(lines, x, y, lineHeight)[k] == DrawCall(lines[k], x, y + (k as real) * lineHeight)
    decreases |lines|
  {
    if lines != [] {
      PlaceAt(lines[1..], x, y + lineHeight, lineHeight);
      forall k | 1 <= k < |lines|
        ensures Place(lines, x, y, lineHeight)[k] == DrawCall(lines[k], x, y + (k as real) * lineHeight)
      {
        assert (k as real) * lineHeight == ((k - 1) as real) * lineHeight + lineHeight;
      }
    }
  }

  /** A loop iteration that stays within the budget only adds to the running total. */
  lemma ScanFitEq(s: string, measure: char -> real, budget: real, initX: real, lineHeight: real,
                  i: nat, last: nat, lineWidth: real, y: real)
    requires last <= i < |s| - 1
    requires lineWidth + measure(s[i]) <= budget
    ensures Scan(s, measure, budget, initX, lineHeight, i, last, lineWidth, y)
            == Scan(s, measure, budget, initX, lineHeight, i + 1, last, lineWidth + measure(s[i]), y)
  {
  }

  /** A loop iteration that passes the budget flushes `s[last..i]` and restarts the count. */
  lemma ScanOverflowEq(s: string, measure: char -> real, budget: real, initX: real, lineHeight: real,
                       i: nat, last: nat, lineWidth: real, y: real)
    requires last <= i < |s| - 1
    requires lineWidth + measure(s[i]) > budget
    ensures Scan(s, measure, budget, initX, lineHeight, i, last, lineWidth, y)
            == [DrawCall(s[last..i], initX, y)]
               + Scan(s, measure, budget, initX, lineHeight, i + 1, i, 0.0, y + lineHeight)
  {
  }

  /** The last iteration, when the last character fits: the rest of the text is drawn. */
  lemma ScanLastFit(s: string, measure: char -> real, budget: real, initX: real, lineHeight: real,
                    last: nat, lineWidth: real, y: real)
    requires last < |s|
    requires lineWidth + measure(s[|s| - 1]) <= budget
    requires last <= |s| - 1
    ensures Scan(s, measure, budget, initX, lineHeight, |s| - 1, last, lineWidth, y)
            == [DrawCall(s[last..], initX, y)]
  {
    assert s[last..|s|] == s[last..];
  }

  /** The last iteration, when the last character passes the budget: two lines are drawn. */
  lemma ScanLastHit(s: string, measure: char -> real, budget: real, initX: real, lineHeight: real,
                    last: nat, lineWidth: real, y: real)
    requires last <= |s| - 1
    requires lineWidth + measure(s[|s| - 1]) > budget
    ensures Scan(s, measure, budget, initX, lineHeight, |s| - 1, last, lineWidth, y)
            == [DrawCall(s[last..|s| - 1], initX, y)] + [DrawCall(s[|s| - 1..], initX, y + lineHeight)]
  {
    assert s[|s| - 1..|s|] == s[|s| - 1..];
  }

  /** With no cut positions left, the rest of the text is one line. */
  lemma PlaceCutNil(s: string, start: nat, x: real, y: real, lineHeight: real)
    requires start <= |s|
    ensures Place(Cut(s, [], start), x, y, lineHeight) == [DrawCall(s[start..], x, y)]
  {
  }

  lemma OverflowsFit(s: string, measure: char -> real, budget: real, c: nat, i: nat)
    requires c <= i < |s|
    requires Counted(s, measure, c, i + 1) <= budget
    ensures Overflows(s, measure, budget, c, i) == Overflows(s, measure, budget, c, i + 1)
  {
    assert FindOverflow(s, measure, budget, c, i) == FindOverflow(s, measure, budget, c, i + 1);
  }

  lemma OverflowsHit(s: string, measure: char -> real, budget: real, c: nat, i: nat)
    requires c <= i < |s|
    requires Counted(s, measure, c, i + 1) > budget
    ensures Overflows(s, measure, budget, c, i) == [i] + Overflows(s, measure, budget, i + 1, i + 1)
  {
    assert FindOverflow(s, measure, budget, c, i) == i;
  }

  lemma PlaceCutCons(s: string, b: nat, rest: seq<nat>, last: nat, x: real, y: real, lineHeight: real)
    requires last <= b < |s|
    requires Breaks(rest, b + 1, |s|)
    ensures Breaks(rest, b, |s|) && Breaks([b] + rest, last, |s|)
    ensures Place(Cut(s, [b] + rest, last), x, y, lineHeight)
            == [DrawCall(s[last..b], x, y)] + Place(Cut(s, rest, b), x, y + lineHeight, lineHeight)
  {
    BreaksLower(rest, b + 1, b, |s|);
    var lines := Cut(s, [b] + rest, last);
    assert lines == [s[last..b]] + Cut(s, rest, b);
    assert lines[1..] == Cut(s, rest, b);
  }

  /**
   * From any loop state whose running total is the width of `s[c..i]` (and whose flush point is
   * at or before `c`), the remaining draw calls are the reference lines placed from `y` on.
   */
  lemma {:induction false} ScanIsGreedy(s: string, measure: char -> real, budget: real, initX: real,
                                        lineHeight: real, i: nat, last: nat, lineWidth: real,
                                        y: real, c: nat)
    requires last <= c <= i < |s|
    requires lineWidth == Counted(s, measure, c, i)
    ensures Breaks(Overflows(s, measure, budget, c, i), last, |s|)
    ensures Scan(s, measure, budget, initX, lineHeight, i, last, lineWidth, y)
            == Place(Cut(s, Overflows(s, measure, budget, c, i), last), initX, y, lineHeight)
    decreases |s| - i, 2
  {
    WidthSnoc(measure, s, c, i);
    if lineWidth + measure(s[i]) > budget {
      ScanIsGreedyHit(s, measure, budget, initX, lineHeight, i, last, lineWidth, y, c);
    } else {
      ScanIsGreedyFit(s, measure, budget, initX, lineHeight, i, last, lineWidth, y, c);
    }
  }

  /** `ScanIsGreedy` when character `i` passes the budget. */
  lemma {:induction false} ScanIsGreedyHit(s: string, measure: char -> real, budget: real, initX: real,
                                           lineHeight: real, i: nat, last: nat, lineWidth: real,
                                           y: real, c: nat)
    requires last <= c <= i < |s|
    requires lineWidth + measure(s[i]) == Counted(s, measure, c, i + 1)
    requires lineWidth + measure(s[i]) > budget
    ensures Breaks(Overflows(s, measure, budget, c, i), last, |s|)
    ensures Scan(s, measure, budget, initX, lineHeight, i, last, lineWidth, y)
            == Place(Cut(s, Overflows(s, measure, budget, c, i), last), initX, y, lineHeight)
    decreases |s| - i, 1
  {
    if i == |s| - 1 {
      GreedyLastHit(s, measure, budget, initX, lineHeight, last, lineWidth, y, c);
    } else {
      var rest := Overflows(s, measure, budget, i + 1, i + 1);
      OverflowsHit(s, measure, budget, c, i);
      PlaceCutCons(s, i, rest, last, initX, y, lineHeight);
      ScanOverflowEq(s, measure, budget, initX, lineHeight, i, last, lineWidth, y);
      GreedyAfterHit(s, measure, budget, initX, lineHeight, i, y + lineHeight);
    }
  }

  /** `ScanIsGreedy` when character `i` still fits. */
  lemma {:induction false} ScanIsGreedyFit(s: string, measure: char -> real, budget: real, initX: real,
                                           lineHeight: real, i: nat, last: nat, lineWidth: real,
                                           y: real, c: nat)
    requires last <= c <= i < |s|
    requires lineWidth + measure(s[i]) == Counted(s, measure, c, i + 1)
    requires lineWidth + measure(s[i]) <= budget
    ensures Breaks(Overflows(s, measure, budget, c, i), last, |s|)
    ensures Scan(s, measure, budget, initX, lineHeight, i, last, lineWidth, y)
            == Place(Cut(s, Overflows(s, measure, budget, c, i), last), initX, y, lineHeight)
    decreases |s| - i, 1
  {
    if i == |s| - 1 {
      GreedyLastFit(s, measure, budget, initX, lineHeight, last, lineWidth, y, c);
    } else {
      OverflowsFit(s, measure, budget, c, i);
      BreaksLower(Overflows(s, measure, budget, c, i + 1), i + 1, last, |s|);
      ScanFitEq(s, measure, budget, initX, lineHeight, i, last, lineWidth, y);
      ScanIsGreedy(s, measure, budget, initX, lineHeight, i + 1, last, lineWidth + measure(s[i]), y, c);
    }
  }

  /** After an overflow at `i`, the loop restarts counting at `i + 1` with `s[i]` opening the line. */
  lemma {:induction false} GreedyAfterHit(s: string, measure: char -> real, budget: real, initX: real,
                                          lineHeight: real, i: nat, y: real)
    requires i + 1 < |s|
    ensures Scan(s, measure, budget, initX, lineHeight, i + 1, i, 0.0, y)
            == Place(Cut(s, Overflows(s, measure, budget, i + 1, i + 1), i), initX, y, lineHeight)
    decreases |s| - i, 0
  {
    CountedEmpty(s, measure, i + 1);
    ScanIsGreedy(s, measure, budget, initX, lineHeight, i + 1, i, 0.0, y, i + 1);
  }

  /** `ScanIsGreedyHit` at the last character: the text before it, then the character alone. */
  lemma GreedyLastHit(s: string, measure: char -> real, budget: real, initX: real,
                      lineHeight: real, last: nat, lineWidth: real, y: real, c: nat)
    requires last <= c <= |s| - 1
    requires Counted(s, measure, c, |s|) > budget
    requires lineWidth + measure(s[|s| - 1]) > budget
    ensures Overflows(s, measure, budget, c, |s| - 1) == [|s| - 1]
    ensures Breaks([|s| - 1], last, |s|)
    ensures Scan(s, measure, budget, initX, lineHeight, |s| - 1, last, lineWidth, y)
            == Place(Cut(s, [|s| - 1], last), initX, y, lineHeight)
  {
    OverflowsHit(s, measure, budget, c, |s| - 1);
    assert Overflows(s, measure, budget, |s|, |s|) == [];
    PlaceCutCons(s, |s| - 1, [], last, initX, y, lineHeight);
    ScanLastHit(s, measure, budget, initX, lineHeight, last, lineWidth, y);
    PlaceCutNil(s, |s| - 1, initX, y + lineHeight, lineHeight);
  }

  /** `ScanIsGreedyFit` at the last character. */
  lemma GreedyLastFit(s: string, measure: char -> real, budget: real, initX: real,
                      lineHeight: real, last: nat, lineWidth: real, y: real, c: nat)
    requires last <= c <= |s| - 1
    requires Counted(s, measure, c, |s|) <= budget
    requires lineWidth + measure(s[|s| - 1]) <= budget
    ensures Overflows(s, measure, budget, c, |s| - 1) == []
    ensures Scan(s, measure, budget, initX, lineHeight, |s| - 1, last, lineWidth, y)
            == Place(Cut(s, [], last), initX, y, lineHeight)
  {
    OverflowsFit(s, measure, budget, c, |s| - 1);
    ScanLastFit(s, measure, budget, initX, lineHeight, last, lineWidth, y);
    PlaceCutNil(s, last, initX, y, lineHeight);
  }

  /**
   * For non-empty text, the draw calls are the text cut at its overflow positions, line `k`
   * at `(initX, initY + k * lineHeight)`.
   */
  lemma AutoLineIsGreedy(s: string, measure: char -> real, width: real,
                         initX: real, initY: real, lineHeight: real)
    requires s != []
    ensures CanvasTextAutoLine(s, measure, width, initX, initY, lineHeight)
            == Place(Cut(s, LineBreaks(s, measure, width - initX), 0), initX, initY, lineHeight)
  {
    ScanIsGreedy(s, measure, width - initX, initX, lineHeight, 0, 0, 0.0, initY, 0);
  }

  // ---------------------------------------------------------------------------------------------
  // Properties of the wrap
  // ---------------------------------------------------------------------------------------------

  /** Exactly the empty text draws nothing: every non-empty text yields at least one line. */
  lemma AutoLineEmptyIff(s: string, measure: char -> real, width: real,
                         initX: real, initY: real, lineHeight: real)
    ensures s == [] <==> CanvasTextAutoLine(s, measure, width, initX, initY, lineHeight) == []
  {
    if s != [] {
      AutoLinePartition(s, measure, width, initX, initY, lineHeight);
    }
  }

  lemma {:induction false} JoinCut(s: string, bs: seq<nat>, start: nat)
    requires start <= |s|
    requires Breaks(bs, start, |s|)
    ensures Join(Cut(s, bs, start)) == s[start..]
    decreases |bs|
  {
    if bs != [] {
      JoinCut(s, bs[1..], bs[0]);
      assert s[start..bs[0]] + s[bs[0]..] == s[start..];
    }
  }

  /** No character is dropped or duplicated: the drawn texts, in order, spell the input. */
  lemma AutoLinePartition(s: string, measure: char -> real, width: real,
                          initX: real, initY: real, lineHeight: real)
    ensures Join(Texts(CanvasTextAutoLine(s, measure, width, initX, initY, lineHeight))) == s
  {
    if s != [] {
      AutoLineIsGreedy(s, measure, width, initX, initY, lineHeight);
      var lines := Cut(s, LineBreaks(s, measure, width - initX), 0);
      PlaceAt(lines, initX, initY, lineHeight);
      assert Texts(Place(lines, initX, initY, lineHeight)) == lines;
      JoinCut(s, LineBreaks(s, measure, width - initX), 0);
    }
  }

  /**
   * Line `k` is drawn at `(initX, initY + k * lineHeight)`, and there is one line more than there
   * are overflow events.
   */
  lemma AutoLineLayout(s: string, measure: char -> real, width: real,
                       initX: real, initY: real, lineHeight: real)
    requires s != []
    ensures var calls := CanvasTextAutoLine(s, measure, width, initX, initY, lineHeight);
            && |calls| == |LineBreaks(s, measure, width - initX)| + 1
            && forall k :: 0 <= k < |calls| ==>
                 calls[k].x == initX && calls[k].y == initY + (k as real) * lineHeight
  {
    AutoLineIsGreedy(s, measure, width, initX, initY, lineHeight);
    PlaceAt(Cut(s, LineBreaks(s, measure, width - initX), 0), initX, initY, lineHeight);
  }

  /**
   * Exactly one line is drawn, holding the whole text, iff no prefix of the text is wider than
   * `width - initX`.
   */
  lemma AutoLineSingleLine(s: string, measure: char -> real, width: real,
                           initX: real, initY: real, lineHeight: real)
    requires s != []
    ensures var calls := CanvasTextAutoLine(s, measure, width, initX, initY, lineHeight);
            (|calls| == 1) <==> NoOverflowFrom(s, measure, width - initX, 0)
    ensures var calls := CanvasTextAutoLine(s, measure, width, initX, initY, lineHeight);
            |calls| == 1 ==> calls == [DrawCall(s, initX, initY)]
  {
    var budget := width - initX;
    AutoLineIsGreedy(s, measure, width, initX, initY, lineHeight);
    var b := FindOverflow(s, measure, budget, 0, 0);
    if b == |s| {
      assert LineBreaks(s, measure, budget) == [];
      assert s[0..] == s;
    } else {
      assert |LineBreaks(s, measure, budget)| >= 1;
      assert Counted(s, measure, 0, b + 1) > budget;
    }
  }

  /** Line `k` of the cut runs from the previous cut position (or `start`) to the next (or the end). */
  lemma {:induction false} CutAt(s: string, bs: seq<nat>, start: nat, k: nat)
    requires start <= |s|
    requires Breaks(bs, start, |s|)
    requires k <= |bs|
    ensures var from := if k == 0 then start else bs[k - 1];
            var to := if k < |bs| then bs[k] else |s|;
            && from <= to <= |s|
            && (k > 0 ==> from < to)
            && Cut(s, bs, start)[k] == s[from..to]
    decreases |bs|
  {
    if bs != [] && k > 0 {
      CutAt(s, bs[1..], bs[0], k - 1);
    }
  }

  /** The positions alone, for any text. */
  lemma AutoLinePositions(s: string, measure: char -> real, width: real,
                          initX: real, initY: real, lineHeight: real)
    ensures var calls := CanvasTextAutoLine(s, measure, width, initX, initY, lineHeight);
            forall k :: 0 <= k < |calls| ==>
              calls[k].x == initX && calls[k].y == initY + (k as real) * lineHeight
  {
    if s != [] {
      AutoLineLayout(s, measure, width, initX, initY, lineHeight);
    }
  }

  /**
   * Only the first line can be empty, and it is empty exactly when the first character alone is
   * wider than `width - initX`.
   */
  lemma AutoLineEmptyLines(s: string, measure: char -> real, width: real,
                           initX: real, initY: real, lineHeight: real)
    requires s != []
    ensures var calls := CanvasTextAutoLine(s, measure, width, initX, initY, lineHeight);
            forall k :: 0 <= k < |calls| ==>
              (calls[k].text == [] <==> k == 0 && measure(s[0]) > width - initX)
  {
    var budget := width - initX;
    AutoLineIsGreedy(s, measure, width, initX, initY, lineHeight);
    var bs := LineBreaks(s, measure, budget);
    var lines := Cut(s, bs, 0);
    assert Counted(s, measure, 0, 1) == measure(s[0]) by {
      WidthSnoc(measure, s, 0, 0);
      assert s[0..0] == [];
    }
    PlaceAt(lines, initX, initY, lineHeight);
    forall k | 0 <= k < |lines|
      ensures lines[k] == [] <==> k == 0 && measure(s[0]) > budget
    {
      CutAt(s, bs, 0, k);
      if k == 0 {
        if |bs| > 0 {
          assert bs[0] == FindOverflow(s, measure, budget, 0, 0);
        } else {
          assert FindOverflow(s, measure, budget, 0, 0) == |s|;
        }
      }
    }
  }

  /**
   * `bs` is the greedy list of overflow positions for counting from `c`: its first element is the
   * first position where the counted widths pass the budget, the rest is the greedy list for
   * counting again from just after it (the overflowing character's own width is never counted
   * towards the line it starts), and when it is empty no prefix passes the budget.
   */
  ghost predicate Greedy(s: string, measure: char -> real, budget: real, c: nat, bs: seq<nat>)
    decreases |bs|
  {
    if bs == [] then NoOverflowFrom(s, measure, budget, c)
    else IsFirstOverflow(s, measure, budget, c, bs[0]) && Greedy(s, measure, budget, bs[0] + 1, bs[1..])
  }

  /** The searched overflow positions are the greedy ones. */
  lemma {:induction false} OverflowsAreGreedy(s: string, measure: char -> real, budget: real, c: nat)
    requires c <= |s|
    ensures Greedy(s, measure, budget, c, Overflows(s, measure, budget, c, c))
    decreases |s| - c
  {
    var b := FindOverflow(s, measure, budget, c, c);
    if b < |s| {
      var rest := Overflows(s, measure, budget, b + 1, b + 1);
      OverflowsAreGreedy(s, measure, budget, b + 1);
      assert Overflows(s, measure, budget, c, c) == [b] + rest;
      assert IsFirstOverflow(s, measure, budget, c, b);
      assert ([b] + rest)[1..] == rest;
    } else {
      assert Overflows(s, measure, budget, c, c) == [];
      assert NoOverflowFrom(s, measure, budget, c);
    }
  }

  /** The search finds the first overflow wherever it starts at or before it. */
  lemma {:induction false} FindFirstOverflow(s: string, measure: char -> real, budget: real,
                                             c: nat, j: nat, b: nat)
    requires c <= j <= b
    requires IsFirstOverflow(s, measure, budget, c, b)
    ensures FindOverflow(s, measure, budget, c, j) == b
    decreases b - j
  {
    if j < b {
      assert Counted(s, measure, c, j + 1) <= budget;
      FindFirstOverflow(s, measure, budget, c, j + 1, b);
    }
  }

  /** The greedy list is unique: any greedy list is the searched one. */
  lemma {:induction false} GreedyIsOverflows(s: string, measure: char -> real, budget: real,
                                             c: nat, bs: seq<nat>)
    requires c <= |s|
    requires Greedy(s, measure, budget, c, bs)
    ensures bs == Overflows(s, measure, budget, c, c)
    decreases |bs|
  {
    if bs != [] {
      FindFirstOverflow(s, measure, budget, c, c, bs[0]);
      GreedyIsOverflows(s, measure, budget, bs[0] + 1, bs[1..]);
      assert Overflows(s, measure, budget, c, c)
          == [bs[0]] + Overflows(s, measure, budget, bs[0] + 1, bs[0] + 1);
      assert bs == [bs[0]] + bs[1..];
    } else {
      var b := FindOverflow(s, measure, budget, c, c);
      if b < |s| {
        assert false;
      }
    }
  }

  /** `b` is the first position from `from` on where the widths of `s[from..b+1]` exceed `budget`. */
  ghost predicate IsFirstOverflow(s: string, measure: char -> real, budget: real, from: nat, b: nat)
  {
    && from <= b < |s|
    && Counted(s, measure, from, b + 1) > budget
    && forall e :: from < e <= b ==> Counted(s, measure, from, e) <= budget
  }

  /** No non-empty prefix of `s[from..]` is wider than `budget`. */
  ghost predicate NoOverflowFrom(s: string, measure: char -> real, budget: real, from: nat)
  {
    forall e :: from < e <= |s| ==> Counted(s, measure, from, e) <= budget
  }
}
