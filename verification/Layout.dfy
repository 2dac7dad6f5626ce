/** Word wrap of a message body for the display. */
module Layout {
  const LINE_CHARS: nat := 21

  datatype Line = Line(start: nat, length: nat)

  function End(l: Line): nat {
    l.start + l.length
  }

  predicate Space(c: char) {
    c == ' ' || c == '\t'
  }

  predicate Continues(body: string, k: nat) {
    k < |body| && 0x80 <= body[k] as int < 0xC0
  }

  /** utf8_sequence_length; past the end of the body stands a zero byte, which continues nothing. */
  function SequenceLength(body: string, k: nat): (n: nat)
    requires k < |body|
    ensures 1 <= n <= 4 && k + n <= |body|
    ensures forall j :: k < j < k + n ==> Continues(body, j)
  {
    var c := body[k] as int;
    if c < 0x80 then 1
    else if 0xC0 <= c < 0xE0 && Continues(body, k + 1) then 2
    else if 0xE0 <= c < 0xF0 && Continues(body, k + 1) && Continues(body, k + 2) then 3
    else if 0xF0 <= c < 0xF8 && Continues(body, k + 1) && Continues(body, k + 2) && Continues(body, k + 3) then 4
    else 1
  }

  /** No sequence has bytes on both sides of the position. */
  predicate Between(body: string, b: nat) {
    forall q :: 0 <= q < b && q < |body| ==> q + SequenceLength(body, q) <= b
  }

  lemma BetweenNext(body: string, p: nat)
    requires p < |body| && Between(body, p)
    ensures Between(body, p + SequenceLength(body, p))
  {
  }

  // ----- what a layout is -----

  /** No newline in the text of the line, and no blank at its front. */
  predicate Plain(body: string, start: nat, end: nat)
    requires start <= end <= |body|
  {
    && (forall k :: start <= k < end ==> body[k] != '\n')
    && (start < end ==> !Space(body[start]))
  }

  /** Where a line must end when the text from its start to q fits and the sequence at q does not. */
  ghost predicate WrapsAt(body: string, start: nat, end: nat, q: nat) {
    && start < q < |body| && q - start <= LINE_CHARS < q + SequenceLength(body, q) - start
    && (forall k :: start <= k <= q ==> body[k] != '\n')
    && Between(body, q) && start < end <= q
    && (end < q ==> Space(body[end]))
    && (forall k :: (if end == q then start else end) < k < q ==> !Space(body[k]))
  }

  /** A line ends at a newline, at the end of the body, or where it wraps. */
  ghost predicate Ends(body: string, start: nat, end: nat) {
    end >= |body| || body[end] == '\n' || exists q :: WrapsAt(body, start, end, q)
  }

  ghost predicate LineOk(body: string, l: Line) {
    && End(l) <= |body| && l.length <= LINE_CHARS
    && Plain(body, l.start, End(l)) && Ends(body, l.start, End(l))
    && Between(body, l.start) && Between(body, End(l))
  }

  /** What stands between lines: blanks, and the newline that ended the line before, which is always passed. */
  predicate Gap(body: string, from: nat, to: nat, first: bool) {
    && from <= to <= |body|
    && (forall k :: from <= k < to ==> Space(body[k]) || (k == from && !first && body[k] == '\n'))
    && (!first && from < |body| && body[from] == '\n' ==> from < to)
  }

  function Before(lines: seq<Line>, i: nat): nat
    requires i <= |lines|
  {
    if i == 0 then 0 else End(lines[i - 1])
  }

  ghost predicate Laid(body: string, lines: seq<Line>) {
    && (forall i :: 0 <= i < |lines| ==> LineOk(body, lines[i]))
    && (forall i {:trigger Before(lines, i)} :: 0 <= i < |lines| ==>
        Gap(body, Before(lines, i), lines[i].start, i == 0))
    && (forall i :: 0 <= i < |lines| - 1 ==> End(lines[i]) < |body|)
  }

  ghost predicate Complete(body: string, lines: seq<Line>) {
    && lines != [] && Gap(body, End(lines[|lines| - 1]), |body|, false)
    && (body != "" && body[|body| - 1] == '\n' ==> lines[|lines| - 1] == Line(|body|, 0))
    && (|lines| > 1 && lines[|lines| - 1] == Line(|body|, 0) ==> body != "" && body[|body| - 1] == '\n')
  }

  lemma LaidSnoc(body: string, lines: seq<Line>, l: Line)
    requires Laid(body, lines) && LineOk(body, l) && Gap(body, Before(lines, |lines|), l.start, lines == [])
    requires lines != [] ==> Before(lines, |lines|) < |body|
    ensures Laid(body, lines + [l])
  {
    hide LineOk, Gap;
    var r := lines + [l];
    forall i | 0 <= i < |r|
      ensures Gap(body, Before(r, i), r[i].start, i == 0)
    {
      assert Before(r, i) == Before(lines, i);
    }
  }

  /** The lines before the loop's position, and the part of a line that it has read. */
  ghost predicate Reading(body: string, lines: seq<Line>, start: nat, position: nat, lastSpace: int) {
    && Laid(body, lines) && |lines| <= start <= position <= |body|
    && position - start <= LINE_CHARS
    && Gap(body, Before(lines, |lines|), start, lines == []) && (lines != [] ==> Before(lines, |lines|) < |body|)
    && Plain(body, start, position) && Between(body, start) && Between(body, position)
    && lastSpace < position
    && (lastSpace >= 0 ==> start < lastSpace && Space(body[lastSpace]) && Between(body, lastSpace))
    && (forall k :: start <= k < position && k > lastSpace ==> !Space(body[k]))
  }

  lemma NewlineEmits(body: string, lines: seq<Line>, start: nat, position: nat, lastSpace: int)
    requires Reading(body, lines, start, position, lastSpace) && position < |body| && body[position] == '\n'
    ensures Reading(body, lines + [Line(start, position - start)], position + 1, position + 1, -1)
  {
    hide Laid;
    LaidSnoc(body, lines, Line(start, position - start));
    BetweenNext(body, position);
  }

  lemma WrapEmits(body: string, lines: seq<Line>, start: nat, position: nat, lastSpace: int)
    requires Reading(body, lines, start, position, lastSpace) && start < position < |body| && body[position] != '\n'
    requires position - start + SequenceLength(body, position) > LINE_CHARS
    ensures lastSpace >= 0 ==> Reading(body, lines + [Line(start, lastSpace - start)], lastSpace + 1, lastSpace + 1, -1)
    ensures lastSpace < 0 ==> Reading(body, lines + [Line(start, position - start)], position, position, -1)
  {
    hide Laid, Between;
    var end := if lastSpace >= 0 then lastSpace else position;
    assert WrapsAt(body, start, end, position);
    LaidSnoc(body, lines, Line(start, end - start));
    if lastSpace >= 0 { BetweenNext(body, lastSpace); }
  }

  lemma BlankSkipped(body: string, lines: seq<Line>, start: nat)
    requires Reading(body, lines, start, start, -1) && start < |body| && Space(body[start])
    ensures Reading(body, lines, start + 1, start + 1, -1)
  {
  }

  lemma SequenceRead(body: string, lines: seq<Line>, start: nat, position: nat, lastSpace: int)
    requires Reading(body, lines, start, position, lastSpace) && position < |body| && body[position] != '\n'
    requires position > start ==> position - start + SequenceLength(body, position) <= LINE_CHARS
    requires position == start ==> !Space(body[position])
    ensures Reading(body, lines, start, position + SequenceLength(body, position),
                    if Space(body[position]) then position else lastSpace)
  {
    hide Laid, Between;
    BetweenNext(body, position);
    var next := position + SequenceLength(body, position);
    forall k | position < k < next ensures body[k] != '\n' && !Space(body[k]) { assert Continues(body, k); }
  }

  lemma LastEmits(body: string, lines: seq<Line>, start: nat, lastSpace: int)
    requires Reading(body, lines, start, |body|, lastSpace) && body != ""
    requires start < |body| || lines == [] || body[|body| - 1] == '\n'
    ensures Laid(body, lines + [Line(start, |body| - start)]) && Complete(body, lines + [Line(start, |body| - start)])
  {
    hide Laid, Between;
    LaidSnoc(body, lines, Line(start, |body| - start));
  }

  method Emit(lines: array<Line>, count: nat, start: nat, end: nat) returns (r: nat)
    requires count < lines.Length && start <= end
    modifies lines
    ensures r == count + 1 && lines[..r] == old(lines[..count]) + [Line(start, end - start)]
  {
    lines[count] := Line(start, end - start);
    r := count + 1;
  }

  /**
   * presence_layout_body: lines in order, none longer than the display, none splitting a sequence, and between
   * them only blanks and newlines. With more slots than bytes the whole body is laid out.
   */
  method LayoutBody(body: string, lines: array<Line>) returns (count: nat)
    modifies lines
    ensures count <= lines.Length && Laid(body, lines[..count])
    ensures lines.Length > |body| ==> Complete(body, lines[..count])
  {
    hide Reading, Laid, Complete;
    EmptyLayout(body);
    count := 0;
    assert lines[..0] == [];
    if lines.Length == 0 { return; }
    if body == "" {
      count := Emit(lines, 0, 0, 0);
      return;
    }
    var lineStart, position := 0, 0;
    var lastSpace: int := -1;
    while position < |body| && count < lines.Length
      invariant count <= lines.Length && lineStart <= position <= |body| && lastSpace < position
      invariant Reading(body, lines[..count], lineStart, position, lastSpace)
      decreases |body| - lineStart, |body| - position
    {
      ReadingFacts(body, lines[..count], lineStart, position, lastSpace);
      var c := body[position];
      if c == '\n' {
        NewlineEmits(body, lines[..count], lineStart, position, lastSpace);
        count := Emit(lines, count, lineStart, position);
        position := position + 1;
        lineStart, lastSpace := position, -1;
        continue;
      }
      var length := SequenceLength(body, position);
      if position > lineStart && position - lineStart + length > LINE_CHARS {
        WrapEmits(body, lines[..count], lineStart, position, lastSpace);
        if lastSpace >= 0 {
          count := Emit(lines, count, lineStart, lastSpace);
          position := lastSpace + 1;
        } else {
          count := Emit(lines, count, lineStart, position);
        }
        lineStart, lastSpace := position, -1;
        continue;
      }
      if Space(c) {
        if position == lineStart {
          BlankSkipped(body, lines[..count], lineStart);
          position := position + 1;
          lineStart := position;
          continue;
        }
      }
      SequenceRead(body, lines[..count], lineStart, position, lastSpace);
      if Space(c) { lastSpace := position; }
      position := position + length;
    }
    ReadingFacts(body, lines[..count], lineStart, position, lastSpace);
    if count < lines.Length && (position > lineStart || count == 0 || body[position - 1] == '\n') {
      LastEmits(body, lines[..count], lineStart, lastSpace);
      count := Emit(lines, count, lineStart, position);
    } else if count < lines.Length {
      AllLaid(body, lines[..count], lineStart, lastSpace);
    }
  }

  lemma EmptyLayout(body: string)
    ensures Laid(body, []) && Reading(body, [], 0, 0, -1)
    ensures body == "" ==> Laid(body, [] + [Line(0, 0)]) && Complete(body, [] + [Line(0, 0)])
  {
  }

  lemma ReadingFacts(body: string, lines: seq<Line>, start: nat, position: nat, lastSpace: int)
    requires Reading(body, lines, start, position, lastSpace)
    ensures |lines| <= start && Laid(body, lines)
    ensures lastSpace >= 0 ==> start < lastSpace
    ensures start == position ==> lastSpace < 0
  {
  }

  lemma AllLaid(body: string, lines: seq<Line>, start: nat, lastSpace: int)
    requires Reading(body, lines, start, |body|, lastSpace) && start == |body| && lines != []
    requires body == "" || body[|body| - 1] != '\n'
    ensures Complete(body, lines)
  {
  }

  // ----- what follows from a layout -----

  predicate Covered(lines: seq<Line>, k: nat) {
    exists i :: 0 <= i < |lines| && lines[i].start <= k < End(lines[i])
  }

  lemma GapBefore(body: string, lines: seq<Line>, i: nat)
    requires Laid(body, lines) && i < |lines|
    ensures Before(lines, i) <= lines[i].start && lines[i].start <= End(lines[i]) <= |body|
    ensures forall k :: Before(lines, i) <= k < lines[i].start ==> Space(body[k]) || body[k] == '\n'
  {
  }

  lemma {:induction false} LinesInOrder(body: string, lines: seq<Line>, i: nat, j: nat)
    requires Laid(body, lines) && i < j < |lines|
    ensures End(lines[i]) <= lines[j].start
    decreases j
  {
    hide Laid;
    GapBefore(body, lines, j);
    if i < j - 1 {
      GapBefore(body, lines, j - 1);
      LinesInOrder(body, lines, i, j - 1);
    }
  }

  lemma {:induction false} CoveredBefore(body: string, lines: seq<Line>, n: nat, k: nat)
    requires Laid(body, lines) && n <= |lines| && k < Before(lines, n) <= |body|
    ensures Covered(lines, k) || Space(body[k]) || body[k] == '\n'
    decreases n
  {
    hide Laid;
    if n > 0 {
      GapBefore(body, lines, n - 1);
      if k < Before(lines, n - 1) {
        CoveredBefore(body, lines, n - 1, k);
      } else if k >= lines[n - 1].start {
        assert Covered(lines, k);
      }
    }
  }

  /** Of a body that is laid out whole, only blanks and newlines are not shown. */
  lemma OnlyBlanksDropped(body: string, lines: seq<Line>, k: nat)
    requires Laid(body, lines) && Complete(body, lines) && k < |body|
    ensures Covered(lines, k) || Space(body[k]) || body[k] == '\n'
  {
    var n := |lines|;
    assert LineOk(body, lines[n - 1]);
    if k < Before(lines, n) {
      CoveredBefore(body, lines, n, k);
    }
  }

  /** A sequence is on one line or on none. */
  lemma SequencesStayWhole(body: string, lines: seq<Line>, q: nat, i: nat)
    requires Laid(body, lines) && i < |lines| && q < |body|
    ensures var end := q + SequenceLength(body, q);
            (lines[i].start <= q && end <= End(lines[i])) || end <= lines[i].start || End(lines[i]) <= q
  {
  }

  // ----- there is only one layout -----

  lemma SameLine(body: string, from: nat, a: Line, b: Line, first: bool)
    requires LineOk(body, a) && LineOk(body, b) && Gap(body, from, a.start, first) && Gap(body, from, b.start, first)
    ensures a == b
  {
  }

  lemma {:induction false} SamePrefix(body: string, a: seq<Line>, b: seq<Line>, n: nat)
    requires Laid(body, a) && Laid(body, b) && n <= |a| && n <= |b|
    ensures a[..n] == b[..n]
    decreases n
  {
    hide LineOk, Gap;
    if n > 0 {
      SamePrefix(body, a, b, n - 1);
      assert n > 1 ==> a[..n - 1][n - 2] == b[..n - 1][n - 2];
      assert Before(b, n - 1) == Before(a, n - 1);
      SameLine(body, Before(a, n - 1), a[n - 1], b[n - 1], n - 1 == 0);
      assert a[..n] == a[..n - 1] + [a[n - 1]] && b[..n] == b[..n - 1] + [b[n - 1]];
    }
  }

  lemma LineInGap(body: string, from: nat, l: Line)
    requires LineOk(body, l) && Gap(body, from, l.start, false) && Gap(body, from, |body|, false)
    ensures l == Line(|body|, 0)
  {
  }

  lemma NoMoreLines(body: string, a: seq<Line>, b: seq<Line>)
    requires Laid(body, a) && Complete(body, a) && Laid(body, b) && Complete(body, b)
    requires |b| <= |a| && a[..|b|] == b
    ensures |a| == |b|
  {
    hide LineOk, Gap;
    var i := |b|;
    assert a[..i][i - 1] == b[i - 1];
    if i < |a| {
      assert Before(a, i) == End(b[i - 1]);
      LineInGap(body, End(b[i - 1]), a[i]);
      LastOfLines(body, a, i);
    }
  }

  lemma LastOfLines(body: string, lines: seq<Line>, i: nat)
    requires Laid(body, lines) && i < |lines| && End(lines[i]) >= |body|
    ensures i + 1 == |lines|
  {
  }

  /** The text and the width leave no choice: two layouts of one body are the same. */
  lemma LayoutDetermined(body: string, a: seq<Line>, b: seq<Line>)
    requires Laid(body, a) && Complete(body, a) && Laid(body, b) && Complete(body, b)
    ensures a == b
  {
    hide Laid, Complete;
    if |a| <= |b| {
      SamePrefix(body, a, b, |a|);
      assert a[..|a|] == a && b[..|b|] == b;
      assert b[..|a|] == a;
      NoMoreLines(body, b, a);
    } else {
      SamePrefix(body, a, b, |b|);
      assert b[..|b|] == b;
      assert a[..|b|] == b;
      NoMoreLines(body, a, b);
    }
  }
}
