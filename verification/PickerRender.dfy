/** Drawing the picker: the synthesized header, divider and slot around the visible rows, and the
    geometry of the box on a terminal of any size. Colors are not modelled; strings have the
    column widths a `Metrics` gives them. */
module PickerRender {
  import opened Prelude
  import opened PickerRows
  import opened RowAssembly
  import opened Picker

  datatype Line = Line(glyph: string, text: string, dim: bool, selected: bool, divider: bool)

  const HEADER := Line("", "local", true, false, false)
  const DIVIDER := Line("", "", true, false, true)
  const BLANK := Line("", "", false, false, false)

  function Slot(selected: bool): Line { Line("", "\U{ff0b} Connect to a host\U{2026}", false, selected, false) }

  function Decimal(n: nat): string {
    (if n < 10 then "" else Decimal(n / 10)) + [('0' as int + n % 10) as char]
  }

  function StatusGlyph(status: RowStatus): string {
    match status
    case Live => "\U{25cf}"
    case Empty => "\U{25cb}"
    case Unreachable => "\U{26a0}"
    case NeedsAuth => "\U{26a0} auth"
    case Pending => "\U{2026}"
    case VersionMismatch(v) => "\U{26a0} v" + Decimal(v)
  }

  predicate IsAdHoc(r: Row, adhoc: seq<string>) { r.host.Remote? && r.host.name in adhoc }

  /** The line of one row. */
  function RowLine(r: Row, adhoc: seq<string>, selected: bool): (l: Line)
    ensures !l.dim && !l.divider && l.selected == selected
  {
    match r.kind
    case HostRow =>
      var tag := if IsAdHoc(r, adhoc) then "ad-hoc" else "configured";
      Line(StatusGlyph(r.status), if r.host == Local then r.name else r.name + "  (" + tag + ")", false, selected, false)
    case SessionRow => Line("  " + StatusGlyph(r.status), r.caption, false, selected, false)
  }

  datatype Emitted = Emitted(local: bool, divider: bool, any: bool)

  const NOTHING_YET := Emitted(false, false, false)

  /** What goes above row `r`, given what has been emitted before it. */
  function Above(r: Row, adhoc: seq<string>, seen: Emitted): seq<Line> {
    (if r.host == Local && !seen.local && r.kind == SessionRow then [HEADER] else []) +
    (if IsAdHoc(r, adhoc) && seen.any && !seen.divider then [DIVIDER] else [])
  }

  function Seen(r: Row, adhoc: seq<string>, seen: Emitted): Emitted {
    Emitted(seen.local || r.host == Local, seen.divider || (IsAdHoc(r, adhoc) && seen.any), true)
  }

  /** The content lines of `rows`; `at` is the cursor's distance from the first of them. */
  function LinesFrom(rows: seq<Row>, adhoc: seq<string>, at: int, seen: Emitted): seq<Line> {
    if rows == [] then []
    else
      (Above(rows[0], adhoc, seen) + [RowLine(rows[0], adhoc, at == 0)])
      + LinesFrom(rows[1..], adhoc, at - 1, Seen(rows[0], adhoc, seen))
  }

  function ContentOf(s: State): seq<Line> {
    LinesFrom(s.Visible(), s.adhoc, s.cursor, NOTHING_YET) + [Slot(s.OnSlot())]
  }

  method ContentLines(visible: seq<Row>, adhoc: seq<string>, cursor: nat) returns (lines: seq<Line>)
    ensures lines == LinesFrom(visible, adhoc, cursor, NOTHING_YET) + [Slot(cursor == |visible|)]
  {
    lines := [];
    var emittedLocal, emittedDivider, emittedAny := false, false, false;
    ghost var all := LinesFrom(visible, adhoc, cursor, NOTHING_YET);
    hide RowLine;
    for i := 0 to |visible|
      invariant lines + LinesFrom(visible[i..], adhoc, cursor - i, Emitted(emittedLocal, emittedDivider, emittedAny)) == all
    {
      var row := visible[i];
      ghost var seen := Emitted(emittedLocal, emittedDivider, emittedAny);
      ghost var before := lines;
      var isLocal := row.host == Local;
      var isAdHoc := IsAdHoc(row, adhoc);
      if isLocal && !emittedLocal {
        if row.kind == SessionRow {
          lines := lines + [HEADER];
        }
        emittedLocal := true;
      }
      if isAdHoc && emittedAny && !emittedDivider {
        lines := lines + [DIVIDER];
        emittedDivider := true;
      }
      lines := lines + [RowLine(row, adhoc, i == cursor)];
      emittedAny := true;
      assert visible[i..][1..] == visible[i + 1..];
      assert lines == before + (Above(row, adhoc, seen) + [RowLine(row, adhoc, i == cursor)]);
      ConcatAssociative(before, Above(row, adhoc, seen) + [RowLine(row, adhoc, i == cursor)],
                        LinesFrom(visible[i + 1..], adhoc, cursor - i - 1, Seen(row, adhoc, seen)));
    }
    assert lines + [] == lines;
    lines := lines + [Slot(cursor == |visible|)];
  }

  // --- what is drawn ---

  function RowLines(rows: seq<Row>, adhoc: seq<string>, at: int): seq<Line> {
    if rows == [] then [] else [RowLine(rows[0], adhoc, at == 0)] + RowLines(rows[1..], adhoc, at - 1)
  }

  function Bright(lines: seq<Line>): seq<Line> { Filter(lines, (l: Line) => !l.dim) }

  function Highlighted(lines: seq<Line>): seq<Line> { Filter(lines, (l: Line) => l.selected) }

  lemma {:induction false} BrightFrom(rows: seq<Row>, adhoc: seq<string>, at: int, seen: Emitted)
    ensures Bright(LinesFrom(rows, adhoc, at, seen)) == RowLines(rows, adhoc, at)
  {
    hide RowLine;
    if rows != [] {
      var above, line := Above(rows[0], adhoc, seen), RowLine(rows[0], adhoc, at == 0);
      var p := (l: Line) => !l.dim;
      BrightFrom(rows[1..], adhoc, at - 1, Seen(rows[0], adhoc, seen));
      FilterAppend(above + [line], LinesFrom(rows[1..], adhoc, at - 1, Seen(rows[0], adhoc, seen)), p);
      FilterAppend(above, [line], p);
      FilterNone(above, p);
      FilterAll([line], p);
    }
  }

  lemma {:induction false} HighlightedRows(rows: seq<Row>, adhoc: seq<string>, at: int)
    ensures Highlighted(RowLines(rows, adhoc, at)) ==
            if 0 <= at < |rows| then [RowLine(rows[at], adhoc, true)] else []
  {
    hide RowLine;
    if rows != [] {
      var line, rest := RowLine(rows[0], adhoc, at == 0), RowLines(rows[1..], adhoc, at - 1);
      HighlightedRows(rows[1..], adhoc, at - 1);
      assert ([line] + rest)[1..] == rest;
      assert [line] + [] == [line] && [] + Highlighted(rest) == Highlighted(rest);
    }
  }

  lemma {:induction false} HighlightedFrom(rows: seq<Row>, adhoc: seq<string>, at: int, seen: Emitted)
    ensures Highlighted(LinesFrom(rows, adhoc, at, seen)) == Highlighted(RowLines(rows, adhoc, at))
  {
    hide RowLine;
    if rows != [] {
      var above, line := Above(rows[0], adhoc, seen), RowLine(rows[0], adhoc, at == 0);
      var rest := RowLines(rows[1..], adhoc, at - 1);
      var p := (l: Line) => l.selected;
      HighlightedFrom(rows[1..], adhoc, at - 1, Seen(rows[0], adhoc, seen));
      FilterAppend(above + [line], LinesFrom(rows[1..], adhoc, at - 1, Seen(rows[0], adhoc, seen)), p);
      FilterAppend(above, [line], p);
      FilterNone(above, p);
      FilterAppend([line], rest, p);
    }
  }

  /** Headers and divider apart, the content is one line per visible row, in order, then the slot;
      exactly one line is highlighted, and it is the selected row's or the slot. */
  lemma {:induction false} OneHighlight(s: State)
    requires s.InRange()
    ensures Bright(ContentOf(s)) == RowLines(s.Visible(), s.adhoc, s.cursor) + [Slot(s.OnSlot())]
    ensures Highlighted(ContentOf(s)) ==
            [if s.Selected().Some? then RowLine(s.Selected().value, s.adhoc, true) else Slot(true)]
  {
    hide RowLine, Matching;
    var rows, slot := s.Visible(), Slot(s.OnSlot());
    var lines := LinesFrom(rows, s.adhoc, s.cursor, NOTHING_YET);
    var dim, selected := (l: Line) => !l.dim, (l: Line) => l.selected;
    BrightFrom(rows, s.adhoc, s.cursor, NOTHING_YET);
    FilterAppend(lines, [slot], dim);
    FilterAll([slot], dim);
    HighlightedFrom(rows, s.adhoc, s.cursor, NOTHING_YET);
    HighlightedRows(rows, s.adhoc, s.cursor);
    FilterAppend(lines, [slot], selected);
    if s.OnSlot() {
      FilterAll([slot], selected);
      assert [] + [slot] == [slot];
    } else {
      FilterNone([slot], selected);
    }
  }

  // --- the divider ---

  /** The first ad-hoc row that has a row above it. */
  function LaterAdHoc(rows: seq<Row>, adhoc: seq<string>, any: bool): (r: Option<nat>)
    ensures r.Some? ==> r.value < |rows| && IsAdHoc(rows[r.value], adhoc) && (any || r.value > 0)
    ensures forall i :: (if any then 0 else 1) <= i < (if r.Some? then r.value else |rows|) ==> !IsAdHoc(rows[i], adhoc)
  {
    if rows == [] then None
    else if any && IsAdHoc(rows[0], adhoc) then Some(0)
    else
      assert forall k :: 1 <= k < |rows| ==> rows[k] == rows[1..][k - 1];
      match LaterAdHoc(rows[1..], adhoc, true)
      case Some(i) => Some(1 + i)
      case None => None
  }

  /** The rows' lines with a divider above row `i`. */
  function Divided(rows: seq<Row>, adhoc: seq<string>, at: int, i: Option<nat>): seq<Line> {
    match i
    case Some(k) =>
      if k <= |rows| then RowLines(rows[..k], adhoc, at) + [DIVIDER] + RowLines(rows[k..], adhoc, at - k) else []
    case None => RowLines(rows, adhoc, at)
  }

  function NoHeader(lines: seq<Line>): seq<Line> { Filter(lines, (l: Line) => l != HEADER) }

  lemma {:induction false} DividedCons(rows: seq<Row>, adhoc: seq<string>, at: int, i: Option<nat>)
    requires rows != [] && (i.Some? ==> i.value < |rows| - 1)
    ensures Divided(rows, adhoc, at, if i.Some? then Some(1 + i.value) else None) ==
            [RowLine(rows[0], adhoc, at == 0)] + Divided(rows[1..], adhoc, at - 1, i)
  {
    hide RowLine;
    if i.Some? {
      var k := i.value;
      assert rows[..1 + k][1..] == rows[1..][..k];
      assert rows[1 + k..] == rows[1..][k..];
      var head, front := [RowLine(rows[0], adhoc, at == 0)], RowLines(rows[1..][..k], adhoc, at - 1);
      var tail := RowLines(rows[1 + k..], adhoc, at - 1 - k);
      assert head + front + [DIVIDER] + tail == head + (front + [DIVIDER] + tail);
    }
  }

  lemma {:induction false} NothingDivided(adhoc: seq<string>, at: int)
    ensures NoHeader([]) == [] && Divided([], adhoc, at, None) == []
  {
  }

  lemma {:induction false} DividedHere(rows: seq<Row>, adhoc: seq<string>, at: int)
    requires rows != []
    ensures Divided(rows, adhoc, at, Some(0)) ==
            [DIVIDER] + ([RowLine(rows[0], adhoc, at == 0)] + Divided(rows[1..], adhoc, at - 1, None))
  {
    assert rows[..0] == [] && rows[0..] == rows;
    assert [] + [DIVIDER] == [DIVIDER];
  }

  lemma {:induction false} HeaderAbove(r: Row, adhoc: seq<string>, seen: Emitted, line: Line, rest: seq<Line>)
    requires !line.dim
    ensures NoHeader((Above(r, adhoc, seen) + [line]) + rest) ==
            (if IsAdHoc(r, adhoc) && seen.any && !seen.divider then [DIVIDER] else []) + ([line] + NoHeader(rest))
  {
    var p := (l: Line) => l != HEADER;
    var header := if r.host == Local && !seen.local && r.kind == SessionRow then [HEADER] else [];
    var divider := if IsAdHoc(r, adhoc) && seen.any && !seen.divider then [DIVIDER] else [];
    FilterAppend((header + divider) + [line], rest, p);
    FilterAppend(header + divider, [line], p);
    FilterAppend(header, divider, p);
    FilterNone(header, p);
    FilterAll(divider, p);
    FilterAll([line], p);
    assert [] + divider == divider;
    ConcatAssociative(divider, [line], NoHeader(rest));
  }

  lemma {:induction false} DividerFrom(rows: seq<Row>, adhoc: seq<string>, at: int, seen: Emitted)
    ensures NoHeader(LinesFrom(rows, adhoc, at, seen)) ==
            Divided(rows, adhoc, at, if seen.divider then None else LaterAdHoc(rows, adhoc, seen.any))
  {
    hide RowLine, NoHeader, Divided, IsAdHoc;
    if rows == [] {
      NothingDivided(adhoc, at);
    } else {
      var next := Seen(rows[0], adhoc, seen);
      DividerFrom(rows[1..], adhoc, at - 1, next);
      HeaderAbove(rows[0], adhoc, seen, RowLine(rows[0], adhoc, at == 0), LinesFrom(rows[1..], adhoc, at - 1, next));
      if IsAdHoc(rows[0], adhoc) && seen.any && !seen.divider {
        DividedHere(rows, adhoc, at);
      } else {
        DividedCons(rows, adhoc, at, if next.divider then None else LaterAdHoc(rows[1..], adhoc, true));
        var rest := [RowLine(rows[0], adhoc, at == 0)] + NoHeader(LinesFrom(rows[1..], adhoc, at - 1, next));
        assert [] + rest == rest;
      }
    }
  }

  /** There is one divider at most, above the first ad-hoc row that is not the first row of all. */
  lemma {:induction false} DividerPlacement(s: State)
    ensures var rows := s.Visible();
            var at := LaterAdHoc(rows, s.adhoc, false);
            && NoHeader(LinesFrom(rows, s.adhoc, s.cursor, NOTHING_YET)) == Divided(rows, s.adhoc, s.cursor, at)
            && (at.None? <==> forall i :: 1 <= i < |rows| ==> !IsAdHoc(rows[i], s.adhoc))
  {
    hide Matching, RowLine;
    DividerFrom(s.Visible(), s.adhoc, s.cursor, NOTHING_YET);
  }

  lemma OneRowLine(r: Row, adhoc: seq<string>, at: int)
    ensures RowLines([r], adhoc, at) == [RowLine(r, adhoc, at == 0)]
  {
    assert [r][1..] == [];
  }

  /** A list filtered down to one ad-hoc host shows that host on top of the divider and its
      session below it. */
  lemma {:induction false} DividerInsideAdHoc(s: State, anchor: Row, session: Row)
    requires s.Visible() == [anchor, session]
    requires anchor.host == session.host && IsAdHoc(anchor, s.adhoc)
    ensures NoHeader(LinesFrom(s.Visible(), s.adhoc, s.cursor, NOTHING_YET)) ==
            [RowLine(anchor, s.adhoc, s.cursor == 0), DIVIDER, RowLine(session, s.adhoc, s.cursor == 1)]
  {
    hide Matching, RowLine;
    var rows := s.Visible();
    DividerFrom(rows, s.adhoc, s.cursor, NOTHING_YET);
    assert rows[..1] == [anchor] && rows[1..] == [session];
    assert LaterAdHoc(rows[1..], s.adhoc, true) == Some(0);
    OneRowLine(anchor, s.adhoc, s.cursor);
    OneRowLine(session, s.adhoc, s.cursor - 1);
  }

  // --- the box ---

  /** How wide strings are on a terminal, and cutting one to a width. */
  datatype Metrics = Metrics(width: string -> nat, truncate: (string, nat) -> string)

  ghost predicate Sound(m: Metrics) {
    forall text, max :: m.width(m.truncate(text, max)) <= max
  }

  /** A stretch of one box row: a border glyph, a run of rules or blanks, or text. */
  datatype Piece = Edge | Rule(n: nat) | Blanks(n: nat) | Text(text: string)

  function PieceWidth(p: Piece, m: Metrics): nat {
    match p
    case Edge => 1
    case Rule(n) => n
    case Blanks(n) => n
    case Text(text) => m.width(text)
  }

  function Width(pieces: seq<Piece>, m: Metrics): nat {
    if pieces == [] then 0 else PieceWidth(pieces[0], m) + Width(pieces[1..], m)
  }

  function SaturatingSub(a: nat, b: nat): nat { if a < b then 0 else a - b }

  function Min(a: nat, b: nat): nat { if a < b then a else b }

  /** The truncating cast to sixteen bits. */
  function AsU16(n: nat): nat { n % 0x1_0000 }

  type u16 = n: nat | n < 0x1_0000

  function BoxWidth(cols: nat): nat { if SaturatingSub(cols, 4) < 1 then 1 else SaturatingSub(cols, 4) }

  function BoxLeft(cols: nat): nat { SaturatingSub(cols, BoxWidth(cols)) / 2 }

  /** A border row with its label cut to the interior and centered. */
  function EdgeRow(m: Metrics, inner: nat, caption: string): seq<Piece> {
    var text := m.truncate(caption, AsU16(inner));
    var pad := SaturatingSub(inner, m.width(text));
    [Edge, Rule(pad / 2), Text(text), Rule(pad - pad / 2), Edge]
  }

  function FrameInterior(m: Metrics, line: Line, inner: nat, textWidth: nat): seq<Piece> {
    if line.divider then [Edge, Rule(inner), Edge]
    else
      var plain := if line.glyph == "" then line.text else line.glyph + " " + line.text;
      var shown := m.truncate(plain, AsU16(textWidth));
      [Edge, Blanks(1), Text(shown), Blanks(SaturatingSub(textWidth, m.width(shown))), Blanks(1), Edge]
  }

  /** One box row at its place on the terminal (counted from 1); `line` is what it shows. */
  datatype Drawn = Drawn(row: nat, col: nat, pieces: seq<Piece>, line: Option<Line>)

  datatype Screen = Screen(rows: u16, cols: u16)

  /** The rows in effect: a terminal that reports none is treated as one of one row. */
  function Rows(size: Screen): nat { if size.rows == 0 then 1 else size.rows }

  function Cols(size: Screen): nat { if size.cols == 0 then 1 else size.cols }

  function BoxHeight(size: Screen, interior: seq<Line>): nat { Min(|interior| + 2, Rows(size)) }

  function BoxTop(size: Screen, interior: seq<Line>): nat { (Rows(size) - BoxHeight(size, interior)) / 2 }

  function BoxRow(m: Metrics, size: Screen, interior: seq<Line>, footer: string, r: nat): Drawn
    requires r < BoxHeight(size, interior)
  {
    var inner := SaturatingSub(BoxWidth(Cols(size)), 2);
    var last := BoxHeight(size, interior) - 1;
    var row, col := BoxTop(size, interior) + r + 1, BoxLeft(Cols(size)) + 1;
    if r == 0 then Drawn(row, col, EdgeRow(m, inner, " plexy-glass "), None)
    else if r == last then Drawn(row, col, EdgeRow(m, inner, footer), None)
    else Drawn(row, col, FrameInterior(m, interior[r - 1], inner, SaturatingSub(inner, 2)), Some(interior[r - 1]))
  }

  /** An optional notice, the content, a blank line and the prompt. */
  function Interior(content: seq<Line>, notice: Option<string>, prompt: string): seq<Line> {
    (if notice.Some? then [Line("\U{26a0}", notice.value, false, false, false)] else [])
    + content + [BLANK] + [Line("", prompt, true, false, false)]
  }

  method FillInterior(content: seq<Line>, notice: Option<string>, prompt: string) returns (interior: seq<Line>)
    ensures interior == Interior(content, notice, prompt)
  {
    interior := [];
    if notice.Some? {
      interior := interior + [Line("\U{26a0}", notice.value, false, false, false)];
    }
    interior := interior + content;
    interior := interior + [BLANK];
    interior := interior + [Line("", prompt, true, false, false)];
  }

  method DrawBox(m: Metrics, size: Screen, content: seq<Line>, notice: Option<string>, prompt: string, footer: string)
    returns (out: seq<Drawn>)
    ensures var interior := Interior(content, notice, prompt);
            && |out| == BoxHeight(size, interior)
            && forall r :: 0 <= r < |out| ==> out[r] == BoxRow(m, size, interior, footer, r)
  {
    var cols, rows := Cols(size), Rows(size);
    var boxWidth := BoxWidth(cols);
    var boxLeft := SaturatingSub(cols, boxWidth) / 2;
    var inner := SaturatingSub(boxWidth, 2);
    var textWidth := SaturatingSub(inner, 2);
    var interior := FillInterior(content, notice, prompt);
    ghost var all := interior;
    hide Interior, EdgeRow, FrameInterior;
    var boxHeight := Min(|interior| + 2, rows);
    var contentRows := SaturatingSub(boxHeight, 2);
    interior := interior[..Min(contentRows, |interior|)];
    var boxTop := SaturatingSub(rows, boxHeight) / 2;
    out := [];
    assert boxHeight == BoxHeight(size, all) && boxTop == BoxTop(size, all) && boxLeft == BoxLeft(Cols(size));
    assert forall i :: 0 <= i < boxHeight - 2 ==> i < |interior| && interior[i] == all[i];
    hide BoxHeight, BoxTop, BoxLeft, BoxWidth, SaturatingSub, Min;
    for r := 0 to boxHeight
      invariant |out| == r
      invariant forall k :: 0 <= k < r ==> out[k] == BoxRow(m, size, all, footer, k)
    {
      var row, col := boxTop + r + 1, boxLeft + 1;
      if r == 0 {
        out := out + [Drawn(row, col, EdgeRow(m, inner, " plexy-glass "), None)];
      } else if r == boxHeight - 1 {
        out := out + [Drawn(row, col, EdgeRow(m, inner, footer), None)];
      } else {
        var line := interior[r - 1];
        out := out + [Drawn(row, col, FrameInterior(m, line, inner, textWidth), Some(line))];
      }
    }
  }

  lemma {:induction false} WidthCons(m: Metrics, p: Piece, rest: seq<Piece>)
    ensures Width([p] + rest, m) == PieceWidth(p, m) + Width(rest, m)
  {
    assert ([p] + rest)[1..] == rest;
  }

  lemma {:induction false} WidthOf3(m: Metrics, a: Piece, b: Piece, c: Piece)
    ensures Width([a, b, c], m) == PieceWidth(a, m) + PieceWidth(b, m) + PieceWidth(c, m)
  {
    WidthCons(m, a, [b, c]);
    WidthCons(m, b, [c]);
    WidthCons(m, c, []);
    assert [a] + [b, c] == [a, b, c] && [b] + [c] == [b, c] && [c] + [] == [c];
  }

  lemma {:induction false} EdgeRowWidth(m: Metrics, inner: nat, caption: string)
    requires Sound(m) && inner < 0x1_0000
    ensures Width(EdgeRow(m, inner, caption), m) == inner + 2
  {
    hide Width;
    var text := m.truncate(caption, AsU16(inner));
    assert m.width(text) <= inner;
    var pad := SaturatingSub(inner, m.width(text));
    var left, right := Rule(pad / 2), Rule(pad - pad / 2);
    WidthOf3(m, Text(text), right, Edge);
    WidthCons(m, left, [Text(text), right, Edge]);
    WidthCons(m, Edge, [left, Text(text), right, Edge]);
    assert [left] + [Text(text), right, Edge] == [left, Text(text), right, Edge];
    assert [Edge] + [left, Text(text), right, Edge] == EdgeRow(m, inner, caption);
  }

  lemma {:induction false} FrameWidth(m: Metrics, line: Line, inner: nat)
    requires Sound(m) && inner < 0x1_0000
    ensures Width(FrameInterior(m, line, inner, SaturatingSub(inner, 2)), m) ==
            if line.divider then inner + 2 else SaturatingSub(inner, 2) + 4
  {
    hide Width;
    if line.divider {
      WidthOf3(m, Edge, Rule(inner), Edge);
    } else {
      var plain := if line.glyph == "" then line.text else line.glyph + " " + line.text;
      var shown := m.truncate(plain, AsU16(SaturatingSub(inner, 2)));
      assert m.width(shown) <= SaturatingSub(inner, 2);
      var pad := Blanks(SaturatingSub(SaturatingSub(inner, 2), m.width(shown)));
      var back := [pad, Blanks(1), Edge];
      WidthOf3(m, pad, Blanks(1), Edge);
      WidthCons(m, Text(shown), back);
      WidthCons(m, Blanks(1), [Text(shown)] + back);
      WidthCons(m, Edge, [Blanks(1)] + ([Text(shown)] + back));
      assert FrameInterior(m, line, inner, SaturatingSub(inner, 2)) == [Edge] + ([Blanks(1)] + ([Text(shown)] + back));
    }
  }

  /** Row `r` of the box shows a content line (neither border nor divider). */
  predicate ShowsText(d: Drawn) { d.line.Some? && !d.line.value.divider }

  lemma {:induction false} BoxRowWidth(m: Metrics, size: Screen, interior: seq<Line>, footer: string, r: nat)
    requires Sound(m) && r < BoxHeight(size, interior)
    ensures var d := BoxRow(m, size, interior, footer, r);
            Width(d.pieces, m) == if ShowsText(d) then SaturatingSub(SaturatingSub(BoxWidth(Cols(size)), 2), 2) + 4
                                  else SaturatingSub(BoxWidth(Cols(size)), 2) + 2
  {
    hide EdgeRow, FrameInterior, Width, Sound;
    var inner := SaturatingSub(BoxWidth(Cols(size)), 2);
    if r == 0 {
      EdgeRowWidth(m, inner, " plexy-glass ");
    } else if r == BoxHeight(size, interior) - 1 {
      EdgeRowWidth(m, inner, footer);
    } else {
      FrameWidth(m, interior[r - 1], inner);
    }
  }

  /** Every box row is exactly as wide as the box, whatever the labels, exactly on terminals wide
      enough for its kind: 8 columns for text, 6 for a border or divider. */
  lemma {:induction false} ExactWidthIff(m: Metrics, size: Screen, interior: seq<Line>, footer: string, r: nat)
    requires Sound(m) && r < BoxHeight(size, interior)
    ensures var d := BoxRow(m, size, interior, footer, r);
            Width(d.pieces, m) == BoxWidth(Cols(size)) <==> Cols(size) >= (if ShowsText(d) then 8 else 6)
  {
    hide BoxRow, Width, Sound;
    BoxRowWidth(m, size, interior, footer, r);
  }

  /** The box stays on the terminal: its rows are consecutive terminal rows, and a box row ends
      within the last column exactly on 6 columns or more (2, for a border or divider). */
  lemma {:induction false} FitsIff(m: Metrics, size: Screen, interior: seq<Line>, footer: string, r: nat)
    requires Sound(m) && r < BoxHeight(size, interior)
    ensures var d := BoxRow(m, size, interior, footer, r);
            && 1 <= d.row <= Rows(size) && d.row == BoxTop(size, interior) + 1 + r
            && 1 <= d.col <= Cols(size)
            && (d.col - 1 + Width(d.pieces, m) <= Cols(size) <==> Cols(size) >= (if ShowsText(d) then 6 else 2))
  {
    BoxRowWidth(m, size, interior, footer, r);
    hide Width, Sound, EdgeRow, FrameInterior;
  }

  /** On 8 columns or more the box leaves two free columns on either side; top and bottom margins
      differ by one row at most. */
  lemma Centered(size: Screen, interior: seq<Line>)
    requires Cols(size) >= 8
    ensures BoxLeft(Cols(size)) == 2 && BoxLeft(Cols(size)) + BoxWidth(Cols(size)) + 2 == Cols(size)
    ensures var below := Rows(size) - BoxTop(size, interior) - BoxHeight(size, interior);
            BoxTop(size, interior) <= below <= BoxTop(size, interior) + 1
  {
  }

  // --- the whole picture ---

  function FooterOf(mode: Mode, install: InstallPolicy): string {
    match mode
    case Filtering => " type to filter \U{00b7} \U{23ce}/\U{2191}\U{2193} done \U{00b7} esc clear "
    case Prompting(_, _) => " \U{23ce} confirm \U{00b7} esc cancel "
    case PromptingHost(_) => " \U{23ce} confirm \U{00b7} esc cancel "
    case ConfirmKill(_, name) => " Kill session '" + name + "'?  y / n "
    case Navigate =>
      " \U{2191}/\U{2193} move \U{00b7} \U{23ce} connect \U{00b7} / filter \U{00b7} n new \U{00b7} i install: "
      + (if install == Provision then "on" else "off") + " \U{00b7} x forget \U{00b7} k kill \U{00b7} esc "
  }

  function PromptOf(mode: Mode, filter: string): string {
    match mode
    case Prompting(host, buf) => "new session on " + HostName(host) + ": " + buf
    case PromptingHost(buf) => "connect to host: " + buf
    case ConfirmKill(_, _) => ""
    case Filtering => "filter: " + filter
    case Navigate => if filter == "" then "" else "filter: " + filter + "  (/ to edit)"
  }

  function InteriorOf(s: State, notice: Option<string>): seq<Line> { Interior(ContentOf(s), notice, PromptOf(s.mode, s.filter)) }

  method Render(picker: PickerState, m: Metrics, size: Screen, notice: Option<string>) returns (out: seq<Drawn>)
    ensures var s := picker.Value();
            && |out| == BoxHeight(size, InteriorOf(s, notice))
            && forall r :: 0 <= r < |out| ==> out[r] == BoxRow(m, size, InteriorOf(s, notice), FooterOf(s.mode, s.install), r)
  {
    hide PromptOf, FooterOf, Interior, BoxRow, LinesFrom, Matching;
    var lines := ContentLines(picker.Visible(), picker.adhoc, picker.cursor);
    out := DrawBox(m, size, lines, notice, PromptOf(picker.mode, picker.filter), FooterOf(picker.mode, picker.install));
  }

  lemma {:induction false} OneSelected(lines: seq<Line>) returns (p: nat)
    requires |Highlighted(lines)| == 1
    ensures p < |lines| && forall i :: 0 <= i < |lines| ==> (lines[i].selected <==> i == p)
  {
    var rest := lines[1..];
    if lines[0].selected {
      p := 0;
      forall i | 1 <= i < |lines|
        ensures !lines[i].selected
      {
        FilterMember(rest, (l: Line) => l.selected, rest[i - 1]);
      }
    } else {
      assert [] + Highlighted(rest) == Highlighted(rest);
      var q := OneSelected(rest);
      p := q + 1;
      assert forall i :: 1 <= i < |lines| ==> lines[i] == rest[i - 1];
    }
  }

  lemma {:induction false} InteriorHighlight(s: State, notice: Option<string>)
    requires s.InRange()
    ensures |Highlighted(InteriorOf(s, notice))| == 1
  {
    hide ContentOf, Matching, PromptOf;
    var p := (l: Line) => l.selected;
    var top := if notice.Some? then [Line("\U{26a0}", notice.value, false, false, false)] else [];
    var prompt := Line("", PromptOf(s.mode, s.filter), true, false, false);
    OneHighlight(s);
    FilterAppend(top + ContentOf(s) + [BLANK], [prompt], p);
    FilterAppend(top + ContentOf(s), [BLANK], p);
    FilterAppend(top, ContentOf(s), p);
    FilterNone(top, p);
    FilterNone([BLANK], p);
    FilterNone([prompt], p);
  }

  // --- where the highlight is ---

  function FirstLocal(rows: seq<Row>): (r: Option<nat>)
    ensures r.Some? ==> r.value < |rows| && rows[r.value].host == Local
    ensures forall i :: 0 <= i < (if r.Some? then r.value else |rows|) ==> rows[i].host != Local
  {
    if rows == [] then None
    else if rows[0].host == Local then Some(0)
    else
      assert forall k :: 1 <= k < |rows| ==> rows[k] == rows[1..][k - 1];
      match FirstLocal(rows[1..])
      case Some(i) => Some(1 + i)
      case None => None
  }

  /** The row the `local` header stands above: the first local row, if that is a session. */
  function HeaderRow(rows: seq<Row>): Option<nat> {
    match FirstLocal(rows)
    case Some(i) => if i < |rows| && rows[i].kind == SessionRow then Some(i) else None
    case None => None
  }

  /** One if there is such a row at or above row `at`. */
  function AtOrAbove(i: Option<nat>, at: nat): nat { if i.Some? && i.value <= at then 1 else 0 }

  /** The lines of header and divider at or above row `at`, those seen already apart. */
  function Extra(rows: seq<Row>, adhoc: seq<string>, at: nat, seen: Emitted): nat {
    AtOrAbove(if seen.local then None else HeaderRow(rows), at)
    + AtOrAbove(if seen.divider then None else LaterAdHoc(rows, adhoc, seen.any), at)
  }

  lemma {:induction false} ExtraFirst(rows: seq<Row>, adhoc: seq<string>, seen: Emitted)
    requires rows != []
    ensures Extra(rows, adhoc, 0, seen) == |Above(rows[0], adhoc, seen)|
  {
  }

  lemma {:induction false} ExtraNext(rows: seq<Row>, adhoc: seq<string>, at: nat, seen: Emitted)
    requires rows != [] && at > 0
    ensures Extra(rows, adhoc, at, seen) ==
            |Above(rows[0], adhoc, seen)| + Extra(rows[1..], adhoc, at - 1, Seen(rows[0], adhoc, seen))
  {
  }

  lemma {:induction false} LineOfRow(rows: seq<Row>, adhoc: seq<string>, at: int, i: nat, seen: Emitted)
    requires i < |rows|
    ensures var lines, p := LinesFrom(rows, adhoc, at, seen), i + Extra(rows, adhoc, i, seen);
            p < |lines| && lines[p] == RowLine(rows[i], adhoc, at == i)
  {
    hide RowLine, Above, Extra;
    var rest := LinesFrom(rows[1..], adhoc, at - 1, Seen(rows[0], adhoc, seen));
    if i == 0 {
      ExtraFirst(rows, adhoc, seen);
    } else {
      ExtraNext(rows, adhoc, i, seen);
      LineOfRow(rows[1..], adhoc, at - 1, i - 1, Seen(rows[0], adhoc, seen));
    }
  }

  lemma NoExtra(adhoc: seq<string>, end: nat, seen: Emitted)
    ensures Extra([], adhoc, end, seen) == 0
  {
  }

  lemma {:induction false} LineCount(rows: seq<Row>, adhoc: seq<string>, at: int, end: nat, seen: Emitted)
    requires end >= |rows|
    ensures |LinesFrom(rows, adhoc, at, seen)| == |rows| + Extra(rows, adhoc, end, seen)
  {
    hide RowLine, Above, Extra;
    if rows == [] {
      NoExtra(adhoc, end, seen);
    } else {
      ExtraNext(rows, adhoc, end, seen);
      LineCount(rows[1..], adhoc, at - 1, end - 1, Seen(rows[0], adhoc, seen));
    }
  }

  /** The line of the interior the cursor is on: its row's number, one more for each of a notice, a
      header and a divider that come before it. */
  function CursorLine(s: State, notice: Option<string>): nat {
    s.cursor
    + (if notice.Some? then 1 else 0)
    + AtOrAbove(HeaderRow(s.Visible()), s.cursor)
    + AtOrAbove(LaterAdHoc(s.Visible(), s.adhoc, false), s.cursor)
  }

  lemma {:induction false} CursorLineSelected(s: State, notice: Option<string>)
    requires s.InRange()
    ensures CursorLine(s, notice) < |InteriorOf(s, notice)| && InteriorOf(s, notice)[CursorLine(s, notice)].selected
  {
    hide Matching, PromptOf, LinesFrom, RowLine, HeaderRow;
    var rows, p := s.Visible(), s.cursor + Extra(s.Visible(), s.adhoc, s.cursor, NOTHING_YET);
    var lines := LinesFrom(rows, s.adhoc, s.cursor, NOTHING_YET);
    if s.OnSlot() {
      LineCount(rows, s.adhoc, s.cursor, s.cursor, NOTHING_YET);
      assert p == |lines|;
    } else {
      LineOfRow(rows, s.adhoc, s.cursor, s.cursor, NOTHING_YET);
    }
    assert p < |ContentOf(s)| && ContentOf(s)[p].selected;
    hide ContentOf, Extra;
    var top := if notice.Some? then [Line("\U{26a0}", notice.value, false, false, false)] else [];
    assert InteriorOf(s, notice)[|top| + p] == ContentOf(s)[p];
  }

  predicate IsHighlighted(d: Drawn) { d.line.Some? && d.line.value.selected }

  lemma {:induction false} RowsHighlighted(m: Metrics, size: Screen, interior: seq<Line>, footer: string, p: nat)
    requires p < |interior| && forall i :: 0 <= i < |interior| ==> (interior[i].selected <==> i == p)
    ensures forall r :: 0 <= r < BoxHeight(size, interior) ==>
              (IsHighlighted(BoxRow(m, size, interior, footer, r)) <==> r == p + 1 && p + 3 <= Rows(size))
  {
    hide EdgeRow, FrameInterior, BoxWidth, BoxTop, BoxLeft;
  }

  /** The highlight is on screen exactly if the terminal has rows enough for the cursor's line and
      the two borders: what is below is cut off. It is then on one box row, that line's. */
  lemma {:induction false} HighlightOnScreenIff(s: State, m: Metrics, size: Screen, notice: Option<string>)
    requires s.InRange()
    ensures var interior, p := InteriorOf(s, notice), CursorLine(s, notice);
            && ((exists r :: 0 <= r < BoxHeight(size, interior)
                          && IsHighlighted(BoxRow(m, size, interior, FooterOf(s.mode, s.install), r)))
                <==> p + 3 <= Rows(size))
            && forall r :: 0 <= r < BoxHeight(size, interior) ==>
                 (IsHighlighted(BoxRow(m, size, interior, FooterOf(s.mode, s.install), r))
                  <==> r == p + 1 && p + 3 <= Rows(size))
  {
    InteriorHighlight(s, notice);
    CursorLineSelected(s, notice);
    var interior, p := InteriorOf(s, notice), CursorLine(s, notice);
    var q := OneSelected(interior);
    hide InteriorOf, CursorLine, FooterOf, EdgeRow, FrameInterior, BoxWidth, BoxTop, BoxLeft;
    assert p == q;
    RowsHighlighted(m, size, interior, FooterOf(s.mode, s.install), p);
    hide BoxRow, IsHighlighted;
    if p + 3 <= Rows(size) {
      assert p + 1 < BoxHeight(size, interior);
      assert IsHighlighted(BoxRow(m, size, interior, FooterOf(s.mode, s.install), p + 1));
    }
  }

  // --- what the lines say ---

  /** The number a string of digits stands for. */
  function ValueOf(digits: string): int {
    if digits == [] then 0 else 10 * ValueOf(digits[..|digits| - 1]) + (digits[|digits| - 1] as int - '0' as int)
  }

  lemma {:induction false} DecimalValue(n: nat)
    ensures ValueOf(Decimal(n)) == n
  {
    var front := if n < 10 then "" else Decimal(n / 10);
    var last := ('0' as int + n % 10) as char;
    assert (front + [last])[..|front|] == front;
    if n >= 10 {
      DecimalValue(n / 10);
    }
  }

  /** The glyph tells the status, down to the version that does not match. */
  lemma {:induction false} GlyphTellsStatus(a: RowStatus, b: RowStatus)
    ensures StatusGlyph(a) == StatusGlyph(b) <==> a == b
  {
    if a.VersionMismatch? && b.VersionMismatch? {
      DecimalValue(a.version);
      DecimalValue(b.version);
      hide Decimal, ValueOf;
      assert StatusGlyph(a)[3..] == Decimal(a.version) && StatusGlyph(b)[3..] == Decimal(b.version);
    } else {
      hide Decimal;
      forall st: RowStatus | st.VersionMismatch?
        ensures |StatusGlyph(st)| >= 3 && StatusGlyph(st)[2] == 'v'
      {
      }
    }
  }

  function TextsOf(pieces: seq<Piece>): seq<string> {
    if pieces == [] then [] else (if pieces[0].Text? then [pieces[0].text] else []) + TextsOf(pieces[1..])
  }

  /** The columns between the borders and their padding. */
  function TextColumns(size: Screen): nat { SaturatingSub(SaturatingSub(BoxWidth(Cols(size)), 2), 2) }

  /** A string that fits is not cut. */
  ghost predicate KeepsWhatFits(m: Metrics) {
    forall text, max :: m.width(text) <= max ==> m.truncate(text, max) == text
  }

  /** The line of the interior that visible row `i` is on. */
  function LineNumber(s: State, notice: Option<string>, i: nat): nat { CursorLine(s.(cursor := i), notice) }

  /** The text `l` says is that of row `r`: its status, then the label of a session, or the name of
      a daemon, tagged by how it became known unless it is the local one. */
  predicate Tells(l: Line, r: Row, adhoc: seq<string>) {
    && l.glyph == (if r.kind == SessionRow then "  " else "") + StatusGlyph(r.status)
    && (r.kind == SessionRow ==> l.text == r.caption)
    && (r.kind == HostRow && r.host == Local ==> l.text == r.name)
    && (r.kind == HostRow && r.host.Remote? ==>
         l.text == r.name + if r.host.name in adhoc then "  (ad-hoc)" else "  (configured)")
    && !l.divider && !l.dim
  }

  lemma {:induction false} TextsCons(p: Piece, rest: seq<Piece>)
    ensures TextsOf([p] + rest) == (if p.Text? then [p.text] else []) + TextsOf(rest)
  {
    assert ([p] + rest)[1..] == rest;
  }

  lemma {:induction false} NoTexts(pieces: seq<Piece>)
    requires forall i :: 0 <= i < |pieces| ==> !pieces[i].Text?
    ensures TextsOf(pieces) == []
  {
    if pieces != [] {
      NoTexts(pieces[1..]);
    }
  }

  lemma {:induction false} FramedText(m: Metrics, line: Line, inner: nat, columns: nat)
    requires !line.divider && line.glyph != ""
    ensures TextsOf(FrameInterior(m, line, inner, columns)) == [m.truncate(line.glyph + " " + line.text, AsU16(columns))]
  {
    hide TextsOf;
    var shown := m.truncate(line.glyph + " " + line.text, AsU16(columns));
    var pad := Blanks(SaturatingSub(columns, m.width(shown)));
    NoTexts([]);
    NoTexts([pad, Blanks(1), Edge]);
    TextsCons(Text(shown), [pad, Blanks(1), Edge]);
    TextsCons(Blanks(1), [Text(shown), pad, Blanks(1), Edge]);
    TextsCons(Edge, [Blanks(1), Text(shown), pad, Blanks(1), Edge]);
    assert [Text(shown)] + [pad, Blanks(1), Edge] == [Text(shown), pad, Blanks(1), Edge];
    assert [Blanks(1)] + [Text(shown), pad, Blanks(1), Edge] == [Blanks(1), Text(shown), pad, Blanks(1), Edge];
    assert [Edge] + [Blanks(1), Text(shown), pad, Blanks(1), Edge] == FrameInterior(m, line, inner, columns);
    assert [] + [shown] == [shown] && [shown] + [] == [shown];
  }

  lemma {:induction false} LineDrawn(m: Metrics, size: Screen, interior: seq<Line>, footer: string, p: nat)
    requires p < |interior|
    ensures p + 1 < BoxHeight(size, interior) - 1 <==> p + 3 <= Rows(size)
    ensures p + 3 <= Rows(size) ==>
              var d := BoxRow(m, size, interior, footer, p + 1);
              && d.line == Some(interior[p])
              && (!interior[p].divider && interior[p].glyph != "" ==>
                   TextsOf(d.pieces) == [m.truncate(interior[p].glyph + " " + interior[p].text, TextColumns(size))])
  {
    hide TextsOf, EdgeRow, FrameInterior, BoxTop, BoxLeft;
    if !interior[p].divider && interior[p].glyph != "" {
      FramedText(m, interior[p], SaturatingSub(BoxWidth(Cols(size)), 2), TextColumns(size));
    }
  }

  lemma {:induction false} InteriorRow(s: State, notice: Option<string>, i: nat)
    requires i < |s.Visible()|
    ensures var interior, p := InteriorOf(s, notice), LineNumber(s, notice, i);
            && p < |interior|
            && interior[p] == RowLine(s.Visible()[i], s.adhoc, s.cursor == i)
  {
    hide Matching, PromptOf, LinesFrom, RowLine, HeaderRow;
    LineOfRow(s.Visible(), s.adhoc, s.cursor, i, NOTHING_YET);
    var top := if notice.Some? then [Line("\U{26a0}", notice.value, false, false, false)] else [];
    var p := i + Extra(s.Visible(), s.adhoc, i, NOTHING_YET);
    assert p < |ContentOf(s)| && ContentOf(s)[p] == LinesFrom(s.Visible(), s.adhoc, s.cursor, NOTHING_YET)[p];
    hide ContentOf, Extra;
    assert InteriorOf(s, notice)[|top| + p] == ContentOf(s)[p];
  }

  lemma {:induction false} RowTells(r: Row, adhoc: seq<string>, selected: bool)
    ensures Tells(RowLine(r, adhoc, selected), r, adhoc) && RowLine(r, adhoc, selected).glyph != ""
  {
    hide Decimal;
  }

  lemma Kept(m: Metrics, text: string, max: nat)
    ensures KeepsWhatFits(m) && m.width(text) <= max ==> m.truncate(text, max) == text
  {
  }

  /** Each visible row is on the screen exactly if its line and the borders fit the terminal's rows;
      the box row it is on has one text, the row's own, cut to the columns there are and whole if it
      fits them, and is highlighted exactly if the cursor is on the row. */
  lemma {:induction false} RowShown(s: State, m: Metrics, size: Screen, notice: Option<string>, i: nat)
    requires i < |s.Visible()|
    ensures var interior, p := InteriorOf(s, notice), LineNumber(s, notice, i);
            && (p + 1 < BoxHeight(size, interior) - 1 <==> p + 3 <= Rows(size))
            && (p + 3 <= Rows(size) ==>
                 var d := BoxRow(m, size, interior, FooterOf(s.mode, s.install), p + 1);
                 && d.line.Some? && Tells(d.line.value, s.Visible()[i], s.adhoc)
                 && (d.line.value.selected <==> s.cursor == i)
                 && var text := d.line.value.glyph + " " + d.line.value.text;
                 && TextsOf(d.pieces) == [m.truncate(text, TextColumns(size))]
                 && (KeepsWhatFits(m) && m.width(text) <= TextColumns(size) ==> TextsOf(d.pieces) == [text]))
  {
    hide InteriorOf, LineNumber, FooterOf, Matching, RowLine, Tells, BoxRow, BoxHeight, TextsOf, TextColumns, KeepsWhatFits;
    InteriorRow(s, notice, i);
    RowTells(s.Visible()[i], s.adhoc, s.cursor == i);
    LineDrawn(m, size, InteriorOf(s, notice), FooterOf(s.mode, s.install), LineNumber(s, notice, i));
    var line := RowLine(s.Visible()[i], s.adhoc, s.cursor == i);
    Kept(m, line.glyph + " " + line.text, TextColumns(size));
  }

  /** A notice leads, the prompt ends the box, a blank line apart from the content. */
  lemma {:induction false} FirstAndLastLines(s: State, notice: Option<string>)
    ensures var interior := InteriorOf(s, notice);
            var n := |interior|;
            && n >= 3 && |interior| == |ContentOf(s)| + 2 + (if notice.Some? then 1 else 0)
            && (notice.Some? ==> interior[0].text == notice.value && interior[0].glyph == StatusGlyph(Unreachable))
            && interior[n - 1].text == PromptOf(s.mode, s.filter) && interior[n - 1].dim
            && interior[n - 2].text == "" && interior[n - 2].glyph == "" && !interior[n - 2].divider
            && interior[n - 3] == Slot(s.OnSlot())
  {
    hide LinesFrom, Matching, PromptOf;
  }

  lemma {:induction false} ContainsBehind(before: string, part: string, after: string)
    ensures Contains(before + (part + after), part)
  {
    if before == [] {
      assert before + (part + after) == part + after;
    } else {
      ContainsBehind(before[1..], part, after);
      assert (before + (part + after))[1..] == before[1..] + (part + after);
    }
  }

  /** The last line shows what has been typed last, and a kill's footer asks about that session. */
  lemma {:induction false} TypedIsTold(mode: Mode, filter: string, install: InstallPolicy)
    ensures var prompt := PromptOf(mode, filter);
            && (mode.Prompting? ==> prompt == "new session on " + HostName(mode.host) + ": " + mode.buf)
            && (mode.PromptingHost? || mode.Filtering? ==>
                 var line := if mode.Filtering? then filter else mode.buf;
                 |line| <= |prompt| && prompt[|prompt| - |line|..] == line)
            && (mode == Navigate ==> (prompt == "" <==> filter == ""))
            && (mode.ConfirmKill? ==> Contains(FooterOf(mode, install), mode.name))
  {
    if mode.ConfirmKill? {
      ContainsBehind(" Kill session '", mode.name, "'?  y / n ");
      assert FooterOf(mode, install) == " Kill session '" + (mode.name + "'?  y / n ");
    }
  }

  /** The borders carry the title and the footer, cut to the interior, with rules left and right that
      differ by one column at most. */
  lemma {:induction false} BordersShown(s: State, m: Metrics, size: Screen, notice: Option<string>)
    ensures var interior := InteriorOf(s, notice);
            var columns := SaturatingSub(BoxWidth(Cols(size)), 2);
            var footer := FooterOf(s.mode, s.install);
            forall r :: 0 <= r < BoxHeight(size, interior) && (r == 0 || r == BoxHeight(size, interior) - 1) ==>
              var pieces := BoxRow(m, size, interior, footer, r).pieces;
              && |pieces| == 5 && pieces[1].Rule? && pieces[3].Rule?
              && pieces[1].n <= pieces[3].n <= pieces[1].n + 1
              && pieces[2] == Text(m.truncate(if r == 0 then " plexy-glass " else footer, columns))
  {
    hide InteriorOf, FooterOf, FrameInterior;
  }
}
