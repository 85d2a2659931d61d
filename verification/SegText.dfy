/**
 The text parser of the seven-segment display (drivers/auxdisplay/gpio-seg-display): characters to
 the segments they light, with decimal points that share the digit before them.
 */
module SegText {
  import opened Types

  /** The lit segments of a digit, 0 to 6, and 7 for its decimal point. */
  type Segments = set<nat>

  const POINT: Segments := {7}

  function Glyph(ch: char): Option<Segments> {
    match ch
    case ' ' => Some({})
    case '0' => Some({0, 1, 2, 3, 4, 5})
    case '1' => Some({1, 2})
    case '2' => Some({0, 1, 3, 4, 6})
    case '3' => Some({0, 1, 2, 3, 6})
    case '4' => Some({1, 2, 5, 6})
    case '5' => Some({0, 2, 3, 5, 6})
    case '6' => Some({0, 2, 3, 4, 5, 6})
    case '7' => Some({0, 1, 2, 5})
    case '8' => Some({0, 1, 2, 3, 4, 5, 6})
    case '9' => Some({0, 1, 2, 3, 5, 6})
    case 'A' => Some({0, 1, 2, 4, 5, 6})
    case 'C' => Some({0, 3, 4, 5})
    case 'E' => Some({0, 3, 4, 5, 6})
    case 'F' => Some({0, 4, 5, 6})
    case 'H' => Some({1, 2, 4, 5, 6})
    case 'L' => Some({3, 4, 5})
    case 'P' => Some({0, 1, 4, 5, 6})
    case 'U' => Some({1, 2, 3, 4, 5})
    case 'b' => Some({2, 3, 4, 5, 6})
    case 'd' => Some({1, 2, 3, 4, 6})
    case 'h' => Some({2, 4, 5, 6})
    case 'i' => Some({2})
    case 'o' => Some({2, 3, 4, 6})
    case 'r' => Some({4, 6})
    case 't' => Some({3, 4, 5, 6})
    case 'u' => Some({2, 3, 4})
    case '-' => Some({6})
    case '_' => Some({3})
    case '|' => Some({4, 5})
    case _ => None
  }

  /** Where the parser is: reading on at digit `index`, done early, or stopped by a bad character. */
  datatype Scan = Reading(cells: seq<Segments>, index: nat) | Done(cells: seq<Segments>) | Bad

  /** One character, `first` in the text or not, for a display of `n` digits. */
  function Step(s: Scan, n: nat, points: bool, first: bool, ch: char): Scan {
    match s
    case Reading(cells, index) =>
      if ch == '\0' then Done(cells)
      else if index >= n && (!points || ch != '.') then Done(cells)
      else if ch == '.' then
        if !points then Bad
        else if first then
          if index < |cells| then Reading(cells[index := cells[index] + POINT], index + 1) else Bad
        else if 0 < index <= |cells| then Reading(cells[index - 1 := cells[index - 1] + POINT], index)
        else Bad
      else
        var glyph := Glyph(ch);
        if glyph.Some? && index < |cells| then Reading(cells[index := glyph.value], index + 1) else Bad
    case _ => s
  }

  function Blank(n: nat): seq<Segments> {
    seq(n, _ => {})
  }

  function ScanOf(n: nat, points: bool, text: seq<char>): Scan {
    if text == [] then Reading(Blank(n), 0)
    else Step(ScanOf(n, points, text[..|text| - 1]), n, points, |text| == 1, Last(text))
  }

  /** The digits a text shows, or None for -EINVAL. */
  function Parsed(n: nat, points: bool, text: seq<char>): Option<seq<Segments>> {
    match ScanOf(n, points, text)
    case Reading(cells, _) => Some(cells)
    case Done(cells) => Some(cells)
    case Bad => None
  }

  /** The write position stays on the display, and is past a digit after the first character. */
  lemma {:induction false} IndexStaysInBounds(n: nat, points: bool, text: seq<char>)
    requires 0 < n
    ensures
      var s := ScanOf(n, points, text);
      && (!s.Bad? ==> |s.cells| == n)
      && (s.Reading? ==> s.index <= n && (text != [] ==> 1 <= s.index))
  {
    if text != [] {
      IndexStaysInBounds(n, points, text[..|text| - 1]);
    }
  }

  lemma ScanGrowsAt(n: nat, points: bool, text: seq<char>, i: nat)
    requires i < |text|
    ensures ScanOf(n, points, text[..i + 1]) == Step(ScanOf(n, points, text[..i]), n, points, i == 0, text[i])
  {
    assert text[..i + 1][..i] == text[..i];
  }

  method Parse(n: nat, points: bool, text: seq<char>) returns (result: Option<seq<Segments>>)
    requires 0 < n
    ensures result == Parsed(n, points, text)
    ensures result.Some? ==> |result.value| == n
  {
    var val := new Segments[n](_ => {});
    assert val[..] == Blank(n);
    var index := 0;
    for i := 0 to |text|
      invariant index <= n && (i > 0 ==> 1 <= index)
      invariant ScanOf(n, points, text[..i]) == Reading(val[..], index)
    {
      ghost var before := val[..];
      ScanGrowsAt(n, points, text, i);
      var ch := text[i];
      if ch == '\0' || (index >= n && (!points || ch != '.')) {
        assert ScanOf(n, points, text[..i + 1]) == Done(val[..]);
        ScanEnds(n, points, text, i + 1);
        return Some(val[..]);
      }
      if ch == '.' {
        if !points {
          ScanEnds(n, points, text, i + 1);
          return None;
        }
        var k;
        if i == 0 {
          k := index;
          index := index + 1;
        } else {
          k := index - 1;
        }
        val[k] := val[k] + POINT;
        assert val[..] == before[k := before[k] + POINT];
      } else {
        var glyph := Glyph(ch);
        if glyph.None? {
          ScanEnds(n, points, text, i + 1);
          return None;
        }
        val[index] := glyph.value;
        assert val[..] == before[index := glyph.value];
        index := index + 1;
      }
    }
    assert text[..|text|] == text;
    result := Some(val[..]);
  }

  /** Once it has stopped, the rest of the text does not matter. */
  lemma {:induction false} ScanEnds(n: nat, points: bool, text: seq<char>, i: nat)
    requires i <= |text| && !ScanOf(n, points, text[..i]).Reading?
    ensures ScanOf(n, points, text) == ScanOf(n, points, text[..i])
    decreases |text|
  {
    if i == |text| {
      assert text[..i] == text;
    } else {
      assert text[..|text| - 1][..i] == text[..i];
      ScanEnds(n, points, text[..|text| - 1], i);
    }
  }

  // ----- printing, and reading back

  datatype Cell = Cell(ch: char, point: bool)

  predicate IsPrintable(points: bool, cell: Cell) {
    cell.ch != '\0' && cell.ch != '.' && Glyph(cell.ch).Some? && (cell.point ==> points)
  }

  function PrintCell(cell: Cell): seq<char> {
    if cell.point then [cell.ch, '.'] else [cell.ch]
  }

  function Print(cells: seq<Cell>): seq<char> {
    if cells == [] then [] else Print(cells[..|cells| - 1]) + PrintCell(Last(cells))
  }

  function Lit(cell: Cell): Segments {
    var digit := if Glyph(cell.ch).Some? then Glyph(cell.ch).value else {};
    if cell.point then digit + POINT else digit
  }

  /** The digits that should show: the cells that fit, then blanks. */
  function Shown(n: nat, cells: seq<Cell>): seq<Segments> {
    seq(n, i requires 0 <= i < n => if i < |cells| then Lit(cells[i]) else {})
  }

  lemma ScanGrows(n: nat, points: bool, text: seq<char>, ch: char)
    ensures ScanOf(n, points, text + [ch]) == Step(ScanOf(n, points, text), n, points, text == [], ch)
  {
    assert (text + [ch])[..|text|] == text;
  }

  lemma CellIsRead(n: nat, points: bool, text: seq<char>, cell: Cell, cells: seq<Segments>, index: nat)
    requires IsPrintable(points, cell) && index < n == |cells|
    requires ScanOf(n, points, text) == Reading(cells, index)
    ensures ScanOf(n, points, text + PrintCell(cell)) == Reading(cells[index := Lit(cell)], index + 1)
  {
    ScanGrows(n, points, text, cell.ch);
    if cell.point {
      ScanGrows(n, points, text + [cell.ch], '.');
      assert (text + [cell.ch]) + ['.'] == text + PrintCell(cell);
    }
  }

  lemma ShownGrows(n: nat, cells: seq<Cell>)
    requires 0 < |cells| <= n
    ensures Shown(n, cells) == Shown(n, cells[..|cells| - 1])[|cells| - 1 := Lit(Last(cells))]
  {
  }

  lemma ShownIsCutOff(n: nat, cells: seq<Cell>)
    requires n < |cells|
    ensures Shown(n, cells) == Shown(n, cells[..n])
  {
  }

  lemma {:induction false} FittingCellsAreRead(n: nat, points: bool, cells: seq<Cell>)
    requires |cells| <= n && forall i :: 0 <= i < |cells| ==> IsPrintable(points, cells[i])
    ensures ScanOf(n, points, Print(cells)) == Reading(Shown(n, cells), |cells|)
  {
    if cells == [] {
      assert Shown(n, cells) == Blank(n);
    } else {
      var k := |cells| - 1;
      FittingCellsAreRead(n, points, cells[..k]);
      CellIsRead(n, points, Print(cells[..k]), cells[k], Shown(n, cells[..k]), k);
      ShownGrows(n, cells);
    }
  }

  lemma {:induction false} PrintSplits(cells: seq<Cell>, more: seq<Cell>)
    ensures Print(cells + more) == Print(cells) + Print(more)
  {
    if more == [] {
      assert cells + more == cells;
    } else {
      var front := more[..|more| - 1];
      assert (cells + more)[..|cells + more| - 1] == cells + front;
      PrintSplits(cells, front);
    }
  }

  lemma {:induction false} PrintStarts(cells: seq<Cell>)
    requires cells != []
    ensures Print(cells) != [] && Print(cells)[0] == cells[0].ch
  {
    if |cells| > 1 {
      PrintStarts(cells[..|cells| - 1]);
    }
  }

  /** A cell that does not fit ends the scan, whatever comes after it. */
  lemma OverflowEndsScan(n: nat, points: bool, text: seq<char>, more: seq<char>, cells: seq<Segments>)
    requires ScanOf(n, points, text) == Reading(cells, n) && more != [] && more[0] != '.'
    ensures ScanOf(n, points, text + more) == Done(cells)
  {
    var k := |text|;
    ScanGrows(n, points, text, more[0]);
    assert (text + more)[..k + 1] == text + [more[0]];
    ScanEnds(n, points, text + more, k + 1);
  }

  lemma OverflowIsCutOff(n: nat, points: bool, fits: seq<Cell>, rest: seq<Cell>)
    requires |fits| == n && rest != [] && rest[0].ch != '.'
    requires forall i :: 0 <= i < n ==> IsPrintable(points, fits[i])
    ensures ScanOf(n, points, Print(fits + rest)) == Done(Shown(n, fits))
  {
    FittingCellsAreRead(n, points, fits);
    PrintSplits(fits, rest);
    PrintStarts(rest);
    OverflowEndsScan(n, points, Print(fits), Print(rest), Shown(n, fits));
  }

  /** Printed cells read back as their segments, those that fit, padded with blanks. */
  lemma PrintedTextIsShown(n: nat, points: bool, cells: seq<Cell>)
    requires forall i :: 0 <= i < |cells| ==> IsPrintable(points, cells[i])
    ensures Parsed(n, points, Print(cells)) == Some(Shown(n, cells))
  {
    if |cells| <= n {
      FittingCellsAreRead(n, points, cells);
    } else {
      assert cells == cells[..n] + cells[n..];
      OverflowIsCutOff(n, points, cells[..n], cells[n..]);
      ShownIsCutOff(n, cells);
    }
  }
}
