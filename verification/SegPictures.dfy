/**
 What the texts of the seven-segment display look like, which of them are refused, and what a point at
 the very start lights.
 */
module SegPictures {
  import opened Types
  import opened SegText

  // ----- characters as pictures

  /** Three rows of three characters, as one reads a digit; empty for a character without a picture. */
  function Picture(ch: char): string {
    match ch
    case ' ' => "   " + "   " + "   "
    case '0' => " _ " + "| |" + "|_|"
    case '1' => "   " + "  |" + "  |"
    case '2' => " _ " + " _|" + "|_ "
    case '3' => " _ " + " _|" + " _|"
    case '4' => "   " + "|_|" + "  |"
    case '5' => " _ " + "|_ " + " _|"
    case '6' => " _ " + "|_ " + "|_|"
    case '7' => " _ " + "| |" + "  |"
    case '8' => " _ " + "|_|" + "|_|"
    case '9' => " _ " + "|_|" + " _|"
    case 'A' => " _ " + "|_|" + "| |"
    case 'C' => " _ " + "|  " + "|_ "
    case 'E' => " _ " + "|_ " + "|_ "
    case 'F' => " _ " + "|_ " + "|  "
    case 'H' => "   " + "|_|" + "| |"
    case 'L' => "   " + "|  " + "|_ "
    case 'P' => " _ " + "|_|" + "|  "
    case 'U' => "   " + "| |" + "|_|"
    case 'b' => "   " + "|_ " + "|_|"
    case 'd' => "   " + " _|" + "|_|"
    case 'h' => "   " + "|_ " + "| |"
    case 'i' => "   " + "   " + "  |"
    case 'o' => "   " + " _ " + "|_|"
    case 'r' => "   " + " _ " + "|  "
    case 't' => "   " + "|_ " + "|_ "
    case 'u' => "   " + "   " + "|_|"
    case '-' => "   " + " _ " + "   "
    case '_' => "   " + "   " + " _ "
    case '|' => "   " + "|  " + "|  "
    case _ => ""
  }

  /**
   Where segment `j` is in a picture. The segments run clockwise from the top, 0 to 5, and 6 is the
   one in the middle.
   */
  function PlaceOf(j: nat): nat {
    match j
    case 0 => 1
    case 1 => 5
    case 2 => 8
    case 3 => 7
    case 4 => 6
    case 5 => 3
    case _ => 4
  }

  /** Each character lights the segments that its picture shows, and only those have a glyph. */
  lemma GlyphIsPicture(ch: char)
    ensures Glyph(ch).Some? <==> Picture(ch) != ""
    ensures Picture(ch) != "" ==>
              |Picture(ch)| == 9 &&
              forall j: nat :: j in Glyph(ch).value <==> j < 7 && Picture(ch)[PlaceOf(j)] != ' '
  {
    if Picture(ch) != "" {
      forall j: nat
        ensures j in Glyph(ch).value <==> j < 7 && Picture(ch)[PlaceOf(j)] != ' '
      {
      }
    }
  }

  // ----- which texts are refused

  /** How many digits a text takes: one for each character, but a point shares the digit before it. */
  function Width(text: seq<char>): nat {
    if text == [] then 0
    else Width(text[..|text| - 1]) + if Last(text) == '.' && |text| > 1 then 0 else 1
  }

  /** Reading ends before character `i`: the text is terminated there, or does not fit any longer. */
  predicate EndsAt(n: nat, points: bool, text: seq<char>, i: nat)
    requires i < |text|
  {
    text[i] == '\0' || (Width(text[..i]) >= n && !(points && text[i] == '.'))
  }

  /** A character that the display cannot show. */
  predicate IsUnsupported(points: bool, ch: char) {
    if ch == '.' then !points else Picture(ch) == ""
  }

  /** Character `i` is read, and cannot be shown. */
  predicate IsRefusedAt(n: nat, points: bool, text: seq<char>, i: nat) {
    && i < |text|
    && IsUnsupported(points, text[i])
    && forall j: nat :: j <= i ==> !EndsAt(n, points, text, j)
  }

  /** Which characters of a text can be shown. */
  function Supported(points: bool, text: seq<char>): (r: seq<bool>)
    ensures |r| == |text|
  {
    if text == [] then []
    else Supported(points, text[..|text| - 1]) + [!IsUnsupported(points, Last(text))]
  }

  lemma {:induction false} SupportedAt(points: bool, text: seq<char>, i: nat)
    requires i < |text|
    ensures Supported(points, text)[i] <==> !IsUnsupported(points, text[i])
  {
    if i < |text| - 1 {
      SupportedAt(points, text[..|text| - 1], i);
    }
  }

  /** How one character moves the scan on, if it `ends` the text, is `ok`, or `shares` a digit. */
  predicate StepsTo(s: Scan, t: Scan, ends: bool, ok: bool, shares: bool) {
    match s
    case Reading(_, index) =>
      if ends then t.Done?
      else if !ok then t.Bad?
      else t.Reading? && t.index == index + if shares then 0 else 1
    case _ => t == s
  }

  lemma StepOutcome(s: Scan, n: nat, points: bool, first: bool, ch: char)
    requires 0 < n && (s.Reading? ==> |s.cells| == n && s.index <= n && (if first then s.index == 0 else 1 <= s.index))
    ensures
      var ends := ch == '\0' || (s.Reading? && s.index >= n && !(points && ch == '.'));
      StepsTo(s, Step(s, n, points, first, ch), ends, !IsUnsupported(points, ch), ch == '.' && !first)
  {
    GlyphIsPicture(ch);
  }

  /** `s` is what reading the text, with its characters supported as `ok` says, comes to. */
  ghost predicate IsOutcome(n: nat, points: bool, text: seq<char>, ok: seq<bool>, s: Scan)
    requires |ok| == |text|
  {
    match s
    case Reading(_, index) =>
      index == Width(text) && forall j: nat :: j < |text| ==> !EndsAt(n, points, text, j) && ok[j]
    case Done(_) =>
      exists i: nat :: i < |text| && EndsAt(n, points, text, i) && forall j: nat :: j < i ==> ok[j]
    case Bad =>
      exists i: nat :: i < |text| && !ok[i] && forall j: nat :: j <= i ==> !EndsAt(n, points, text, j)
  }

  lemma EndsAtIsLocal(n: nat, points: bool, text: seq<char>, i: nat)
    requires i < |text| - 1
    ensures EndsAt(n, points, text[..|text| - 1], i) <==> EndsAt(n, points, text, i)
  {
    assert text[..|text| - 1][..i] == text[..i];
  }

  lemma StepKeepsOutcome(n: nat, points: bool, text: seq<char>, ok: seq<bool>, s: Scan, t: Scan)
    requires text != [] && |ok| == |text|
    requires IsOutcome(n, points, text[..|text| - 1], ok[..|text| - 1], s)
    requires s.Reading? ==>
               StepsTo(s, t, EndsAt(n, points, text, |text| - 1), Last(ok), Last(text) == '.' && |text| > 1)
    requires !s.Reading? ==> t == s
    ensures IsOutcome(n, points, text, ok, t)
  {
    var k := |text| - 1;
    forall i: nat | i < k
      ensures EndsAt(n, points, text[..k], i) <==> EndsAt(n, points, text, i)
    {
      EndsAtIsLocal(n, points, text, i);
    }
    match s
    case Reading(_, _) =>
      assert forall j: nat :: j < k ==> !EndsAt(n, points, text[..k], j) && ok[..k][j];
    case Done(_) =>
      var i: nat :| i < k && EndsAt(n, points, text[..k], i) && forall j: nat :: j < i ==> ok[..k][j];
      assert EndsAt(n, points, text, i);
    case Bad =>
      var i: nat :| i < k && !ok[..k][i] && forall j: nat :: j <= i ==> !EndsAt(n, points, text[..k], j);
      assert !ok[i];
  }

  lemma {:induction false} ScanFollowsText(n: nat, points: bool, text: seq<char>)
    requires 0 < n
    ensures IsOutcome(n, points, text, Supported(points, text), ScanOf(n, points, text))
  {
    if text != [] {
      var k := |text| - 1;
      var front := text[..k];
      ScanFollowsText(n, points, front);
      IndexStaysInBounds(n, points, front);
      StepOutcome(ScanOf(n, points, front), n, points, |text| == 1, Last(text));
      assert Supported(points, text)[..k] == Supported(points, front);
      StepKeepsOutcome(
        n, points, text, Supported(points, text), ScanOf(n, points, front), ScanOf(n, points, text));
    }
  }

  /** The first character that cannot be shown counts only before the end. */
  lemma RefusalIsExclusive(n: nat, points: bool, text: seq<char>, ok: seq<bool>, s: Scan, i: nat)
    requires |ok| == |text| && IsOutcome(n, points, text, ok, s)
    requires i < |text| && !ok[i] && forall j: nat :: j <= i ==> !EndsAt(n, points, text, j)
    ensures s.Bad?
  {
  }

  /** A text is refused exactly if it holds a character the display cannot show before its end. */
  lemma RefusalCondition(n: nat, points: bool, text: seq<char>)
    requires 0 < n
    ensures Parsed(n, points, text).None? <==> exists i: nat :: IsRefusedAt(n, points, text, i)
  {
    var ok, s := Supported(points, text), ScanOf(n, points, text);
    ScanFollowsText(n, points, text);
    if s.Bad? {
      var i: nat :| i < |text| && !ok[i] && forall j: nat :: j <= i ==> !EndsAt(n, points, text, j);
      SupportedAt(points, text, i);
      assert IsRefusedAt(n, points, text, i);
    }
    if i: nat :| IsRefusedAt(n, points, text, i) {
      SupportedAt(points, text, i);
      RefusalIsExclusive(n, points, text, ok, s, i);
    }
  }

  // ----- a point at the start

  /** A digit with the point alone, and then the cells that still fit. */
  function PointThenShown(n: nat, cells: seq<Cell>): seq<Segments> {
    seq(n, i requires 0 <= i < n => if i == 0 then {7} else if i - 1 < |cells| then Lit(cells[i - 1]) else {})
  }

  lemma PointAlone(n: nat)
    requires 0 < n
    ensures ScanOf(n, true, ['.']) == Reading(PointThenShown(n, []), 1)
  {
    assert ['.'][..0] == [];
    assert ScanOf(n, true, []) == Reading(Blank(n), 0);
    assert {} + POINT == {7};
    assert Blank(n)[0 := {7}] == PointThenShown(n, []);
  }

  lemma PointThenShownGrows(n: nat, cells: seq<Cell>)
    requires 0 < |cells| < n
    ensures PointThenShown(n, cells) == PointThenShown(n, cells[..|cells| - 1])[|cells| := Lit(Last(cells))]
  {
  }

  lemma PointThenShownIsCutOff(n: nat, cells: seq<Cell>)
    requires 0 < n <= |cells|
    ensures PointThenShown(n, cells) == PointThenShown(n, cells[..n - 1])
  {
  }

  lemma {:induction false} CellsAfterPointAreRead(n: nat, cells: seq<Cell>)
    requires |cells| < n && forall i :: 0 <= i < |cells| ==> IsPrintable(true, cells[i])
    ensures ScanOf(n, true, ['.'] + Print(cells)) == Reading(PointThenShown(n, cells), |cells| + 1)
  {
    if cells == [] {
      assert ['.'] + Print(cells) == ['.'];
      PointAlone(n);
    } else {
      var k := |cells| - 1;
      var text := ['.'] + Print(cells[..k]);
      CellsAfterPointAreRead(n, cells[..k]);
      CellIsRead(n, true, text, cells[k], PointThenShown(n, cells[..k]), k + 1);
      assert text + PrintCell(cells[k]) == ['.'] + Print(cells);
      PointThenShownGrows(n, cells);
    }
  }

  /** A point at the start takes a digit of its own, and shifts the cells that follow by one. */
  lemma LeadingPointTakesDigit(n: nat, cells: seq<Cell>)
    requires 0 < n && forall i :: 0 <= i < |cells| ==> IsPrintable(true, cells[i])
    ensures Parsed(n, true, ['.'] + Print(cells)) == Some(PointThenShown(n, cells))
  {
    if |cells| < n {
      CellsAfterPointAreRead(n, cells);
    } else {
      assert cells == cells[..n - 1] + cells[n - 1..];
      OverflowAfterPoint(n, cells[..n - 1], cells[n - 1..]);
      PointThenShownIsCutOff(n, cells);
    }
  }

  lemma OverflowAfterPoint(n: nat, fits: seq<Cell>, rest: seq<Cell>)
    requires |fits| + 1 == n && rest != [] && rest[0].ch != '.'
    requires forall i :: 0 <= i < |fits| ==> IsPrintable(true, fits[i])
    ensures ScanOf(n, true, ['.'] + Print(fits + rest)) == Done(PointThenShown(n, fits))
  {
    CellsAfterPointAreRead(n, fits);
    PrintSplits(fits, rest);
    PrintStarts(rest);
    assert ['.'] + Print(fits + rest) == (['.'] + Print(fits)) + Print(rest);
    OverflowEndsScan(n, true, ['.'] + Print(fits), Print(rest), PointThenShown(n, fits));
  }

  /** Without decimal points it is refused. */
  lemma LeadingPointIsRefused(n: nat, text: seq<char>)
    requires 0 < n
    ensures Parsed(n, false, ['.'] + text).None?
  {
    assert (['.'] + text)[..0] == [];
    RefusalCondition(n, false, ['.'] + text);
    assert IsRefusedAt(n, false, ['.'] + text, 0);
  }
}
