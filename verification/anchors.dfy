/** The anchor grid of the resize dialog: nine radio buttons laid out three
    by three, button i in column i % 3 and row i / 3. The anchor says which
    side of the map stays put when it is resized; the buttons around the
    chosen one are labelled with arrows pointing away from it. */
module Anchors {
  import opened Text

  datatype HorAlign = Left | Center | Right
  datatype VertAlign = Top | Middle | Bottom

  /** which buttons are down, button y * 3 + x at column x, row y */
  type Selection = s: seq<bool> | |s| == 9 witness seq(9, _ => false)
  /** the label of each button, None when it has none */
  type ButtonLabels = s: seq<Option<string>> | |s| == 9 witness seq(9, _ => None)

  /** the alignment of a column */
  function ColumnAlign(x: nat): HorAlign {
    if x == 0 then Left else if x == 2 then Right else Center
  }

  /** the alignment of a row */
  function RowAlign(y: nat): VertAlign {
    if y == 0 then Top else if y == 2 then Bottom else Middle
  }

  /** Resize_Dialog::horizontal_anchor: LEFT when a button of the left
      column is down, else RIGHT for the right column, else CENTER */
  function HorizontalAnchor(sel: Selection): (h: HorAlign)
    ensures h == Left <==> sel[0] || sel[3] || sel[6]
    ensures h == Right <==> !(sel[0] || sel[3] || sel[6]) && (sel[2] || sel[5] || sel[8])
  {
    if sel[0] || sel[3] || sel[6] then Left
    else if sel[2] || sel[5] || sel[8] then Right
    else Center
  }

  /** Resize_Dialog::vertical_anchor: TOP for the top row, else BOTTOM for
      the bottom row, else MIDDLE */
  function VerticalAnchor(sel: Selection): (v: VertAlign)
    ensures v == Top <==> sel[0] || sel[1] || sel[2]
    ensures v == Bottom <==> !(sel[0] || sel[1] || sel[2]) && (sel[6] || sel[7] || sel[8])
  {
    if sel[0] || sel[1] || sel[2] then Top
    else if sel[6] || sel[7] || sel[8] then Bottom
    else Middle
  }

  /** the first button at or after `i` that is down, if any */
  function FirstSelected(sel: Selection, i: nat): (r: Option<nat>)
    requires i <= 9
    ensures r.Some? ==> i <= r.value < 9 && sel[r.value]
    ensures forall j :: i <= j < 9 && (r.None? || j < r.value) ==> !sel[j]
    decreases 9 - i
  {
    if i == 9 then None else if sel[i] then Some(i) else FirstSelected(sel, i + 1)
  }

  /** Resize_Dialog::anchor: the first button that is down, or the centre
      button 4 when none is */
  function Anchor(sel: Selection): (a: nat)
    ensures a < 9
    ensures (exists i :: 0 <= i < 9 && sel[i]) ==> sel[a] && forall j :: 0 <= j < a ==> !sel[j]
    ensures (forall i :: 0 <= i < 9 ==> !sel[i]) ==> a == 4
  {
    match FirstSelected(sel, 0)
    case Some(i) => i
    case None => 4
  }

  /** the selection with only button a down, as a radio group leaves it */
  function Only(a: nat): (sel: Selection)
    requires a < 9
    ensures forall i :: 0 <= i < 9 ==> (sel[i] <==> i == a)
  {
    seq(9, i => i == a)
  }

  /** With at most one button down, the anchor splits into column a % 3 and
      row a / 3, and both alignments follow from them; with none down that is
      the centre button 4. */
  lemma {:induction false} AnchorDecomposes(sel: Selection)
    requires forall i, j :: 0 <= i < j < 9 && sel[i] ==> !sel[j]
    ensures HorizontalAnchor(sel) == ColumnAlign(Anchor(sel) % 3)
    ensures VerticalAnchor(sel) == RowAlign(Anchor(sel) / 3)
  {
    var a := Anchor(sel);
    if exists i :: 0 <= i < 9 && sel[i] {
      assert sel[a];
      assert forall j :: 0 <= j < 9 && j != a ==> !sel[j];
    } else {
      assert a == 4;
    }
  }

  /** Pressing button a leaves it the only one down, so it is the anchor. */
  lemma {:induction false} OnlyAnchor(a: nat)
    requires a < 9
    ensures Anchor(Only(a)) == a
    ensures HorizontalAnchor(Only(a)) == ColumnAlign(a % 3)
    ensures VerticalAnchor(Only(a)) == RowAlign(a / 3)
  {
    AnchorDecomposes(Only(a));
  }

  /** (x, y) names a button of the grid */
  predicate InGrid(x: int, y: int) { 0 <= x < 3 && 0 <= y < 3 }

  /** Resize_Dialog::anchor_label: labels the button at column x, row y, and
      ignores positions off the grid */
  function AnchorLabel(labels: ButtonLabels, x: int, y: int, l: Option<string>): (r: ButtonLabels)
    ensures InGrid(x, y) ==> r[y * 3 + x] == l
    ensures forall i :: 0 <= i < 9 && !(InGrid(x, y) && i == y * 3 + x) ==> r[i] == labels[i]
  {
    if InGrid(x, y) then labels[y * 3 + x := l] else labels
  }

  /** the arrow on a button dx columns and dy rows away from the anchor */
  function Arrow(dx: int, dy: int): Option<string> {
    if dx < -1 || dx > 1 || dy < -1 || dy > 1 then None
    else Some(
      if dy == -1 then (if dx == -1 then "@7>" else if dx == 0 then "@8>" else "@9>")
      else if dy == 0 then (if dx == -1 then "@4>" else if dx == 0 then "@-2square" else "@>")
      else (if dx == -1 then "@1>" else if dx == 0 then "@2>" else "@3>"))
  }

  /** three anchor_label calls of anchor_button_cb: the buttons left of,
      at and right of column x on row y */
  function LabelRow(labels: ButtonLabels, x: int, y: int, left: string, centre: string, right: string): ButtonLabels {
    var l := AnchorLabel(labels, x - 1, y, Some(left));
    var l := AnchorLabel(l, x, y, Some(centre));
    AnchorLabel(l, x + 1, y, Some(right))
  }

  /** Resize_Dialog::anchor_button_cb: every label is cleared, then the nine
      positions around the pressed button a are labelled row by row, those
      off the grid being skipped */
  function AnchorButtonLabels(a: nat): ButtonLabels
    requires a < 9
  {
    var x, y := a % 3, a / 3;
    var l := seq(9, _ => None);
    var l := LabelRow(l, x, y - 1, "@7>", "@8>", "@9>");   // top-left, top, top-right
    var l := LabelRow(l, x, y, "@4>", "@-2square", "@>");   // left, centre, right
    LabelRow(l, x, y + 1, "@1>", "@2>", "@3>")              // bottom-left, bottom, bottom-right
  }

  /** two grid positions name the same button only when they are equal */
  lemma {:induction false} SameButton(c1: int, r1: int, c2: int, r2: int)
    requires InGrid(c1, r1) && InGrid(c2, r2)
    ensures r1 * 3 + c1 == r2 * 3 + c2 <==> c1 == c2 && r1 == r2
  {
  }

  /** A row of labels lands on the buttons of row y within one column of x,
      and leaves the others alone. */
  lemma {:induction false} LabelRowAt(labels: ButtonLabels, x: int, y: int, left: string, centre: string, right: string, col: int, row: int)
    requires InGrid(col, row)
    ensures LabelRow(labels, x, y, left, centre, right)[row * 3 + col] ==
      if row != y then labels[row * 3 + col]
      else if col == x - 1 then Some(left)
      else if col == x then Some(centre)
      else if col == x + 1 then Some(right)
      else labels[row * 3 + col]
  {
    if InGrid(x - 1, y) { SameButton(col, row, x - 1, y); }
    if InGrid(x, y) { SameButton(col, row, x, y); }
    if InGrid(x + 1, y) { SameButton(col, row, x + 1, y); }
  }

  /** the label of the button at column col, row row after pressing the
      button at column x, row y */
  lemma {:induction false} ArrowAt(x: nat, y: nat, col: nat, row: nat)
    requires InGrid(x, y) && InGrid(col, row)
    ensures AnchorButtonLabels(y * 3 + x)[row * 3 + col] == Arrow(col - x, row - y)
  {
    assert (y * 3 + x) % 3 == x && (y * 3 + x) / 3 == y;
    var l0: ButtonLabels := seq(9, _ => None);
    var l1 := LabelRow(l0, x, y - 1, "@7>", "@8>", "@9>");
    var l2 := LabelRow(l1, x, y, "@4>", "@-2square", "@>");
    LabelRowAt(l0, x, y - 1, "@7>", "@8>", "@9>", col, row);
    LabelRowAt(l1, x, y, "@4>", "@-2square", "@>", col, row);
    LabelRowAt(l2, x, y + 1, "@1>", "@2>", "@3>", col, row);
  }

  /** After pressing the button at column x, row y, the button at column
      col, row row shows the arrow for its offset from it, and the buttons
      more than one step away show nothing. */
  lemma {:induction false} AnchorButtonArrows(x: nat, y: nat)
    requires InGrid(x, y)
    ensures forall col: nat, row: nat :: InGrid(col, row) ==>
      AnchorButtonLabels(y * 3 + x)[row * 3 + col] == Arrow(col - x, row - y)
  {
    forall col: nat, row: nat | InGrid(col, row)
      ensures AnchorButtonLabels(y * 3 + x)[row * 3 + col] == Arrow(col - x, row - y)
    {
      ArrowAt(x, y, col, row);
    }
  }
}
