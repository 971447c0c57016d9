/** The matrix mapper: each layer's list of bindings is laid out on the
    Glove80's split matrix. A row of the layout lists key positions; each
    position is resolved (or left empty when the layer is shorter), a five
    key main row is padded to six on the outer side, and a row with
    nothing to show collapses to the empty row. */
module Matrix {
  import opened Results
  import opened Keymap
  import opened Behavior
  import opened Resolver

  // ---------------------------------------------------------------- layout

  /** `GLOVE80_LAYOUT['left_main_rows']`. */
  const LeftMainRows: seq<seq<nat>> := [
    [0, 1, 2, 3, 4],
    [10, 11, 12, 13, 14, 15],
    [22, 23, 24, 25, 26, 27],
    [34, 35, 36, 37, 38, 39],
    [46, 47, 48, 49, 50, 51],
    [64, 65, 66, 67, 68]
  ]

  /** `GLOVE80_LAYOUT['right_main_rows']`. */
  const RightMainRows: seq<seq<nat>> := [
    [5, 6, 7, 8, 9],
    [16, 17, 18, 19, 20, 21],
    [28, 29, 30, 31, 32, 33],
    [40, 41, 42, 43, 44, 45],
    [58, 59, 60, 61, 62, 63],
    [75, 76, 77, 78, 79]
  ]

  /** `GLOVE80_LAYOUT['left_thumb_rows']`. */
  const LeftThumbRows: seq<seq<nat>> := [[52, 53, 54], [69, 70, 71]]

  /** `GLOVE80_LAYOUT['right_thumb_rows']`. */
  const RightThumbRows: seq<seq<nat>> := [[55, 56, 57], [72, 73, 74]]

  /** Every main row of the layout has five or six positions and every
      thumb row three. */
  lemma LayoutRowLengths()
    ensures |LeftMainRows| == 6 && |RightMainRows| == 6
    ensures |LeftThumbRows| == 2 && |RightThumbRows| == 2
    ensures forall k :: 0 <= k < 6 ==> |LeftMainRows[k]| in {5, 6} && |RightMainRows[k]| in {5, 6}
    ensures forall k :: 0 <= k < 2 ==> |LeftThumbRows[k]| == 3 && |RightThumbRows[k]| == 3
  {
  }

  // ------------------------------------------------------------------ rows

  /** One position of a layer: its resolved label, or an empty key when
      the layer has no binding there. */
  function Cell(pos: nat, layer: seq<Binding>, resolve: Binding -> Result<Label>): (r: Result<Label>)
    ensures pos >= |layer| ==> r == Ok(NoLabel)
  {
    if pos < |layer| then resolve(layer[pos]) else Ok(NoLabel)
  }

  /** The positions resolved left to right; the first position that
      raises aborts the row with its error. */
  function Cells(positions: seq<nat>, layer: seq<Binding>, resolve: Binding -> Result<Label>): (r: Result<seq<Label>>)
    ensures r.Ok? <==> forall k :: 0 <= k < |positions| ==> Cell(positions[k], layer, resolve).Ok?
    ensures r.Ok? ==> |r.value| == |positions|
    ensures r.Ok? ==> forall k :: 0 <= k < |positions| ==> Cell(positions[k], layer, resolve) == Ok(r.value[k])
    ensures r.Err? ==>
      exists k :: 0 <= k < |positions| && Cell(positions[k], layer, resolve) == Err(r.msg)
        && (forall j :: 0 <= j < k ==> Cell(positions[j], layer, resolve).Ok?)
    decreases |positions|
  {
    if positions == [] then Ok([])
    else
      var n := |positions| - 1;
      var front :- Cells(positions[..n], layer, resolve);
      var last :- Cell(positions[n], layer, resolve);
      Ok(front + [last])
  }

  /** `len(row) == 5` main rows gain an empty key at the outer end: the end
      of the row on the left hand, the start on the right hand. */
  function Padded(row: seq<Label>, isLeft: bool, isMain: bool): seq<Label> {
    if isMain && |row| == 5 then
      if isLeft then row + [NoLabel] else [NoLabel] + row
    else row
  }

  /** `all(key is None for key in row)`. */
  predicate AllEmpty(row: seq<Label>) {
    forall k :: 0 <= k < |row| ==> row[k] == NoLabel
  }

  /** The row as emitted: an all-empty row becomes `[]`. */
  function Emitted(row: seq<Label>): seq<Label> {
    if AllEmpty(row) then [] else row
  }

  /** The row built from `positions` of `layer`. */
  function Row(positions: seq<nat>, layer: seq<Binding>, resolve: Binding -> Result<Label>, isLeft: bool, isMain: bool): Result<seq<Label>> {
    var cells :- Cells(positions, layer, resolve);
    Ok(Emitted(Padded(cells, isLeft, isMain)))
  }

  /** A position that fails after a prefix that resolves is the error of
      the whole row. */
  lemma CellsFirstError(positions: seq<nat>, layer: seq<Binding>, resolve: Binding -> Result<Label>, i: nat)
    requires i < |positions|
    requires Cells(positions[..i], layer, resolve).Ok?
    requires Cell(positions[i], layer, resolve).Err?
    ensures Cells(positions, layer, resolve) == Err(Cell(positions[i], layer, resolve).msg)
  {
    var r := Cells(positions, layer, resolve);
    assert forall j :: 0 <= j < i ==> Cell(positions[j], layer, resolve).Ok? by {
      forall j | 0 <= j < i
        ensures Cell(positions[j], layer, resolve).Ok?
      {
        assert positions[..i][j] == positions[j];
      }
    }
    var k :| 0 <= k < |positions| && Cell(positions[k], layer, resolve) == Err(r.msg) &&
      (forall j :: 0 <= j < k ==> Cell(positions[j], layer, resolve).Ok?);
    assert k == i;
  }

  /** The row-building loop of `main`. */
  method BuildRow(positions: seq<nat>, layer: seq<Binding>, resolve: Binding -> Result<Label>, isLeft: bool, isMain: bool)
    returns (r: Result<seq<Label>>)
    ensures r == Row(positions, layer, resolve, isLeft, isMain)
  {
    var row: seq<Label> := [];
    var i := 0;
    while i < |positions|
      invariant 0 <= i <= |positions|
      invariant Cells(positions[..i], layer, resolve) == Ok(row)
    {
      var pos := positions[i];
      var key: Label;
      if pos < |layer| {
        var resolved := resolve(layer[pos]);
        if resolved.Err? {
          CellsFirstError(positions, layer, resolve, i);
          return Err(resolved.msg);
        }
        key := resolved.value;
      } else {
        key := NoLabel;
      }
      assert positions[..i + 1][..i] == positions[..i];
      row := row + [key];
      i := i + 1;
    }
    assert positions[..i] == positions;
    if isMain && |row| == 5 {
      if isLeft {
        row := row + [NoLabel];
      } else {
        row := [NoLabel] + row;
      }
    }
    if forall k :: 0 <= k < |row| ==> row[k] == NoLabel {
      row := [];
    }
    r := Ok(row);
  }

  /** What a built row looks like. A left five-key main row is its five
      keys followed by an empty key, a right one an empty key followed by
      its five keys, and every other row keeps its keys; a row whose keys
      are all empty is emitted as `[]`, and only such a row. */
  lemma RowShape(positions: seq<nat>, layer: seq<Binding>, resolve: Binding -> Result<Label>, isLeft: bool, isMain: bool)
    requires Row(positions, layer, resolve, isLeft, isMain).Ok?
    ensures var row := Row(positions, layer, resolve, isLeft, isMain).value;
      var cells := Cells(positions, layer, resolve).value;
      && (row == [] <==> AllEmpty(cells))
      && (row != [] && isMain && |positions| == 5 && isLeft ==> row == cells + [NoLabel])
      && (row != [] && isMain && |positions| == 5 && !isLeft ==> row == [NoLabel] + cells)
      && (row != [] && !(isMain && |positions| == 5) ==> row == cells)
  {
    var cells := Cells(positions, layer, resolve).value;
    var padded := Padded(cells, isLeft, isMain);
    if AllEmpty(cells) {
      assert AllEmpty(padded) by {
        if isMain && |cells| == 5 && !isLeft {
          assert forall k :: 1 <= k < |padded| ==> padded[k] == cells[k - 1];
        }
      }
    } else {
      var k :| 0 <= k < |cells| && cells[k] != NoLabel;
      if isMain && |cells| == 5 && !isLeft {
        assert padded[k + 1] == cells[k];
      } else {
        assert padded[k] == cells[k];
      }
    }
  }

  /** An out-of-range position contributes an empty key. */
  lemma OutOfRangeEmpty(positions: seq<nat>, layer: seq<Binding>, resolve: Binding -> Result<Label>, k: nat)
    requires k < |positions| && positions[k] >= |layer|
    requires Cells(positions, layer, resolve).Ok?
    ensures Cells(positions, layer, resolve).value[k] == NoLabel
  {
  }

  /** A main row of five or six positions is emitted with no keys or with
      six, and a thumb row with no keys or with as many as it has
      positions. */
  lemma RowLength(positions: seq<nat>, layer: seq<Binding>, resolve: Binding -> Result<Label>, isLeft: bool, isMain: bool)
    requires Row(positions, layer, resolve, isLeft, isMain).Ok?
    requires isMain ==> |positions| in {5, 6}
    ensures var row := Row(positions, layer, resolve, isLeft, isMain).value;
      row == [] || |row| == (if isMain then 6 else |positions|)
  {
    RowShape(positions, layer, resolve, isLeft, isMain);
  }

  // ---------------------------------------------------------------- layers

  /** One hand of a layer's layout. */
  datatype Hand = Hand(mainRows: seq<seq<Label>>, thumbRows: seq<seq<Label>>)

  /** A layer's layout: its name and both hands. */
  datatype LayerLayout = LayerLayout(name: string, leftHand: Hand, rightHand: Hand)

  /** The rows of one group of the layout (say the left main rows), built
      in order; the first row that raises aborts the layer. */
  function Rows(groups: seq<seq<nat>>, layer: seq<Binding>, resolve: Binding -> Result<Label>, isLeft: bool, isMain: bool)
    : (r: Result<seq<seq<Label>>>)
    ensures r.Ok? ==> |r.value| == |groups|
    ensures r.Ok? ==> forall k :: 0 <= k < |groups| ==>
      Row(groups[k], layer, resolve, isLeft, isMain) == Ok(r.value[k])
    decreases |groups|
  {
    if groups == [] then Ok([])
    else
      var n := |groups| - 1;
      var front :- Rows(groups[..n], layer, resolve, isLeft, isMain);
      var last :- Row(groups[n], layer, resolve, isLeft, isMain);
      Ok(front + [last])
  }

  /** Once a prefix of the group fails, the whole group fails with the
      same error: no later row is built. */
  lemma {:induction false} RowsErrorStays(groups: seq<seq<nat>>, layer: seq<Binding>, resolve: Binding -> Result<Label>,
                                          isLeft: bool, isMain: bool, j: nat)
    requires j <= |groups|
    requires Rows(groups[..j], layer, resolve, isLeft, isMain).Err?
    ensures Rows(groups, layer, resolve, isLeft, isMain) == Rows(groups[..j], layer, resolve, isLeft, isMain)
    decreases |groups| - j
  {
    if j < |groups| {
      assert groups[..j + 1][..j] == groups[..j];
      RowsErrorStays(groups, layer, resolve, isLeft, isMain, j + 1);
    } else {
      assert groups[..j] == groups;
    }
  }

  /** A row that fails after rows that are built is the error of the
      whole group. */
  lemma RowsFirstError(groups: seq<seq<nat>>, layer: seq<Binding>, resolve: Binding -> Result<Label>,
                       isLeft: bool, isMain: bool, i: nat)
    requires i < |groups|
    requires Rows(groups[..i], layer, resolve, isLeft, isMain).Ok?
    requires Row(groups[i], layer, resolve, isLeft, isMain).Err?
    ensures Rows(groups, layer, resolve, isLeft, isMain) == Err(Row(groups[i], layer, resolve, isLeft, isMain).msg)
  {
    assert groups[..i + 1][..i] == groups[..i];
    RowsErrorStays(groups, layer, resolve, isLeft, isMain, i + 1);
  }

  /** Building one more row extends the rows built so far. */
  lemma RowsAppend(groups: seq<seq<nat>>, layer: seq<Binding>, resolve: Binding -> Result<Label>,
                   isLeft: bool, isMain: bool, i: nat)
    requires i < |groups|
    requires Rows(groups[..i], layer, resolve, isLeft, isMain).Ok?
    requires Row(groups[i], layer, resolve, isLeft, isMain).Ok?
    ensures Rows(groups[..i + 1], layer, resolve, isLeft, isMain)
      == Ok(Rows(groups[..i], layer, resolve, isLeft, isMain).value + [Row(groups[i], layer, resolve, isLeft, isMain).value])
  {
    assert groups[..i + 1][..i] == groups[..i];
  }

  /** The loop over one group of rows, appending each built row. */
  method BuildRows(groups: seq<seq<nat>>, layer: seq<Binding>, resolve: Binding -> Result<Label>, isLeft: bool, isMain: bool)
    returns (r: Result<seq<seq<Label>>>)
    ensures r == Rows(groups, layer, resolve, isLeft, isMain)
  {
    var rows: seq<seq<Label>> := [];
    var i := 0;
    while i < |groups|
      invariant 0 <= i <= |groups|
      invariant Rows(groups[..i], layer, resolve, isLeft, isMain) == Ok(rows)
    {
      var row := BuildRow(groups[i], layer, resolve, isLeft, isMain);
      if row.Err? {
        RowsFirstError(groups, layer, resolve, isLeft, isMain, i);
        return Err(row.msg);
      }
      RowsAppend(groups, layer, resolve, isLeft, isMain, i);
      rows := rows + [row.value];
      i := i + 1;
    }
    assert groups[..i] == groups;
    r := Ok(rows);
  }

  /** The resolver a layer's rows use: `convert_zmk_key` with the layer's
      name. */
  function LayerResolver(layerName: string, env: Env): Binding -> Result<Label> {
    b => Resolve(b, layerName, env)
  }

  /** The layout of one layer, each binding resolved by `resolve`. */
  function Layout(layer: seq<Binding>, layerName: string, resolve: Binding -> Result<Label>): Result<LayerLayout> {
    var leftMain :- Rows(LeftMainRows, layer, resolve, true, true);
    var rightMain :- Rows(RightMainRows, layer, resolve, false, true);
    var leftThumb :- Rows(LeftThumbRows, layer, resolve, true, false);
    var rightThumb :- Rows(RightThumbRows, layer, resolve, false, false);
    Ok(LayerLayout(layerName, Hand(leftMain, leftThumb), Hand(rightMain, rightThumb)))
  }

  /** The four row loops of `main` for one layer. */
  method BuildLayout(layer: seq<Binding>, layerName: string, resolve: Binding -> Result<Label>) returns (r: Result<LayerLayout>)
    ensures r == Layout(layer, layerName, resolve)
  {
    var leftMain := BuildRows(LeftMainRows, layer, resolve, true, true);
    if leftMain.Err? {
      return Err(leftMain.msg);
    }
    var rightMain := BuildRows(RightMainRows, layer, resolve, false, true);
    if rightMain.Err? {
      return Err(rightMain.msg);
    }
    var leftThumb := BuildRows(LeftThumbRows, layer, resolve, true, false);
    if leftThumb.Err? {
      return Err(leftThumb.msg);
    }
    var rightThumb := BuildRows(RightThumbRows, layer, resolve, false, false);
    if rightThumb.Err? {
      return Err(rightThumb.msg);
    }
    r := Ok(LayerLayout(layerName, Hand(leftMain.value, leftThumb.value), Hand(rightMain.value, rightThumb.value)));
  }

  /** Every row of a group is emitted empty or with `width` keys. */
  predicate RowsOfWidth(rows: seq<seq<Label>>, width: nat) {
    forall k :: 0 <= k < |rows| ==> rows[k] == [] || |rows[k]| == width
  }

  lemma GroupWidth(groups: seq<seq<nat>>, layer: seq<Binding>, resolve: Binding -> Result<Label>, isLeft: bool, isMain: bool, width: nat)
    requires Rows(groups, layer, resolve, isLeft, isMain).Ok?
    requires forall k :: 0 <= k < |groups| ==> if isMain then |groups[k]| in {5, 6} else |groups[k]| == width
    requires isMain ==> width == 6
    ensures RowsOfWidth(Rows(groups, layer, resolve, isLeft, isMain).value, width)
  {
    var rows := Rows(groups, layer, resolve, isLeft, isMain).value;
    forall k | 0 <= k < |rows|
      ensures rows[k] == [] || |rows[k]| == width
    {
      RowLength(groups[k], layer, resolve, isLeft, isMain);
    }
  }

  /** A layer's layout has six main rows and two thumb rows per hand; every
      main row is empty or six keys wide and every thumb row empty or
      three keys wide. */
  lemma LayoutShape(layer: seq<Binding>, layerName: string, resolve: Binding -> Result<Label>)
    requires Layout(layer, layerName, resolve).Ok?
    ensures var l := Layout(layer, layerName, resolve).value;
      && l.name == layerName
      && |l.leftHand.mainRows| == 6 && |l.rightHand.mainRows| == 6
      && |l.leftHand.thumbRows| == 2 && |l.rightHand.thumbRows| == 2
      && RowsOfWidth(l.leftHand.mainRows, 6) && RowsOfWidth(l.rightHand.mainRows, 6)
      && RowsOfWidth(l.leftHand.thumbRows, 3) && RowsOfWidth(l.rightHand.thumbRows, 3)
  {
    LayoutRowLengths();
    GroupWidth(LeftMainRows, layer, resolve, true, true, 6);
    GroupWidth(RightMainRows, layer, resolve, false, true, 6);
    GroupWidth(LeftThumbRows, layer, resolve, true, false, 3);
    GroupWidth(RightThumbRows, layer, resolve, false, false, 3);
  }

  /** A layer with no bindings yields the full shape with every row
      empty. */
  lemma EmptyLayer(layerName: string, resolve: Binding -> Result<Label>)
    ensures Layout([], layerName, resolve).Ok?
    ensures var l := Layout([], layerName, resolve).value;
      && |l.leftHand.mainRows| == 6 && |l.rightHand.mainRows| == 6
      && |l.leftHand.thumbRows| == 2 && |l.rightHand.thumbRows| == 2
      && RowsOfWidth(l.leftHand.mainRows, 0) && RowsOfWidth(l.rightHand.mainRows, 0)
      && RowsOfWidth(l.leftHand.thumbRows, 0) && RowsOfWidth(l.rightHand.thumbRows, 0)
  {
    EmptyRows(LeftMainRows, resolve, true, true);
    EmptyRows(RightMainRows, resolve, false, true);
    EmptyRows(LeftThumbRows, resolve, true, false);
    EmptyRows(RightThumbRows, resolve, false, false);
  }

  lemma {:induction false} EmptyRows(groups: seq<seq<nat>>, resolve: Binding -> Result<Label>, isLeft: bool, isMain: bool)
    ensures Rows(groups, [], resolve, isLeft, isMain).Ok?
    ensures forall k :: 0 <= k < |groups| ==> Rows(groups, [], resolve, isLeft, isMain).value[k] == []
    decreases |groups|
  {
    if groups != [] {
      var n := |groups| - 1;
      EmptyRows(groups[..n], resolve, isLeft, isMain);
      EmptyRow(groups[n], resolve, isLeft, isMain);
    }
  }

  /** Every position of an empty layer is out of range. */
  lemma EmptyRow(positions: seq<nat>, resolve: Binding -> Result<Label>, isLeft: bool, isMain: bool)
    ensures Row(positions, [], resolve, isLeft, isMain) == Ok([])
  {
    var cells := Cells(positions, [], resolve);
    assert cells.Ok?;
    RowShape(positions, [], resolve, isLeft, isMain);
  }
}
