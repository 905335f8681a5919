/**
 The table layout of `main`: the width of the service column, Python's
 `str.ljust`, and the header and row lines built from them.
 */
module Layout {
  import opened Wrappers
  import opened Grouping
  import opened Stats

  /** `max(len(x) for x, y in rows)`; None where Python raises ValueError
      because there are no rows. */
  function MaxNameWidth(rows: Series): (r: Option<nat>)
    ensures r.None? <==> rows == []
    ensures r.Some? ==> forall i :: 0 <= i < |rows| ==> |rows[i].service| <= r.value
    ensures r.Some? ==> exists i :: 0 <= i < |rows| && |rows[i].service| == r.value
  {
    if rows == [] then None
    else
      var head := |rows[0].service|;
      match MaxNameWidth(rows[1..])
      case None => Some(head)
      case Some(w) =>
        assert forall i :: 1 <= i < |rows| ==> rows[i] == rows[1..][i - 1];
        var k :| 0 <= k < |rows[1..]| && |rows[1..][k].service| == w;
        assert rows[k + 1] == rows[1..][k];
        Some(if head >= w then head else w)
  }

  function Spaces(n: nat): (s: string)
    ensures |s| == n && forall i :: 0 <= i < n ==> s[i] == ' '
  {
    seq(n, _ => ' ')
  }

  function Max(a: int, b: int): int {
    if a >= b then a else b
  }

  /** `s.ljust(w)`: `s` followed by spaces up to width `w`; never truncates. */
  function LJust(s: string, w: int): (r: string)
    ensures |r| == Max(|s|, w)
    ensures r[..|s|] == s
    ensures forall i :: |s| <= i < |r| ==> r[i] == ' '
  {
    if w <= |s| then s else s + Spaces(w - |s|)
  }

  /** The five value columns; each value is padded to its header's length. */
  const Columns: seq<string> := ["Est. Monthly", "Running Total", "Average", "Variance", "Yesterday"]

  const ServiceHeader := "Service"

  const NameSeparator := " || "

  const CellSeparator := " | "

  /** The five value cells joined by `" | "`, each padded to `widths[i]`. */
  function JoinCells(cells: seq<string>, widths: seq<int>): string
    requires |cells| == |widths|
    decreases |cells|
  {
    if cells == [] then []
    else if |cells| == 1 then LJust(cells[0], widths[0])
    else LJust(cells[0], widths[0]) + CellSeparator + JoinCells(cells[1..], widths[1..])
  }

  function ColumnWidths(): (ws: seq<int>)
    ensures |ws| == |Columns|
    ensures forall i :: 0 <= i < |ws| ==> ws[i] == |Columns[i]|
  {
    seq(|Columns|, i requires 0 <= i < |Columns| => |Columns[i]|)
  }

  /** One table row: the padded name, `" || "`, the padded cells. */
  function RowLine(name: string, cells: seq<string>, w: nat): string
    requires |cells| == |Columns|
  {
    LJust(name, w) + NameSeparator + JoinCells(cells, ColumnWidths())
  }

  /** The header: `"Service".ljust(w)`, then the column titles unpadded. */
  function HeaderLine(w: nat): string {
    LJust(ServiceHeader, w) + NameSeparator + JoinCells(Columns, ColumnWidths())
  }

  /** In every row whose name fits the width, the name column is the name
      padded to exactly `w` and the `" || "` separator starts at column `w`. */
  lemma RowNameColumn(name: string, cells: seq<string>, w: nat)
    requires |cells| == |Columns|
    requires |name| <= w
    ensures |RowLine(name, cells, w)| >= w + 4
    ensures RowLine(name, cells, w)[..|name|] == name
    ensures forall i :: |name| <= i < w ==> RowLine(name, cells, w)[i] == ' '
    ensures RowLine(name, cells, w)[w..w + 4] == NameSeparator
  {
    var line := RowLine(name, cells, w);
    var padded := LJust(name, w);
    assert line[..w] == padded;
    assert line[..|name|] == padded[..|name|];
  }

  /** In the header the `" || "` separator starts at column `max(7, w)`: it
      lines up with the rows only when some name is at least as long as
      `"Service"`. */
  lemma HeaderNameColumn(w: nat)
    ensures |HeaderLine(w)| >= Max(|ServiceHeader|, w) + 4
    ensures HeaderLine(w)[Max(|ServiceHeader|, w)..Max(|ServiceHeader|, w) + 4] == NameSeparator
  {
    var padded := LJust(ServiceHeader, w);
    assert |padded| == Max(7, w);
    assert HeaderLine(w)[|padded|..|padded| + 4] == NameSeparator;
  }

  lemma {:induction false} JoinCellsLength(cells: seq<string>, widths: seq<int>)
    requires |cells| == |widths| > 0
    requires forall i :: 0 <= i < |cells| ==> |cells[i]| <= widths[i]
    ensures |JoinCells(cells, widths)| == Sum(widths) + 3 * (|cells| - 1)
    decreases |cells|
  {
    if |cells| > 1 {
      JoinCellsLength(cells[1..], widths[1..]);
    }
  }

  /** When every value fits under its title, a row is exactly as long as the
      header line built for the same width: the columns line up. */
  lemma RowMatchesHeaderWhenValuesFit(name: string, cells: seq<string>, w: nat)
    requires |cells| == |Columns|
    requires |name| <= w && |ServiceHeader| <= w
    requires forall i :: 0 <= i < |Columns| ==> |cells[i]| <= |Columns[i]|
    ensures |RowLine(name, cells, w)| == |HeaderLine(w)| == w + 65
  {
    var ws := ColumnWidths();
    JoinCellsLength(cells, ws);
    JoinCellsLength(Columns, ws);
    assert Sum(ws) == 49 by {
      assert ws == [12, 13, 7, 8, 9];
    }
  }
}
