/** The laboratory report panel: a panel name selects an ordered list of
    parameters, and the result table holds at most one row per selected
    parameter, always in the panel's order whatever order the user clicks
    in. */
module Labs {
  import opened Common
  import opened Sorting

  datatype LabResultRow = LabResultRow(
    id: string,
    parameter: string,
    value: string,
    unit: string,
    flag: string,
    referenceRange: string)

  /** The result columns the table edits in place. */
  datatype LabField = Value | Unit | Flag | ReferenceRange

  // ---------------------------------------------------------------------
  // PANELS_DATA
  // ---------------------------------------------------------------------

  const LipidPanel: seq<string> := [
    "Total Cholesterol (TC)",
    "HDL Cholesterol",
    "LDL Cholesterol",
    "Triglycerides (TG)",
    "TC/HDL Ratio"
  ]

  const BasicMetabolicPanel: seq<string> := [
    "Glucose", "Calcium", "Sodium", "Potassium", "CO2", "Chloride", "BUN", "Creatinine"
  ]

  const CompleteBloodCount: seq<string> := [
    "WBC", "RBC", "Hemoglobin", "Hematocrit", "Platelets"
  ]

  const PanelsData: map<string, seq<string>> := map[
    "Lipid Panel" := LipidPanel,
    "Basic Metabolic Panel" := BasicMetabolicPanel,
    "Complete Blood Count" := CompleteBloodCount
  ]

  predicate Distinct(ps: seq<string>)
  {
    forall i, j :: 0 <= i < j < |ps| ==> ps[i] != ps[j]
  }

  /** `PANELS_DATA[name] || []`: the parameter list of a panel, empty for a
      name that is not a panel. */
  function PanelParameters(name: string): seq<string>
  {
    if name in PanelsData then PanelsData[name] else []
  }

  /** Every panel lists each parameter once, and only the three known
      panels have parameters. */
  lemma PanelParametersShape(name: string)
    ensures Distinct(PanelParameters(name))
    ensures |PanelParameters(name)| > 0 <==> name in PanelsData
  {
    assert Distinct(LipidPanel);
    assert Distinct(BasicMetabolicPanel);
    assert Distinct(CompleteBloodCount);
  }

  // ---------------------------------------------------------------------
  // Position of a parameter in the panel (Array.prototype.indexOf)
  // ---------------------------------------------------------------------

  /** `ps.indexOf(p)`: the first position of `p`, or -1. */
  function IndexOf(ps: seq<string>, p: string): int
  {
    if ps == [] then -1
    else if ps[0] == p then 0
    else
      var k := IndexOf(ps[1..], p);
      if k < 0 then -1 else k + 1
  }

  /** indexOf answers -1 exactly for an absent parameter, and otherwise a
      position holding it. */
  lemma {:induction false} IndexOfFound(ps: seq<string>, p: string)
    ensures -1 <= IndexOf(ps, p) < |ps|
    ensures IndexOf(ps, p) == -1 <==> p !in ps
    ensures IndexOf(ps, p) >= 0 ==> ps[IndexOf(ps, p)] == p
    decreases |ps|
  {
    if ps != [] && ps[0] != p {
      IndexOfFound(ps[1..], p);
      assert ps == [ps[0]] + ps[1..];
    }
  }

  /** The position indexOf answers is the first one holding the parameter. */
  lemma {:induction false} IndexOfFirst(ps: seq<string>, p: string)
    ensures forall j :: 0 <= j < IndexOf(ps, p) && j < |ps| ==> ps[j] != p
    decreases |ps|
  {
    if ps != [] && ps[0] != p {
      IndexOfFirst(ps[1..], p);
      forall j | 0 < j < IndexOf(ps, p) && j < |ps| ensures ps[j] != p {
        assert ps[j] == ps[1..][j - 1];
      }
    }
  }

  /** In a list without repetitions, the entry at position i is found at i. */
  lemma IndexOfDistinct(ps: seq<string>, i: int)
    requires Distinct(ps) && 0 <= i < |ps|
    ensures IndexOf(ps, ps[i]) == i
  {
    IndexOfFound(ps, ps[i]);
    IndexOfFirst(ps, ps[i]);
  }

  /** The comparator's key, `availableParams.indexOf(row.parameter)`. */
  function PanelOrder(ps: seq<string>): LabResultRow -> int
  {
    (r: LabResultRow) => IndexOf(ps, r.parameter)
  }

  // ---------------------------------------------------------------------
  // Row-list properties
  // ---------------------------------------------------------------------

  predicate DistinctParams(rows: seq<LabResultRow>)
  {
    forall i, j :: 0 <= i < j < |rows| ==> rows[i].parameter != rows[j].parameter
  }

  predicate IdsMatch(rows: seq<LabResultRow>)
  {
    forall i :: 0 <= i < |rows| ==> rows[i].id == rows[i].parameter
  }

  predicate AllInPanel(ps: seq<string>, rows: seq<LabResultRow>)
  {
    forall i :: 0 <= i < |rows| ==> rows[i].parameter in ps
  }

  /** What every handler keeps: rows sorted by panel position, at most one
      row per parameter, and each row's id equal to its parameter. */
  predicate WellFormed(ps: seq<string>, rows: seq<LabResultRow>)
  {
    SortedBy(PanelOrder(ps), rows) && DistinctParams(rows) && IdsMatch(rows)
  }

  /** Well formed and made only of the panel's parameters: the rows are then
      the panel list restricted to the selected parameters. */
  predicate Canonical(ps: seq<string>, rows: seq<LabResultRow>)
  {
    WellFormed(ps, rows) && AllInPanel(ps, rows)
  }

  /** `results.some(r => r.parameter === p)` */
  predicate HasRow(rows: seq<LabResultRow>, p: string)
  {
    exists i :: 0 <= i < |rows| && rows[i].parameter == p
  }

  /** The row a click on an unselected parameter creates. */
  function Blank(p: string): LabResultRow
  {
    LabResultRow(p, p, "", "", "", "")
  }

  /** Two different parameters of the panel sit at different positions. */
  lemma PositionsDiffer(ps: seq<string>, p: string, q: string)
    requires p in ps && q in ps && p != q
    ensures 0 <= IndexOf(ps, p) < |ps| && 0 <= IndexOf(ps, q) < |ps|
    ensures IndexOf(ps, p) != IndexOf(ps, q)
  {
    IndexOfFound(ps, p);
    IndexOfFound(ps, q);
  }

  /** In canonical rows, positions strictly increase and lie inside the
      panel. */
  lemma CanonicalIsStrict(ps: seq<string>, rows: seq<LabResultRow>)
    requires Canonical(ps, rows)
    ensures StrictlySortedBy(PanelOrder(ps), rows)
    ensures forall i :: 0 <= i < |rows| ==> 0 <= IndexOf(ps, rows[i].parameter) < |ps|
  {
    var key := PanelOrder(ps);
    forall i | 0 <= i < |rows| ensures 0 <= IndexOf(ps, rows[i].parameter) < |ps| {
      IndexOfFound(ps, rows[i].parameter);
    }
    forall i, j | 0 <= i < j < |rows| ensures key(rows[i]) < key(rows[j]) {
      assert key(rows[i]) <= key(rows[j]);
      PositionsDiffer(ps, rows[i].parameter, rows[j].parameter);
    }
  }

  /** A row for a new parameter in front of rows with distinct parameters
      keeps the parameters distinct. */
  lemma ConsDistinct(a: LabResultRow, u: seq<LabResultRow>)
    requires DistinctParams(u) && !HasRow(u, a.parameter)
    ensures DistinctParams([a] + u)
  {
    var r := [a] + u;
    forall i, j | 0 <= i < j < |r| ensures r[i].parameter != r[j].parameter {
      assert r[j] == u[j - 1];
      if i > 0 {
        assert r[i] == u[i - 1];
      }
    }
  }

  /** Inserting a row for a parameter not yet present keeps the parameters
      distinct. */
  lemma {:induction false} InsertDistinctParams(ps: seq<string>, s: seq<LabResultRow>, x: LabResultRow)
    requires DistinctParams(s) && !HasRow(s, x.parameter)
    ensures DistinctParams(Insert(PanelOrder(ps), s, x))
    decreases |s|
  {
    var key := PanelOrder(ps);
    if s == [] {
    } else if key(x) < key(s[0]) {
      ConsDistinct(x, s);
    } else {
      var t := s[1..];
      assert !HasRow(t, x.parameter) by {
        forall i | 0 <= i < |t| ensures t[i].parameter != x.parameter {
          assert t[i] == s[i + 1];
        }
      }
      assert DistinctParams(t) by {
        forall i, j | 0 <= i < j < |t| ensures t[i].parameter != t[j].parameter {
          assert t[i] == s[i + 1] && t[j] == s[j + 1];
        }
      }
      InsertDistinctParams(ps, t, x);
      InsertPermutation(key, t, x);
      var u := Insert(key, t, x);
      assert !HasRow(u, s[0].parameter) by {
        forall j | 0 <= j < |u| ensures u[j].parameter != s[0].parameter {
          assert u[j] in u;
          if u[j] != x {
            assert u[j] in t;
            var k :| 0 <= k < |t| && t[k] == u[j];
            assert s[k + 1] == u[j];
          }
        }
      }
      ConsDistinct(s[0], u);
      assert Insert(key, s, x) == [s[0]] + u;
    }
  }

  /** Inserting a row for a parameter not yet present keeps the list well
      formed. */
  lemma InsertWellFormed(ps: seq<string>, s: seq<LabResultRow>, x: LabResultRow)
    requires WellFormed(ps, s) && !HasRow(s, x.parameter) && x.id == x.parameter
    ensures WellFormed(ps, Insert(PanelOrder(ps), s, x))
  {
    var key := PanelOrder(ps);
    var r := Insert(key, s, x);
    InsertSorted(key, s, x);
    InsertPermutation(key, s, x);
    InsertDistinctParams(ps, s, x);
    forall i | 0 <= i < |r| ensures r[i].id == r[i].parameter {
      assert r[i] in r;
      if r[i] != x {
        assert r[i] in s;
        var k :| 0 <= k < |s| && s[k] == r[i];
      }
    }
  }

  /** Inserting, one by one, rows for distinct parameters none of which is
      present keeps the list well formed and holds exactly both lists' rows. */
  lemma {:induction false} InsertAllWellFormed(ps: seq<string>, s: seq<LabResultRow>, b: seq<LabResultRow>)
    requires WellFormed(ps, s) && DistinctParams(b) && IdsMatch(b)
    requires forall i :: 0 <= i < |b| ==> !HasRow(s, b[i].parameter)
    ensures WellFormed(ps, InsertAll(PanelOrder(ps), s, b))
    ensures forall y :: y in InsertAll(PanelOrder(ps), s, b) <==> y in s || y in b
    decreases |b|
  {
    if b != [] {
      var key := PanelOrder(ps);
      var n := |b|;
      var b' := b[..n - 1];
      var x := b[n - 1];
      assert forall i :: 0 <= i < n - 1 ==> b'[i] == b[i];
      InsertAllWellFormed(ps, s, b');
      var t := InsertAll(key, s, b');
      assert !HasRow(t, x.parameter) by {
        forall i | 0 <= i < |t| ensures t[i].parameter != x.parameter {
          assert t[i] in t;
          if t[i] in b' {
            var k :| 0 <= k < |b'| && b'[k] == t[i];
            assert b[k] == t[i];
          } else {
            assert t[i] in s;
            var k :| 0 <= k < |s| && s[k] == t[i];
          }
        }
      }
      InsertWellFormed(ps, t, x);
      InsertPermutation(key, t, x);
      assert b == b' + [x];
    }
  }

  // ---------------------------------------------------------------------
  // handleParameterToggle
  // ---------------------------------------------------------------------

  /** `prev.filter(r => r.parameter !== p)` */
  function RemoveParam(rows: seq<LabResultRow>, p: string): seq<LabResultRow>
  {
    if rows == [] then []
    else (if rows[0].parameter == p then [] else [rows[0]]) + RemoveParam(rows[1..], p)
  }

  /** The filter keeps exactly the rows of other parameters. */
  lemma {:induction false} RemoveParamMembers(rows: seq<LabResultRow>, p: string)
    ensures forall y :: y in RemoveParam(rows, p) <==> y in rows && y.parameter != p
    decreases |rows|
  {
    if rows != [] {
      RemoveParamMembers(rows[1..], p);
      assert rows == [rows[0]] + rows[1..];
    }
  }

  /** With one row per parameter, removing `p` deletes exactly the row at
      its position and keeps the others, values and order. */
  lemma {:induction false} RemoveParamAt(rows: seq<LabResultRow>, k: int)
    requires DistinctParams(rows) && 0 <= k < |rows|
    ensures RemoveParam(rows, rows[k].parameter) == rows[..k] + rows[k + 1..]
    decreases |rows|
  {
    var p := rows[k].parameter;
    var t := rows[1..];
    if k == 0 {
      assert forall i :: 0 <= i < |t| ==> t[i] == rows[i + 1];
      RemoveParamAbsent(t, p);
      assert rows[k + 1..] == t;
    } else {
      assert DistinctParams(t) by {
        assert forall i :: 0 <= i < |t| ==> t[i] == rows[i + 1];
      }
      assert t[k - 1] == rows[k];
      RemoveParamAt(t, k - 1);
      assert rows[0].parameter != p;
      assert RemoveParam(rows, p) == [rows[0]] + RemoveParam(t, p);
      assert rows[..k] == [rows[0]] + t[..k - 1];
      assert rows[k + 1..] == t[k..];
    }
  }

  /** Removing a parameter that has no row changes nothing. */
  lemma {:induction false} RemoveParamAbsent(rows: seq<LabResultRow>, p: string)
    requires forall i :: 0 <= i < |rows| ==> rows[i].parameter != p
    ensures RemoveParam(rows, p) == rows
    decreases |rows|
  {
    if rows != [] {
      RemoveParamAbsent(rows[1..], p);
      assert rows == [rows[0]] + rows[1..];
    }
  }

  /** The rows after clicking parameter `p`: its row is removed if it has
      one; otherwise a blank row is added and the list re-sorted by panel
      position. */
  function Toggle(ps: seq<string>, rows: seq<LabResultRow>, p: string): seq<LabResultRow>
  {
    if HasRow(rows, p) then RemoveParam(rows, p)
    else SortBy(PanelOrder(ps), rows + [Blank(p)])
  }

  /** A click flips the selection of `p` and of no other parameter; a
      removal keeps every other row, an addition adds exactly the blank row
      and leaves the list sorted. */
  lemma ToggleSelection(ps: seq<string>, rows: seq<LabResultRow>, p: string)
    ensures HasRow(Toggle(ps, rows, p), p) <==> !HasRow(rows, p)
    ensures forall q :: q != p ==> (HasRow(Toggle(ps, rows, p), q) <==> HasRow(rows, q))
    ensures HasRow(rows, p) ==> forall y :: y in Toggle(ps, rows, p) <==> y in rows && y.parameter != p
    ensures !HasRow(rows, p) ==> SortedBy(PanelOrder(ps), Toggle(ps, rows, p))
    ensures !HasRow(rows, p) ==> multiset(Toggle(ps, rows, p)) == multiset(rows) + multiset{Blank(p)}
  {
    var r := Toggle(ps, rows, p);
    if HasRow(rows, p) {
      RemoveParamMembers(rows, p);
      forall q | q != p && HasRow(rows, q) ensures HasRow(r, q) {
        var i :| 0 <= i < |rows| && rows[i].parameter == q;
        assert rows[i] in r;
      }
      forall q | HasRow(r, q) ensures HasRow(rows, q) && q != p {
        var i :| 0 <= i < |r| && r[i].parameter == q;
        assert r[i] in rows;
      }
    } else {
      var all := rows + [Blank(p)];
      SortBySpec(PanelOrder(ps), all);
      SortMembers(PanelOrder(ps), all);
      forall q ensures HasRow(r, q) <==> HasRow(rows, q) || q == p {
        if HasRow(r, q) {
          var i :| 0 <= i < |r| && r[i].parameter == q;
          assert r[i] in all;
          if r[i] in rows {
            var k :| 0 <= k < |rows| && rows[k] == r[i];
          }
        }
        if HasRow(rows, q) {
          var i :| 0 <= i < |rows| && rows[i].parameter == q;
          assert rows[i] in all;
          assert rows[i] in r;
        }
        if q == p {
          assert all[|rows|] == Blank(p);
          assert Blank(p) in r;
          var i :| 0 <= i < |r| && r[i] == Blank(p);
        }
      }
    }
  }

  /** On well-formed rows, adding a parameter is a single stable insertion
      into the current list. */
  lemma ToggleAddIsInsert(ps: seq<string>, rows: seq<LabResultRow>, p: string)
    requires WellFormed(ps, rows) && !HasRow(rows, p)
    ensures Toggle(ps, rows, p) == Insert(PanelOrder(ps), rows, Blank(p))
  {
    SortOfSorted(PanelOrder(ps), rows);
    SortAppend(PanelOrder(ps), rows, [Blank(p)]);
    assert [Blank(p)][..0] == [];
  }

  /** On well-formed rows, clicking a selected parameter deletes exactly its
      row; every other row keeps its place and its entered values. */
  lemma ToggleRemoveIsDelete(ps: seq<string>, rows: seq<LabResultRow>, k: int)
    requires WellFormed(ps, rows) && 0 <= k < |rows|
    ensures Toggle(ps, rows, rows[k].parameter) == rows[..k] + rows[k + 1..]
  {
    assert HasRow(rows, rows[k].parameter);
    RemoveParamAt(rows, k);
  }

  /** Deleting one row keeps the rows well formed. */
  lemma DeleteWellFormed(ps: seq<string>, rows: seq<LabResultRow>, k: int)
    requires WellFormed(ps, rows) && 0 <= k < |rows|
    ensures WellFormed(ps, rows[..k] + rows[k + 1..])
  {
    DeleteSorted(PanelOrder(ps), rows, k);
    var r := rows[..k] + rows[k + 1..];
    assert forall i :: 0 <= i < |r| ==> r[i] == rows[if i < k then i else i + 1];
  }

  /** Toggling keeps the rows sorted by panel position, one per parameter. */
  lemma TogglePreservesWellFormed(ps: seq<string>, rows: seq<LabResultRow>, p: string)
    requires WellFormed(ps, rows)
    ensures WellFormed(ps, Toggle(ps, rows, p))
  {
    if HasRow(rows, p) {
      var k :| 0 <= k < |rows| && rows[k].parameter == p;
      ToggleRemoveIsDelete(ps, rows, k);
      DeleteWellFormed(ps, rows, k);
    } else {
      ToggleAddIsInsert(ps, rows, p);
      InsertWellFormed(ps, rows, Blank(p));
    }
  }

  /** Toggling a parameter of the panel keeps the rows canonical. */
  lemma TogglePreservesCanonical(ps: seq<string>, rows: seq<LabResultRow>, p: string)
    requires Canonical(ps, rows) && p in ps
    ensures Canonical(ps, Toggle(ps, rows, p))
  {
    TogglePreservesWellFormed(ps, rows, p);
    var r := Toggle(ps, rows, p);
    if HasRow(rows, p) {
      ToggleSelection(ps, rows, p);
    } else {
      SortMembers(PanelOrder(ps), rows + [Blank(p)]);
    }
    forall i | 0 <= i < |r| ensures r[i].parameter in ps {
      assert r[i] in r;
      if r[i] in rows {
        var k :| 0 <= k < |rows| && rows[k] == r[i];
      }
    }
  }

  /** Clicking "LDL Cholesterol" and then "Total Cholesterol (TC)" lists
      TC first: panel order, not click order. */
  lemma ToggleOrderExample()
    ensures Toggle(LipidPanel, Toggle(LipidPanel, [], "LDL Cholesterol"), "Total Cholesterol (TC)")
         == [Blank("Total Cholesterol (TC)"), Blank("LDL Cholesterol")]
  {
    var ldl, tc := Blank("LDL Cholesterol"), Blank("Total Cholesterol (TC)");
    ToggleAddIsInsert(LipidPanel, [], "LDL Cholesterol");
    assert Toggle(LipidPanel, [], "LDL Cholesterol") == [ldl];
    assert Distinct(LipidPanel);
    IndexOfDistinct(LipidPanel, 0);
    IndexOfDistinct(LipidPanel, 2);
    assert "LDL Cholesterol" != "Total Cholesterol (TC)";
    assert !HasRow([ldl], "Total Cholesterol (TC)");
    ToggleAddIsInsert(LipidPanel, [ldl], "Total Cholesterol (TC)");
    assert PanelOrder(LipidPanel)(tc) < PanelOrder(LipidPanel)(ldl);
  }

  // ---------------------------------------------------------------------
  // handleSelectAll and allParametersSelected
  // ---------------------------------------------------------------------

  /** `availableParams.every(param => results.some(r => r.parameter === param))` */
  predicate EveryParameterSelected(ps: seq<string>, rows: seq<LabResultRow>)
  {
    forall i :: 0 <= i < |ps| ==> HasRow(rows, ps[i])
  }

  /** The flag the button shows: a non-empty panel with every parameter
      selected. */
  predicate AllParametersSelected(ps: seq<string>, rows: seq<LabResultRow>)
  {
    |ps| > 0 && EveryParameterSelected(ps, rows)
  }

  /** Blank rows for the panel parameters that have no row, in panel order. */
  function Missing(ps: seq<string>, rows: seq<LabResultRow>): seq<LabResultRow>
    decreases |ps|
  {
    if ps == [] then []
    else
      var n := |ps|;
      Missing(ps[..n - 1], rows) + (if HasRow(rows, ps[n - 1]) then [] else [Blank(ps[n - 1])])
  }

  /** The missing rows are exactly the blanks for the panel parameters that
      have no row. */
  lemma {:induction false} MissingSpec(ps: seq<string>, rows: seq<LabResultRow>)
    ensures forall y :: y in Missing(ps, rows) ==> y == Blank(y.parameter) && y.parameter in ps && !HasRow(rows, y.parameter)
    ensures forall q :: q in ps && !HasRow(rows, q) ==> Blank(q) in Missing(ps, rows)
    decreases |ps|
  {
    if ps != [] {
      var n := |ps|;
      MissingSpec(ps[..n - 1], rows);
      assert ps == ps[..n - 1] + [ps[n - 1]];
    }
  }

  /** For a panel without repetitions the missing rows are for distinct
      parameters. */
  lemma {:induction false} MissingDistinct(ps: seq<string>, rows: seq<LabResultRow>)
    requires Distinct(ps)
    ensures DistinctParams(Missing(ps, rows)) && IdsMatch(Missing(ps, rows))
    decreases |ps|
  {
    if ps != [] {
      var n := |ps|;
      var m := Missing(ps[..n - 1], rows);
      MissingDistinct(ps[..n - 1], rows);
      MissingSpec(ps[..n - 1], rows);
      forall i | 0 <= i < |m| ensures m[i].parameter != ps[n - 1] {
        assert m[i] in m;
        var k :| 0 <= k < n - 1 && ps[..n - 1][k] == m[i].parameter;
        assert ps[k] == m[i].parameter;
      }
      var tail := if HasRow(rows, ps[n - 1]) then [] else [Blank(ps[n - 1])];
      assert Missing(ps, rows) == m + tail;
    }
  }

  /** The rows after the select-all button: cleared when every parameter is
      already selected, otherwise the missing blanks merged in and the list
      re-sorted by panel position. */
  function SelectAllRows(ps: seq<string>, rows: seq<LabResultRow>): seq<LabResultRow>
  {
    if EveryParameterSelected(ps, rows) then []
    else SortBy(PanelOrder(ps), rows + Missing(ps, rows))
  }

  /** Select-all clears a fully selected list; otherwise afterwards every
      parameter is selected, every existing row is still there, and the
      only new rows are blanks for parameters that had none. */
  lemma SelectAllSelects(ps: seq<string>, rows: seq<LabResultRow>)
    ensures EveryParameterSelected(ps, rows) ==> SelectAllRows(ps, rows) == []
    ensures !EveryParameterSelected(ps, rows) ==> EveryParameterSelected(ps, SelectAllRows(ps, rows))
    ensures !EveryParameterSelected(ps, rows) ==>
      forall y :: y in SelectAllRows(ps, rows) <==> y in rows || y in Missing(ps, rows)
  {
    if !EveryParameterSelected(ps, rows) {
      var all := rows + Missing(ps, rows);
      var r := SelectAllRows(ps, rows);
      MissingSpec(ps, rows);
      SortMembers(PanelOrder(ps), all);
      forall i | 0 <= i < |ps| ensures HasRow(r, ps[i]) {
        if HasRow(rows, ps[i]) {
          var k :| 0 <= k < |rows| && rows[k].parameter == ps[i];
          assert rows[k] in all;
          assert rows[k] in r;
          var j :| 0 <= j < |r| && r[j] == rows[k];
        } else {
          assert Blank(ps[i]) in all;
          assert Blank(ps[i]) in r;
          var j :| 0 <= j < |r| && r[j] == Blank(ps[i]);
        }
      }
    }
  }

  /** The first row for parameter `p` (`results.find`). */
  function RowFor(rows: seq<LabResultRow>, p: string): (r: LabResultRow)
    requires HasRow(rows, p)
    ensures r in rows && r.parameter == p
  {
    if rows[0].parameter == p then rows[0]
    else
      assert HasRow(rows[1..], p) by {
        var i :| 0 <= i < |rows| && rows[i].parameter == p;
        assert rows[1..][i - 1] == rows[i];
      }
      RowFor(rows[1..], p)
  }

  /** One row per panel parameter, in panel order: the existing row where
      there is one, a blank row otherwise. */
  function FullSelection(ps: seq<string>, rows: seq<LabResultRow>): (r: seq<LabResultRow>)
    ensures |r| == |ps|
    ensures forall i :: 0 <= i < |ps| ==> r[i].parameter == ps[i]
    ensures forall i :: 0 <= i < |ps| && HasRow(rows, ps[i]) ==> r[i] in rows
    ensures forall i :: 0 <= i < |ps| && !HasRow(rows, ps[i]) ==> r[i] == Blank(ps[i])
  {
    seq(|ps|, i requires 0 <= i < |ps| =>
      if HasRow(rows, ps[i]) then RowFor(rows, ps[i]) else Blank(ps[i]))
  }

  /** Select-all keeps the rows well formed. */
  lemma SelectAllPreservesWellFormed(ps: seq<string>, rows: seq<LabResultRow>)
    requires Distinct(ps) && WellFormed(ps, rows)
    ensures WellFormed(ps, SelectAllRows(ps, rows))
  {
    if !EveryParameterSelected(ps, rows) {
      var m := Missing(ps, rows);
      MissingDistinct(ps, rows);
      MissingSpec(ps, rows);
      forall i | 0 <= i < |m| ensures !HasRow(rows, m[i].parameter) {
        assert m[i] in m;
      }
      SortOfSorted(PanelOrder(ps), rows);
      SortAppend(PanelOrder(ps), rows, m);
      InsertAllWellFormed(ps, rows, m);
    }
  }

  /** The full selection lists the panel's parameters in panel order, so its
      positions strictly increase. */
  lemma FullSelectionStrict(ps: seq<string>, rows: seq<LabResultRow>)
    requires Distinct(ps)
    ensures StrictlySortedBy(PanelOrder(ps), FullSelection(ps, rows))
  {
    var f := FullSelection(ps, rows);
    forall i, j | 0 <= i < j < |f| ensures PanelOrder(ps)(f[i]) < PanelOrder(ps)(f[j]) {
      IndexOfDistinct(ps, i);
      IndexOfDistinct(ps, j);
    }
  }

  /** On canonical rows with one row per parameter, the row kept for a
      parameter is the only one there is. */
  lemma RowForUnique(rows: seq<LabResultRow>, j: int)
    requires DistinctParams(rows) && 0 <= j < |rows|
    ensures HasRow(rows, rows[j].parameter) && RowFor(rows, rows[j].parameter) == rows[j]
  {
    assert HasRow(rows, rows[j].parameter);
    var w := RowFor(rows, rows[j].parameter);
    var j' :| 0 <= j' < |rows| && rows[j'] == w;
  }

  /** Select-all on canonical rows yields canonical rows. */
  lemma SelectAllCanonical(ps: seq<string>, rows: seq<LabResultRow>)
    requires Distinct(ps) && Canonical(ps, rows)
    ensures Canonical(ps, SelectAllRows(ps, rows))
  {
    var r := SelectAllRows(ps, rows);
    SelectAllPreservesWellFormed(ps, rows);
    SelectAllSelects(ps, rows);
    MissingSpec(ps, rows);
    forall i | 0 <= i < |r| ensures r[i].parameter in ps {
      assert r[i] in r;
      if r[i] in rows {
        var k :| 0 <= k < |rows| && rows[k] == r[i];
      }
    }
  }

  /** Every row select-all leaves on canonical rows is in the full
      selection. */
  lemma SelectAllWithinFull(ps: seq<string>, rows: seq<LabResultRow>)
    requires Distinct(ps) && Canonical(ps, rows) && !EveryParameterSelected(ps, rows)
    ensures forall y :: y in SelectAllRows(ps, rows) ==> y in FullSelection(ps, rows)
  {
    var r := SelectAllRows(ps, rows);
    var f := FullSelection(ps, rows);
    MissingSpec(ps, rows);
    SelectAllSelects(ps, rows);
    forall y | y in r ensures y in f {
      IndexOfFound(ps, y.parameter);
      var k := IndexOf(ps, y.parameter);
      if y in rows {
        var j :| 0 <= j < |rows| && rows[j] == y;
        RowForUnique(rows, j);
      }
      assert f[k] == y;
    }
  }

  /** Every row of the full selection is among the rows select-all
      leaves. */
  lemma FullWithinSelectAll(ps: seq<string>, rows: seq<LabResultRow>)
    requires !EveryParameterSelected(ps, rows)
    ensures forall y :: y in FullSelection(ps, rows) ==> y in SelectAllRows(ps, rows)
  {
    var r := SelectAllRows(ps, rows);
    var f := FullSelection(ps, rows);
    MissingSpec(ps, rows);
    SelectAllSelects(ps, rows);
    forall y | y in f ensures y in r {
      var i :| 0 <= i < |f| && f[i] == y;
      if !HasRow(rows, ps[i]) {
        assert y in Missing(ps, rows);
      }
    }
  }

  /** When some parameter is unselected, select-all on canonical rows holds
      the same rows as the full selection. */
  lemma SelectAllSameRows(ps: seq<string>, rows: seq<LabResultRow>)
    requires Distinct(ps) && Canonical(ps, rows) && !EveryParameterSelected(ps, rows)
    ensures forall y :: y in SelectAllRows(ps, rows) <==> y in FullSelection(ps, rows)
  {
    SelectAllWithinFull(ps, rows);
    FullWithinSelectAll(ps, rows);
  }

  /** Select-all on canonical rows, when some parameter is unselected,
      gives exactly one row per panel parameter in panel order, keeping
      every entered row and adding blanks for the rest. */
  lemma SelectAllIsFullSelection(ps: seq<string>, rows: seq<LabResultRow>)
    requires Distinct(ps) && Canonical(ps, rows) && !EveryParameterSelected(ps, rows)
    ensures SelectAllRows(ps, rows) == FullSelection(ps, rows)
  {
    SelectAllCanonical(ps, rows);
    CanonicalIsStrict(ps, SelectAllRows(ps, rows));
    FullSelectionStrict(ps, rows);
    SelectAllSameRows(ps, rows);
    StrictlySortedUnique(PanelOrder(ps), SelectAllRows(ps, rows), FullSelection(ps, rows));
  }

  /** On an empty parameter list select-all's own check succeeds, so it
      takes the clearing branch, while the button does not show the list as
      all selected. */
  lemma SelectAllOnEmptyPanel(rows: seq<LabResultRow>)
    ensures SelectAllRows([], rows) == []
    ensures !AllParametersSelected([], rows)
  {
  }

  /** Strictly increasing positions below `n`: there are at most `n` of
      them, and the one at index i lies between i and n - |ks| + i. */
  lemma {:induction false} IncreasingBounds(ks: seq<int>, n: nat)
    requires forall i, j :: 0 <= i < j < |ks| ==> ks[i] < ks[j]
    requires forall i :: 0 <= i < |ks| ==> 0 <= ks[i] < n
    ensures |ks| <= n
    ensures forall i :: 0 <= i < |ks| ==> i <= ks[i] <= n - |ks| + i
    decreases |ks|
  {
    if ks != [] {
      var m := |ks|;
      var front := ks[..m - 1];
      assert forall i :: 0 <= i < m - 1 ==> front[i] == ks[i];
      assert forall i :: 0 <= i < m - 1 ==> 0 <= front[i] < ks[m - 1];
      IncreasingBounds(front, ks[m - 1]);
      assert m - 1 <= ks[m - 1] < n;
      forall i | 0 <= i < m ensures i <= ks[i] <= n - m + i {
        if i < m - 1 {
          assert front[i] == ks[i];
        }
      }
    }
  }

  /** The panel positions of the rows, in row order. */
  function Positions(ps: seq<string>, rows: seq<LabResultRow>): seq<int>
  {
    seq(|rows|, i requires 0 <= i < |rows| => IndexOf(ps, rows[i].parameter))
  }

  /** The positions of canonical rows obey the bounds of strictly increasing
      positions. */
  lemma CanonicalPositions(ps: seq<string>, rows: seq<LabResultRow>)
    requires Canonical(ps, rows)
    ensures |rows| <= |ps|
    ensures forall i, j :: 0 <= i < j < |rows| ==> IndexOf(ps, rows[i].parameter) < IndexOf(ps, rows[j].parameter)
    ensures forall i :: 0 <= i < |rows| ==> i <= IndexOf(ps, rows[i].parameter) <= |ps| - |rows| + i
  {
    CanonicalIsStrict(ps, rows);
    var ks := Positions(ps, rows);
    assert |ks| == |rows|;
    forall i, j | 0 <= i < j < |ks| ensures ks[i] < ks[j] {
      assert PanelOrder(ps)(rows[i]) < PanelOrder(ps)(rows[j]);
    }
    assert forall i :: 0 <= i < |ks| ==> 0 <= ks[i] < |ps|;
    IncreasingBounds(ks, |ps|);
    assert forall i :: 0 <= i < |rows| ==> IndexOf(ps, rows[i].parameter) == ks[i];
  }

  /** Canonical rows as many as the parameters select every parameter. */
  lemma FullIsAllSelected(ps: seq<string>, rows: seq<LabResultRow>)
    requires Canonical(ps, rows) && |rows| == |ps|
    ensures EveryParameterSelected(ps, rows)
  {
    CanonicalPositions(ps, rows);
    forall i | 0 <= i < |ps| ensures HasRow(rows, ps[i]) {
      IndexOfFound(ps, rows[i].parameter);
      assert rows[i].parameter == ps[i];
    }
  }

  /** Canonical rows that select every parameter are as many as the
      parameters: the i-th row is the i-th parameter's. */
  lemma AllSelectedIsFull(ps: seq<string>, rows: seq<LabResultRow>)
    requires Distinct(ps) && Canonical(ps, rows) && EveryParameterSelected(ps, rows)
    ensures |rows| == |ps|
  {
    CanonicalPositions(ps, rows);
    var i := 0;
    while i < |ps|
      invariant 0 <= i <= |ps| && i <= |rows|
      invariant forall j :: 0 <= j < i ==> IndexOf(ps, rows[j].parameter) == j
    {
      var k :| 0 <= k < |rows| && rows[k].parameter == ps[i];
      IndexOfDistinct(ps, i);
      assert IndexOf(ps, rows[k].parameter) == i;
      assert k == i;
      i := i + 1;
    }
  }

  /** On canonical rows the button's "all selected" flag holds exactly when
      the panel is non-empty and there are as many rows as parameters. */
  lemma AllSelectedIffFull(ps: seq<string>, rows: seq<LabResultRow>)
    requires Distinct(ps) && Canonical(ps, rows)
    ensures AllParametersSelected(ps, rows) <==> |ps| > 0 && |rows| == |ps|
  {
    if |rows| == |ps| {
      FullIsAllSelected(ps, rows);
    }
    if EveryParameterSelected(ps, rows) {
      AllSelectedIsFull(ps, rows);
    }
  }

  // ---------------------------------------------------------------------
  // updateResultRow
  // ---------------------------------------------------------------------

  function FieldOf(row: LabResultRow, f: LabField): string
  {
    match f
    case Value => row.value
    case Unit => row.unit
    case Flag => row.flag
    case ReferenceRange => row.referenceRange
  }

  function WithField(row: LabResultRow, f: LabField, v: string): LabResultRow
  {
    match f
    case Value => row.(value := v)
    case Unit => row.(unit := v)
    case Flag => row.(flag := v)
    case ReferenceRange => row.(referenceRange := v)
  }

  /** `prev.map(row => row.id === id ? { ...row, [field]: v } : row)`:
      field `f` of the rows with that id becomes `v`, and nothing else
      changes. */
  function UpdateRows(rows: seq<LabResultRow>, id: string, f: LabField, v: string): (r: seq<LabResultRow>)
    ensures |r| == |rows|
    ensures forall i :: 0 <= i < |rows| ==> r[i].id == rows[i].id && r[i].parameter == rows[i].parameter
    ensures forall i :: 0 <= i < |rows| && rows[i].id != id ==> r[i] == rows[i]
    ensures forall i :: 0 <= i < |rows| && rows[i].id == id ==>
                FieldOf(r[i], f) == v && forall g :: g != f ==> FieldOf(r[i], g) == FieldOf(rows[i], g)
  {
    seq(|rows|, i requires 0 <= i < |rows| =>
      if rows[i].id == id then WithField(rows[i], f, v) else rows[i])
  }

  /** An id no row has leaves the rows as they are. */
  lemma UpdateUnknownId(rows: seq<LabResultRow>, id: string, f: LabField, v: string)
    requires forall i :: 0 <= i < |rows| ==> rows[i].id != id
    ensures UpdateRows(rows, id, f, v) == rows
  {
  }

  /** Editing a cell never changes which parameters are selected or their
      order. */
  lemma UpdatePreservesCanonical(ps: seq<string>, rows: seq<LabResultRow>, id: string, f: LabField, v: string)
    ensures WellFormed(ps, rows) ==> WellFormed(ps, UpdateRows(rows, id, f, v))
    ensures Canonical(ps, rows) ==> Canonical(ps, UpdateRows(rows, id, f, v))
  {
    var r := UpdateRows(rows, id, f, v);
    assert forall i :: 0 <= i < |r| ==> PanelOrder(ps)(r[i]) == PanelOrder(ps)(rows[i]);
  }

  /** The loop of handleSelectAll: a copy of the rows with a blank row
      pushed for each panel parameter, in panel order, that had none. */
  method PushMissing(ps: seq<string>, rows: seq<LabResultRow>) returns (newResults: seq<LabResultRow>)
    ensures newResults == rows + Missing(ps, rows)
  {
    newResults := rows;
    var i := 0;
    while i < |ps|
      invariant 0 <= i <= |ps|
      invariant newResults == rows + Missing(ps[..i], rows)
    {
      var param := ps[i];
      if !HasRow(rows, param) {
        newResults := newResults + [Blank(param)];
      }
      assert ps[..i + 1][..i] == ps[..i];
      i := i + 1;
    }
    assert ps[..i] == ps;
  }

  // ---------------------------------------------------------------------
  // The panel's state
  // ---------------------------------------------------------------------

  /** The record `handleSave` hands to the log. */
  datatype LabReport = LabReport(
    status: Status,
    firstName: string, lastName: string, dob: string, gender: string,
    providerName: string, facility: string, dos: string, pageNo: string,
    results: seq<LabResultRow>,
    comments: string)

  class LabsPanel {
    var status: Status
    var firstName: string
    var lastName: string
    var dob: string
    var gender: string
    var providerName: string
    var facility: string
    var dos: string
    var pageNo: string
    var panelName: string
    var availableParams: seq<string>
    var results: seq<LabResultRow>
    var comments: string

    /** The parameter list is the chosen panel's, and the rows are
        well formed, each for one of its parameters, in panel order. */
    ghost predicate Valid()
      reads this
    {
      availableParams == PanelParameters(panelName) && Canonical(availableParams, results)
    }

    /** Status "pending", blank patient and provider fields, the lipid panel
        and no result rows. */
    constructor ()
      ensures Valid()
      ensures status == Pending && panelName == "Lipid Panel" && availableParams == LipidPanel
      ensures results == [] && comments == ""
      ensures firstName == lastName == dob == gender == ""
      ensures providerName == facility == dos == pageNo == ""
    {
      status := Pending;
      firstName, lastName, dob, gender := "", "", "", "";
      providerName, facility, dos, pageNo := "", "", "", "";
      panelName := "Lipid Panel";
      availableParams := LipidPanel;
      results := [];
      comments := "";
    }

    /** Choosing a panel and the effect that follows it: the parameter list
        becomes the panel's (empty for an unknown name) and every result row
        is discarded. */
    method ChangePanel(name: string)
      modifies this`panelName, this`availableParams, this`results
      ensures Valid()
      ensures panelName == name && availableParams == PanelParameters(name) && results == []
    {
      panelName := name;
      availableParams := PanelParameters(name);
      results := [];
    }

    /** handleParameterToggle, from a parameter's checkbox or a row's
        remove button. */
    method ParameterToggle(param: string)
      requires Valid() && (param in availableParams || HasRow(results, param))
      modifies this`results
      ensures Valid()
      ensures results == Toggle(availableParams, old(results), param)
    {
      if HasRow(results, param) {
        var k :| 0 <= k < |results| && results[k].parameter == param;
        assert results[k].parameter in availableParams;
      }
      TogglePreservesCanonical(availableParams, results, param);
      results := Toggle(availableParams, results, param);
    }

    /** handleSelectAll: clears when every parameter is selected; otherwise
        pushes a blank row for each parameter that had none and sorts the
        merged list by panel position. */
    method SelectAll()
      requires Valid()
      modifies this`results
      ensures Valid()
      ensures results == SelectAllRows(availableParams, old(results))
      ensures !EveryParameterSelected(availableParams, old(results)) ==>
        results == FullSelection(availableParams, old(results))
    {
      var ps := availableParams;
      PanelParametersShape(panelName);
      SelectAllCanonical(ps, results);
      if !EveryParameterSelected(ps, results) {
        SelectAllIsFullSelection(ps, results);
      }
      var allSelected := forall i | 0 <= i < |ps| :: HasRow(results, ps[i]);
      if allSelected {
        results := [];
      } else {
        var newResults := PushMissing(ps, results);
        results := SortBy(PanelOrder(ps), newResults);
      }
    }

    /** updateResultRow */
    method UpdateResultRow(id: string, field: LabField, v: string)
      requires Valid()
      modifies this`results
      ensures Valid()
      ensures results == UpdateRows(old(results), id, field, v)
    {
      UpdatePreservesCanonical(availableParams, results, id, field, v);
      results := UpdateRows(results, id, field, v);
    }

    /** handleReset: a confirmed reset blanks the patient and provider
        fields, the rows and the comments and sets status "pending"; the
        panel and its parameters stay. A declined one changes nothing. */
    method Reset(confirm: bool)
      requires Valid()
      modifies this`firstName, this`lastName, this`dob, this`gender, this`providerName,
        this`facility, this`dos, this`pageNo, this`results, this`comments, this`status
      ensures Valid()
      ensures !confirm ==> unchanged(this)
      ensures confirm ==> Cleared() && panelName == old(panelName)
    {
      if confirm {
        ClearForm();
      }
    }

    /** Status "pending" and every patient, provider, result and comment
        field blank. */
    ghost predicate Cleared()
      reads this
    {
      && status == Pending && results == [] && comments == ""
      && firstName == "" && lastName == "" && dob == "" && gender == ""
      && providerName == "" && facility == "" && dos == "" && pageNo == ""
    }

    method ClearForm()
      requires Valid()
      modifies this`firstName, this`lastName, this`dob, this`gender, this`providerName,
        this`facility, this`dos, this`pageNo, this`results, this`comments, this`status
      ensures Valid() && Cleared()
    {
      ClearPatient();
      ClearProvider();
      results := [];
      comments := "";
      status := Pending;
    }

    method ClearPatient()
      modifies this`firstName, this`lastName, this`dob, this`gender
      ensures firstName == "" && lastName == "" && dob == "" && gender == ""
    {
      firstName, lastName, dob, gender := "", "", "", "";
    }

    method ClearProvider()
      modifies this`providerName, this`facility, this`dos, this`pageNo
      ensures providerName == "" && facility == "" && dos == "" && pageNo == ""
    {
      providerName, facility, dos, pageNo := "", "", "", "";
    }

    /** handleDelete: asks "Delete record?" and then calls handleReset, which
        asks again; only two confirmations clear the form. */
    method Delete(confirmDelete: bool, confirmReset: bool)
      requires Valid()
      modifies this`firstName, this`lastName, this`dob, this`gender, this`providerName,
        this`facility, this`dos, this`pageNo, this`results, this`comments, this`status
      ensures Valid()
      ensures !(confirmDelete && confirmReset) ==> unchanged(this)
      ensures confirmDelete && confirmReset ==> Cleared()
    {
      if confirmDelete {
        Reset(confirmReset);
      }
    }

    /** handleSave: the record logged is the current form. */
    function Report(): (r: LabReport)
      reads this
      ensures r.results == results && r.status == status && r.comments == comments
    {
      LabReport(status, firstName, lastName, dob, gender, providerName, facility, dos, pageNo, results, comments)
    }
  }
}
