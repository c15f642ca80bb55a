/** The diagnostic-report panel: patient, provider and report text fields
    and a table of vital-sign rows that always holds at least one row. Rows
    are identified by a numeric id: the first row has id 1 and every added
    row takes the clock reading at the time it is added. */
module Diagnostics {
  import opened Common

  /** A page-number cell. The row type declares a number, but the cells'
      inputs store the text typed into them, so both kinds occur. */
  datatype PageNo = Num(n: int) | Text(s: string)

  datatype VitalsRow = VitalsRow(
    id: int,
    height: string, heightUnit: string,
    weight: string, weightUnit: string,
    bmi: string, dia: string, sys: string, pulse: string,
    pageNo1: PageNo, pageNo2: PageNo)

  /** The cells an edit can change (every key of a row except its id). */
  datatype VitalsField =
    Height | HeightUnit | Weight | WeightUnit | Bmi | Dia | Sys | Pulse | PageNo1 | PageNo2

  /** A fresh row: blank measurements, units "CM" and "KG", pages 0. */
  function BlankRow(id: int): (r: VitalsRow)
    ensures r.id == id && Measured(r) == false && r.pageNo1 == r.pageNo2 == Num(0)
    ensures r.heightUnit == "CM" && r.weightUnit == "KG"
  {
    VitalsRow(id, "", "CM", "", "KG", "", "", "", "", Num(0), Num(0))
  }

  /** Some measurement cell of the row holds text. */
  predicate Measured(r: VitalsRow)
  {
    r.height != "" || r.weight != "" || r.bmi != "" || r.dia != "" || r.sys != "" || r.pulse != ""
  }

  /** The table a new form, and a reset form, start with. */
  const InitialRows: seq<VitalsRow> := [BlankRow(1)]

  function Ids(rows: seq<VitalsRow>): set<int>
  {
    set i | 0 <= i < |rows| :: rows[i].id
  }

  predicate DistinctIds(rows: seq<VitalsRow>)
  {
    forall i, j :: 0 <= i < j < |rows| ==> rows[i].id != rows[j].id
  }

  /** The table invariant: never empty, no id used twice. */
  predicate ValidRows(rows: seq<VitalsRow>)
  {
    |rows| > 0 && DistinctIds(rows)
  }

  // ---------------------------------------------------------------------
  // addVitalsRow
  // ---------------------------------------------------------------------

  /** addVitalsRow, with `now` the clock reading `Date.now()`. */
  function AddRow(rows: seq<VitalsRow>, now: int): seq<VitalsRow>
  {
    rows + [BlankRow(now)]
  }

  /** Adding keeps every old row in place and appends one blank row carrying
      the clock reading; a reading no row uses keeps the invariant. */
  lemma AddRowSpec(rows: seq<VitalsRow>, now: int)
    ensures |AddRow(rows, now)| == |rows| + 1
    ensures AddRow(rows, now)[..|rows|] == rows
    ensures AddRow(rows, now)[|rows|] == BlankRow(now)
    ensures Ids(AddRow(rows, now)) == Ids(rows) + {now}
    ensures ValidRows(rows) && now !in Ids(rows) ==> ValidRows(AddRow(rows, now))
  {
    var r := AddRow(rows, now);
    assert r[|rows|].id == now;
    forall x | x in Ids(r) ensures x in Ids(rows) + {now} {
      var i :| 0 <= i < |r| && r[i].id == x;
      if i < |rows| {
        assert rows[i].id == x;
      }
    }
    forall x | x in Ids(rows) ensures x in Ids(r) {
      var i :| 0 <= i < |rows| && rows[i].id == x;
      assert r[i].id == x;
    }
    if ValidRows(rows) && now !in Ids(rows) {
      forall i, j | 0 <= i < j < |r| ensures r[i].id != r[j].id {
        assert r[i] == rows[i];
        if j == |rows| {
          assert rows[i].id in Ids(rows);
        }
      }
    }
  }

  // ---------------------------------------------------------------------
  // removeVitalsRow
  // ---------------------------------------------------------------------

  /** The rows whose id is not `id`, in order (`filter(row => row.id !== id)`). */
  function WithoutId(rows: seq<VitalsRow>, id: int): seq<VitalsRow>
    decreases |rows|
  {
    if rows == [] then []
    else (if rows[0].id == id then [] else [rows[0]]) + WithoutId(rows[1..], id)
  }

  /** The row with its six measurement cells blanked; id, units and page
      numbers kept. */
  function ClearMeasurements(r: VitalsRow): (c: VitalsRow)
    ensures !Measured(c)
    ensures c.id == r.id && c.heightUnit == r.heightUnit && c.weightUnit == r.weightUnit
    ensures c.pageNo1 == r.pageNo1 && c.pageNo2 == r.pageNo2
  {
    r.(height := "", weight := "", bmi := "", dia := "", sys := "", pulse := "")
  }

  /** removeVitalsRow: with several rows, drops those with the given id;
      with one row, keeps it but blanks its measurements, whatever id was
      asked for. */
  function RemoveRow(rows: seq<VitalsRow>, id: int): seq<VitalsRow>
    requires |rows| > 0
  {
    if |rows| > 1 then WithoutId(rows, id) else [ClearMeasurements(rows[0])]
  }

  /** The filter keeps exactly the rows with another id, in their order. */
  lemma {:induction false} WithoutIdSpec(rows: seq<VitalsRow>, id: int)
    ensures forall r :: r in WithoutId(rows, id) <==> r in rows && r.id != id
    ensures |WithoutId(rows, id)| <= |rows|
    ensures id !in Ids(rows) ==> WithoutId(rows, id) == rows
    decreases |rows|
  {
    if rows != [] {
      WithoutIdSpec(rows[1..], id);
      assert rows == [rows[0]] + rows[1..];
      assert id !in Ids(rows) ==> rows[0].id != id && id !in Ids(rows[1..]) by {
        if id !in Ids(rows) {
          assert rows[0].id in Ids(rows);
          forall k | 0 <= k < |rows| - 1 ensures rows[1..][k].id != id {
            assert rows[k + 1].id in Ids(rows);
          }
        }
      }
    }
  }

  /** With distinct ids, removing a present id drops exactly that row. */
  lemma {:induction false} WithoutIdAt(rows: seq<VitalsRow>, k: int)
    requires DistinctIds(rows) && 0 <= k < |rows|
    ensures WithoutId(rows, rows[k].id) == rows[..k] + rows[k + 1..]
    decreases |rows|
  {
    var id := rows[k].id;
    if k == 0 {
      assert id !in Ids(rows[1..]) by {
        forall m | 0 <= m < |rows| - 1 ensures rows[1..][m].id != id {
          assert rows[m + 1].id != rows[0].id;
        }
      }
      WithoutIdSpec(rows[1..], id);
    } else {
      var t := rows[1..];
      assert DistinctIds(t) by {
        forall i, j | 0 <= i < j < |t| ensures t[i].id != t[j].id {
          assert t[i] == rows[i + 1] && t[j] == rows[j + 1];
        }
      }
      assert t[k - 1] == rows[k];
      WithoutIdAt(t, k - 1);
      assert rows[0].id != id;
      assert rows[..k] == [rows[0]] + t[..k - 1];
      assert rows[k + 1..] == t[k..];
    }
  }

  /** Removing keeps the table valid and behaves as the panel promises: a row
      that exists (among several) is the only one dropped; an unknown id
      changes nothing; the last row is blanked instead of dropped. */
  lemma RemoveRowSpec(rows: seq<VitalsRow>, id: int)
    requires ValidRows(rows)
    ensures ValidRows(RemoveRow(rows, id))
    ensures |rows| > 1 && id in Ids(rows) ==>
      |RemoveRow(rows, id)| == |rows| - 1 && Ids(RemoveRow(rows, id)) == Ids(rows) - {id}
    ensures |rows| > 1 && id !in Ids(rows) ==> RemoveRow(rows, id) == rows
    ensures |rows| == 1 ==> RemoveRow(rows, id) == [ClearMeasurements(rows[0])]
  {
    if |rows| > 1 {
      WithoutIdSpec(rows, id);
      if id in Ids(rows) {
        var k :| 0 <= k < |rows| && rows[k].id == id;
        WithoutIdAt(rows, k);
        DeleteDistinct(rows, k);
        DeleteIds(rows, k);
      }
    }
  }

  /** Deleting row k of a table with distinct ids leaves exactly the other
      ids. */
  lemma DeleteIds(rows: seq<VitalsRow>, k: int)
    requires DistinctIds(rows) && 0 <= k < |rows|
    ensures Ids(rows[..k] + rows[k + 1..]) == Ids(rows) - {rows[k].id}
  {
    var r := rows[..k] + rows[k + 1..];
    forall x | x in Ids(r) ensures x in Ids(rows) && x != rows[k].id {
      var i :| 0 <= i < |r| && r[i].id == x;
      var i' := if i < k then i else i + 1;
      assert r[i] == rows[i'];
    }
    forall x | x in Ids(rows) && x != rows[k].id ensures x in Ids(r) {
      var i :| 0 <= i < |rows| && rows[i].id == x;
      var i' := if i < k then i else i - 1;
      assert r[i'] == rows[i];
    }
  }

  /** Deleting one row keeps the ids distinct. */
  lemma DeleteDistinct(rows: seq<VitalsRow>, k: int)
    requires DistinctIds(rows) && 0 <= k < |rows|
    ensures DistinctIds(rows[..k] + rows[k + 1..])
  {
    var r := rows[..k] + rows[k + 1..];
    forall i, j | 0 <= i < j < |r| ensures r[i].id != r[j].id {
      var i' := if i < k then i else i + 1;
      var j' := if j < k then j else j + 1;
      assert r[i] == rows[i'] && r[j] == rows[j'];
    }
  }

  /** Why the clock reading must be new: two rows added in the same
      millisecond share an id, and removing one of them empties the table. */
  lemma SameMillisecondRowsVanishTogether(now: int)
    ensures RemoveRow(AddRow([BlankRow(now)], now), now) == []
  {
    var rows := AddRow([BlankRow(now)], now);
    assert rows == [BlankRow(now), BlankRow(now)];
    assert rows[1..] == [BlankRow(now)];
    assert rows[1..][1..] == [];
    assert WithoutId(rows[1..], now) == [];
  }

  // ---------------------------------------------------------------------
  // updateVitals
  // ---------------------------------------------------------------------

  /** The row with one cell set to the typed text. */
  function SetCell(r: VitalsRow, f: VitalsField, v: string): VitalsRow
  {
    match f
    case Height => r.(height := v)
    case HeightUnit => r.(heightUnit := v)
    case Weight => r.(weight := v)
    case WeightUnit => r.(weightUnit := v)
    case Bmi => r.(bmi := v)
    case Dia => r.(dia := v)
    case Sys => r.(sys := v)
    case Pulse => r.(pulse := v)
    case PageNo1 => r.(pageNo1 := Text(v))
    case PageNo2 => r.(pageNo2 := Text(v))
  }

  /** What a cell shows, as a page number or text. */
  function Cell(r: VitalsRow, f: VitalsField): PageNo
  {
    match f
    case Height => Text(r.height)
    case HeightUnit => Text(r.heightUnit)
    case Weight => Text(r.weight)
    case WeightUnit => Text(r.weightUnit)
    case Bmi => Text(r.bmi)
    case Dia => Text(r.dia)
    case Sys => Text(r.sys)
    case Pulse => Text(r.pulse)
    case PageNo1 => r.pageNo1
    case PageNo2 => r.pageNo2
  }

  /** updateVitals: every row with the id gets the cell set; the others are
      kept. */
  function UpdateVitals(rows: seq<VitalsRow>, id: int, f: VitalsField, v: string): seq<VitalsRow>
  {
    seq(|rows|, i requires 0 <= i < |rows| => if rows[i].id == id then SetCell(rows[i], f, v) else rows[i])
  }

  /** An edit writes the typed text into that one cell of that one row:
      positions and ids stay, the edited cell reads back the text, and every
      other cell and every other row is as before. */
  lemma UpdateVitalsSpec(rows: seq<VitalsRow>, id: int, f: VitalsField, v: string)
    ensures |UpdateVitals(rows, id, f, v)| == |rows|
    ensures forall i :: 0 <= i < |rows| ==> UpdateVitals(rows, id, f, v)[i].id == rows[i].id
    ensures forall i :: 0 <= i < |rows| && rows[i].id != id ==> UpdateVitals(rows, id, f, v)[i] == rows[i]
    ensures forall i :: 0 <= i < |rows| && rows[i].id == id ==> Cell(UpdateVitals(rows, id, f, v)[i], f) == Text(v)
    ensures forall i, g :: 0 <= i < |rows| && g != f ==> Cell(UpdateVitals(rows, id, f, v)[i], g) == Cell(rows[i], g)
    ensures ValidRows(rows) ==> ValidRows(UpdateVitals(rows, id, f, v))
  {
    var r := UpdateVitals(rows, id, f, v);
    forall i, g | 0 <= i < |rows| && g != f ensures Cell(r[i], g) == Cell(rows[i], g) {
    }
    assert forall i :: 0 <= i < |rows| ==> r[i].id == rows[i].id;
  }

  /** Typing the same text twice leaves what typing it once left. */
  lemma UpdateVitalsIdempotent(rows: seq<VitalsRow>, id: int, f: VitalsField, v: string)
    ensures UpdateVitals(UpdateVitals(rows, id, f, v), id, f, v) == UpdateVitals(rows, id, f, v)
  {
    var once := UpdateVitals(rows, id, f, v);
    var twice := UpdateVitals(once, id, f, v);
    forall i | 0 <= i < |rows| ensures twice[i] == once[i] {
      assert once[i].id == rows[i].id;
    }
  }

  // ---------------------------------------------------------------------
  // The panel
  // ---------------------------------------------------------------------

  /** The record the save action logs. */
  datatype SavedReport = SavedReport(
    firstName: string, lastName: string, dob: string, facility: string, dos: string,
    vitalsRows: seq<VitalsRow>, findings: string, status: Status)

  class DiagnosticReport {
    var status: Status
    var firstName: string
    var lastName: string
    var dob: string
    var gender: string
    var providerName: string
    var facility: string
    var dos: string
    var pageNoHeader: PageNo
    var vitalsRows: seq<VitalsRow>
    var radiologyReport: string
    var procedureName: string
    var indication: string
    var comparison: string
    var findings: string
    var impression: string
    var recommendation: string
    var specialComments: string

    ghost predicate Valid()
      reads this
    {
      ValidRows(vitalsRows)
    }

    /** Status "pending", every field blank, one blank vitals row with id 1. */
    constructor ()
      ensures Valid() && Cleared()
    {
      status := Pending;
      firstName, lastName, dob, gender := "", "", "", "";
      providerName, facility, dos, pageNoHeader := "", "", "", Text("");
      vitalsRows := InitialRows;
      radiologyReport, procedureName, indication, comparison := "", "", "", "";
      findings, impression, recommendation, specialComments := "", "", "", "";
    }

    /** addVitalsRow; `now` is the clock reading, later than the one that
        made any existing row. */
    method AddVitalsRow(now: int)
      requires Valid() && now !in Ids(vitalsRows)
      modifies this`vitalsRows
      ensures Valid()
      ensures vitalsRows == old(vitalsRows) + [BlankRow(now)]
    {
      AddRowSpec(vitalsRows, now);
      vitalsRows := vitalsRows + [BlankRow(now)];
    }

    /** removeVitalsRow */
    method RemoveVitalsRow(id: int)
      requires Valid()
      modifies this`vitalsRows
      ensures Valid()
      ensures vitalsRows == RemoveRow(old(vitalsRows), id)
    {
      RemoveRowSpec(vitalsRows, id);
      if |vitalsRows| > 1 {
        vitalsRows := WithoutId(vitalsRows, id);
      } else {
        vitalsRows := [ClearMeasurements(vitalsRows[0])];
      }
    }

    /** updateVitals */
    method UpdateVitalsCell(id: int, f: VitalsField, v: string)
      requires Valid()
      modifies this`vitalsRows
      ensures Valid()
      ensures vitalsRows == UpdateVitals(old(vitalsRows), id, f, v)
    {
      UpdateVitalsSpec(vitalsRows, id, f, v);
      vitalsRows := UpdateVitals(vitalsRows, id, f, v);
    }

    /** Status "pending", every text field blank, the header page number
        blank text, and the table back to its single initial row. */
    ghost predicate Cleared()
      reads this
    {
      && status == Pending && vitalsRows == InitialRows
      && firstName == "" && lastName == "" && dob == "" && gender == ""
      && providerName == "" && facility == "" && dos == "" && pageNoHeader == Text("")
      && radiologyReport == "" && procedureName == "" && indication == "" && comparison == ""
      && findings == "" && impression == "" && recommendation == "" && specialComments == ""
    }

    /** handleReset: "Reset all fields?"; a declined reset changes nothing. */
    method Reset(confirm: bool)
      requires Valid()
      modifies this
      ensures Valid()
      ensures !confirm ==> unchanged(this)
      ensures confirm ==> Cleared()
    {
      if confirm {
        ClearPatient();
        ClearProvider();
        ClearReportText();
        ClearReportConclusions();
        status := Pending;
        vitalsRows := InitialRows;
      }
    }

    method ClearPatient()
      modifies this`firstName, this`lastName, this`dob, this`gender
      ensures firstName == "" && lastName == "" && dob == "" && gender == ""
    {
      firstName, lastName, dob, gender := "", "", "", "";
    }

    method ClearProvider()
      modifies this`providerName, this`facility, this`dos, this`pageNoHeader
      ensures providerName == "" && facility == "" && dos == "" && pageNoHeader == Text("")
    {
      providerName, facility, dos, pageNoHeader := "", "", "", Text("");
    }

    method ClearReportText()
      modifies this`radiologyReport, this`procedureName, this`indication, this`comparison
      ensures radiologyReport == "" && procedureName == "" && indication == "" && comparison == ""
    {
      radiologyReport, procedureName, indication, comparison := "", "", "", "";
    }

    method ClearReportConclusions()
      modifies this`findings, this`impression, this`recommendation, this`specialComments
      ensures findings == "" && impression == "" && recommendation == "" && specialComments == ""
    {
      findings, impression, recommendation, specialComments := "", "", "", "";
    }

    /** handleDelete: "Delete record?" and then the reset's own question;
        only two confirmations clear the form. */
    method Delete(confirmDelete: bool, confirmReset: bool)
      requires Valid()
      modifies this
      ensures Valid()
      ensures !(confirmDelete && confirmReset) ==> unchanged(this)
      ensures confirmDelete && confirmReset ==> Cleared()
    {
      if confirmDelete {
        Reset(confirmReset);
      }
    }

    /** handleSave: the record logged is a snapshot of these fields. */
    function Saved(): (r: SavedReport)
      reads this
      ensures r.vitalsRows == vitalsRows && r.status == status && r.findings == findings
    {
      SavedReport(firstName, lastName, dob, facility, dos, vitalsRows, findings, status)
    }
  }
}
