/** What the office-visit form and the data-entry form share: the
    medication table (rows of drug, dose, frequency and comment, added
    blank, removed by index and edited cell by cell). */
module Forms {
  import opened Common

  // ---------------------------------------------------------------------
  // Medication rows
  // ---------------------------------------------------------------------

  datatype MedicationRow = MedicationRow(db: string, dose: string, freq: string, cmt: string)

  datatype MedField = Db | Dose | Freq | Cmt

  /** The row the add button appends. */
  const BlankMedication := MedicationRow("", "", "", "")

  function MedValue(r: MedicationRow, k: MedField): string
  {
    match k
    case Db => r.db
    case Dose => r.dose
    case Freq => r.freq
    case Cmt => r.cmt
  }

  function WithMedValue(r: MedicationRow, k: MedField, v: string): MedicationRow
  {
    match k
    case Db => r.(db := v)
    case Dose => r.(dose := v)
    case Freq => r.(freq := v)
    case Cmt => r.(cmt := v)
  }

  /** `rows.filter((_, idx) => idx !== i)` */
  function RemoveAt<T>(s: seq<T>, i: int): seq<T>
    decreases |s|
  {
    if s == [] then [] else (if i == 0 then [] else [s[0]]) + RemoveAt(s[1..], i - 1)
  }

  /** Filtering by index drops exactly the element at `i`, keeping the
      others in order; an index outside the list drops nothing. */
  lemma {:induction false} RemoveAtSpec<T>(s: seq<T>, i: int)
    ensures 0 <= i < |s| ==> RemoveAt(s, i) == s[..i] + s[i + 1..]
    ensures !(0 <= i < |s|) ==> RemoveAt(s, i) == s
    decreases |s|
  {
    if s != [] {
      RemoveAtSpec(s[1..], i - 1);
      var rest := RemoveAt(s[1..], i - 1);
      if i == 0 {
        assert RemoveAt(s, i) == rest;
      } else {
        assert RemoveAt(s, i) == [s[0]] + rest;
        if 0 < i < |s| {
          assert s[..i] == [s[0]] + s[1..][..i - 1];
          assert s[i + 1..] == s[1..][i..];
        } else {
          assert s == [s[0]] + s[1..];
        }
      }
    }
  }

  /** `copy[i][k] = v`: row `i` with one cell replaced. */
  function UpdateMedication(rows: seq<MedicationRow>, i: int, k: MedField, v: string): seq<MedicationRow>
    requires 0 <= i < |rows|
  {
    rows[i := WithMedValue(rows[i], k, v)]
  }

  /** An edit changes exactly the one cell: it reads back the new text, and
      every other cell of the row and every other row is as before. */
  lemma UpdateMedicationSpec(rows: seq<MedicationRow>, i: int, k: MedField, v: string)
    requires 0 <= i < |rows|
    ensures |UpdateMedication(rows, i, k, v)| == |rows|
    ensures MedValue(UpdateMedication(rows, i, k, v)[i], k) == v
    ensures forall k' :: k' != k ==> MedValue(UpdateMedication(rows, i, k, v)[i], k') == MedValue(rows[i], k')
    ensures forall j :: 0 <= j < |rows| && j != i ==> UpdateMedication(rows, i, k, v)[j] == rows[j]
  {
    var r := WithMedValue(rows[i], k, v);
    forall k' | k' != k ensures MedValue(r, k') == MedValue(rows[i], k') {
    }
  }

  /** Editing a cell back to what it held restores the table. */
  lemma UpdateMedicationUndo(rows: seq<MedicationRow>, i: int, k: MedField, v: string)
    requires 0 <= i < |rows|
    ensures UpdateMedication(UpdateMedication(rows, i, k, v), i, k, MedValue(rows[i], k)) == rows
  {
    var once := UpdateMedication(rows, i, k, v);
    var back := UpdateMedication(once, i, k, MedValue(rows[i], k));
    assert back[i] == rows[i] by {
      match k
      case Db =>
      case Dose =>
      case Freq =>
      case Cmt =>
    }
  }
}
