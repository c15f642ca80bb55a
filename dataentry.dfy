/** The generic data-entry form: two page-number boxes with plus and minus
    buttons, top fields, six vitals, eleven text blocks and the medication
    table. */
module DataEntry {
  import opened Common
  import opened Forms

  /** The eleven text blocks, in display order. */
  const Fields: seq<string> := [
    "CC/HOPI",
    "Past Medical History",
    "Past Surgical History",
    "Previous Hospitalization records",
    "Previous Lab/Reports",
    "Review of System",
    "Physical Examination/ Scores",
    "Assessment",
    "Plan/Recommendation",
    "Work Status",
    "Special Comments"
  ]

  /** Every block empty. */
  function BlankData(): map<string, string>
  {
    map t | t in Fields :: ""
  }

  /** The record the save action logs. */
  datatype SavedEntry = SavedEntry(
    pageTop: int, notesType: string, dos: string, doi: string, provider: string, facility: string,
    pageVitals: int, height: string, weight: string, bmi: string, dia: string, sys: string, pulse: string,
    notes: map<string, string>, medication: seq<MedicationRow>)

  // ---------------------------------------------------------------------
  // The page-number box's plus and minus buttons
  // ---------------------------------------------------------------------

  /** The plus button. */
  function PageUp(n: int): int
  {
    n + 1
  }

  /** The minus button: never below 0. */
  function PageDown(n: int): int
  {
    if n - 1 >= 0 then n - 1 else 0
  }

  /** The buttons keep a page number at 0 or above, and minus undoes plus
      (plus undoes minus above 0). */
  lemma PageButtons(n: int)
    ensures n >= 0 ==> PageUp(n) >= 0 && PageDown(n) >= 0
    ensures PageDown(n) >= 0
    ensures n >= 0 ==> PageDown(PageUp(n)) == n
    ensures n > 0 ==> PageUp(PageDown(n)) == n
    ensures n <= 0 ==> PageDown(n) == 0
  {
  }

  datatype PageField = Top | Vitals

  datatype PageAction = Up | Down | Typed(value: Option<int>)

  /** The new value of a page box after a button press or typing. */
  function PageAfter(n: int, a: PageAction): (r: int)
    ensures a.Typed? ==> r == NumberOrZero(a.value)
    ensures n >= 0 && !a.Typed? ==> r >= 0
  {
    match a
    case Up => PageUp(n)
    case Down => PageDown(n)
    case Typed(v) => NumberOrZero(v)
  }

  class EntryForm {
    var pageTop: int
    var pageVitals: int
    var notesType: string
    var dos: string
    var doi: string
    var provider: string
    var facility: string
    var height: string
    var weight: string
    var bmi: string
    var dia: string
    var sys: string
    var pulse: string
    var data: map<string, string>
    var rows: seq<MedicationRow>

    /** The blocks are exactly the eleven titles. */
    ghost predicate Valid()
      reads this
    {
      data.Keys == set t | t in Fields
    }

    constructor ()
      ensures Valid() && Cleared()
    {
      pageTop, pageVitals := 0, 0;
      notesType, dos, doi, provider, facility := "select", "", "", "", "select";
      height, weight, bmi, dia, sys, pulse := "", "", "", "", "", "";
      data, rows := BlankData(), [];
    }

    /** A page box: plus, minus or typing. */
    method PageBox(f: PageField, a: PageAction)
      modifies this`pageTop, this`pageVitals
      ensures f == Top ==> pageTop == PageAfter(old(pageTop), a) && pageVitals == old(pageVitals)
      ensures f == Vitals ==> pageVitals == PageAfter(old(pageVitals), a) && pageTop == old(pageTop)
    {
      if f == Top {
        pageTop := PageAfter(pageTop, a);
      } else {
        pageVitals := PageAfter(pageVitals, a);
      }
    }

    /** Typing into a block. */
    method SetBlockText(title: string, v: string)
      requires Valid() && title in Fields
      modifies this`data
      ensures Valid()
      ensures data == old(data)[title := v]
    {
      data := data[title := v];
    }

    /** addRow */
    method AddRow()
      modifies this`rows
      ensures rows == old(rows) + [BlankMedication]
    {
      rows := rows + [BlankMedication];
    }

    /** removeRow: no question asked; an index outside the table changes
        nothing. */
    method RemoveRow(i: int)
      modifies this`rows
      ensures 0 <= i < |old(rows)| ==> rows == old(rows)[..i] + old(rows)[i + 1..]
      ensures !(0 <= i < |old(rows)|) ==> rows == old(rows)
    {
      RemoveAtSpec(rows, i);
      rows := RemoveAt(rows, i);
    }

    /** updateRow, called for rows on show. */
    method UpdateRow(i: int, k: MedField, v: string)
      requires 0 <= i < |rows|
      modifies this`rows
      ensures rows == UpdateMedication(old(rows), i, k, v)
    {
      rows := UpdateMedication(rows, i, k, v);
    }

    /** Every field as at the start: page numbers 0, the top fields, the
        vitals and the blocks blank, no medication rows. */
    ghost predicate Cleared()
      reads this
    {
      && pageTop == 0 && pageVitals == 0
      && notesType == "select" && dos == "" && doi == "" && provider == "" && facility == "select"
      && height == "" && weight == "" && bmi == "" && dia == "" && sys == "" && pulse == ""
      && data == BlankData() && rows == []
    }

    /** deleteAll: "Delete all data?"; when confirmed every field is
        cleared. */
    method DeleteAll(confirm: bool)
      requires Valid()
      modifies this
      ensures Valid()
      ensures confirm ==> Cleared()
      ensures !confirm ==> unchanged(this)
    {
      if confirm {
        ClearTop();
        ClearVitals();
        rows := [];
        data := BlankData();
        pageTop, pageVitals := 0, 0;
      }
    }

    method ClearTop()
      modifies this`notesType, this`dos, this`doi, this`provider, this`facility
      ensures notesType == "select" && dos == "" && doi == "" && provider == "" && facility == "select"
    {
      notesType, dos, doi, provider, facility := "select", "", "", "", "select";
    }

    method ClearVitals()
      modifies this`height, this`weight, this`bmi, this`dia, this`sys, this`pulse
      ensures height == "" && weight == "" && bmi == "" && dia == "" && sys == "" && pulse == ""
    {
      height, weight, bmi, dia, sys, pulse := "", "", "", "", "", "";
    }

    /** resetAll: "Reset all data?" zeroes both page numbers and then runs
        deleteAll, which asks again. Declining the first question changes
        nothing; declining only the second leaves just the page numbers
        zeroed. */
    method ResetAll(confirmReset: bool, confirmDelete: bool)
      requires Valid()
      modifies this
      ensures Valid()
      ensures !confirmReset ==> unchanged(this)
      ensures confirmReset && confirmDelete ==> Cleared()
      ensures confirmReset && !confirmDelete ==>
        && pageTop == 0 && pageVitals == 0
        && notesType == old(notesType) && dos == old(dos) && doi == old(doi)
        && provider == old(provider) && facility == old(facility)
        && height == old(height) && weight == old(weight) && bmi == old(bmi)
        && dia == old(dia) && sys == old(sys) && pulse == old(pulse)
        && data == old(data) && rows == old(rows)
    {
      if confirmReset {
        pageTop, pageVitals := 0, 0;
        DeleteAll(confirmDelete);
      }
    }

    /** handleBlockDelete: asks first, then empties that block only. */
    method HandleBlockDelete(title: string, confirm: bool)
      requires Valid() && title in Fields
      modifies this`data
      ensures Valid()
      ensures confirm ==> data == old(data)[title := ""]
      ensures !confirm ==> data == old(data)
    {
      if confirm {
        data := data[title := ""];
      }
    }

    /** saveData: the record logged. */
    function Saved(): (r: SavedEntry)
      reads this
      ensures r.notes == data && r.medication == rows && r.pageTop == pageTop && r.pageVitals == pageVitals
    {
      SavedEntry(pageTop, notesType, dos, doi, provider, facility, pageVitals,
        height, weight, bmi, dia, sys, pulse, data, rows)
    }
  }
}
