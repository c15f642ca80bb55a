/** The office-visit form: top fields, one main row of vitals with its own
    two page numbers, a list of extra vitals rows, eight free-text blocks
    each with a page number, three more text fields (plan, work status,
    special comments) and the medication table. */
module OfficeVisit {
  import opened Common
  import opened Forms

  // ---------------------------------------------------------------------
  // Extra vitals rows
  // ---------------------------------------------------------------------

  datatype VitalsRow = VitalsRow(
    height: string, heightUnit: string, weight: string, weightUnit: string,
    bmi: string, dia: string, sys: string, pulse: string,
    pageNo1: int, pageNo2: int)

  /** The row the add button appends: units "CM" and "KG", everything else
      blank or 0. */
  const BlankVitals := VitalsRow("", "CM", "", "KG", "", "", "", "", 0, 0)

  datatype VitalsKey =
    Height | HeightUnit | Weight | WeightUnit | Bmi | Dia | Sys | Pulse | PageNo1 | PageNo2

  /** A cell's content: text for the measurement and unit cells, a number
      for the two page cells. */
  datatype CellValue = Str(s: string) | Num(n: int)

  predicate IsPageKey(key: VitalsKey)
  {
    key == PageNo1 || key == PageNo2
  }

  /** The value suits the cell: the inputs pass text to text cells and the
      page boxes pass numbers to page cells. */
  predicate Fits(key: VitalsKey, val: CellValue)
  {
    IsPageKey(key) <==> val.Num?
  }

  function VitalsCell(r: VitalsRow, key: VitalsKey): CellValue
  {
    match key
    case Height => Str(r.height)
    case HeightUnit => Str(r.heightUnit)
    case Weight => Str(r.weight)
    case WeightUnit => Str(r.weightUnit)
    case Bmi => Str(r.bmi)
    case Dia => Str(r.dia)
    case Sys => Str(r.sys)
    case Pulse => Str(r.pulse)
    case PageNo1 => Num(r.pageNo1)
    case PageNo2 => Num(r.pageNo2)
  }

  /** `{ ...row, [key]: value }` */
  function WithVitalsCell(r: VitalsRow, key: VitalsKey, val: CellValue): VitalsRow
    requires Fits(key, val)
  {
    match key
    case Height => r.(height := val.s)
    case HeightUnit => r.(heightUnit := val.s)
    case Weight => r.(weight := val.s)
    case WeightUnit => r.(weightUnit := val.s)
    case Bmi => r.(bmi := val.s)
    case Dia => r.(dia := val.s)
    case Sys => r.(sys := val.s)
    case Pulse => r.(pulse := val.s)
    case PageNo1 => r.(pageNo1 := val.n)
    case PageNo2 => r.(pageNo2 := val.n)
  }

  /** updateVitalsRow: the row at `index` with one cell replaced. */
  function UpdateVitalsAt(rows: seq<VitalsRow>, index: int, key: VitalsKey, val: CellValue): seq<VitalsRow>
    requires 0 <= index < |rows| && Fits(key, val)
  {
    rows[index := WithVitalsCell(rows[index], key, val)]
  }

  /** An edit of an extra row changes that one cell only. */
  lemma UpdateVitalsAtSpec(rows: seq<VitalsRow>, index: int, key: VitalsKey, val: CellValue)
    requires 0 <= index < |rows| && Fits(key, val)
    ensures |UpdateVitalsAt(rows, index, key, val)| == |rows|
    ensures VitalsCell(UpdateVitalsAt(rows, index, key, val)[index], key) == val
    ensures forall k :: k != key ==> VitalsCell(UpdateVitalsAt(rows, index, key, val)[index], k) == VitalsCell(rows[index], k)
    ensures forall j :: 0 <= j < |rows| && j != index ==> UpdateVitalsAt(rows, index, key, val)[j] == rows[j]
  {
    var r := WithVitalsCell(rows[index], key, val);
    forall k | k != key ensures VitalsCell(r, k) == VitalsCell(rows[index], k) {
    }
  }

  // ---------------------------------------------------------------------
  // Text blocks and the saved notes
  // ---------------------------------------------------------------------

  /** The eight text blocks, in display order. */
  const BlockTitles: seq<string> := [
    "CC/HOPI",
    "Past Medical History",
    "Past Surgical History",
    "Previous Hospitalization records",
    "Previous Lab/Reports",
    "Review of System",
    "Physical Examination/ Scores",
    "Assessment"
  ]

  /** The three text fields kept apart from the blocks. */
  const PlanKey := "Plan/Recommendation"
  const WorkKey := "Work Status"
  const SpecialKey := "Special Comments"

  /** Every block empty. */
  function BlankBlocks(): map<string, string>
  {
    map t | t in BlockTitles :: ""
  }

  /** Every block's page number 0. */
  function ZeroBlockPages(): map<string, int>
  {
    map t | t in BlockTitles :: 0
  }

  /** The notes of the saved record: the blocks and then the three separate
      fields under their titles. */
  function Notes(data: map<string, string>, plan: string, work: string, special: string): map<string, string>
  {
    data[PlanKey := plan][WorkKey := work][SpecialKey := special]
  }

  /** The saved notes hold the eight blocks and the three separate fields,
      and nothing else when the blocks are all there is. */
  lemma NotesSpec(data: map<string, string>, plan: string, work: string, special: string)
    requires data.Keys == set t | t in BlockTitles
    ensures Notes(data, plan, work, special).Keys == (set t | t in BlockTitles) + {PlanKey, WorkKey, SpecialKey}
    ensures forall t :: t in BlockTitles ==> Notes(data, plan, work, special)[t] == data[t]
    ensures Notes(data, plan, work, special)[PlanKey] == plan
    ensures Notes(data, plan, work, special)[WorkKey] == work
    ensures Notes(data, plan, work, special)[SpecialKey] == special
  {
    var titles := set t | t in BlockTitles;
    assert PlanKey !in titles && WorkKey !in titles && SpecialKey !in titles by {
      forall t | t in BlockTitles ensures t != PlanKey && t != WorkKey && t != SpecialKey {
      }
    }
  }

  /** The main vitals row as the saved record shows it. */
  datatype MainVitals = MainVitals(
    height: string, heightUnit: string, weight: string, weightUnit: string,
    bmi: string, dia: string, sys: string, pulse: string)

  /** The record the save action logs. */
  datatype SavedVisit = SavedVisit(
    status: Status, notesType: string, dos: string, doi: string, provider: string, facility: string,
    pageVitals1: int, pageVitals2: int, vitals: MainVitals,
    notes: map<string, string>, medication: seq<MedicationRow>)

  // ---------------------------------------------------------------------
  // The form
  // ---------------------------------------------------------------------

  datatype PageField = Top | Vitals1 | Vitals2

  class VisitForm {
    var status: Status
    var pageTop: int
    var pageVitals1: int
    var pageVitals2: int
    var notesType: string
    var dos: string
    var doi: string
    var provider: string
    var facility: string
    var height: string
    var heightUnit: string
    var weight: string
    var weightUnit: string
    var bmi: string
    var dia: string
    var sys: string
    var pulse: string
    var data: map<string, string>
    var blockPageNumbers: map<string, int>
    var planRecommendation: string
    var workStatus: string
    var specialComments: string
    var rows: seq<MedicationRow>
    var vitalsRows: seq<VitalsRow>

    /** Every block has its text and its page number. */
    ghost predicate Valid()
      reads this
    {
      forall t :: t in BlockTitles ==> t in data && t in blockPageNumbers
    }

    constructor ()
      ensures Valid() && Cleared()
      ensures pageTop == pageVitals1 == pageVitals2 == 0 && vitalsRows == []
    {
      status, pageTop, pageVitals1, pageVitals2 := Pending, 0, 0, 0;
      notesType, dos, doi, provider, facility := "select", "", "", "", "select";
      height, heightUnit, weight, weightUnit := "", "CM", "", "KG";
      bmi, dia, sys, pulse := "", "", "", "";
      data, blockPageNumbers := BlankBlocks(), ZeroBlockPages();
      planRecommendation, workStatus, specialComments := "", "", "";
      rows, vitalsRows := [], [];
    }

    /** setBlockPage */
    method SetBlockPage(title: string, value: int)
      requires Valid()
      modifies this`blockPageNumbers
      ensures Valid()
      ensures blockPageNumbers == old(blockPageNumbers)[title := value]
    {
      blockPageNumbers := blockPageNumbers[title := value];
    }

    /** Typing into a block. */
    method SetBlockText(title: string, v: string)
      requires Valid()
      modifies this`data
      ensures Valid()
      ensures data == old(data)[title := v]
    {
      data := data[title := v];
    }

    /** Typing into one of the form's own page boxes. */
    method TypePage(f: PageField, typed: Option<int>)
      modifies this`pageTop, this`pageVitals1, this`pageVitals2
      ensures f == Top ==> pageTop == NumberOrZero(typed) && unchanged(this`pageVitals1, this`pageVitals2)
      ensures f == Vitals1 ==> pageVitals1 == NumberOrZero(typed) && unchanged(this`pageTop, this`pageVitals2)
      ensures f == Vitals2 ==> pageVitals2 == NumberOrZero(typed) && unchanged(this`pageTop, this`pageVitals1)
    {
      match f
      case Top => pageTop := NumberOrZero(typed);
      case Vitals1 => pageVitals1 := NumberOrZero(typed);
      case Vitals2 => pageVitals2 := NumberOrZero(typed);
    }

    /** addRow */
    method AddRow()
      modifies this`rows
      ensures rows == old(rows) + [BlankMedication]
    {
      rows := rows + [BlankMedication];
    }

    /** removeRow: asks first; a confirmed removal drops the row at `i`. */
    method RemoveRow(i: int, confirm: bool)
      modifies this`rows
      ensures confirm && 0 <= i < |old(rows)| ==> rows == old(rows)[..i] + old(rows)[i + 1..]
      ensures !confirm || !(0 <= i < |old(rows)|) ==> rows == old(rows)
    {
      RemoveAtSpec(rows, i);
      if confirm {
        rows := RemoveAt(rows, i);
      }
    }

    /** updateRow, called for rows on show. */
    method UpdateRow(i: int, k: MedField, v: string)
      requires 0 <= i < |rows|
      modifies this`rows
      ensures rows == UpdateMedication(old(rows), i, k, v)
    {
      rows := UpdateMedication(rows, i, k, v);
    }

    /** addVitalsRow */
    method AddVitalsRow()
      modifies this`vitalsRows
      ensures vitalsRows == old(vitalsRows) + [BlankVitals]
    {
      vitalsRows := vitalsRows + [BlankVitals];
    }

    /** updateVitalsRow, called for rows on show. */
    method UpdateVitalsRow(index: int, key: VitalsKey, val: CellValue)
      requires 0 <= index < |vitalsRows| && Fits(key, val)
      modifies this`vitalsRows
      ensures vitalsRows == UpdateVitalsAt(old(vitalsRows), index, key, val)
    {
      vitalsRows := UpdateVitalsAt(vitalsRows, index, key, val);
    }

    /** removeVitalsRow: asks first; the list may become empty. */
    method RemoveVitalsRow(index: int, confirm: bool)
      modifies this`vitalsRows
      ensures confirm && 0 <= index < |old(vitalsRows)| ==>
        vitalsRows == old(vitalsRows)[..index] + old(vitalsRows)[index + 1..]
      ensures !confirm || !(0 <= index < |old(vitalsRows)|) ==> vitalsRows == old(vitalsRows)
    {
      RemoveAtSpec(vitalsRows, index);
      if confirm {
        vitalsRows := RemoveAt(vitalsRows, index);
      }
    }

    /** The state both "delete all" and "reset all" leave: status
        "pending", the top fields, the main vitals, the blocks, their page
        numbers and the three separate fields as at the start, and no
        medication rows. */
    ghost predicate Cleared()
      reads this
    {
      && status == Pending && rows == []
      && notesType == "select" && dos == "" && doi == "" && provider == "" && facility == "select"
      && height == "" && heightUnit == "CM" && weight == "" && weightUnit == "KG"
      && bmi == "" && dia == "" && sys == "" && pulse == ""
      && data == BlankBlocks() && blockPageNumbers == ZeroBlockPages()
      && planRecommendation == "" && workStatus == "" && specialComments == ""
    }

    /** deleteAll: "Delete ALL data?". The page boxes and the extra vitals
        rows are not part of what it clears. */
    method DeleteAll(confirm: bool)
      requires Valid()
      modifies this`status, this`notesType, this`dos, this`doi, this`provider, this`facility,
        this`height, this`heightUnit, this`weight, this`weightUnit, this`bmi, this`dia, this`sys, this`pulse,
        this`data, this`blockPageNumbers, this`planRecommendation, this`workStatus, this`specialComments, this`rows
      ensures Valid()
      ensures confirm ==> Cleared()
      ensures !confirm ==> unchanged(this)
    {
      if confirm {
        ClearAll();
      }
    }

    /** resetAll: "Reset all form fields?", with the same effect as
        deleteAll. */
    method ResetAll(confirm: bool)
      requires Valid()
      modifies this`status, this`notesType, this`dos, this`doi, this`provider, this`facility,
        this`height, this`heightUnit, this`weight, this`weightUnit, this`bmi, this`dia, this`sys, this`pulse,
        this`data, this`blockPageNumbers, this`planRecommendation, this`workStatus, this`specialComments, this`rows
      ensures Valid()
      ensures confirm ==> Cleared()
      ensures !confirm ==> unchanged(this)
    {
      if confirm {
        ClearAll();
      }
    }

    method ClearAll()
      modifies this`status, this`notesType, this`dos, this`doi, this`provider, this`facility,
        this`height, this`heightUnit, this`weight, this`weightUnit, this`bmi, this`dia, this`sys, this`pulse,
        this`data, this`blockPageNumbers, this`planRecommendation, this`workStatus, this`specialComments, this`rows
      ensures Valid() && Cleared()
    {
      ClearTop();
      ClearBody();
      ClearReadings();
      ClearNotes();
      rows := [];
      status := Pending;
    }

    method ClearTop()
      modifies this`notesType, this`dos, this`doi, this`provider, this`facility
      ensures notesType == "select" && dos == "" && doi == "" && provider == "" && facility == "select"
    {
      notesType, dos, doi, provider, facility := "select", "", "", "", "select";
    }

    method ClearBody()
      modifies this`height, this`heightUnit, this`weight, this`weightUnit
      ensures height == "" && heightUnit == "CM" && weight == "" && weightUnit == "KG"
    {
      height, heightUnit, weight, weightUnit := "", "CM", "", "KG";
    }

    method ClearReadings()
      modifies this`bmi, this`dia, this`sys, this`pulse
      ensures bmi == "" && dia == "" && sys == "" && pulse == ""
    {
      bmi, dia, sys, pulse := "", "", "", "";
    }

    method ClearNotes()
      modifies this`data, this`blockPageNumbers, this`planRecommendation, this`workStatus, this`specialComments
      ensures Valid()
      ensures data == BlankBlocks() && blockPageNumbers == ZeroBlockPages()
      ensures planRecommendation == "" && workStatus == "" && specialComments == ""
    {
      data, blockPageNumbers := BlankBlocks(), ZeroBlockPages();
      planRecommendation, workStatus, specialComments := "", "", "";
    }

    /** handleBlockDelete: asks first. The three separate fields are
        emptied by their own title; any other title has its text emptied
        and its page number set to 0 (an unknown title gains both
        entries). */
    method HandleBlockDelete(title: string, confirm: bool)
      requires Valid()
      modifies this`planRecommendation, this`workStatus, this`specialComments, this`data, this`blockPageNumbers
      ensures Valid()
      ensures !confirm ==> unchanged(this)
      ensures confirm && title == PlanKey ==> planRecommendation == "" && unchanged(this`workStatus, this`specialComments, this`data, this`blockPageNumbers)
      ensures confirm && title == WorkKey ==> workStatus == "" && unchanged(this`planRecommendation, this`specialComments, this`data, this`blockPageNumbers)
      ensures confirm && title == SpecialKey ==> specialComments == "" && unchanged(this`planRecommendation, this`workStatus, this`data, this`blockPageNumbers)
      ensures confirm && title !in {PlanKey, WorkKey, SpecialKey} ==>
        && data == old(data)[title := ""] && blockPageNumbers == old(blockPageNumbers)[title := 0]
        && unchanged(this`planRecommendation, this`workStatus, this`specialComments)
    {
      if confirm {
        if title == PlanKey {
          planRecommendation := "";
        } else if title == WorkKey {
          workStatus := "";
        } else if title == SpecialKey {
          specialComments := "";
        } else {
          data := data[title := ""];
          blockPageNumbers := blockPageNumbers[title := 0];
        }
      }
    }

    /** saveData: the record logged. */
    function Saved(): (r: SavedVisit)
      reads this
      ensures r.medication == rows && r.status == status
      ensures r.notes == Notes(data, planRecommendation, workStatus, specialComments)
    {
      SavedVisit(
        status, notesType, dos, doi, provider, facility, pageVitals1, pageVitals2,
        MainVitals(height, heightUnit, weight, weightUnit, bmi, dia, sys, pulse),
        Notes(data, planRecommendation, workStatus, specialComments), rows)
    }
  }
}
