/** The PDF viewer's state: the page on show among a fixed number of pages,
    zoom, rotation, page size, a most-recently-used page list, starred
    pages, a page search over each page's text, OCR results kept one per
    page, and editable text boxes. */
module PdfViewer {
  import opened Common
  import opened Sorting

  /** The document has eleven pages; the count never changes. */
  const TotalPages: nat := 11

  function Min(a: int, b: int): int { if a <= b then a else b }
  function Max(a: int, b: int): int { if a >= b then a else b }

  // ---------------------------------------------------------------------
  // Page sizes
  // ---------------------------------------------------------------------

  datatype PageSize = A4 | A3 | A2 | A1 | A0 | Letter | Legal | Custom

  /** A page's width and height in pixels. */
  datatype Dimensions = Dimensions(width: int, height: int)

  /** The fixed dimensions of each named size. */
  function StandardDimensions(size: PageSize): Dimensions
    requires size != Custom
  {
    match size
    case A4 => Dimensions(595, 842)
    case A3 => Dimensions(842, 1191)
    case A2 => Dimensions(1191, 1684)
    case A1 => Dimensions(1684, 2384)
    case A0 => Dimensions(2384, 3370)
    case Letter => Dimensions(612, 792)
    case Legal => Dimensions(612, 1008)
  }

  /** getCurrentPageDimensions: the custom width and height for "Custom",
      the table's entry otherwise. */
  function CurrentDimensions(size: PageSize, customWidth: int, customHeight: int): Dimensions
  {
    if size == Custom then Dimensions(customWidth, customHeight) else StandardDimensions(size)
  }

  /** Every named size is portrait, and each A size is the next larger one
      halved: its height is the next size's width. */
  lemma StandardSizesShape()
    ensures forall s :: s != Custom ==> StandardDimensions(s).width < StandardDimensions(s).height
    ensures StandardDimensions(A4).height == StandardDimensions(A3).width
    ensures StandardDimensions(A3).height == StandardDimensions(A2).width
    ensures StandardDimensions(A2).height == StandardDimensions(A1).width
    ensures StandardDimensions(A1).height == StandardDimensions(A0).width
  {
    forall s | s != Custom
      ensures StandardDimensions(s).width < StandardDimensions(s).height
    {
      match s
      case A4 =>
      case A3 =>
      case A2 =>
      case A1 =>
      case A0 =>
      case Letter =>
      case Legal =>
    }
  }

  // ---------------------------------------------------------------------
  // Navigation
  // ---------------------------------------------------------------------

  datatype ViewMode = Single | Double | Continuous

  /** handlePrevPage's target: two pages back in double view, one
      otherwise, never before page 1. */
  function PrevPageOf(mode: ViewMode, p: int): int
  {
    if mode == Double then Max(p - 2, 1) else Max(p - 1, 1)
  }

  /** handleNextPage's target: one page on, at most the last page; in
      double view two pages on, at most the last page but one. */
  function NextPageOf(mode: ViewMode, p: int, total: int): int
  {
    if mode == Double then Min(p + 2, total - 1) else Min(p + 1, total)
  }

  predicate InRange(p: int, total: int)
  {
    1 <= p <= total
  }

  /** Navigation never leaves the document (given two pages or more, which
      double view needs). */
  lemma NavigationInRange(mode: ViewMode, p: int, total: int)
    requires total >= 2 && InRange(p, total)
    ensures InRange(PrevPageOf(mode, p), total)
    ensures InRange(NextPageOf(mode, p, total), total)
  {
  }

  /** How far each button moves: a full step when there is room, otherwise
      to the first page, or the last page (the last but one in double
      view). From the last page, double view's next goes one page back. */
  lemma NavigationSteps(mode: ViewMode, p: int, total: int)
    requires total >= 2 && InRange(p, total)
    ensures var step := if mode == Double then 2 else 1;
      PrevPageOf(mode, p) == (if p > step then p - step else 1)
    ensures mode != Double ==> NextPageOf(mode, p, total) == (if p < total then p + 1 else total)
    ensures mode == Double ==> NextPageOf(mode, p, total) == (if p + 2 < total then p + 2 else total - 1)
    ensures mode == Double && p == total ==> NextPageOf(mode, p, total) == p - 1
  {
  }

  /** Next then previous comes back wherever next made a full step. */
  lemma PrevUndoesNext(mode: ViewMode, p: int, total: int)
    requires total >= 2 && InRange(p, total)
    requires mode == Double ==> p + 2 <= total - 1
    requires mode != Double ==> p < total
    ensures PrevPageOf(mode, NextPageOf(mode, p, total)) == p
  {
  }

  // ---------------------------------------------------------------------
  // Zoom and rotation
  // ---------------------------------------------------------------------

  /** Zoom levels are multiples of 25 from 25% to 400%. */
  predicate ValidZoom(z: int)
  {
    25 <= z <= 400 && z % 25 == 0
  }

  function ZoomIn(z: int): (r: int)
    ensures ValidZoom(z) ==> ValidZoom(r)
    ensures ValidZoom(z) ==> r == z + 25 || (z == 400 && r == 400)
  {
    Min(z + 25, 400)
  }

  function ZoomOut(z: int): (r: int)
    ensures ValidZoom(z) ==> ValidZoom(r)
    ensures ValidZoom(z) ==> r == z - 25 || (z == 25 && r == 25)
  {
    Max(z - 25, 25)
  }

  /** Zooming in and back out (or out and back in) returns to the level one
      started from, unless the first step hit the bound. */
  lemma ZoomRoundTrip(z: int)
    requires ValidZoom(z)
    ensures z < 400 ==> ZoomOut(ZoomIn(z)) == z
    ensures z > 25 ==> ZoomIn(ZoomOut(z)) == z
  {
  }

  datatype Direction = Left | Right

  /** handleRotate: a quarter turn each way; the angle is not reduced. */
  function Rotate(angle: int, d: Direction): (r: int)
    ensures angle % 90 == 0 ==> r % 90 == 0
  {
    if d == Left then angle - 90 else angle + 90
  }

  /** The orientation an angle shows. */
  function Orientation(angle: int): int
  {
    angle % 360
  }

  /** A turn each way cancels out, and four turns one way give the same
      orientation. */
  lemma RotationCycles(angle: int, d: Direction)
    ensures Rotate(Rotate(angle, d), if d == Left then Right else Left) == angle
    ensures Orientation(Rotate(Rotate(Rotate(Rotate(angle, d), d), d), d)) == Orientation(angle)
  {
    var turned := Rotate(Rotate(Rotate(Rotate(angle, d), d), d), d);
    if d == Left {
      assert turned + 360 == angle;
      FullTurn(turned);
    } else {
      assert turned == angle + 360;
      FullTurn(angle);
    }
  }

  /** A full turn shows the same orientation. */
  lemma FullTurn(angle: int)
    ensures Orientation(angle + 360) == Orientation(angle)
  {
    var r := angle % 360;
    var q := angle / 360;
    assert angle == 360 * q + r && 0 <= r < 360;
    assert angle + 360 == 360 * (q + 1) + r;
  }

  // ---------------------------------------------------------------------
  // Recent pages
  // ---------------------------------------------------------------------

  /** `prev.filter(p => p !== page)` */
  function Without(s: seq<int>, x: int): seq<int>
    decreases |s|
  {
    if s == [] then [] else (if s[0] == x then [] else [s[0]]) + Without(s[1..], x)
  }

  predicate DistinctInts(s: seq<int>)
  {
    forall i, j :: 0 <= i < j < |s| ==> s[i] != s[j]
  }

  lemma {:induction false} WithoutSpec(s: seq<int>, x: int)
    ensures forall q :: q in Without(s, x) <==> q in s && q != x
    ensures |Without(s, x)| <= |s|
    ensures x !in s ==> Without(s, x) == s
    ensures DistinctInts(s) ==> DistinctInts(Without(s, x))
    decreases |s|
  {
    if s != [] {
      WithoutSpec(s[1..], x);
      assert s == [s[0]] + s[1..];
      var w := Without(s, x);
      var t := Without(s[1..], x);
      if DistinctInts(s) {
        assert DistinctInts(s[1..]) by {
          forall i, j | 0 <= i < j < |s| - 1 ensures s[1..][i] != s[1..][j] {
            assert s[1..][i] == s[i + 1] && s[1..][j] == s[j + 1];
          }
        }
        if s[0] != x {
          forall q | q in t ensures q != s[0] {
            var k :| 0 <= k < |s| - 1 && s[1..][k] == q;
            assert s[k + 1] == q;
          }
          forall i, j | 0 <= i < j < |w| ensures w[i] != w[j] {
            if i == 0 {
              assert w[j] == t[j - 1];
              assert w[j] in t;
            } else {
              assert w[i] == t[i - 1] && w[j] == t[j - 1];
            }
          }
        }
      }
    }
  }

  /** Filtering distributes over concatenation. */
  lemma {:induction false} WithoutAppend(a: seq<int>, b: seq<int>, x: int)
    ensures Without(a + b, x) == Without(a, x) + Without(b, x)
    decreases |a|
  {
    if a != [] {
      WithoutAppend(a[1..], b, x);
      var h := if a[0] == x then [] else [a[0]];
      assert (a + b)[0] == a[0];
      assert (a + b)[1..] == a[1..] + b;
      assert Without(a + b, x) == h + Without(a[1..] + b, x);
      assert Without(a, x) == h + Without(a[1..], x);
    } else {
      assert a + b == b;
    }
  }

  /** updateRecentPages: the page first, then the earlier list without it,
      cut to five entries. */
  function UpdateRecent(prev: seq<int>, page: int): seq<int>
  {
    var l := [page] + Without(prev, page);
    l[..Min(5, |l|)]
  }

  /** The recent list names the page first, then as much of the earlier
      list without the page as fits in five entries, in its order, each
      page once; when the earlier list was short nothing of it is lost. */
  lemma RecentSpec(prev: seq<int>, page: int)
    ensures var r := UpdateRecent(prev, page);
      && 1 <= |r| <= 5 && r[0] == page
      && |r| == Min(5, |Without(prev, page)| + 1)
      && page !in r[1..]
      && r[1..] == Without(prev, page)[..|r| - 1]
      && (forall q :: q in r ==> q == page || q in prev)
      && (|prev| < 5 ==> forall q :: q in prev ==> q in r)
      && (DistinctInts(prev) ==> DistinctInts(r))
  {
    var w := Without(prev, page);
    WithoutSpec(prev, page);
    var l := [page] + w;
    var r := UpdateRecent(prev, page);
    assert r[1..] == w[..|r| - 1];
    forall q | q in r[1..] ensures q in w && q != page {
      var k :| 0 <= k < |r| - 1 && r[1..][k] == q;
      assert w[k] == q;
    }
    forall q | q in r ensures q == page || q in prev {
      var k :| 0 <= k < |r| && r[k] == q;
      if k > 0 {
        assert r[1..][k - 1] == q;
      }
    }
    if |prev| < 5 {
      assert r == l;
    }
    if DistinctInts(prev) {
      forall i, j | 0 <= i < j < |r| ensures r[i] != r[j] {
        assert r[j] == w[j - 1];
        assert w[j - 1] in w;
        if i > 0 {
          assert r[i] == w[i - 1];
        }
      }
    }
  }

  /** Recording the same page twice in a row records it once. */
  lemma RecentIdempotent(prev: seq<int>, page: int)
    ensures UpdateRecent(UpdateRecent(prev, page), page) == UpdateRecent(prev, page)
  {
    var r := UpdateRecent(prev, page);
    RecentSpec(prev, page);
    assert r == [page] + r[1..];
    WithoutAppend([page], r[1..], page);
    WithoutSpec(r[1..], page);
    assert Without([page], page) == [];
    assert Without(r, page) == r[1..];
  }

  // ---------------------------------------------------------------------
  // Page search
  // ---------------------------------------------------------------------

  /** The text each page is searched in. */
  function PageContent(p: nat): string
  {
    "Page " + NatToString(p) + " content with sample text for searching"
  }

  /** A page matches when its lower-cased text contains the lower-cased
      term. */
  predicate PageMatches(term: string, p: nat)
  {
    Contains(ToLower(PageContent(p)), ToLower(term))
  }

  /** The pages 1..n that match, in ascending order. */
  function MatchingPages(term: string, n: nat): seq<int>
  {
    if n == 0 then [] else MatchingPages(term, n - 1) + (if PageMatches(term, n) then [n] else [])
  }

  /** handlePageSearch's result list: nothing for a blank term, otherwise
      the matching pages of the document. */
  function SearchPages(input: string): seq<int>
  {
    if IsBlank(input) then [] else MatchingPages(input, TotalPages)
  }

  predicate Increasing(s: seq<int>)
  {
    forall i, j :: 0 <= i < j < |s| ==> s[i] < s[j]
  }

  /** The search lists exactly the matching pages of 1..n, each once, in
      ascending order. */
  lemma {:induction false} MatchingPagesSpec(term: string, n: nat)
    ensures Increasing(MatchingPages(term, n))
    ensures forall p :: p in MatchingPages(term, n) <==> 1 <= p <= n && PageMatches(term, p)
    decreases n
  {
    if n > 0 {
      MatchingPagesSpec(term, n - 1);
      var m := MatchingPages(term, n - 1);
      var r := MatchingPages(term, n);
      forall i, j | 0 <= i < j < |r| ensures r[i] < r[j] {
        if j < |m| {
          assert r[i] == m[i] && r[j] == m[j];
        } else {
          assert r[i] == m[i];
          assert m[i] in m;
        }
      }
    }
  }

  /** When every page matches, the search lists all pages in order. */
  lemma {:induction false} AllPagesMatch(term: string, n: nat)
    requires forall p :: 1 <= p <= n ==> PageMatches(term, p)
    ensures MatchingPages(term, n) == seq(n, i requires 0 <= i < n => i + 1)
    decreases n
  {
    if n > 0 {
      AllPagesMatch(term, n - 1);
      assert PageMatches(term, n);
    }
  }

  /** Lower-casing leaves digits alone. */
  lemma ToLowerDecimal(s: string)
    requires IsDecimal(s)
    ensures ToLower(s) == s
  {
    forall i | 0 <= i < |s| ensures ToLower(s)[i] == s[i] {
      assert IsDigit(s[i]);
    }
  }

  /** Typing a page's number finds that page. */
  lemma SearchFindsPageNumber(p: nat)
    requires 1 <= p <= TotalPages
    ensures p in SearchPages(NatToString(p))
  {
    var d := NatToString(p);
    assert !IsWhitespace(d[0]) by {
      assert IsDigit(d[0]);
    }
    var rest := " content with sample text for searching";
    ToLowerDecimal(d);
    ToLowerConcat("Page " + d, rest);
    ToLowerConcat("Page ", d);
    assert ToLower(PageContent(p)) == ToLower("Page ") + d + ToLower(rest);
    ContainsInfix(ToLower("Page "), d, ToLower(rest));
    MatchingPagesSpec(d, TotalPages);
  }

  /** A word every page's text shares finds every page. */
  lemma SearchSharedWord()
    ensures SearchPages("SAMPLE") == seq(TotalPages, i requires 0 <= i < TotalPages => i + 1)
  {
    var term := "SAMPLE";
    assert ToLower(term) == "sample" by {
      assert forall i :: 0 <= i < 6 ==> ToLower(term)[i] == "sample"[i];
    }
    assert !IsWhitespace(term[0]);
    forall p: nat | 1 <= p <= TotalPages ensures PageMatches(term, p) {
      ContentHasSample(p);
    }
    AllPagesMatch(term, TotalPages);
  }

  lemma ContentHasSample(p: nat)
    ensures Contains(ToLower(PageContent(p)), "sample")
  {
    var a := "Page " + NatToString(p) + " content with ";
    var b := " text for searching";
    assert PageContent(p) == a + "sample" + b;
    ToLowerConcat(a + "sample", b);
    ToLowerConcat(a, "sample");
    assert ToLower("sample") == "sample";
    ContainsInfix(ToLower(a), "sample", ToLower(b));
  }

  // ---------------------------------------------------------------------
  // OCR results
  // ---------------------------------------------------------------------

  /** The texts the simulated OCR produces: none yet, the text for a page
      of the document, or the text for an uploaded file. */
  datatype OcrText = NoText | PageText(page: nat) | FileText(fileName: string)

  datatype OcrResult = OcrResult(pageNum: int, text: OcrText, confidence: int)

  /** The characters each text stands for. */
  function Render(t: OcrText): string
  {
    match t
    case NoText => ""
    case PageText(page) =>
      "This is simulated OCR text for page " + NatToString(page) + ".\n\n"
      + "Lorem ipsum dolor sit amet, consectetur adipiscing elit. Sed do eiusmod tempor incididunt ut labore et dolore magna aliqua.\n"
      + "Ut enim ad minim veniam, quis nostrud exercitation ullamco laboris nisi ut aliquip ex ea commodo consequat.\n"
      + "Page " + NatToString(page) + " contains important information about the document."
    case FileText(fileName) =>
      "OCR results from uploaded file: " + fileName + "\n\n"
      + "This is simulated text extracted from the uploaded document.\n"
      + "The OCR process has completed successfully with high accuracy."
  }

  /** `prev.filter(r => r.pageNum !== page)` */
  function WithoutPage(results: seq<OcrResult>, page: int): seq<OcrResult>
    decreases |results|
  {
    if results == [] then []
    else (if results[0].pageNum == page then [] else [results[0]]) + WithoutPage(results[1..], page)
  }

  /** The OCR table's invariant: no page has two results. */
  predicate OnePerPage(results: seq<OcrResult>)
  {
    forall i, j :: 0 <= i < j < |results| ==> results[i].pageNum != results[j].pageNum
  }

  /** Applying a result: the page's old result is dropped and the new one
      appended. */
  function MergeOcr(results: seq<OcrResult>, r: OcrResult): seq<OcrResult>
  {
    WithoutPage(results, r.pageNum) + [r]
  }

  lemma {:induction false} WithoutPageSpec(results: seq<OcrResult>, page: int)
    ensures forall x :: x in WithoutPage(results, page) <==> x in results && x.pageNum != page
    ensures OnePerPage(results) ==> OnePerPage(WithoutPage(results, page))
    decreases |results|
  {
    if results != [] {
      var t := results[1..];
      WithoutPageSpec(t, page);
      assert results == [results[0]] + t;
      var w := WithoutPage(results, page);
      var wt := WithoutPage(t, page);
      if OnePerPage(results) && results[0].pageNum != page {
        assert OnePerPage(t) by {
          forall i, j | 0 <= i < j < |t| ensures t[i].pageNum != t[j].pageNum {
            assert t[i] == results[i + 1] && t[j] == results[j + 1];
          }
        }
        forall i, j | 0 <= i < j < |w| ensures w[i].pageNum != w[j].pageNum {
          assert w[j] == wt[j - 1];
          assert wt[j - 1] in t;
          var k :| 0 <= k < |t| && t[k] == wt[j - 1];
          assert results[k + 1] == w[j];
          if i > 0 {
            assert w[i] == wt[i - 1];
          }
        }
      }
    }
  }

  /** The table keeps one result per page: the new result is the page's
      only one, and every other page's results are the ones it had. */
  lemma MergeOcrSpec(results: seq<OcrResult>, r: OcrResult)
    ensures OnePerPage(results) ==> OnePerPage(MergeOcr(results, r))
    ensures forall x :: x in MergeOcr(results, r) && x.pageNum == r.pageNum <==> x == r
    ensures forall x: OcrResult :: x.pageNum != r.pageNum ==> (x in MergeOcr(results, r) <==> x in results)
    ensures MergeOcr(results, r)[|MergeOcr(results, r)| - 1] == r
  {
    WithoutPageSpec(results, r.pageNum);
    var w := WithoutPage(results, r.pageNum);
    var m := MergeOcr(results, r);
    assert forall x :: x in w ==> x.pageNum != r.pageNum;
    if OnePerPage(results) {
      forall i, j | 0 <= i < j < |m| ensures m[i].pageNum != m[j].pageNum {
        assert m[i] == w[i];
        assert w[i] in w;
      }
    }
  }

  // ---------------------------------------------------------------------
  // Editable text boxes
  // ---------------------------------------------------------------------

  datatype FontWeight = NormalWeight | Bold
  datatype FontStyle = NormalStyle | Italic
  datatype TextAlign = AlignLeft | AlignCenter | AlignRight

  datatype EditableText = EditableText(
    id: string, content: string, pageNum: int, x: int, y: int, fontSize: int,
    fontWeight: FontWeight, fontStyle: FontStyle, textAlign: TextAlign, color: string)

  /** `Partial<EditableText>`: each property the update sets. */
  datatype TextPatch = TextPatch(
    id: Option<string>, content: Option<string>, pageNum: Option<int>,
    x: Option<int>, y: Option<int>, fontSize: Option<int>,
    fontWeight: Option<FontWeight>, fontStyle: Option<FontStyle>,
    textAlign: Option<TextAlign>, color: Option<string>)

  const EmptyPatch := TextPatch(None, None, None, None, None, None, None, None, None, None)

  function Or<T>(o: Option<T>, d: T): T
  {
    if o.Some? then o.value else d
  }

  /** `{ ...text, ...updates }` */
  function ApplyPatch(t: EditableText, u: TextPatch): EditableText
  {
    EditableText(
      Or(u.id, t.id), Or(u.content, t.content), Or(u.pageNum, t.pageNum),
      Or(u.x, t.x), Or(u.y, t.y), Or(u.fontSize, t.fontSize),
      Or(u.fontWeight, t.fontWeight), Or(u.fontStyle, t.fontStyle),
      Or(u.textAlign, t.textAlign), Or(u.color, t.color))
  }

  /** The spread sets each property the patch names and keeps every other
      property of the box. */
  lemma ApplyPatchSpec(t: EditableText, u: TextPatch)
    ensures u.id.Some? ==> ApplyPatch(t, u).id == u.id.value
    ensures u.id.None? ==> ApplyPatch(t, u).id == t.id
    ensures u.content.Some? ==> ApplyPatch(t, u).content == u.content.value
    ensures u.content.None? ==> ApplyPatch(t, u).content == t.content
    ensures u.pageNum.Some? ==> ApplyPatch(t, u).pageNum == u.pageNum.value
    ensures u.pageNum.None? ==> ApplyPatch(t, u).pageNum == t.pageNum
    ensures u.x.Some? ==> ApplyPatch(t, u).x == u.x.value
    ensures u.x.None? ==> ApplyPatch(t, u).x == t.x
    ensures u.y.Some? ==> ApplyPatch(t, u).y == u.y.value
    ensures u.y.None? ==> ApplyPatch(t, u).y == t.y
    ensures u.fontSize.Some? ==> ApplyPatch(t, u).fontSize == u.fontSize.value
    ensures u.fontSize.None? ==> ApplyPatch(t, u).fontSize == t.fontSize
    ensures u.fontWeight.Some? ==> ApplyPatch(t, u).fontWeight == u.fontWeight.value
    ensures u.fontWeight.None? ==> ApplyPatch(t, u).fontWeight == t.fontWeight
    ensures u.fontStyle.Some? ==> ApplyPatch(t, u).fontStyle == u.fontStyle.value
    ensures u.fontStyle.None? ==> ApplyPatch(t, u).fontStyle == t.fontStyle
    ensures u.textAlign.Some? ==> ApplyPatch(t, u).textAlign == u.textAlign.value
    ensures u.textAlign.None? ==> ApplyPatch(t, u).textAlign == t.textAlign
    ensures u.color.Some? ==> ApplyPatch(t, u).color == u.color.value
    ensures u.color.None? ==> ApplyPatch(t, u).color == t.color
  {
  }

  /** A patch that names no property changes nothing. */
  lemma ApplyEmptyPatch(t: EditableText)
    ensures ApplyPatch(t, EmptyPatch) == t
  {
  }

  /** updateEditableText: the boxes with the id get the update. */
  function UpdateTexts(texts: seq<EditableText>, id: string, u: TextPatch): seq<EditableText>
  {
    seq(|texts|, i requires 0 <= i < |texts| => if texts[i].id == id then ApplyPatch(texts[i], u) else texts[i])
  }

  /** An update gives each box with that id the patched box
      (`ApplyPatchSpec` says which fields change) and touches no other box
      (none for an unknown id); it changes nothing for an empty update, and
      applying it twice is applying it once when it keeps the id. */
  lemma UpdateTextsSpec(texts: seq<EditableText>, id: string, u: TextPatch)
    ensures |UpdateTexts(texts, id, u)| == |texts|
    ensures forall i :: 0 <= i < |texts| && texts[i].id != id ==> UpdateTexts(texts, id, u)[i] == texts[i]
    ensures forall i :: 0 <= i < |texts| && texts[i].id == id ==> UpdateTexts(texts, id, u)[i] == ApplyPatch(texts[i], u)
    ensures forall i :: 0 <= i < |texts| && texts[i].id == id && u.x.Some? ==> UpdateTexts(texts, id, u)[i].x == u.x.value
    ensures forall i :: 0 <= i < |texts| && texts[i].id == id && u.content.None? ==> UpdateTexts(texts, id, u)[i].content == texts[i].content
    ensures UpdateTexts(texts, id, EmptyPatch) == texts
    ensures u.id.None? || u.id == Some(id) ==> UpdateTexts(UpdateTexts(texts, id, u), id, u) == UpdateTexts(texts, id, u)
  {
    var once := UpdateTexts(texts, id, u);
    if u.id.None? || u.id == Some(id) {
      var twice := UpdateTexts(once, id, u);
      forall i | 0 <= i < |texts| ensures twice[i] == once[i] {
        assert once[i].id == texts[i].id;
      }
    }
    var e := UpdateTexts(texts, id, EmptyPatch);
    forall i | 0 <= i < |texts| ensures e[i] == texts[i] {
    }
  }

  /** The first box with the id (`find`). */
  function FindText(texts: seq<EditableText>, id: string): (r: Option<EditableText>)
    ensures r.Some? ==> r.value.id == id
    ensures r.Some? ==> exists k :: 0 <= k < |texts| && texts[k] == r.value && forall j :: 0 <= j < k ==> texts[j].id != id
    ensures r.None? ==> forall i :: 0 <= i < |texts| ==> texts[i].id != id
  {
    if texts == [] then None
    else if texts[0].id == id then Some(texts[0])
    else FindText(texts[1..], id)
  }

  /** A drag by (dx, dy) from the box's position at the start of the drag;
      a coordinate that would go below 0 stops at 0. Only the position is
      set. */
  function DragPatch(t: EditableText, dx: int, dy: int): (u: TextPatch)
    ensures u.x.Some? && u.y.Some? && u.x.value >= 0 && u.y.value >= 0
    ensures t.x + dx >= 0 ==> u.x.value == t.x + dx
    ensures t.x + dx < 0 ==> u.x.value == 0
    ensures t.y + dy >= 0 ==> u.y.value == t.y + dy
    ensures t.y + dy < 0 ==> u.y.value == 0
    ensures u.(x := None, y := None) == EmptyPatch
  {
    EmptyPatch.(x := Some(Max(0, t.x + dx)), y := Some(Max(0, t.y + dy)))
  }

  /** Each move of a drag sets the position from where the box was when
      the drag began, so a move undoes whatever the moves before it did:
      only the last move counts. */
  lemma LastMoveWins(texts: seq<EditableText>, id: string, t: EditableText, dx1: int, dy1: int, dx2: int, dy2: int)
    ensures UpdateTexts(UpdateTexts(texts, id, DragPatch(t, dx1, dy1)), id, DragPatch(t, dx2, dy2))
         == UpdateTexts(texts, id, DragPatch(t, dx2, dy2))
  {
    var mid := UpdateTexts(texts, id, DragPatch(t, dx1, dy1));
    var twice := UpdateTexts(mid, id, DragPatch(t, dx2, dy2));
    var once := UpdateTexts(texts, id, DragPatch(t, dx2, dy2));
    forall i | 0 <= i < |texts| ensures twice[i] == once[i] {
      assert mid[i].id == texts[i].id;
    }
  }

  /** A drag in progress: the box, where the pointer went down, and the box
      as it was then. */
  datatype Drag = Drag(id: string, startX: int, startY: int, origin: EditableText)

  // ---------------------------------------------------------------------
  // Thumbnail order
  // ---------------------------------------------------------------------

  datatype FilterOption = NoFilter | LowToHigh | HighToLow

  function Ascending(p: int): int { p }
  function Descending(p: int): int { -p }

  /** Pages 1..n. */
  function PageRange(n: nat): seq<int>
  {
    seq(n, i requires 0 <= i < n => i + 1)
  }

  /** getFilteredPages: the pages as they are, or sorted by `a - b` or by
      `b - a`. */
  function FilteredPages(f: FilterOption, n: nat): seq<int>
  {
    match f
    case NoFilter => PageRange(n)
    case LowToHigh => SortBy(Ascending, PageRange(n))
    case HighToLow => SortBy(Descending, PageRange(n))
  }

  lemma {:induction false} SortDescendingRange(n: nat)
    ensures SortBy(Descending, PageRange(n)) == seq(n, i requires 0 <= i < n => n - i)
    decreases n
  {
    if n > 0 {
      var r := PageRange(n);
      assert r[..n - 1] == PageRange(n - 1);
      SortDescendingRange(n - 1);
      var down := seq(n - 1, i requires 0 <= i < n - 1 => n - 1 - i);
      assert r[n - 1] == n;
      if n > 1 {
        assert Descending(n) < Descending(down[0]);
      }
      assert Insert(Descending, down, n) == [n] + down;
    }
  }

  /** Ascending order is the natural order and descending order is its
      reverse: the thumbnails run 1..n or n..1. */
  lemma FilteredPagesOrder(f: FilterOption, n: nat)
    ensures f != HighToLow ==> FilteredPages(f, n) == PageRange(n)
    ensures f == HighToLow ==> FilteredPages(f, n) == seq(n, i requires 0 <= i < n => n - i)
  {
    if f == LowToHigh {
      SortOfSorted(Ascending, PageRange(n));
    } else if f == HighToLow {
      SortDescendingRange(n);
    }
  }

  // ---------------------------------------------------------------------
  // The viewer
  // ---------------------------------------------------------------------

  class Viewer {
    var currentPage: int
    var zoomLevel: int
    var selectedPage: Option<int>
    var viewMode: ViewMode
    var filterOption: FilterOption
    var rotationAngle: int
    var isBookmarked: bool
    var recentPages: seq<int>
    var starredPages: seq<int>
    var isEditMode: bool
    var isPageSearchOpen: bool
    var pageSearchInput: string
    var pageSearchResults: seq<int>
    var ocrResults: seq<OcrResult>
    var ocrText: OcrText
    var showOcrPanel: bool
    var pageSize: PageSize
    var customWidth: int
    var customHeight: int
    var editableTexts: seq<EditableText>
    var drag: Option<Drag>

    /** What the handlers keep: the page on show, the selected page, recent
        pages and search hits are pages of the document; zoom is a valid
        level; rotation is in quarter turns; the recent list holds at most
        five distinct pages; the OCR table one result per page. */
    ghost predicate Valid()
      reads this
    {
      && InRange(currentPage, TotalPages)
      && (selectedPage.Some? ==> InRange(selectedPage.value, TotalPages))
      && ValidZoom(zoomLevel)
      && rotationAngle % 90 == 0
      && |recentPages| <= 5 && DistinctInts(recentPages)
      && (forall i :: 0 <= i < |recentPages| ==> InRange(recentPages[i], TotalPages))
      && (forall i :: 0 <= i < |pageSearchResults| ==> InRange(pageSearchResults[i], TotalPages))
      && OnePerPage(ocrResults)
    }

    constructor ()
      ensures Valid()
      ensures currentPage == 1 && zoomLevel == 100 && rotationAngle == 0 && selectedPage == None
      ensures viewMode == Single && filterOption == NoFilter && pageSize == A4
      ensures customWidth == 595 && customHeight == 842
      ensures recentPages == [] && starredPages == [] && !isBookmarked
      ensures pageSearchResults == [] && ocrResults == [] && editableTexts == [] && drag == None
    {
      currentPage, zoomLevel, selectedPage := 1, 100, None;
      viewMode, filterOption, rotationAngle := Single, NoFilter, 0;
      isBookmarked, recentPages, starredPages := false, [], [];
      isEditMode, isPageSearchOpen := false, false;
      pageSearchInput, pageSearchResults := "", [];
      ocrResults, ocrText, showOcrPanel := [], NoText, false;
      pageSize, customWidth, customHeight := A4, 595, 842;
      editableTexts, drag := [], None;
    }

    function Dimensions(): Dimensions
      reads this
    {
      CurrentDimensions(pageSize, customWidth, customHeight)
    }

    /** handlePageSizeChange: a named size also becomes the starting point
        of the custom size. */
    method PageSizeChange(size: PageSize)
      modifies this`pageSize, this`customWidth, this`customHeight
      ensures pageSize == size
      ensures size != Custom ==> Dimensions() == StandardDimensions(size)
      ensures size != Custom ==> CurrentDimensions(Custom, customWidth, customHeight) == Dimensions()
      ensures size == Custom ==> Dimensions() == old(CurrentDimensions(Custom, customWidth, customHeight))
    {
      pageSize := size;
      if size != Custom {
        var dims := StandardDimensions(size);
        customWidth := dims.width;
        customHeight := dims.height;
      }
    }

    /** updateRecentPages, run after a navigation with the page shown
        before it. */
    method RecordRecent(page: int)
      requires Valid() && InRange(page, TotalPages)
      modifies this`recentPages
      ensures Valid()
      ensures recentPages == UpdateRecent(old(recentPages), page)
    {
      RecentSpec(recentPages, page);
      var r := UpdateRecent(recentPages, page);
      forall i | 0 <= i < |r| ensures InRange(r[i], TotalPages) {
        assert r[i] in r;
      }
      recentPages := r;
    }

    /** handlePrevPage */
    method PrevPage()
      requires Valid()
      modifies this`currentPage, this`recentPages
      ensures Valid()
      ensures currentPage == PrevPageOf(viewMode, old(currentPage))
      ensures recentPages == UpdateRecent(old(recentPages), old(currentPage))
    {
      var before := currentPage;
      NavigationInRange(viewMode, currentPage, TotalPages);
      currentPage := PrevPageOf(viewMode, currentPage);
      RecordRecent(before);
    }

    /** handleNextPage */
    method NextPage()
      requires Valid()
      modifies this`currentPage, this`recentPages
      ensures Valid()
      ensures currentPage == NextPageOf(viewMode, old(currentPage), TotalPages)
      ensures recentPages == UpdateRecent(old(recentPages), old(currentPage))
    {
      var before := currentPage;
      NavigationInRange(viewMode, currentPage, TotalPages);
      currentPage := NextPageOf(viewMode, currentPage, TotalPages);
      RecordRecent(before);
    }

    /** handlePageChange: `typed` is parseInt of the box's text (None for
        NaN). A page of the document is shown; anything else is ignored. */
    method PageChange(typed: Option<int>)
      requires Valid()
      modifies this`currentPage, this`recentPages
      ensures Valid()
      ensures typed.Some? && InRange(typed.value, TotalPages) ==>
        currentPage == typed.value && recentPages == UpdateRecent(old(recentPages), old(currentPage))
      ensures !(typed.Some? && InRange(typed.value, TotalPages)) ==> unchanged(this)
    {
      if typed.Some? && typed.value > 0 && typed.value <= TotalPages {
        var before := currentPage;
        currentPage := typed.value;
        RecordRecent(before);
      }
    }

    /** handleManualPageSearch: like a typed page, and it also selects the
        page and closes the search box. */
    method ManualPageSearch(pageNum: Option<int>)
      requires Valid()
      modifies this`currentPage, this`selectedPage, this`isPageSearchOpen, this`recentPages
      ensures Valid()
      ensures pageNum.Some? && InRange(pageNum.value, TotalPages) ==>
        && currentPage == pageNum.value && selectedPage == pageNum && !isPageSearchOpen
        && recentPages == UpdateRecent(old(recentPages), old(currentPage))
      ensures !(pageNum.Some? && InRange(pageNum.value, TotalPages)) ==> unchanged(this)
    {
      if pageNum.Some? && pageNum.value >= 1 && pageNum.value <= TotalPages {
        var before := currentPage;
        currentPage := pageNum.value;
        selectedPage := pageNum;
        isPageSearchOpen := false;
        RecordRecent(before);
      }
    }

    method HandleZoomIn()
      requires Valid()
      modifies this`zoomLevel
      ensures Valid() && zoomLevel == ZoomIn(old(zoomLevel))
    {
      zoomLevel := ZoomIn(zoomLevel);
    }

    method HandleZoomOut()
      requires Valid()
      modifies this`zoomLevel
      ensures Valid() && zoomLevel == ZoomOut(old(zoomLevel))
    {
      zoomLevel := ZoomOut(zoomLevel);
    }

    /** Ctrl+0: back to 100%. */
    method ResetZoom()
      requires Valid()
      modifies this`zoomLevel
      ensures Valid() && zoomLevel == 100
    {
      zoomLevel := 100;
    }

    method HandleRotate(d: Direction)
      requires Valid()
      modifies this`rotationAngle
      ensures Valid() && rotationAngle == Rotate(old(rotationAngle), d)
    {
      rotationAngle := Rotate(rotationAngle, d);
    }

    /** toggleBookmark: one flag for the whole viewer. Turning it on stars
        the page on show; turning it off unstars that page wherever it
        occurs. */
    method ToggleBookmark()
      modifies this`isBookmarked, this`starredPages
      ensures isBookmarked == !old(isBookmarked)
      ensures !old(isBookmarked) ==> starredPages == old(starredPages) + [currentPage]
      ensures old(isBookmarked) ==> starredPages == Without(old(starredPages), currentPage)
      ensures isBookmarked ==> currentPage in starredPages
      ensures !isBookmarked ==> currentPage !in starredPages
      ensures forall q :: q != currentPage ==> (q in starredPages <==> q in old(starredPages))
    {
      WithoutSpec(starredPages, currentPage);
      if !isBookmarked {
        starredPages := starredPages + [currentPage];
      } else {
        starredPages := Without(starredPages, currentPage);
      }
      isBookmarked := !isBookmarked;
    }

    /** handlePageSearch: a blank term clears the hits; otherwise the hits
        are the matching pages and the first hit is shown and selected. */
    method PageSearch()
      requires Valid()
      modifies this`pageSearchResults, this`currentPage, this`selectedPage
      ensures Valid()
      ensures pageSearchResults == SearchPages(pageSearchInput)
      ensures |pageSearchResults| > 0 ==> currentPage == pageSearchResults[0] && selectedPage == Some(pageSearchResults[0])
      ensures |pageSearchResults| == 0 ==> currentPage == old(currentPage) && selectedPage == old(selectedPage)
    {
      if IsBlank(pageSearchInput) {
        pageSearchResults := [];
        return;
      }
      var results := MatchingPages(pageSearchInput, TotalPages);
      MatchingPagesSpec(pageSearchInput, TotalPages);
      forall i | 0 <= i < |results| ensures InRange(results[i], TotalPages) {
        assert results[i] in results;
      }
      pageSearchResults := results;
      if |results| > 0 {
        currentPage := results[0];
        selectedPage := Some(results[0]);
      }
    }

    /** clearSearch */
    method ClearSearch()
      requires Valid()
      modifies this`pageSearchInput, this`pageSearchResults
      ensures Valid() && pageSearchInput == "" && pageSearchResults == []
    {
      pageSearchInput := "";
      pageSearchResults := [];
    }

    /** goToSearchResult. The panel never calls it; the model takes it to
        be called with one of the hits, which is where a result list would
        offer it. */
    method GoToSearchResult(pageNum: int)
      requires Valid() && pageNum in pageSearchResults
      modifies this`currentPage, this`selectedPage
      ensures Valid() && currentPage == pageNum && selectedPage == Some(pageNum)
    {
      currentPage := pageNum;
      selectedPage := Some(pageNum);
    }

    /** A thumbnail click: the page, one of the listed pages, is shown and
        selected. */
    method SelectThumbnail(pageNum: int)
      requires Valid() && pageNum in FilteredPages(filterOption, TotalPages)
      modifies this`currentPage, this`selectedPage
      ensures Valid() && currentPage == pageNum && selectedPage == Some(pageNum)
    {
      FilteredPagesOrder(filterOption, TotalPages);
      var k :| 0 <= k < TotalPages && FilteredPages(filterOption, TotalPages)[k] == pageNum;
      currentPage := pageNum;
      selectedPage := Some(pageNum);
    }

    /** A button of the recent-pages list: that page is shown; the
        selection and the recent list stay as they are. */
    method ShowRecentPage(page: int)
      requires Valid() && page in recentPages
      modifies this`currentPage
      ensures Valid() && currentPage == page
    {
      currentPage := page;
    }

    /** performOCR once its delay has passed; `draw` is
        `Math.floor(Math.random() * 20)`. */
    method PerformOcr(draw: int)
      requires Valid() && 0 <= draw < 20
      modifies this`ocrResults, this`ocrText, this`showOcrPanel
      ensures Valid()
      ensures ocrResults == MergeOcr(old(ocrResults), OcrResult(currentPage, PageText(currentPage), draw + 80))
      ensures 80 <= ocrResults[|ocrResults| - 1].confidence <= 99
      ensures ocrText == PageText(currentPage) && showOcrPanel
    {
      var text := PageText(currentPage);
      ApplyOcrResult(OcrResult(currentPage, text, draw + 80));
      ocrText := text;
      showOcrPanel := true;
    }

    /** The OCR table update: the page's result replaced by the new one. */
    method ApplyOcrResult(r: OcrResult)
      requires Valid()
      modifies this`ocrResults
      ensures Valid()
      ensures ocrResults == MergeOcr(old(ocrResults), r)
      ensures ocrResults[|ocrResults| - 1] == r
    {
      MergeOcrSpec(ocrResults, r);
      ocrResults := MergeOcr(ocrResults, r);
    }

    /** handleFileUpload once its delay has passed; without a file nothing
        happens. */
    method FileUpload(fileName: Option<string>)
      modifies this`ocrText, this`showOcrPanel
      ensures fileName.Some? ==> ocrText == FileText(fileName.value) && showOcrPanel
      ensures fileName.None? ==> unchanged(this)
    {
      if fileName.Some? {
        ocrText := FileText(fileName.value);
        showOcrPanel := true;
      }
    }

    /** updateEditableText */
    method UpdateEditableText(id: string, u: TextPatch)
      modifies this`editableTexts
      ensures editableTexts == UpdateTexts(old(editableTexts), id, u)
    {
      editableTexts := UpdateTexts(editableTexts, id, u);
    }

    /** handleTextDrag, on the pointer going down at (clientX, clientY)
        over a box: outside edit mode, or for an unknown box, no drag
        starts; otherwise the drag remembers the pointer and the first box
        with the id as they are now. */
    method BeginDrag(id: string, clientX: int, clientY: int)
      modifies this`drag
      ensures !isEditMode || FindText(editableTexts, id).None? ==> unchanged(this)
      ensures isEditMode && FindText(editableTexts, id).Some? ==>
        drag == Some(Drag(id, clientX, clientY, FindText(editableTexts, id).value))
    {
      if !isEditMode {
        return;
      }
      var found := FindText(editableTexts, id);
      if found.None? {
        return;
      }
      drag := Some(Drag(id, clientX, clientY, found.value));
    }

    /** The drag's mousemove listener, with the pointer at (clientX,
        clientY): the boxes with the dragged id go to the remembered
        position moved by the pointer's offset from where it went down,
        neither coordinate below 0, whatever earlier moves did. Without a
        drag no listener runs. */
    method MoveDrag(clientX: int, clientY: int)
      modifies this`editableTexts
      ensures drag.None? ==> unchanged(this)
      ensures drag.Some? ==>
        editableTexts == UpdateTexts(old(editableTexts), drag.value.id,
                                     DragPatch(drag.value.origin, clientX - drag.value.startX, clientY - drag.value.startY))
      ensures drag.Some? ==> forall i :: 0 <= i < |editableTexts| && editableTexts[i].id == drag.value.id ==>
        && editableTexts[i].x == Max(0, drag.value.origin.x + clientX - drag.value.startX)
        && editableTexts[i].y == Max(0, drag.value.origin.y + clientY - drag.value.startY)
    {
      if drag.Some? {
        var d := drag.value;
        UpdateEditableText(d.id, DragPatch(d.origin, clientX - d.startX, clientY - d.startY));
      }
    }

    /** The drag's mouseup listener: both listeners are removed. */
    method EndDrag()
      modifies this`drag
      ensures drag == None
    {
      drag := None;
    }

    /** handleReset: "Reset all settings?". Starred and recent pages, view
        mode, search, custom size and bookmark flag are kept. */
    method Reset(confirm: bool)
      requires Valid()
      modifies this`zoomLevel, this`rotationAngle, this`pageSize, this`filterOption,
        this`editableTexts, this`ocrResults, this`ocrText, this`currentPage
      ensures Valid()
      ensures !confirm ==> unchanged(this)
      ensures confirm ==> && zoomLevel == 100 && rotationAngle == 0 && pageSize == A4
                          && filterOption == NoFilter && editableTexts == [] && ocrResults == []
                          && ocrText == NoText && currentPage == 1
    {
      if confirm {
        zoomLevel, rotationAngle, pageSize, filterOption := 100, 0, A4, NoFilter;
        editableTexts, ocrResults, ocrText, currentPage := [], [], NoText, 1;
      }
    }
  }
}
