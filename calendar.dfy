/** The weekly grid of one instructor's worksheet: which cells
    `add_instructor_page` merges, what it writes into them and how it styles
    them. A worksheet is a map from coordinates to cells plus the list of
    merged ranges; a workbook is the list of its worksheets. */
module Calendar {
  import opened Wrappers
  import opened Text
  import opened Records
  import opened TimeCodec

  /** Title of the sheet every instructor page is copied from. */
  const TEMPLATE: string := "Template"

  /** Fill colour of an office-hours block. */
  const YELLOW: string := "ffff00"

  /** Fill colour of every other meeting. */
  const GREEN: string := "c6e0b4"

  /** The largest row number a worksheet range may name. */
  const MAX_ROW: int := 1048576

  /** `day_to_column`: the weekday letters of a meeting to the grid's
      columns, Monday in column B through Friday in column F. */
  const DAY_TO_COLUMN: map<char, char> := map['M' := 'B', 'T' := 'C', 'W' := 'D', 'R' := 'E', 'F' := 'F']

  datatype Coord = Coord(column: char, row: int)

  /** A cell: its value (`""` when empty) and the three style attributes the
      program sets; `fill` is `None` while the cell has no solid fill. */
  datatype Cell = Cell(value: string, bold: bool, centered: bool, fill: Option<string>)

  /** A single-column block of merged cells, rows `firstRow..lastRow`. */
  datatype MergedRange = MergedRange(column: char, firstRow: int, lastRow: int)

  /** The contents of a worksheet. */
  datatype Sheet = Sheet(cells: map<Coord, Cell>, merged: seq<MergedRange>)

  /** The cell at `at`; a worksheet creates a blank one on first access. */
  function CellAt(cells: map<Coord, Cell>, at: Coord): Cell
  {
    if at in cells then cells[at] else Cell("", false, false, None)
  }

  /** Writing a value keeps the cell's style. */
  function WithValue(cells: map<Coord, Cell>, at: Coord, value: string): map<Coord, Cell>
  {
    cells[at := CellAt(cells, at).(value := value)]
  }

  // ---------------------------------------------------------------------
  // Geometry and styling of one meeting
  // ---------------------------------------------------------------------

  /** The first row of a meeting's block. */
  function StartRow(c: CourseInfo): int
  {
    TimeToRow(c.startTime)
  }

  /** The last row of a meeting's block: the row just above its end slot. */
  function EndRow(c: CourseInfo): int
  {
    TimeToRow(c.endTime) - 1
  }

  predicate DaysKnown(c: CourseInfo)
  {
    forall i :: 0 <= i < |c.days| ==> c.days[i] in DAY_TO_COLUMN
  }

  predicate AllDaysKnown(cs: seq<CourseInfo>)
  {
    forall i :: 0 <= i < |cs| ==> DaysKnown(cs[i])
  }

  /** A range the worksheet accepts: rows start at 1, do not run backwards
      and stay inside the sheet. */
  predicate ValidRange(r: MergedRange)
  {
    1 <= r.firstRow <= r.lastRow <= MAX_ROW
  }

  /** A meeting the page can be drawn for: every day letter has a column,
      and its block is a range the worksheet accepts. */
  predicate Renderable(c: CourseInfo)
  {
    DaysKnown(c) && 1 <= StartRow(c) <= EndRow(c) <= MAX_ROW
  }

  predicate AllRenderable(cs: seq<CourseInfo>)
  {
    forall i :: 0 <= i < |cs| ==> Renderable(cs[i])
  }

  /** The compact two-line label is used when the block's last row is fewer
      than three rows below its first, and always for office hours. */
  predicate CompactLabel(c: CourseInfo)
  {
    EndRow(c) - StartRow(c) < 3 || c.nameAndSection == OFFICE_HOURS
  }

  function Label(c: CourseInfo): string
  {
    if CompactLabel(c) then c.nameAndSection + " " + c.ty + "\n" + c.location
    else c.nameAndSection + "\n" + c.ty + "\n" + c.location
  }

  function FillColor(c: CourseInfo): string
  {
    if c.nameAndSection == OFFICE_HOURS then YELLOW else GREEN
  }

  /** The labelled top cell of a meeting's block: bold, centred, filled. */
  function Styled(c: CourseInfo): Cell
  {
    Cell(Label(c), true, true, Some(FillColor(c)))
  }

  // ---------------------------------------------------------------------
  // The page as a function of the template and the meetings
  // ---------------------------------------------------------------------

  /** One visit of the layout: a meeting drawn in one day's column. */
  datatype Placement = Placement(course: CourseInfo, column: char)

  function Span(p: Placement): MergedRange
  {
    MergedRange(p.column, StartRow(p.course), EndRow(p.course))
  }

  function Target(p: Placement): Coord
  {
    Coord(p.column, StartRow(p.course))
  }

  /** The visits for a meeting on the given day letters: one per letter,
      in the letter's column, in the order of the letters. */
  function Visits(c: CourseInfo, days: seq<char>): (ps: seq<Placement>)
    requires forall i :: 0 <= i < |days| ==> days[i] in DAY_TO_COLUMN
    ensures |ps| == |days|
    ensures forall j :: 0 <= j < |days| ==> ps[j] == Placement(c, DAY_TO_COLUMN[days[j]])
    decreases |days|
  {
    if days == [] then [] else Visits(c, days[..|days| - 1]) + [Placement(c, DAY_TO_COLUMN[Last(days)])]
  }

  /** The visits for the first `j + 1` day letters extend those for the
      first `j` by the visit for letter `j`. */
  lemma VisitsSnoc(c: CourseInfo, days: seq<char>, j: nat)
    requires j < |days|
    requires forall i :: 0 <= i < |days| ==> days[i] in DAY_TO_COLUMN
    ensures Visits(c, days[..j + 1]) == Visits(c, days[..j]) + [Placement(c, DAY_TO_COLUMN[days[j]])]
  {
    assert days[..j + 1][..j] == days[..j];
  }

  /** The visits for one meeting, in the order of its day letters. */
  function DayPlacements(c: CourseInfo): seq<Placement>
    requires DaysKnown(c)
  {
    Visits(c, c.days)
  }

  /** All visits, meeting after meeting. */
  function Placements(cs: seq<CourseInfo>): seq<Placement>
    requires AllDaysKnown(cs)
    decreases |cs|
  {
    if cs == [] then [] else Placements(cs[..|cs| - 1]) + DayPlacements(Last(cs))
  }

  /** One visit: merge the block and overwrite its top cell. */
  function Step(s: Sheet, p: Placement): Sheet
  {
    Sheet(s.cells[Target(p) := Styled(p.course)], s.merged + [Span(p)])
  }

  function Apply(s: Sheet, ps: seq<Placement>): Sheet
    decreases |ps|
  {
    if ps == [] then s else Step(Apply(s, ps[..|ps| - 1]), Last(ps))
  }

  const NAME_CELL: Coord := Coord('B', 1)
  const EXT_CELL: Coord := Coord('D', 1)
  const OFFICE_CELL: Coord := Coord('E', 1)
  const EMAIL_CELL: Coord := Coord('G', 1)

  /** The four header values, written over the template's header cells. */
  function WriteHeader(s: Sheet, info: InstructorInfo): Sheet
  {
    var c1 := WithValue(s.cells, NAME_CELL, info.name);
    var c2 := WithValue(c1, EXT_CELL, info.ext);
    var c3 := WithValue(c2, OFFICE_CELL, "Office: " + info.officeLocation);
    Sheet(WithValue(c3, EMAIL_CELL, info.email), s.merged)
  }

  /** The finished page for `courses`, whose first meeting names the
      instructor. */
  function RenderPage(template: Sheet, courses: seq<CourseInfo>): Sheet
    requires |courses| > 0 && courses[0].instructor.Some?
    requires AllDaysKnown(courses)
  {
    Apply(WriteHeader(template, courses[0].instructor.value), Placements(courses))
  }

  // ---------------------------------------------------------------------
  // Worksheets and workbooks
  // ---------------------------------------------------------------------

  class Worksheet {
    var title: string
    var cells: map<Coord, Cell>
    var merged: seq<MergedRange>

    /** `copy_worksheet`: the copy has the source's cells and merged ranges
        and the source's title followed by `" Copy"`. */
    constructor Copy(source: Worksheet)
      ensures title == source.title + " Copy"
      ensures cells == source.cells && merged == source.merged
    {
      title := source.title + " Copy";
      cells := source.cells;
      merged := source.merged;
    }

    function View(): Sheet
      reads this
    {
      Sheet(cells, merged)
    }

    /** `merge_cells`; a range with rows outside `1..MAX_ROW` or running
        backwards is refused by the worksheet. */
    method MergeCells(range: MergedRange)
      requires ValidRange(range)
      modifies this
      ensures merged == old(merged) + [range]
      ensures cells == old(cells) && title == old(title)
    {
      merged := merged + [range];
    }

    method SetValue(at: Coord, value: string)
      modifies this
      ensures cells == WithValue(old(cells), at, value)
      ensures merged == old(merged) && title == old(title)
    {
      cells := WithValue(cells, at, value);
    }

    /** Assigning `Font(bold=...)`. */
    method SetFont(at: Coord, bold: bool)
      modifies this
      ensures cells == old(cells)[at := CellAt(old(cells), at).(bold := bold)]
      ensures merged == old(merged) && title == old(title)
    {
      cells := cells[at := CellAt(cells, at).(bold := bold)];
    }

    /** Assigning an `Alignment` centred on both axes, or not. */
    method SetAlignment(at: Coord, centered: bool)
      modifies this
      ensures cells == old(cells)[at := CellAt(old(cells), at).(centered := centered)]
      ensures merged == old(merged) && title == old(title)
    {
      cells := cells[at := CellAt(cells, at).(centered := centered)];
    }

    /** Assigning a solid `PatternFill` of the given colour. */
    method SetFill(at: Coord, color: string)
      modifies this
      ensures cells == old(cells)[at := CellAt(old(cells), at).(fill := Some(color))]
      ensures merged == old(merged) && title == old(title)
    {
      cells := cells[at := CellAt(cells, at).(fill := Some(color))];
    }
  }

  /** The first of `sheets` with the given title. */
  function FirstTitled(sheets: seq<Worksheet>, title: string): (ws: Worksheet)
    requires exists i :: 0 <= i < |sheets| && sheets[i].title == title
    reads sheets
    ensures ws.title == title
    ensures exists i :: 0 <= i < |sheets| && sheets[i] == ws && forall j :: 0 <= j < i ==> sheets[j].title != title
    decreases |sheets|
  {
    if sheets[0].title == title then sheets[0]
    else
      var ws := FirstTitled(sheets[1..], title);
      assert forall i :: 0 <= i < |sheets[1..]| ==> sheets[1..][i] == sheets[i + 1];
      ws
  }

  class Workbook {
    var sheets: seq<Worksheet>

    constructor (sheets: seq<Worksheet>)
      ensures this.sheets == sheets
    {
      this.sheets := sheets;
    }

    predicate HasSheet(title: string)
      reads this, sheets
    {
      exists i :: 0 <= i < |sheets| && sheets[i].title == title
    }

    /** `workbook[title]`: the first sheet with that title. */
    function SheetNamed(title: string): (ws: Worksheet)
      requires HasSheet(title)
      reads this, sheets
      ensures ws.title == title
      ensures exists i :: 0 <= i < |sheets| && sheets[i] == ws && forall j :: 0 <= j < i ==> sheets[j].title != title
    {
      FirstTitled(sheets, title)
    }

    /** `copy_worksheet`: the copy is a new sheet appended to the workbook. */
    method CopyWorksheet(source: Worksheet) returns (copy: Worksheet)
      modifies this
      ensures fresh(copy) && sheets == old(sheets) + [copy]
      ensures copy.title == source.title + " Copy"
      ensures copy.cells == source.cells && copy.merged == source.merged
    {
      copy := new Worksheet.Copy(source);
      sheets := sheets + [copy];
    }
  }

  /** `add_instructor_page`: copies the template, names the copy after the
      instructor of the first meeting, writes the header and draws every
      meeting on every one of its days. The new page is exactly
      `RenderPage` of the template as it was; no existing sheet changes. */
  method AddInstructorPage(workbook: Workbook, courses: seq<CourseInfo>) returns (page: Worksheet)
    requires workbook.HasSheet(TEMPLATE)
    requires |courses| > 0 && courses[0].instructor.Some?
    requires AllRenderable(courses)
    modifies workbook
    ensures fresh(page)
    ensures workbook.sheets == old(workbook.sheets) + [page]
    ensures page.title == courses[0].instructor.value.name
    ensures page.View() == RenderPage(old(workbook.SheetNamed(TEMPLATE).View()), courses)
  {
    var template := workbook.SheetNamed(TEMPLATE);
    var instructor := courses[0].instructor.value;
    page := workbook.CopyWorksheet(template);
    page.title := instructor.name;

    page.SetValue(NAME_CELL, instructor.name);
    page.SetValue(EXT_CELL, instructor.ext);
    page.SetValue(OFFICE_CELL, "Office: " + instructor.officeLocation);
    page.SetValue(EMAIL_CELL, instructor.email);
    ghost var header := WriteHeader(template.View(), instructor);
    assert page.View() == Apply(header, Placements(courses[..0]));

    for i := 0 to |courses|
      invariant workbook.sheets == old(workbook.sheets) + [page]
      invariant page.title == instructor.name
      invariant page.View() == Apply(header, Placements(courses[..i]))
    {
      DrawMeeting(page, courses[i]);
      ApplyAppend(header, Placements(courses[..i]), DayPlacements(courses[i]));
      assert courses[..i + 1][..i] == courses[..i];
    }
    assert courses[..|courses|] == courses;
  }

  /** The body of the outer loop of `add_instructor_page`: one meeting, drawn
      on each of its days in turn. */
  method DrawMeeting(page: Worksheet, course: CourseInfo)
    requires Renderable(course)
    modifies page
    ensures page.View() == Apply(old(page.View()), DayPlacements(course))
    ensures page.title == old(page.title)
  {
    var startRow := TimeToRow(course.startTime);
    var endRow := TimeToRow(course.endTime) - 1;
    ghost var start := page.View();
    assert course.days[..0] == [];

    for j := 0 to |course.days|
      invariant page.title == old(page.title)
      invariant page.View() == Apply(start, Visits(course, course.days[..j]))
    {
      var column := DAY_TO_COLUMN[course.days[j]];
      DrawBlock(page, course, column, startRow, endRow);
      VisitsSnoc(course, course.days, j);
      ApplySnoc(start, Visits(course, course.days[..j]), Placement(course, column));
    }
    assert course.days[..|course.days|] == course.days;
  }

  /** The body of the inner loop: merge the meeting's block in one column,
      then label, embolden, centre and fill its top cell. */
  method DrawBlock(page: Worksheet, course: CourseInfo, column: char, startRow: int, endRow: int)
    requires startRow == StartRow(course) && endRow == EndRow(course)
    requires 1 <= startRow <= endRow <= MAX_ROW
    modifies page
    ensures page.View() == Step(old(page.View()), Placement(course, column))
    ensures page.title == old(page.title)
  {
    page.MergeCells(MergedRange(column, startRow, endRow));
    var target := Coord(column, startRow);
    if endRow - startRow < 3 || course.nameAndSection == OFFICE_HOURS {
      page.SetValue(target, course.nameAndSection + " " + course.ty + "\n" + course.location);
    } else {
      page.SetValue(target, course.nameAndSection + "\n" + course.ty + "\n" + course.location);
    }
    page.SetFont(target, true);
    page.SetAlignment(target, true);
    if course.nameAndSection == OFFICE_HOURS {
      page.SetFill(target, YELLOW);
    } else {
      page.SetFill(target, GREEN);
    }
  }

  lemma {:induction false} ApplySnoc(s: Sheet, ps: seq<Placement>, p: Placement)
    ensures Apply(s, ps + [p]) == Step(Apply(s, ps), p)
  {
    assert (ps + [p])[..|ps|] == ps;
  }

  lemma {:induction false} ApplyAppend(s: Sheet, a: seq<Placement>, b: seq<Placement>)
    ensures Apply(s, a + b) == Apply(Apply(s, a), b)
    decreases |b|
  {
    if b == [] {
      assert a + b == a;
    } else {
      var init, ab := b[..|b| - 1], a + b;
      assert ab[..|ab| - 1] == a + init;
      assert Last(ab) == Last(b);
      calc {
        Apply(s, ab);
        Step(Apply(s, a + init), Last(b));
        { ApplyAppend(s, a, init); }
        Step(Apply(Apply(s, a), init), Last(b));
        Apply(Apply(s, a), b);
      }
    }
  }

  /** Drawing appends one merged range per visit, in visit order, after the
      ranges already on the sheet. */
  lemma {:induction false} ApplyMerged(s: Sheet, ps: seq<Placement>)
    ensures |Apply(s, ps).merged| == |s.merged| + |ps|
    ensures Apply(s, ps).merged[..|s.merged|] == s.merged
    ensures forall k :: 0 <= k < |ps| ==> Apply(s, ps).merged[|s.merged| + k] == Span(ps[k])
    decreases |ps|
  {
    if ps != [] {
      var init := ps[..|ps| - 1];
      ApplyMerged(s, init);
      var before := Apply(s, init).merged;
      assert Apply(s, ps).merged == before + [Span(Last(ps))];
      assert (before + [Span(Last(ps))])[..|s.merged|] == before[..|s.merged|];
    }
  }

  /** A cell that is the target of a visit holds the styled label of the
      last visit that targets it. */
  lemma {:induction false} ApplyLastWins(s: Sheet, ps: seq<Placement>, q: nat)
    requires q < |ps|
    requires forall k :: q < k < |ps| ==> Target(ps[k]) != Target(ps[q])
    ensures Target(ps[q]) in Apply(s, ps).cells
    ensures Apply(s, ps).cells[Target(ps[q])] == Styled(ps[q].course)
    decreases |ps|
  {
    if q < |ps| - 1 {
      var init := ps[..|ps| - 1];
      ApplyLastWins(s, init, q);
    }
  }

  /** A cell that no visit targets keeps what it held. */
  lemma {:induction false} ApplyUntouched(s: Sheet, ps: seq<Placement>, at: Coord)
    requires forall k :: 0 <= k < |ps| ==> Target(ps[k]) != at
    ensures at in Apply(s, ps).cells <==> at in s.cells
    ensures at in s.cells ==> Apply(s, ps).cells[at] == s.cells[at]
    decreases |ps|
  {
    if ps != [] {
      ApplyUntouched(s, ps[..|ps| - 1], at);
    }
  }

  /** Meeting `i` on its day `j` is visit number `|Placements(cs[..i])| + j`. */
  lemma {:induction false} PlacementOf(cs: seq<CourseInfo>, i: nat, j: nat)
    requires AllDaysKnown(cs)
    requires i < |cs| && j < |cs[i].days|
    ensures |Placements(cs[..i])| + j < |Placements(cs)|
    ensures Placements(cs)[|Placements(cs[..i])| + j] == Placement(cs[i], DAY_TO_COLUMN[cs[i].days[j]])
    decreases |cs|
  {
    var n := |cs| - 1;
    var init := cs[..n];
    assert Placements(cs) == Placements(init) + DayPlacements(cs[n]);
    if i < n {
      assert init[..i] == cs[..i] && init[i] == cs[i];
      PlacementOf(init, i, j);
    } else {
      assert init == cs[..i];
    }
  }

  /** Every visit is one meeting on one of its days. */
  lemma {:induction false} PlacementSource(cs: seq<CourseInfo>, k: nat)
    requires AllDaysKnown(cs)
    requires k < |Placements(cs)|
    ensures exists i, j ::
      0 <= i < |cs| && 0 <= j < |cs[i].days| && Placements(cs)[k] == Placement(cs[i], DAY_TO_COLUMN[cs[i].days[j]])
    decreases |cs|
  {
    var init := cs[..|cs| - 1];
    var n := |cs| - 1;
    if k < |Placements(init)| {
      PlacementSource(init, k);
      var i, j :| 0 <= i < |init| && 0 <= j < |init[i].days|
        && Placements(init)[k] == Placement(init[i], DAY_TO_COLUMN[init[i].days[j]]);
      assert cs[i] == init[i];
    } else {
      var j := k - |Placements(init)|;
      assert Placements(cs)[k] == Placement(cs[n], DAY_TO_COLUMN[cs[n].days[j]]);
    }
  }

  /** Merge geometry: the page keeps the template's merged ranges and then
      holds exactly one range per meeting and day, in column
      `DAY_TO_COLUMN[day]`, from the meeting's start row down to the row
      above its end slot; and every range after the template's is one of
      those. */
  lemma {:induction false} MergeGeometry(template: Sheet, cs: seq<CourseInfo>, i: nat, j: nat)
    requires |cs| > 0 && cs[0].instructor.Some? && AllDaysKnown(cs)
    requires i < |cs| && j < |cs[i].days|
    ensures var merged := RenderPage(template, cs).merged;
      var k := |template.merged| + |Placements(cs[..i])| + j;
      && |merged| == |template.merged| + |Placements(cs)|
      && merged[..|template.merged|] == template.merged
      && k < |merged|
      && merged[k] == MergedRange(DAY_TO_COLUMN[cs[i].days[j]], TimeToRow(cs[i].startTime), TimeToRow(cs[i].endTime) - 1)
  {
    var ps := Placements(cs);
    var header := WriteHeader(template, cs[0].instructor.value);
    assert header.merged == template.merged;
    ApplyMerged(header, ps);
    PlacementOf(cs, i, j);
  }

  /** Every range the page adds is the block of some meeting on one of its
      days. */
  lemma {:induction false} MergedFromMeetings(template: Sheet, cs: seq<CourseInfo>, k: nat)
    requires |cs| > 0 && cs[0].instructor.Some? && AllDaysKnown(cs)
    requires |template.merged| <= k < |RenderPage(template, cs).merged|
    ensures exists i, j ::
      0 <= i < |cs| && 0 <= j < |cs[i].days|
      && RenderPage(template, cs).merged[k] == MergedRange(DAY_TO_COLUMN[cs[i].days[j]], StartRow(cs[i]), EndRow(cs[i]))
  {
    var ps := Placements(cs);
    var header := WriteHeader(template, cs[0].instructor.value);
    assert header.merged == template.merged;
    ApplyMerged(header, ps);
    var v := k - |template.merged|;
    PlacementSource(cs, v);
    var i, j :| 0 <= i < |cs| && 0 <= j < |cs[i].days| && ps[v] == Placement(cs[i], DAY_TO_COLUMN[cs[i].days[j]]);
    assert RenderPage(template, cs).merged[k] == Span(ps[v]);
  }

  /** The top cell of a meeting's block on day `j` is its styled label
      (see `StyledCell`), unless a later visit draws over the same cell. */
  lemma {:induction false} TopCell(template: Sheet, cs: seq<CourseInfo>, i: nat, j: nat)
    requires |cs| > 0 && cs[0].instructor.Some? && AllDaysKnown(cs)
    requires i < |cs| && j < |cs[i].days|
    requires var ps := Placements(cs);
      forall k :: |Placements(cs[..i])| + j < k < |ps| ==> Target(ps[k]) != Coord(DAY_TO_COLUMN[cs[i].days[j]], StartRow(cs[i]))
    ensures var cells := RenderPage(template, cs).cells;
      var at := Coord(DAY_TO_COLUMN[cs[i].days[j]], TimeToRow(cs[i].startTime));
      at in cells && cells[at] == Styled(cs[i])
  {
    var ps := Placements(cs);
    var k := |Placements(cs[..i])| + j;
    var at := Coord(DAY_TO_COLUMN[cs[i].days[j]], StartRow(cs[i]));
    var header := WriteHeader(template, cs[0].instructor.value);
    PlacementOf(cs, i, j);
    assert Target(ps[k]) == at;
    ApplyLastWins(header, ps, k);
    var cells := RenderPage(template, cs).cells;
    assert cells == Apply(header, ps).cells;
  }

  /** The styled cell is bold and centred, filled yellow exactly for office
      hours and green exactly otherwise. */
  lemma StyledCell(c: CourseInfo)
    ensures Styled(c).value == Label(c) && Styled(c).bold && Styled(c).centered
    ensures Styled(c).fill == Some(YELLOW) <==> c.nameAndSection == OFFICE_HOURS
    ensures Styled(c).fill == Some(GREEN) <==> c.nameAndSection != OFFICE_HOURS
  {
    assert YELLOW != GREEN;
  }

  /** Columns are B to F, so the email cell G1 is never drawn over. */
  lemma {:induction false} HeaderEmailKept(template: Sheet, cs: seq<CourseInfo>)
    requires |cs| > 0 && cs[0].instructor.Some? && AllDaysKnown(cs)
    ensures EMAIL_CELL in RenderPage(template, cs).cells
    ensures RenderPage(template, cs).cells[EMAIL_CELL].value == cs[0].instructor.value.email
  {
    var ps := Placements(cs);
    forall k | 0 <= k < |ps| ensures Target(ps[k]) != EMAIL_CELL {
      PlacementSource(cs, k);
    }
    ApplyUntouched(WriteHeader(template, cs[0].instructor.value), ps, EMAIL_CELL);
  }

  /** When no meeting starts on row 1 the header row holds the instructor's
      name in B1, extension in D1, `"Office: "` and the office in E1 and the
      email in G1. */
  lemma {:induction false} HeaderKept(template: Sheet, cs: seq<CourseInfo>)
    requires |cs| > 0 && cs[0].instructor.Some? && AllDaysKnown(cs)
    requires forall i :: 0 <= i < |cs| ==> StartRow(cs[i]) != 1
    ensures var cells := RenderPage(template, cs).cells;
      var info := cs[0].instructor.value;
      && NAME_CELL in cells && cells[NAME_CELL].value == info.name
      && EXT_CELL in cells && cells[EXT_CELL].value == info.ext
      && OFFICE_CELL in cells && cells[OFFICE_CELL].value == "Office: " + info.officeLocation
      && EMAIL_CELL in cells && cells[EMAIL_CELL].value == info.email
  {
    var ps := Placements(cs);
    var header := WriteHeader(template, cs[0].instructor.value);
    forall k | 0 <= k < |ps| ensures Target(ps[k]).row != 1 {
      PlacementSource(cs, k);
    }
    ApplyUntouched(header, ps, NAME_CELL);
    ApplyUntouched(header, ps, EXT_CELL);
    ApplyUntouched(header, ps, OFFICE_CELL);
    ApplyUntouched(header, ps, EMAIL_CELL);
  }

  /** `day_to_column` is one-to-one, onto the columns B to F. */
  lemma DayColumns(d: char, e: char)
    requires d in DAY_TO_COLUMN && e in DAY_TO_COLUMN
    ensures 'B' <= DAY_TO_COLUMN[d] <= 'F'
    ensures DAY_TO_COLUMN[d] == DAY_TO_COLUMN[e] <==> d == e
  {
  }

  /** The label rule: with no line breaks in the fields, the label reads
      as name-and-type then location when the block's last row is fewer than
      three rows below its first or the meeting is office hours, and as
      name, type and location on three lines otherwise. */
  lemma LabelLines(c: CourseInfo)
    requires '\n' !in c.nameAndSection && '\n' !in c.ty && '\n' !in c.location
    ensures Split(Label(c), '\n')
         == if TimeToRow(c.endTime) - 1 - TimeToRow(c.startTime) < 3 || c.nameAndSection == OFFICE_HOURS
            then [c.nameAndSection + " " + c.ty, c.location]
            else [c.nameAndSection, c.ty, c.location]
  {
    var sp := c.nameAndSection + " " + c.ty;
    assert '\n' !in sp by {
      assert forall k :: 0 <= k < |sp| ==> sp[k] != '\n' by {
        forall k | 0 <= k < |sp| ensures sp[k] != '\n' {
          if k < |c.nameAndSection| { assert sp[k] == c.nameAndSection[k]; }
          else if k > |c.nameAndSection| { assert sp[k] == c.ty[k - |c.nameAndSection| - 1]; }
        }
      }
    }
    if CompactLabel(c) {
      var parts := [sp, c.location];
      assert Join(parts[1..], '\n') == c.location;
      SplitJoin(parts, '\n');
    } else {
      var parts := [c.nameAndSection, c.ty, c.location];
      assert parts[1..][1..] == [c.location];
      assert Join(parts[1..], '\n') == c.ty + "\n" + c.location;
      assert Join(parts, '\n') == Label(c);
      SplitJoin(parts, '\n');
    }
  }

  /** The two meetings of the worked example below: a lecture from 8:10 to
      11:00 and office hours from 7:10 to 8:00, both on Mondays. */
  function ExampleLecture(info: InstructorInfo): CourseInfo
  {
    CourseInfo("IME-101-01", "LEC", "M", Time(8, 10), Time(11, 0), Some(info), "Room 2")
  }

  function ExampleOfficeHours(): CourseInfo
  {
    CourseInfo(OFFICE_HOURS, "", "M", Time(7, 10), Time(8, 0), None, "Room 1")
  }

  /** A meeting on a single day is one visit. */
  lemma SingleDayVisit(c: CourseInfo)
    requires |c.days| == 1 && c.days[0] in DAY_TO_COLUMN
    ensures DayPlacements(c) == [Placement(c, DAY_TO_COLUMN[c.days[0]])]
  {
    assert c.days[..0] == [];
  }

  /** Two meetings give the visits of the first, then those of the second. */
  lemma PlacementsOfTwo(a: CourseInfo, b: CourseInfo)
    requires DaysKnown(a) && DaysKnown(b)
    ensures Placements([a, b]) == DayPlacements(a) + DayPlacements(b)
  {
    assert [a, b][..1] == [a] && [a][..0] == [];
    assert Placements([a]) == DayPlacements(a) by {
      assert Placements([a]) == Placements([]) + DayPlacements(a);
    }
  }

  /** The example's meetings give one visit each, in column B. */
  lemma ExampleVisits(info: InstructorInfo)
    ensures Placements([ExampleLecture(info), ExampleOfficeHours()])
      == [Placement(ExampleLecture(info), 'B'), Placement(ExampleOfficeHours(), 'B')]
  {
    var lecture, oh := ExampleLecture(info), ExampleOfficeHours();
    assert DAY_TO_COLUMN['M'] == 'B';
    SingleDayVisit(lecture);
    SingleDayVisit(oh);
    PlacementsOfTwo(lecture, oh);
  }

  /** The example's page is the header followed by the lecture's visit and
      then the office hours' visit, both in column B. */
  lemma ExamplePage(template: Sheet, info: InstructorInfo)
    ensures var lecture, oh := ExampleLecture(info), ExampleOfficeHours();
      RenderPage(template, [lecture, oh])
        == Step(Step(WriteHeader(template, info), Placement(lecture, 'B')), Placement(oh, 'B'))
  {
    var first, second := Placement(ExampleLecture(info), 'B'), Placement(ExampleOfficeHours(), 'B');
    var ps := [first, second];
    ExampleVisits(info);
    var header := WriteHeader(template, info);
    assert Apply(header, ps[..1]) == Step(header, first) by {
      assert ps[..1] == [first] && [first][..0] == [];
    }
  }

  /** The lecture spans six rows and gets the three-line label; the office
      hours span two and get the compact one. */
  lemma ExampleLabels(info: InstructorInfo)
    ensures Label(ExampleLecture(info)) == "IME-101-01\nLEC\nRoom 2"
    ensures Label(ExampleOfficeHours()) == "Office Hours \nRoom 1"
  {
    assert StartRow(ExampleLecture(info)) == 5 && EndRow(ExampleLecture(info)) == 10;
    assert StartRow(ExampleOfficeHours()) == 3 && EndRow(ExampleOfficeHours()) == 4;
  }

  /** An office-hours block from 7:10 to 8:00 on a Monday covers B3:B4 and
      gets the compact yellow label, like every office-hours block; the
      lecture after it covers B5:B10 with the green three-line label. */
  lemma OfficeHoursExample(template: Sheet, info: InstructorInfo)
    ensures var page := RenderPage(template, [ExampleLecture(info), ExampleOfficeHours()]);
      && page.merged == template.merged + [MergedRange('B', 5, 10), MergedRange('B', 3, 4)]
      && Coord('B', 3) in page.cells
      && page.cells[Coord('B', 3)] == Cell("Office Hours \nRoom 1", true, true, Some(YELLOW))
      && Coord('B', 5) in page.cells
      && page.cells[Coord('B', 5)] == Cell("IME-101-01\nLEC\nRoom 2", true, true, Some(GREEN))
  {
    var lecture, oh := ExampleLecture(info), ExampleOfficeHours();
    ExamplePage(template, info);
    ExampleLabels(info);
    assert StartRow(lecture) == 5 && EndRow(lecture) == 10;
    assert StartRow(oh) == 3 && EndRow(oh) == 4;
  }
}
