/** The page parsers: each walks the rows of a table, keeps the rows with the cell count it
  * expects and reads the fields by position. An element or attribute that is missing raises
  * the exception Python raises there; a page that failed to download (None) makes the
  * HTML parser itself raise TypeError. Text recognition is the parameter `ocr`. */
module WebParser {
  import opened Wrappers
  import opened Utils
  import opened Page
  import opened Records

  // ---------------------------------------------------------------------------
  // Shared accessors

  /** `BeautifulSoup(html)`: a failed download is None and cannot be parsed. */
  function Soup(page: Option<Document>): (r: Result<Document>)
    ensures r.Ok? <==> page.Some?
    ensures r.Err? ==> r.error == TypeError
  {
    match page
    case None => Err(TypeError)
    case Some(d) => Ok(d)
  }

  /** The rows of `table1`; an absent table has no `find_next`. */
  function Table1(page: Option<Document>): (r: Result<seq<Row>>)
    ensures r.Ok? <==> page.Some? && page.value.table1.Some?
    ensures r.Ok? ==> r.value == page.value.table1.value
  {
    match Soup(page)
    case Err(e) => Err(e)
    case Ok(d) => if d.table1.None? then Err(AttributeError) else Ok(d.table1.value)
  }

  /** The `mainContent` div of an admission page. */
  function Main(page: Option<Document>): (r: Result<MainContent>)
    ensures r.Ok? <==> page.Some? && page.value.mainContent.Some?
    ensures r.Ok? ==> r.value == page.value.mainContent.value
  {
    match Soup(page)
    case Err(e) => Err(e)
    case Ok(d) => if d.mainContent.None? then Err(AttributeError) else Ok(d.mainContent.value)
  }

  /** The admission table of the cross and vtech pages: the first table in `mainContent`. */
  function MainTable(page: Option<Document>): (r: Result<seq<Row>>)
    ensures r.Ok? <==> page.Some? && page.value.mainContent.Some? && page.value.mainContent.value.first.Some?
  {
    match Soup(page)
    case Err(e) => Err(e)
    case Ok(d) =>
      if d.mainContent.None? || d.mainContent.value.first.None? then Err(AttributeError)
      else Ok(d.mainContent.value.first.value)
  }

  /** `s[:3]`. */
  function Take3(s: string): (r: string)
    ensures |r| <= 3 && |r| <= |s| && r == s[..|r|]
    ensures |s| >= 3 ==> |r| == 3
  {
    if |s| <= 3 then s else s[..3]
  }

  /** Both ends `str.strip()` removes. */
  function Strip(s: string): string {
    StripRight(StripLeft(s))
  }

  /** A department row's code: the cleaned first cell with parentheses stripped from both ends. */
  function DepartmentId(row: Row): (r: string)
    requires |row| >= 1
    ensures r == [] || (!IsParen(r[0]) && !IsParen(r[|r| - 1]))
    ensures exists a: nat :: StrippedAt(CleanString(row[0].text), a, r)
  {
    var t := CleanString(row[0].text);
    StripParensSlice(t);
    StripParens(t)
  }

  predicate FiveCells(row: Row) { |row| == 5 }
  predicate ThreeCells(row: Row) { |row| == 3 }

  // ---------------------------------------------------------------------------
  // AvailableYearsParser

  /** The labels of the navigation menu that name an admission method, and the method's key. */
  const AdmissionMethods: map<string, string> :=
    map["分科測驗" := "exam", "大學繁星" := "star", "學測查榜" := "cross", "統測甄選" := "vtech", "統測分發" := "techreg"]

  /** One year entry: the first three characters of the cleaned link text (109 of 109學年度). */
  function YearEntry(e: Option<string>): (r: Result<seq<string>>)
    ensures r.Ok? <==> e.Some?
    ensures r.Ok? ==> r.value == [Take3(CleanString(e.value))]
    ensures r.Err? ==> r.error == AttributeError
  {
    match e
    case None => Err(AttributeError)
    case Some(t) => Ok([Take3(CleanString(t))])
  }

  /** A menu entry whose cleaned title is a method heading. */
  predicate IsMethodEntry(n: NavItem) {
    n.title.Some? && CleanString(n.title.value) in AdmissionMethods
  }

  /** One menu entry: a method entry yields its key, title and years; any other entry yields
    * nothing, but its link is read all the same. */
  function NavEntry(n: NavItem): (r: Result<seq<AvailableYears>>)
    ensures n.title.None? ==> r == Err(AttributeError)
    ensures r.Ok? ==> |r.value| == (if IsMethodEntry(n) then 1 else 0)
    ensures r.Ok? && IsMethodEntry(n) ==>
              var heading := CleanString(n.title.value);
              && r.value[0].methodKey == AdmissionMethods[heading]
              && r.value[0].methodName == heading
              && Collect(n.following, YearEntry) == Ok(r.value[0].availableYears)
  {
    match n.title
    case None => Err(AttributeError)
    case Some(t) =>
      var heading := CleanString(t);
      if heading !in AdmissionMethods then Ok([])
      else match Collect(n.following, YearEntry)
        case Err(e) => Err(e)
        case Ok(years) => Ok([AvailableYears(AdmissionMethods[heading], heading, years)])
  }

  function AvailableYearsOf(page: Option<Document>): Result<seq<AvailableYears>> {
    match Soup(page)
    case Err(e) => Err(e)
    case Ok(d) => Collect(d.navigation, NavEntry)
  }

  /** AvailableYearsParser.parse: for each menu entry, and for a method entry for each year
    * entry after it. */
  method ParseAvailableYears(page: Option<Document>) returns (r: Result<seq<AvailableYears>>)
    ensures r == AvailableYearsOf(page)
  {
    var soup := Soup(page);
    if soup.Err? {
      return Err(soup.error);
    }
    var navs := soup.value.navigation;
    var acc: seq<AvailableYears> := [];
    for i := 0 to |navs|
      invariant Collect(navs[..i], NavEntry) == Ok(acc)
    {
      assert navs[..i + 1][..i] == navs[..i];
      var n := navs[i];
      if n.title.None? {
        CollectErrSticks(navs[..i + 1], navs[i + 1..], NavEntry);
        assert navs[..i + 1] + navs[i + 1..] == navs;
        return Err(AttributeError);
      }
      assert navs[..i + 1][i] == n;
      var heading := CleanString(n.title.value);
      if heading in AdmissionMethods {
        var years := CollectLoop(n.following, YearEntry);
        if years.Err? {
          CollectErrSticks(navs[..i + 1], navs[i + 1..], NavEntry);
          assert navs[..i + 1] + navs[i + 1..] == navs;
          return Err(years.error);
        }
        assert NavEntry(n) == Ok([AvailableYears(AdmissionMethods[heading], heading, years.value)]);
        acc := acc + [AvailableYears(AdmissionMethods[heading], heading, years.value)];
      } else {
        assert NavEntry(n) == Ok([]);
        assert acc + [] == acc;
      }
    }
    assert navs[..|navs|] == navs;
    r := Ok(acc);
  }

  /** The menu yields one entry per method entry, in order, and an entry's years are the
    * three-character prefixes of its year links, in order. */
  lemma AvailableYearsEntries(d: Document)
    ensures var r := AvailableYearsOf(Some(d)); var kept := Filter(d.navigation, IsMethodEntry);
            r.Ok? ==>
              && |r.value| == |kept|
              && forall k :: 0 <= k < |kept| ==>
                   && IsMethodEntry(kept[k])
                   && r.value[k].methodKey == AdmissionMethods[CleanString(kept[k].title.value)]
                   && r.value[k].methodName == CleanString(kept[k].title.value)
                   && |r.value[k].availableYears| == |kept[k].following|
                   && forall j :: 0 <= j < |kept[k].following| ==>
                        kept[k].following[j].Some? &&
                        r.value[k].availableYears[j] == Take3(CleanString(kept[k].following[j].value))
  {
    CollectSingles(d.navigation, NavEntry, IsMethodEntry);
    var r := AvailableYearsOf(Some(d));
    var kept := Filter(d.navigation, IsMethodEntry);
    if r.Ok? {
      forall k | 0 <= k < |kept|
        ensures && IsMethodEntry(kept[k])
                && r.value[k].methodKey == AdmissionMethods[CleanString(kept[k].title.value)]
                && r.value[k].methodName == CleanString(kept[k].title.value)
                && |r.value[k].availableYears| == |kept[k].following|
                && forall j :: 0 <= j < |kept[k].following| ==>
                     kept[k].following[j].Some? &&
                     r.value[k].availableYears[j] == Take3(CleanString(kept[k].following[j].value))
      {
        assert kept[k] in kept;
        var n := kept[k];
        assert NavEntry(n) == Ok([r.value[k]]);
        YearsInOrder(n.following);
      }
    }
  }

  predicate AnyEntry(e: Option<string>) { true }

  /** Every year entry yields one year, read from its link. */
  lemma YearsInOrder(following: seq<Option<string>>)
    ensures var r := Collect(following, YearEntry);
            r.Ok? ==> |r.value| == |following| &&
                      forall j :: 0 <= j < |following| ==>
                        following[j].Some? && r.value[j] == Take3(CleanString(following[j].value))
  {
    CollectFirstError(following, YearEntry);
    CollectSingles(following, YearEntry, AnyEntry);
    FilterAll(following, AnyEntry);
  }

  lemma {:induction false} FilterAll<R>(items: seq<R>, keep: R -> bool)
    requires forall x :: keep(x)
    ensures Filter(items, keep) == items
  {
    if items != [] {
      FilterAll(items[..|items| - 1], keep);
      assert items[..|items| - 1] + [items[|items| - 1]] == items;
    }
  }

  // ---------------------------------------------------------------------------
  // UniversityListParser

  /** The release status of a university: the full-release text when there is one, otherwise
    * the partial-release text. */
  function ReleaseStatus(divs: seq<Div>): string
    requires |divs| >= 2
  {
    var full := CleanString(divs[0].text);
    if full != [] then full else CleanString(divs[1].text)
  }

  /** The release date: the text of a third div with id `releasedate`, and empty otherwise. */
  function ReleaseDate(divs: seq<Div>): string {
    if |divs| >= 3 && divs[2].id == Some("releasedate") then CleanString(divs[2].text) else ""
  }

  /** One university from a status cell and a school cell whose text `split` cuts into code
    * and name. */
  function SchoolWith(status: Cell, school: Cell, split: string -> seq<string>): Result<School> {
    if |status.divs| < 2 then Err(IndexError)
    else if school.link.None? then Err(AttributeError)
    else
      var parts := split(school.text);
      if |parts| != 2 then Err(ValueError)
      else Ok(School(ReleaseStatus(status.divs), ReleaseDate(status.divs), parts[0], parts[1], school.link.value.href))
  }

  /** One university, as UniversityListParser.parse reads it: with split_school_id_name as written. */
  function SchoolOf(status: Cell, school: Cell): Result<School> {
    SchoolWith(status, school, SplitSchoolIdNameAsWritten)
  }

  /** One university read with the suffixes of the id-name pattern grouped. */
  function SchoolOfGrouped(status: Cell, school: Cell): Result<School> {
    SchoolWith(status, school, SplitSchoolIdName)
  }

  /** A university is read from a status cell with at least two divs and a linked school cell
    * whose text splits into a code and a name; otherwise the exception names the missing part. */
  lemma SchoolOfFields(status: Cell, school: Cell)
    ensures var r := SchoolOf(status, school);
            && (r.Ok? <==> |status.divs| >= 2 && school.link.Some? && |SplitSchoolIdNameAsWritten(school.text)| == 2)
            && (r.Err? ==> r.error == (if |status.divs| < 2 then IndexError
                                       else if school.link.None? then AttributeError else ValueError))
            && (r.Ok? ==>
                  && r.value.releaseStatus == ReleaseStatus(status.divs)
                  && r.value.releaseDate == ReleaseDate(status.divs)
                  && [r.value.schoolId, r.value.schoolName] == SplitSchoolIdNameAsWritten(school.text)
                  && r.value.schoolHref == school.link.value.href)
  {
    if |status.divs| >= 2 && school.link.Some? {
      var parts := SplitSchoolIdNameAsWritten(school.text);
      if |parts| == 2 {
        var u := School(ReleaseStatus(status.divs), ReleaseDate(status.divs), parts[0], parts[1], school.link.value.href);
        assert SchoolOf(status, school) == Ok(u);
        assert [u.schoolId, u.schoolName] == parts;
      } else {
        assert SchoolOf(status, school) == Err(ValueError);
      }
    }
  }

  /** A linked cell "002藝術學院" beside a status cell: the parser as written raises ValueError,
    * while with the suffixes grouped it reads code "002" and name "藝術學院". */
  lemma CollegeCellRaises(status: Cell, school: Cell)
    requires |status.divs| >= 2 && school.link.Some? && school.text == CollegeSample
    ensures SchoolOf(status, school) == Err(ValueError)
    ensures SchoolOfGrouped(status, school).Ok?
    ensures SchoolOfGrouped(status, school).value.schoolId == "002"
    ensures SchoolOfGrouped(status, school).value.schoolName == "藝術學院"
  {
    IdNameCollegeCounterexample();
    IdNameCollegeGrouped();
  }

  /** What the first k pairs of cells of a row yield: cells 2j and 2j + 1 make the j-th
    * record. The first pair that fails ends the walk. */
  function CellPairs<X>(row: Row, k: nat, f: (Cell, Cell) -> Result<X>): (r: Result<seq<X>>)
    requires 2 * k <= |row|
    ensures r.Ok? ==> |r.value| == k
  {
    if k == 0 then Ok([])
    else match CellPairs(row, k - 1, f)
      case Err(e) => Err(e)
      case Ok(xs) =>
        match f(row[2 * k - 2], row[2 * k - 1])
        case Err(e) => Err(e)
        case Ok(x) => Ok(xs + [x])
  }

  /** A row with an even number of cells holds one university per pair of cells; any other
    * row holds none. */
  function SchoolsOfRow(row: Row): (r: Result<seq<School>>)
    ensures |row| % 2 != 0 ==> r == Ok([])
    ensures r.Ok? ==> |r.value| == (if |row| % 2 == 0 then |row| / 2 else 0)
  {
    if |row| % 2 != 0 then Ok([]) else CellPairs(row, |row| / 2, SchoolOf)
  }

  function UniversitiesOf(page: Option<Document>): Result<seq<School>> {
    match Table1(page)
    case Err(e) => Err(e)
    case Ok(rows) => Collect(rows, SchoolsOfRow)
  }

  lemma CellPairsStep<X>(row: Row, k: nat, f: (Cell, Cell) -> Result<X>)
    requires 2 * k + 2 <= |row|
    ensures CellPairs(row, k + 1, f) ==
            match CellPairs(row, k, f)
            case Err(e) => Err(e)
            case Ok(xs) =>
              match f(row[2 * k], row[2 * k + 1])
              case Err(e) => Err(e)
              case Ok(x) => Ok(xs + [x])
  {
    assert row[2 * (k + 1) - 2] == row[2 * k] && row[2 * (k + 1) - 1] == row[2 * k + 1];
  }

  /** The inner loop of UniversityListParser.parse: the first n pairs of cells of a row, each
    * read by f. */
  method ParsePairs<X>(row: Row, n: nat, f: (Cell, Cell) -> Result<X>) returns (r: Result<seq<X>>)
    requires 2 * n <= |row|
    ensures r == CellPairs(row, n, f)
  {
    var inRow: seq<X> := [];
    for k := 0 to n
      invariant CellPairs(row, k, f) == Ok(inRow)
    {
      CellPairsStep(row, k, f);
      var s := f(row[2 * k], row[2 * k + 1]);
      if s.Err? {
        CellPairsErrSticks(row, k + 1, n, f);
        return Err(s.error);
      }
      inRow := inRow + [s.value];
    }
    r := Ok(inRow);
  }

  /** One row: an even row is read pair by pair, an odd one yields nothing. */
  method ParseSchoolsOfRow(row: Row) returns (r: Result<seq<School>>)
    ensures r == SchoolsOfRow(row)
  {
    if |row| % 2 != 0 {
      return Ok([]);
    }
    r := ParsePairs(row, |row| / 2, SchoolOf);
  }

  /** UniversityListParser.parse: over the rows, and over the pairs of cells of an even row. */
  method ParseUniversities(page: Option<Document>) returns (r: Result<seq<School>>)
    ensures r == UniversitiesOf(page)
  {
    var table := Table1(page);
    if table.Err? {
      return Err(table.error);
    }
    var rows := table.value;
    var acc: seq<School> := [];
    for i := 0 to |rows|
      invariant Collect(rows[..i], SchoolsOfRow) == Ok(acc)
    {
      assert rows[..i + 1][..i] == rows[..i];
      var inRow := ParseSchoolsOfRow(rows[i]);
      if inRow.Err? {
        CollectErrSticks(rows[..i + 1], rows[i + 1..], SchoolsOfRow);
        assert rows[..i + 1] + rows[i + 1..] == rows;
        return Err(inRow.error);
      }
      acc := acc + inRow.value;
    }
    assert rows[..|rows|] == rows;
    r := Ok(acc);
  }

  /** The j-th record of a row is the one its j-th pair of cells yields. */
  lemma {:induction false} CellPairsAt<X>(row: Row, k: nat, j: nat, f: (Cell, Cell) -> Result<X>)
    requires 2 * k <= |row| && j < k
    ensures var r := CellPairs(row, k, f); r.Ok? ==> f(row[2 * j], row[2 * j + 1]) == Ok(r.value[j])
  {
    var r := CellPairs(row, k, f);
    if r.Ok? {
      CellPairsStep(row, k - 1, f);
      var prev := CellPairs(row, k - 1, f);
      var x := f(row[2 * (k - 1)], row[2 * (k - 1) + 1]);
      assert prev.Ok? && x.Ok? && r.value == prev.value + [x.value];
      if j < k - 1 {
        CellPairsAt(row, k - 1, j, f);
        assert r.value[j] == prev.value[j];
      } else {
        assert j == k - 1;
        assert r.value[j] == x.value;
      }
    }
  }

  lemma {:induction false} CellPairsErrSticks<X>(row: Row, k: nat, n: nat, f: (Cell, Cell) -> Result<X>)
    requires 2 * n <= |row| && k <= n
    requires CellPairs(row, k, f).Err?
    ensures CellPairs(row, n, f) == CellPairs(row, k, f)
    decreases n - k
  {
    if k < n {
      CellPairsErrSticks(row, k, n - 1, f);
      CellPairsStep(row, n - 1, f);
    }
  }

  /** The number of universities the rows hold: half the cells of every even row. */
  function UniversityCount(rows: seq<Row>): nat {
    if rows == [] then 0
    else
      var row := rows[|rows| - 1];
      UniversityCount(rows[..|rows| - 1]) + (if |row| % 2 == 0 then |row| / 2 else 0)
  }

  /** Odd rows add nothing and every even row adds half its cells. */
  lemma {:induction false} UniversitiesPerRow(rows: seq<Row>)
    ensures var r := Collect(rows, SchoolsOfRow); r.Ok? ==> |r.value| == UniversityCount(rows)
  {
    if rows != [] {
      UniversitiesPerRow(rows[..|rows| - 1]);
    }
  }

  // ---------------------------------------------------------------------------
  // The five department parsers

  /** ExamDepartmentListParser, one row: code, name, link, score and the weights image's title. */
  function ExamDepartmentRow(row: Row): (r: Result<seq<ExamDepartment>>)
    ensures r.Ok? ==> |r.value| == (if FiveCells(row) then 1 else 0)
    ensures |row| == 5 ==> (r.Err? <==> row[2].link.None? || row[4].image.None? || row[4].image.value.title.None?)
    ensures r.Err? ==> r.error == AttributeError
    ensures r.Ok? && |row| == 5 ==>
              && r.value[0].departmentId == DepartmentId(row)
              && r.value[0].departmentName == CleanString(row[1].text)
              && r.value[0].admissionScore == CleanString(Strip(row[3].text))
              && r.value[0].admissionHref == CleanString(row[2].link.value.href)
              && r.value[0].admissionWeights == CleanString(row[4].image.value.title.value)
  {
    if |row| != 5 then Ok([])
    else if row[2].link.None? || row[4].image.None? || row[4].image.value.title.None? then Err(AttributeError)
    else Ok([ExamDepartment(DepartmentId(row), CleanString(row[1].text), CleanString(row[2].link.value.href),
                            CleanString(Strip(row[3].text)), CleanString(row[4].image.value.title.value))])
  }

  function StarDepartmentRow(row: Row): (r: Result<seq<StarDepartment>>)
    ensures r.Ok? ==> |r.value| == (if FiveCells(row) then 1 else 0)
    ensures |row| == 5 ==> (r.Err? <==> row[2].link.None?)
    ensures r.Err? ==> r.error == AttributeError
    ensures r.Ok? && |row| == 5 ==>
              r.value[0].departmentId == DepartmentId(row) && r.value[0].departmentName == CleanString(row[1].text)
  {
    if |row| != 5 then Ok([])
    else if row[2].link.None? then Err(AttributeError)
    else Ok([StarDepartment(DepartmentId(row), CleanString(row[1].text), CleanString(row[2].link.value.href))])
  }

  /** CrossDepartmentListParser, one row: the fifth cell is the release status. */
  function CrossDepartmentRow(row: Row): (r: Result<seq<CrossDepartment>>)
    ensures r.Ok? ==> |r.value| == (if FiveCells(row) then 1 else 0)
    ensures |row| == 5 ==> (r.Err? <==> row[2].link.None?)
    ensures r.Err? ==> r.error == AttributeError
    ensures r.Ok? && |row| == 5 ==>
              && r.value[0].departmentId == DepartmentId(row) && r.value[0].departmentName == CleanString(row[1].text)
              && r.value[0].releaseStatus == CleanString(row[4].text)
  {
    if |row| != 5 then Ok([])
    else if row[2].link.None? then Err(AttributeError)
    else Ok([CrossDepartment(DepartmentId(row), CleanString(row[1].text), CleanString(row[2].link.value.href),
                             CleanString(row[4].text))])
  }

  /** VtechDepartmentListParser, one row: the fourth cell is the group. */
  function VtechDepartmentRow(row: Row): (r: Result<seq<VtechDepartment>>)
    ensures r.Ok? ==> |r.value| == (if FiveCells(row) then 1 else 0)
    ensures |row| == 5 ==> (r.Err? <==> row[2].link.None?)
    ensures r.Err? ==> r.error == AttributeError
    ensures r.Ok? && |row| == 5 ==>
              && r.value[0].departmentId == DepartmentId(row) && r.value[0].departmentName == CleanString(row[1].text)
              && r.value[0].group == CleanString(row[3].text)
  {
    if |row| != 5 then Ok([])
    else if row[2].link.None? then Err(AttributeError)
    else Ok([VtechDepartment(DepartmentId(row), CleanString(row[1].text), CleanString(row[2].link.value.href),
                             CleanString(row[3].text))])
  }

  /** TechregDepartmentParser, one row: group, then average score. */
  function TechregDepartmentRow(row: Row): (r: Result<seq<TechregDepartment>>)
    ensures r.Ok? ==> |r.value| == (if FiveCells(row) then 1 else 0)
    ensures |row| == 5 ==> (r.Err? <==> row[2].link.None?)
    ensures r.Err? ==> r.error == AttributeError
    ensures r.Ok? && |row| == 5 ==>
              && r.value[0].departmentId == DepartmentId(row) && r.value[0].departmentName == CleanString(row[1].text)
              && r.value[0].group == CleanString(row[3].text) && r.value[0].averageScore == CleanString(row[4].text)
  {
    if |row| != 5 then Ok([])
    else if row[2].link.None? then Err(AttributeError)
    else Ok([TechregDepartment(DepartmentId(row), CleanString(row[1].text), CleanString(row[2].link.value.href),
                               CleanString(row[4].text), CleanString(row[3].text))])
  }

  function ExamDepartmentsOf(page: Option<Document>): Result<seq<ExamDepartment>> {
    match Table1(page) case Err(e) => Err(e) case Ok(rows) => Collect(rows, ExamDepartmentRow)
  }

  function StarDepartmentsOf(page: Option<Document>): Result<seq<StarDepartment>> {
    match Table1(page) case Err(e) => Err(e) case Ok(rows) => Collect(rows, StarDepartmentRow)
  }

  function CrossDepartmentsOf(page: Option<Document>): Result<seq<CrossDepartment>> {
    match Table1(page) case Err(e) => Err(e) case Ok(rows) => Collect(rows, CrossDepartmentRow)
  }

  function VtechDepartmentsOf(page: Option<Document>): Result<seq<VtechDepartment>> {
    match Table1(page) case Err(e) => Err(e) case Ok(rows) => Collect(rows, VtechDepartmentRow)
  }

  function TechregDepartmentsOf(page: Option<Document>): Result<seq<TechregDepartment>> {
    match Table1(page) case Err(e) => Err(e) case Ok(rows) => Collect(rows, TechregDepartmentRow)
  }

  method ParseExamDepartments(page: Option<Document>) returns (r: Result<seq<ExamDepartment>>)
    ensures r == ExamDepartmentsOf(page)
  {
    var table := Table1(page);
    if table.Err? { return Err(table.error); }
    r := CollectLoop(table.value, ExamDepartmentRow);
  }

  method ParseStarDepartments(page: Option<Document>) returns (r: Result<seq<StarDepartment>>)
    ensures r == StarDepartmentsOf(page)
  {
    var table := Table1(page);
    if table.Err? { return Err(table.error); }
    r := CollectLoop(table.value, StarDepartmentRow);
  }

  method ParseCrossDepartments(page: Option<Document>) returns (r: Result<seq<CrossDepartment>>)
    ensures r == CrossDepartmentsOf(page)
  {
    var table := Table1(page);
    if table.Err? { return Err(table.error); }
    r := CollectLoop(table.value, CrossDepartmentRow);
  }

  method ParseVtechDepartments(page: Option<Document>) returns (r: Result<seq<VtechDepartment>>)
    ensures r == VtechDepartmentsOf(page)
  {
    var table := Table1(page);
    if table.Err? { return Err(table.error); }
    r := CollectLoop(table.value, VtechDepartmentRow);
  }

  method ParseTechregDepartments(page: Option<Document>) returns (r: Result<seq<TechregDepartment>>)
    ensures r == TechregDepartmentsOf(page)
  {
    var table := Table1(page);
    if table.Err? { return Err(table.error); }
    r := CollectLoop(table.value, TechregDepartmentRow);
  }

  /** One department per five-cell row, in order, coded by that row's first cell; other rows
    * are skipped. */
  lemma ExamDepartmentsFromRows(rows: seq<Row>)
    ensures var r := Collect(rows, ExamDepartmentRow); var kept := Filter(rows, FiveCells);
            r.Ok? ==> |r.value| == |kept| &&
                      forall k :: 0 <= k < |kept| ==> |kept[k]| == 5 && r.value[k].departmentId == DepartmentId(kept[k])
  {
    CollectSingles(rows, ExamDepartmentRow, FiveCells);
    var kept := Filter(rows, FiveCells);
    forall k | 0 <= k < |kept| ensures |kept[k]| == 5 { assert kept[k] in kept; }
  }

  lemma StarDepartmentsFromRows(rows: seq<Row>)
    ensures var r := Collect(rows, StarDepartmentRow); var kept := Filter(rows, FiveCells);
            r.Ok? ==> |r.value| == |kept| &&
                      forall k :: 0 <= k < |kept| ==> |kept[k]| == 5 && r.value[k].departmentId == DepartmentId(kept[k])
  {
    CollectSingles(rows, StarDepartmentRow, FiveCells);
    var kept := Filter(rows, FiveCells);
    forall k | 0 <= k < |kept| ensures |kept[k]| == 5 { assert kept[k] in kept; }
  }

  lemma CrossDepartmentsFromRows(rows: seq<Row>)
    ensures var r := Collect(rows, CrossDepartmentRow); var kept := Filter(rows, FiveCells);
            r.Ok? ==> |r.value| == |kept| &&
                      forall k :: 0 <= k < |kept| ==> |kept[k]| == 5 && r.value[k].departmentId == DepartmentId(kept[k])
  {
    CollectSingles(rows, CrossDepartmentRow, FiveCells);
    var kept := Filter(rows, FiveCells);
    forall k | 0 <= k < |kept| ensures |kept[k]| == 5 { assert kept[k] in kept; }
  }

  lemma VtechDepartmentsFromRows(rows: seq<Row>)
    ensures var r := Collect(rows, VtechDepartmentRow); var kept := Filter(rows, FiveCells);
            r.Ok? ==> |r.value| == |kept| &&
                      forall k :: 0 <= k < |kept| ==> |kept[k]| == 5 && r.value[k].departmentId == DepartmentId(kept[k])
  {
    CollectSingles(rows, VtechDepartmentRow, FiveCells);
    var kept := Filter(rows, FiveCells);
    forall k | 0 <= k < |kept| ensures |kept[k]| == 5 { assert kept[k] in kept; }
  }

  lemma TechregDepartmentsFromRows(rows: seq<Row>)
    ensures var r := Collect(rows, TechregDepartmentRow); var kept := Filter(rows, FiveCells);
            r.Ok? ==> |r.value| == |kept| &&
                      forall k :: 0 <= k < |kept| ==> |kept[k]| == 5 && r.value[k].departmentId == DepartmentId(kept[k])
  {
    CollectSingles(rows, TechregDepartmentRow, FiveCells);
    var kept := Filter(rows, FiveCells);
    forall k | 0 <= k < |kept| ensures |kept[k]| == 5 { assert kept[k] in kept; }
  }
}
