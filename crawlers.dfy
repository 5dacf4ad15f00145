/** The crawlers: for one year, fetch the university list, then each university's department
  * list, then each department's admission page, and save what the admission parser returns.
  * The five crawlers differ only in their URLs, parsers and save, so one crawl pass is written
  * once over a `Pass` that carries those. An exception from a parser ends the crawl; what was
  * saved before it stays saved (every save commits its own session). */
module Crawlers {
  import opened Wrappers
  import opened Utils
  import opened Page
  import opened Records
  import opened Persist
  import opened Saves
  import opened Store
  import opened WebParser
  import opened AdmissionParsers

  // ---------------------------------------------------------------------------
  // Parser registry

  /** The parser classes a crawler registers. */
  datatype ParserKind =
    | UniversityListParser
    | ExamDepartmentListParser | ExamAdmissionListParser
    | StarDepartmentListParser | StarAdmissionListParser
    | CrossDepartmentListParser | CrossAdmissionListParser
    | VtechDepartmentListParser | VtechAdmissionParser
    | TechregDepartmentParser | TechregAdmissionParser

  /** `get_parser`: KeyError for an unregistered name, ValueError for a parser of another class. */
  function GetParser(parsers: map<string, ParserKind>, name: string, expected: ParserKind): (r: Result<ParserKind>)
    ensures r.Ok? <==> name in parsers && parsers[name] == expected
    ensures r.Ok? ==> r.value == expected
    ensures r.Err? ==> r.error == (if name in parsers then ValueError else KeyError)
  {
    if name !in parsers then Err(KeyError)
    else if parsers[name] != expected then Err(ValueError)
    else Ok(parsers[name])
  }

  /** What `init_parsers` registers: the university list parser and the crawler's own two. */
  function ParsersOf(department: ParserKind, admission: ParserKind): map<string, ParserKind> {
    map["university" := UniversityListParser, "department" := department, "admission" := admission]
  }

  /** Each crawler finds the three parsers it asks for, so `get_parser` never raises in a crawl;
    * any other name raises KeyError. */
  lemma RegisteredParsersResolve(department: ParserKind, admission: ParserKind, other: string)
    requires other != "university" && other != "department" && other != "admission"
    ensures var ps := ParsersOf(department, admission);
            && GetParser(ps, "university", UniversityListParser) == Ok(UniversityListParser)
            && GetParser(ps, "department", department) == Ok(department)
            && GetParser(ps, "admission", admission) == Ok(admission)
            && (forall k :: GetParser(ps, other, k) == Err(KeyError))
  {
    var ps := ParsersOf(department, admission);
    assert "department" != "university" && "admission" != "university" && "admission" != "department";
    assert ps["university"] == UniversityListParser && ps["department"] == department && ps["admission"] == admission;
  }

  // ---------------------------------------------------------------------------
  // One crawl pass

  /** What distinguishes the crawlers: the university list URL (with the year filled in), the
    * department list URL of a school code, the admission URL of a department code, the two
    * parsers, the test `if admission_result:` applies, and the request the save is given. */
  datatype Pass<!D, !A> = Pass(
    universityUrl: string,
    departmentUrl: string -> string,
    admissionUrl: string -> string,
    departments: Option<Document> -> Result<seq<D>>,
    departmentId: D -> string,
    admission: Option<Document> -> Result<A>,
    worthSaving: A -> bool,
    request: (School, D, A) -> SaveRequest)

  /** The tables after a crawl, and the exception that ended it, if any. */
  datatype Crawled = Crawled(tables: Tables, error: Option<PyError>)

  /** A loop over xs whose body may raise: the first exception ends it. */
  function Steps<X>(t: Tables, xs: seq<X>, step: (Tables, X) -> Crawled): Crawled {
    if xs == [] then Crawled(t, None)
    else
      var c := Steps(t, xs[..|xs| - 1], step);
      if c.error.Some? then c else step(c.tables, xs[|xs| - 1])
  }

  lemma {:induction false} StepsErrSticks<X>(t: Tables, a: seq<X>, b: seq<X>, step: (Tables, X) -> Crawled)
    requires Steps(t, a, step).error.Some?
    ensures Steps(t, a + b, step) == Steps(t, a, step)
    decreases |b|
  {
    if b == [] {
      assert a + b == a;
    } else {
      assert (a + b)[..|a + b| - 1] == a + b[..|b| - 1];
      StepsErrSticks(t, a, b[..|b| - 1], step);
    }
  }

  /** One more item: a loop that has not raised runs the step on the next item. */
  lemma StepsNext<X>(t: Tables, xs: seq<X>, i: nat, step: (Tables, X) -> Crawled)
    requires i < |xs| && Steps(t, xs[..i], step).error.None?
    ensures Steps(t, xs[..i + 1], step) == step(Steps(t, xs[..i], step).tables, xs[i])
  {
    assert xs[..i + 1][..i] == xs[..i];
  }

  /** A step that raises ends the whole loop with its outcome. */
  lemma StepsStopAt<X>(t: Tables, xs: seq<X>, i: nat, step: (Tables, X) -> Crawled)
    requires i < |xs| && Steps(t, xs[..i], step).error.None?
    requires step(Steps(t, xs[..i], step).tables, xs[i]).error.Some?
    ensures Steps(t, xs, step) == step(Steps(t, xs[..i], step).tables, xs[i])
  {
    StepsNext(t, xs, i, step);
    StepsErrSticks(t, xs[..i + 1], xs[i + 1..], step);
    assert xs[..i + 1] + xs[i + 1..] == xs;
  }

  /** The innermost body: fetch and parse the admission page, save when the result is truthy. */
  function AdmissionStep<D, A>(p: Pass<D, A>, fetch: string -> Option<Document>, t: Tables, u: School, d: D): Crawled {
    match p.admission(fetch(p.admissionUrl(p.departmentId(d))))
    case Err(e) => Crawled(t, Some(e))
    case Ok(a) => Crawled(if p.worthSaving(a) then SaveSpec(t, p.request(u, d, a)) else t, None)
  }

  function AdmissionSteps<D, A>(p: Pass<D, A>, fetch: string -> Option<Document>, u: School): (Tables, D) -> Crawled {
    (t, d) => AdmissionStep(p, fetch, t, u, d)
  }

  /** The body of the university loop: parse the department list, then visit each department. */
  function UniversityStep<D, A>(p: Pass<D, A>, fetch: string -> Option<Document>, t: Tables, u: School): Crawled {
    match p.departments(fetch(p.departmentUrl(u.schoolId)))
    case Err(e) => Crawled(t, Some(e))
    case Ok(ds) => Steps(t, ds, AdmissionSteps(p, fetch, u))
  }

  function UniversitySteps<D, A>(p: Pass<D, A>, fetch: string -> Option<Document>): (Tables, School) -> Crawled {
    (t, u) => UniversityStep(p, fetch, t, u)
  }

  /** A crawl pass: parse the university list, then visit each university. */
  function PassSpec<D, A>(p: Pass<D, A>, fetch: string -> Option<Document>, t: Tables): Crawled {
    match UniversitiesOf(fetch(p.universityUrl))
    case Err(e) => Crawled(t, Some(e))
    case Ok(us) => Steps(t, us, UniversitySteps(p, fetch))
  }

  /** The department loop of one university. */
  method CrawlUniversity<D, A>(db: Database, p: Pass<D, A>, fetch: string -> Option<Document>, u: School)
    returns (error: Option<PyError>)
    modifies db
    ensures Crawled(db.Contents(), error) == UniversityStep(p, fetch, old(db.Contents()), u)
  {
    var parsed := p.departments(fetch(p.departmentUrl(u.schoolId)));
    if parsed.Err? {
      return Some(parsed.error);
    }
    var ds := parsed.value;
    ghost var t0 := db.Contents();
    for j := 0 to |ds|
      invariant Steps(t0, ds[..j], AdmissionSteps(p, fetch, u)) == Crawled(db.Contents(), None)
    {
      StepsNext(t0, ds, j, AdmissionSteps(p, fetch, u));
      var d := ds[j];
      var a := p.admission(fetch(p.admissionUrl(p.departmentId(d))));
      if a.Err? {
        StepsStopAt(t0, ds, j, AdmissionSteps(p, fetch, u));
        return Some(a.error);
      }
      if p.worthSaving(a.value) {
        db.Save(p.request(u, d, a.value));
      }
    }
    assert ds[..|ds|] == ds;
    error := None;
  }

  /** `crawl`: the university loop. */
  method CrawlPass<D, A>(db: Database, p: Pass<D, A>, fetch: string -> Option<Document>) returns (error: Option<PyError>)
    modifies db
    ensures Crawled(db.Contents(), error) == PassSpec(p, fetch, old(db.Contents()))
  {
    var parsed := ParseUniversities(fetch(p.universityUrl));
    if parsed.Err? {
      return Some(parsed.error);
    }
    var us := parsed.value;
    ghost var t0 := db.Contents();
    for i := 0 to |us|
      invariant Steps(t0, us[..i], UniversitySteps(p, fetch)) == Crawled(db.Contents(), None)
    {
      StepsNext(t0, us, i, UniversitySteps(p, fetch));
      error := CrawlUniversity(db, p, fetch, us[i]);
      if error.Some? {
        StepsStopAt(t0, us, i, UniversitySteps(p, fetch));
        return;
      }
    }
    assert us[..|us|] == us;
    error := None;
  }

  // ---------------------------------------------------------------------------
  // What every pass keeps

  /** Rows are only ever added: the type and school department tables keep their rows, and no
    * table gets shorter. */
  predicate Grows(t: Tables, r: Tables) {
    && |t.types| <= |r.types| && r.types[..|t.types|] == t.types
    && |t.schools| <= |r.schools| && r.schools[..|t.schools|] == t.schools
    && |t.lists| <= |r.lists| && |t.persons| <= |r.persons|
  }

  lemma GrowsTransitive(a: Tables, b: Tables, c: Tables)
    requires Grows(a, b) && Grows(b, c)
    ensures Grows(a, c)
  {
    assert c.types[..|b.types|][..|a.types|] == c.types[..|a.types|];
    assert c.schools[..|b.schools|][..|a.schools|] == c.schools[..|a.schools|];
  }

  /** A loop whose every step keeps the tables valid and only adds rows does so too. */
  lemma {:induction false} StepsKeep<X>(t: Tables, xs: seq<X>, step: (Tables, X) -> Crawled)
    requires Valid(t)
    requires forall s: Tables, x: X :: Valid(s) ==> Valid(step(s, x).tables) && Grows(s, step(s, x).tables)
    ensures Valid(Steps(t, xs, step).tables) && Grows(t, Steps(t, xs, step).tables)
  {
    if xs != [] {
      StepsKeep(t, xs[..|xs| - 1], step);
      var c := Steps(t, xs[..|xs| - 1], step);
      if c.error.None? {
        GrowsTransitive(t, c.tables, step(c.tables, xs[|xs| - 1]).tables);
      }
    }
  }

  lemma AdmissionStepKeeps<D, A>(p: Pass<D, A>, fetch: string -> Option<Document>, u: School)
    ensures forall s: Tables, d: D :: Valid(s) ==>
              Valid(AdmissionSteps(p, fetch, u)(s, d).tables) && Grows(s, AdmissionSteps(p, fetch, u)(s, d).tables)
  {
    forall s: Tables, d: D | Valid(s)
      ensures Valid(AdmissionStep(p, fetch, s, u, d).tables) && Grows(s, AdmissionStep(p, fetch, s, u, d).tables)
    {
      var a := p.admission(fetch(p.admissionUrl(p.departmentId(d))));
      if a.Ok? && p.worthSaving(a.value) {
        SaveValid(s, p.request(u, d, a.value));
      }
    }
  }

  /** A crawl pass, finished or ended by an exception, leaves valid tables that only grew. */
  lemma PassKeepsValid<D, A>(p: Pass<D, A>, fetch: string -> Option<Document>, t: Tables)
    requires Valid(t)
    ensures Valid(PassSpec(p, fetch, t).tables) && Grows(t, PassSpec(p, fetch, t).tables)
  {
    var us := UniversitiesOf(fetch(p.universityUrl));
    if us.Ok? {
      forall s: Tables, u: School | Valid(s)
        ensures Valid(UniversityStep(p, fetch, s, u).tables) && Grows(s, UniversityStep(p, fetch, s, u).tables)
      {
        var ds := p.departments(fetch(p.departmentUrl(u.schoolId)));
        if ds.Ok? {
          AdmissionStepKeeps(p, fetch, u);
          StepsKeep(s, ds.value, AdmissionSteps(p, fetch, u));
        }
      }
      StepsKeep(t, us.value, UniversitySteps(p, fetch));
    }
  }

  // ---------------------------------------------------------------------------
  // The five crawlers

  function ExamPass(year: string): Pass<ExamDepartment, ExamAdmissionDetail> {
    Pass("https://www.com.tw/exam/university_list" + year + ".html",
         id => "https://www.com.tw/exam/university_" + id + "_" + year + ".html",
         id => "https://www.com.tw/exam/check_" + id + "_NO_0_" + year + "_0_3.html",
         ExamDepartmentsOf, (d: ExamDepartment) => d.departmentId, ExamDetailOf,
         (a: ExamAdmissionDetail) => true,
         (u, d, a) => ExamRequest(year, u, d, a))
  }

  function StarPass(year: string): Pass<StarDepartment, seq<StarAdmission>> {
    Pass("https://www.com.tw/star/university_list" + year + ".html",
         id => "https://www.com.tw/star/university_" + id + "_" + year + ".html",
         id => "https://www.com.tw/star/check_" + id + "_NO_0_" + year + "_0_3.html",
         StarDepartmentsOf, (d: StarDepartment) => d.departmentId, StarAdmissionsOf,
         (xs: seq<StarAdmission>) => xs != [],
         (u, d, xs) => StarRequest(year, u, d, xs))
  }

  /** The general-university pass of the cross crawler, or its technical-university pass. */
  function CrossPass(ocr: string -> string, year: string, tech: bool): Pass<CrossDepartment, seq<CrossAdmission>> {
    Pass(if tech then "https://www.com.tw/cross/tech_university_list" + year + ".html"
         else "https://www.com.tw/cross/university_list" + year + ".html",
         id => if tech then "https://www.com.tw/cross/university_1" + id + "_" + year + ".html"
               else "https://www.com.tw/cross/university_" + id + "_" + year + ".html",
         id => if tech then "https://www.com.tw/cross/check_1" + id + "_NO_1_" + year + "_1_1.html"
               else "https://www.com.tw/cross/check_" + id + "_NO_1_" + year + "_0_0.html",
         CrossDepartmentsOf, (d: CrossDepartment) => d.departmentId,
         page => CrossAdmissionsOf(ocr, page),
         (xs: seq<CrossAdmission>) => xs != [],
         (u, d, xs) => CrossRequest(year, u, d, xs, tech))
  }

  function VtechPass(ocr: string -> string, year: string): Pass<VtechDepartment, seq<VtechAdmission>> {
    Pass("https://www.com.tw/vtech/university_list" + year + ".html",
         id => "https://www.com.tw/vtech/university_" + id + "_" + year + ".html",
         id => "https://www.com.tw/vtech/check_" + id + "_NO_1_" + year + "_1_3.html",
         VtechDepartmentsOf, (d: VtechDepartment) => d.departmentId,
         page => VtechAdmissionsOf(ocr, page),
         (xs: seq<VtechAdmission>) => xs != [],
         (u, d, xs) => VtechRequest(year, u, d, xs))
  }

  function TechregPass(year: string): Pass<TechregDepartment, TechregAdmissionDetail> {
    Pass("https://www.com.tw/techreg/university_list" + year + ".html",
         id => "https://www.com.tw/techreg/university_" + id + "_" + year + ".html",
         id => "https://www.com.tw/techreg/check_" + id + "_" + year + ".html",
         TechregDepartmentsOf, (d: TechregDepartment) => d.departmentId, TechregDetailOf,
         (a: TechregAdmissionDetail) => true,
         (u, d, a) => TechregRequest(year, u, d, a))
  }

  /** ExamCrawler.crawl. */
  method CrawlExam(db: Database, fetch: string -> Option<Document>, year: string) returns (error: Option<PyError>)
    modifies db
    ensures Crawled(db.Contents(), error) == PassSpec(ExamPass(year), fetch, old(db.Contents()))
  {
    error := CrawlPass(db, ExamPass(year), fetch);
  }

  /** StarCrawler.crawl. */
  method CrawlStar(db: Database, fetch: string -> Option<Document>, year: string) returns (error: Option<PyError>)
    modifies db
    ensures Crawled(db.Contents(), error) == PassSpec(StarPass(year), fetch, old(db.Contents()))
  {
    error := CrawlPass(db, StarPass(year), fetch);
  }

  /** VtechCrawler.crawl. */
  method CrawlVtech(db: Database, ocr: string -> string, fetch: string -> Option<Document>, year: string)
    returns (error: Option<PyError>)
    modifies db
    ensures Crawled(db.Contents(), error) == PassSpec(VtechPass(ocr, year), fetch, old(db.Contents()))
  {
    error := CrawlPass(db, VtechPass(ocr, year), fetch);
  }

  /** TechregCrawler.crawl. */
  method CrawlTechreg(db: Database, fetch: string -> Option<Document>, year: string) returns (error: Option<PyError>)
    modifies db
    ensures Crawled(db.Contents(), error) == PassSpec(TechregPass(year), fetch, old(db.Contents()))
  {
    error := CrawlPass(db, TechregPass(year), fetch);
  }

  /** An exam or techreg detail is a dataclass, which is always truthy: every parsed detail is
    * saved, even one without candidates. A star, cross or vtech result is a list: an empty one
    * is not saved. */
  lemma WhatIsSaved(year: string, ocr: string -> string, fetch: string -> Option<Document>, t: Tables, u: School,
                    de: ExamDepartment, ds: StarDepartment)
    ensures var a := ExamDetailOf(fetch(ExamPass(year).admissionUrl(de.departmentId)));
            a.Ok? ==> AdmissionStep(ExamPass(year), fetch, t, u, de) == Crawled(SaveSpec(t, ExamRequest(year, u, de, a.value)), None)
    ensures var xs := StarAdmissionsOf(fetch(StarPass(year).admissionUrl(ds.departmentId)));
            xs == Ok([]) ==> AdmissionStep(StarPass(year), fetch, t, u, ds) == Crawled(t, None)
  {
  }

  // ---------------------------------------------------------------------------
  // CrossCrawler.crawl

  /** Some university of the list has a department list that parses to at least one department. */
  function AnyDepartment<D, A>(p: Pass<D, A>, fetch: string -> Option<Document>, us: seq<School>): bool {
    if us == [] then false
    else
      var ds := p.departments(fetch(p.departmentUrl(us[|us| - 1].schoolId)));
      AnyDepartment(p, fetch, us[..|us| - 1]) || (ds.Ok? && ds.value != [])
  }

  /** A parser variable read before any assignment. */
  function Unbound<X>(page: Option<Document>): Result<X> {
    Err(UnboundLocalError)
  }

  /** CrossCrawler.crawl as written: the technical pass reuses `department_parser` and
    * `admission_parser`, which only the loops of the general pass assign. When the general
    * list has no university, reading `department_parser` raises UnboundLocalError at the
    * first technical university; when no general university has a department,
    * `admission_parser` raises it at the first technical department. */
  function CrossCrawlAsWritten(ocr: string -> string, fetch: string -> Option<Document>, year: string, t: Tables): Crawled {
    var general := CrossPass(ocr, year, false);
    var c := PassSpec(general, fetch, t);
    if c.error.Some? then c
    else
      var us := UniversitiesOf(fetch(general.universityUrl)).value;
      var tech := CrossPass(ocr, year, true);
      var asWritten := tech.(departments := if us != [] then tech.departments else Unbound,
                             admission := if AnyDepartment(general, fetch, us) then tech.admission else Unbound);
      PassSpec(asWritten, fetch, c.tables)
  }

  /** CrossCrawler.crawl with the parsers looked up once, before both passes. */
  function CrossCrawl(ocr: string -> string, fetch: string -> Option<Document>, year: string, t: Tables): Crawled {
    var c := PassSpec(CrossPass(ocr, year, false), fetch, t);
    if c.error.Some? then c else PassSpec(CrossPass(ocr, year, true), fetch, c.tables)
  }

  method CrawlCross(db: Database, ocr: string -> string, fetch: string -> Option<Document>, year: string)
    returns (error: Option<PyError>)
    modifies db
    ensures Crawled(db.Contents(), error) == CrossCrawl(ocr, fetch, year, old(db.Contents()))
  {
    error := CrawlPass(db, CrossPass(ocr, year, false), fetch);
    if error.None? {
      error := CrawlPass(db, CrossPass(ocr, year, true), fetch);
    }
  }

  /** CrossCrawler.crawl as written: the technical pass runs with whatever parsers the general
    * pass bound. */
  method CrawlCrossAsWritten(db: Database, ocr: string -> string, fetch: string -> Option<Document>, year: string)
    returns (error: Option<PyError>)
    modifies db
    ensures Crawled(db.Contents(), error) == CrossCrawlAsWritten(ocr, fetch, year, old(db.Contents()))
  {
    var general := CrossPass(ocr, year, false);
    error := CrawlPass(db, general, fetch);
    if error.None? {
      var us := UniversitiesOf(fetch(general.universityUrl)).value;
      var tech := CrossPass(ocr, year, true);
      var bound := tech.(departments := if us != [] then tech.departments else Unbound,
                         admission := if AnyDepartment(general, fetch, us) then tech.admission else Unbound);
      error := CrawlPass(db, bound, fetch);
    }
  }

  /** The crawl as written also keeps the tables valid and only adds rows, however it ends. */
  lemma CrossCrawlAsWrittenKeepsValid(ocr: string -> string, fetch: string -> Option<Document>, year: string, t: Tables)
    requires Valid(t)
    ensures Valid(CrossCrawlAsWritten(ocr, fetch, year, t).tables) && Grows(t, CrossCrawlAsWritten(ocr, fetch, year, t).tables)
  {
    var general := CrossPass(ocr, year, false);
    var c := PassSpec(general, fetch, t);
    PassKeepsValid(general, fetch, t);
    if c.error.None? {
      var us := UniversitiesOf(fetch(general.universityUrl)).value;
      var tech := CrossPass(ocr, year, true);
      var bound := tech.(departments := if us != [] then tech.departments else Unbound,
                         admission := if AnyDepartment(general, fetch, us) then tech.admission else Unbound);
      PassKeepsValid(bound, fetch, c.tables);
      GrowsTransitive(t, c.tables, CrossCrawlAsWritten(ocr, fetch, year, t).tables);
    }
  }

  /** Once the general pass has seen a department, both parser variables are bound and the
    * crawl as written is the intended one. */
  lemma CrossCrawlAgreesWhenBound(ocr: string -> string, fetch: string -> Option<Document>, year: string, t: Tables)
    requires UniversitiesOf(fetch(CrossPass(ocr, year, false).universityUrl)).Ok?
    requires AnyDepartment(CrossPass(ocr, year, false), fetch, UniversitiesOf(fetch(CrossPass(ocr, year, false).universityUrl)).value)
    ensures CrossCrawlAsWritten(ocr, fetch, year, t) == CrossCrawl(ocr, fetch, year, t)
  {
    var general := CrossPass(ocr, year, false);
    var tech := CrossPass(ocr, year, true);
    assert UniversitiesOf(fetch(general.universityUrl)).value != [];
    assert tech.(departments := tech.departments, admission := tech.admission) == tech;
  }

  /** The tech pass of the corrected crawl keeps the general pass's tables valid. */
  lemma CrossCrawlKeepsValid(ocr: string -> string, fetch: string -> Option<Document>, year: string, t: Tables)
    requires Valid(t)
    ensures Valid(CrossCrawl(ocr, fetch, year, t).tables) && Grows(t, CrossCrawl(ocr, fetch, year, t).tables)
  {
    var c := PassSpec(CrossPass(ocr, year, false), fetch, t);
    PassKeepsValid(CrossPass(ocr, year, false), fetch, t);
    if c.error.None? {
      PassKeepsValid(CrossPass(ocr, year, true), fetch, c.tables);
      GrowsTransitive(t, c.tables, CrossCrawl(ocr, fetch, year, t).tables);
    }
  }

  // A page set for the counterexample: an empty general university list, and a technical
  // university list with one university whose department list is empty. The pages are told
  // apart by the first letter after "https://www.com.tw/cross/".

  const EmptyList: Document := Document([], Some([]), None)

  const SampleUniversity: School := School("", "", "001", "國立臺灣大學", "")

  const StatusCell: Cell := Cell("", None, None, [Div("", None), Div("", None)], None, false, None)

  const SchoolCell: Cell := Cell("001 國立臺灣大學", Some(Link("001 國立臺灣大學", "")), None, [], None, false, None)

  const OneUniversity: Document := Document([], Some([[StatusCell, SchoolCell]]), None)

  function SamplePages(url: string): Option<Document> {
    if |url| > 25 && url[25] == 't' then Some(OneUniversity) else Some(EmptyList)
  }

  function NoOcr(src: string): string { src }

  lemma SampleGeneralList()
    ensures SamplePages(CrossPass(NoOcr, "112", false).universityUrl) == Some(EmptyList)
  {
    var g := CrossPass(NoOcr, "112", false).universityUrl;
    assert g == "https://www.com.tw/cross/" + "university_list" + "112" + ".html";
    assert g[25] == 'u';
  }

  lemma SampleTechList()
    ensures SamplePages(CrossPass(NoOcr, "112", true).universityUrl) == Some(OneUniversity)
  {
    var h := CrossPass(NoOcr, "112", true).universityUrl;
    assert h == "https://www.com.tw/cross/" + "tech_university_list" + "112" + ".html";
    assert h[25] == 't';
  }

  lemma SampleTechDepartments()
    ensures SamplePages(CrossPass(NoOcr, "112", true).departmentUrl("001")) == Some(EmptyList)
  {
    var d := CrossPass(NoOcr, "112", true).departmentUrl("001");
    assert d == "https://www.com.tw/cross/" + "university_1" + "001" + "_" + "112" + ".html";
    assert d[25] == 'u';
  }

  lemma OnePair<X>(row: Row, f: (Cell, Cell) -> Result<X>)
    requires |row| >= 2
    ensures f(row[0], row[1]).Ok? ==> CellPairs(row, 1, f) == Ok([f(row[0], row[1]).value])
  {
    var x := f(row[0], row[1]);
    if x.Ok? {
      assert CellPairs(row, 0, f) == Ok([]);
      assert row[2 * 1 - 2] == row[0] && row[2 * 1 - 1] == row[1];
      assert [] + [x.value] == [x.value];
    }
  }

  lemma SampleSchool()
    ensures SchoolOf(StatusCell, SchoolCell) == Ok(SampleUniversity)
  {
    SplitSchoolIdNameExample();
    assert ReleaseStatus(StatusCell.divs) == "" && ReleaseDate(StatusCell.divs) == "";
  }

  /** A university list whose table holds one row of one pair of cells yields the university
    * of that pair. It and the Sample* lemmas above only build the inputs of
    * CrossUnboundCounterexample. */
  lemma OneRowUniversities(d: Document, u: School)
    requires d.table1.Some? && |d.table1.value| == 1 && |d.table1.value[0]| == 2
    requires SchoolOf(d.table1.value[0][0], d.table1.value[0][1]) == Ok(u)
    ensures UniversitiesOf(Some(d)) == Ok([u])
  {
    var rows := d.table1.value;
    var row := rows[0];
    OnePair(row, SchoolOf);
    assert SchoolsOfRow(row) == Ok([u]);
    assert rows[..0] == [];
    assert Collect(rows, SchoolsOfRow) == Ok([] + [u]);
  }

  lemma SampleUniversityList()
    ensures UniversitiesOf(Some(OneUniversity)) == Ok([SampleUniversity])
  {
    SampleSchool();
    OneRowUniversities(OneUniversity, SampleUniversity);
  }

  /** Without a general university, neither parser variable is bound when the tech pass starts. */
  lemma AsWrittenWithoutGeneral(ocr: string -> string, fetch: string -> Option<Document>, year: string, t: Tables)
    requires UniversitiesOf(fetch(CrossPass(ocr, year, false).universityUrl)) == Ok([])
    ensures CrossCrawlAsWritten(ocr, fetch, year, t) ==
            PassSpec(CrossPass(ocr, year, true).(departments := Unbound, admission := Unbound), fetch, t)
  {
    assert PassSpec(CrossPass(ocr, year, false), fetch, t) == Crawled(t, None);
    assert !AnyDepartment(CrossPass(ocr, year, false), fetch, []);
  }

  /** For year 112 with an empty general list and a one-university technical list, the crawl
    * as written ends with UnboundLocalError; the intended crawl visits the university and
    * finishes without an exception. */
  lemma CrossUnboundCounterexample(t: Tables)
    ensures CrossCrawlAsWritten(NoOcr, SamplePages, "112", t) == Crawled(t, Some(UnboundLocalError))
    ensures CrossCrawl(NoOcr, SamplePages, "112", t) == Crawled(t, None)
  {
    var general := CrossPass(NoOcr, "112", false);
    var tech := CrossPass(NoOcr, "112", true);
    SampleGeneralList();
    SampleTechList();
    SampleTechDepartments();
    SampleUniversityList();
    assert UniversitiesOf(Some(EmptyList)) == Ok([]);
    assert PassSpec(general, SamplePages, t) == Crawled(t, None);
    var u := SampleUniversity;
    assert [u][..0] == [];
    assert CrossDepartmentsOf(Some(EmptyList)) == Ok([]);
    assert UniversityStep(tech, SamplePages, t, u) == Crawled(t, None);
    assert Steps(t, [u], UniversitySteps(tech, SamplePages)) == Crawled(t, None);
    AsWrittenWithoutGeneral(NoOcr, SamplePages, "112", t);
    var asWritten := tech.(departments := Unbound, admission := Unbound);
    assert asWritten.universityUrl == tech.universityUrl;
    assert UniversityStep(asWritten, SamplePages, t, u) == Crawled(t, Some(UnboundLocalError));
    assert Steps(t, [u], UniversitySteps(asWritten, SamplePages)) == Crawled(t, Some(UnboundLocalError));
  }
}
