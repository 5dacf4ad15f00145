/** The scraper: fetch the landing page, read the admission methods and their years from its
  * menu, and run the crawler of each method for each of its years. A crawl that raises
  * KeyError is logged and the next year follows; any other exception ends the run. */
module Scraper {
  import opened Wrappers
  import opened Page
  import opened Records
  import opened Persist
  import opened Store
  import opened WebParser
  import opened Crawlers

  const BaseUrl: string := "https://www.com.tw/"

  /** The keys of the `crawlers` dictionary. */
  predicate IsCrawlerKey(key: string) {
    key == "exam" || key == "star" || key == "cross" || key == "vtech" || key == "techreg"
  }

  /** `self.crawlers.get(key).crawl(year)`: an unknown key gives None, whose `crawl` raises
    * AttributeError. */
  function CrawlSpec(key: string, ocr: string -> string, fetch: string -> Option<Document>, year: string, t: Tables): Crawled {
    if key == "exam" then PassSpec(ExamPass(year), fetch, t)
    else if key == "star" then PassSpec(StarPass(year), fetch, t)
    else if key == "cross" then CrossCrawlAsWritten(ocr, fetch, year, t)
    else if key == "vtech" then PassSpec(VtechPass(ocr, year), fetch, t)
    else if key == "techreg" then PassSpec(TechregPass(year), fetch, t)
    else Crawled(t, Some(AttributeError))
  }

  /** The body of the year loop: the `except KeyError` clause catches that one exception. */
  function YearStep(key: string, ocr: string -> string, fetch: string -> Option<Document>, t: Tables, year: string): Crawled {
    var c := CrawlSpec(key, ocr, fetch, year, t);
    if c.error == Some(KeyError) then Crawled(c.tables, None) else c
  }

  function YearSteps(key: string, ocr: string -> string, fetch: string -> Option<Document>): (Tables, string) -> Crawled {
    (t, year) => YearStep(key, ocr, fetch, t, year)
  }

  /** The body of the method loop: every year of the method. */
  function EntryStep(ocr: string -> string, fetch: string -> Option<Document>, t: Tables, e: AvailableYears): Crawled {
    Steps(t, e.availableYears, YearSteps(e.methodKey, ocr, fetch))
  }

  function EntrySteps(ocr: string -> string, fetch: string -> Option<Document>): (Tables, AvailableYears) -> Crawled {
    (t, e) => EntryStep(ocr, fetch, t, e)
  }

  /** `run`: nothing is crawled when the landing page yields no method. */
  function RunSpec(ocr: string -> string, fetch: string -> Option<Document>, t: Tables): Crawled {
    match AvailableYearsOf(fetch(BaseUrl))
    case Err(e) => Crawled(t, Some(e))
    case Ok(entries) => if entries == [] then Crawled(t, None) else Steps(t, entries, EntrySteps(ocr, fetch))
  }

  /** One crawl, dispatched on the method key. */
  method Crawl(db: Database, key: string, ocr: string -> string, fetch: string -> Option<Document>, year: string)
    returns (error: Option<PyError>)
    modifies db
    ensures Crawled(db.Contents(), error) == CrawlSpec(key, ocr, fetch, year, old(db.Contents()))
  {
    if key == "exam" {
      error := CrawlExam(db, fetch, year);
    } else if key == "star" {
      error := CrawlStar(db, fetch, year);
    } else if key == "cross" {
      error := CrawlCrossAsWritten(db, ocr, fetch, year);
    } else if key == "vtech" {
      error := CrawlVtech(db, ocr, fetch, year);
    } else if key == "techreg" {
      error := CrawlTechreg(db, fetch, year);
    } else {
      error := Some(AttributeError);
    }
  }

  /** The year loop of one method. */
  method RunEntry(db: Database, ocr: string -> string, fetch: string -> Option<Document>, e: AvailableYears)
    returns (error: Option<PyError>)
    modifies db
    ensures Crawled(db.Contents(), error) == EntryStep(ocr, fetch, old(db.Contents()), e)
  {
    var years := e.availableYears;
    ghost var t0 := db.Contents();
    for j := 0 to |years|
      invariant Steps(t0, years[..j], YearSteps(e.methodKey, ocr, fetch)) == Crawled(db.Contents(), None)
    {
      StepsNext(t0, years, j, YearSteps(e.methodKey, ocr, fetch));
      error := Crawl(db, e.methodKey, ocr, fetch, years[j]);
      if error.Some? && error != Some(KeyError) {
        StepsStopAt(t0, years, j, YearSteps(e.methodKey, ocr, fetch));
        return;
      }
    }
    assert years[..|years|] == years;
    error := None;
  }

  /** Scraper.run. */
  method Run(db: Database, ocr: string -> string, fetch: string -> Option<Document>) returns (error: Option<PyError>)
    modifies db
    ensures Crawled(db.Contents(), error) == RunSpec(ocr, fetch, old(db.Contents()))
  {
    var parsed := ParseAvailableYears(fetch(BaseUrl));
    if parsed.Err? {
      return Some(parsed.error);
    }
    var entries := parsed.value;
    if entries == [] {
      return None;
    }
    ghost var t0 := db.Contents();
    for i := 0 to |entries|
      invariant Steps(t0, entries[..i], EntrySteps(ocr, fetch)) == Crawled(db.Contents(), None)
    {
      StepsNext(t0, entries, i, EntrySteps(ocr, fetch));
      error := RunEntry(db, ocr, fetch, entries[i]);
      if error.Some? {
        StepsStopAt(t0, entries, i, EntrySteps(ocr, fetch));
        return;
      }
    }
    assert entries[..|entries|] == entries;
    error := None;
  }

  // ---------------------------------------------------------------------------
  // Properties of a run

  /** Every method key the landing page can yield names a crawler, so the dispatch never
    * reaches None. */
  lemma EveryMethodHasCrawler(page: Option<Document>)
    ensures var r := AvailableYearsOf(page);
            r.Ok? ==> forall e :: e in r.value ==> IsCrawlerKey(e.methodKey)
  {
    assert forall h :: h in AdmissionMethods ==> IsCrawlerKey(AdmissionMethods[h]);
    if page.Some? {
      CollectAll(page.value.navigation, NavEntry, (e: AvailableYears) => IsCrawlerKey(e.methodKey));
    }
  }

  /** A loop none of whose steps raises finishes. */
  lemma {:induction false} StepsFinish<X>(t: Tables, xs: seq<X>, step: (Tables, X) -> Crawled)
    requires forall s: Tables, x: X :: step(s, x).error.None?
    ensures Steps(t, xs, step).error.None?
  {
    if xs != [] {
      StepsFinish(t, xs[..|xs| - 1], step);
    }
  }

  /** When no crawl raises anything other than KeyError, a run that reads the landing page
    * finishes: the caught exceptions never end it. */
  lemma RunFinishesDespiteKeyErrors(ocr: string -> string, fetch: string -> Option<Document>, t: Tables)
    requires AvailableYearsOf(fetch(BaseUrl)).Ok?
    requires forall key: string, year: string, s: Tables ::
               CrawlSpec(key, ocr, fetch, year, s).error.None? || CrawlSpec(key, ocr, fetch, year, s).error == Some(KeyError)
    ensures RunSpec(ocr, fetch, t).error.None?
  {
    forall s: Tables, e: AvailableYears ensures EntryStep(ocr, fetch, s, e).error.None? {
      StepsFinish(s, e.availableYears, YearSteps(e.methodKey, ocr, fetch));
    }
    StepsFinish(t, AvailableYearsOf(fetch(BaseUrl)).value, EntrySteps(ocr, fetch));
  }

  /** Any other exception from a crawl ends the year loop there: the later years are not crawled. */
  lemma OtherErrorsStop(key: string, ocr: string -> string, fetch: string -> Option<Document>, t: Tables,
                        years: seq<string>, j: nat)
    requires j < |years|
    requires Steps(t, years[..j], YearSteps(key, ocr, fetch)).error.None?
    requires var c := CrawlSpec(key, ocr, fetch, years[j], Steps(t, years[..j], YearSteps(key, ocr, fetch)).tables);
             c.error.Some? && c.error != Some(KeyError)
    ensures Steps(t, years, YearSteps(key, ocr, fetch)) ==
            CrawlSpec(key, ocr, fetch, years[j], Steps(t, years[..j], YearSteps(key, ocr, fetch)).tables)
  {
    StepsStopAt(t, years, j, YearSteps(key, ocr, fetch));
  }

  /** Each crawler keeps the tables valid and only adds rows; an unknown key changes nothing. */
  lemma CrawlKeepsValid(key: string, ocr: string -> string, fetch: string -> Option<Document>, year: string, s: Tables)
    requires Valid(s)
    ensures Valid(CrawlSpec(key, ocr, fetch, year, s).tables) && Grows(s, CrawlSpec(key, ocr, fetch, year, s).tables)
  {
    if key == "exam" { PassKeepsValid(ExamPass(year), fetch, s); }
    else if key == "star" { PassKeepsValid(StarPass(year), fetch, s); }
    else if key == "cross" { CrossCrawlAsWrittenKeepsValid(ocr, fetch, year, s); }
    else if key == "vtech" { PassKeepsValid(VtechPass(ocr, year), fetch, s); }
    else if key == "techreg" { PassKeepsValid(TechregPass(year), fetch, s); }
    else { assert s.types[..|s.types|] == s.types && s.schools[..|s.schools|] == s.schools; }
  }

  lemma YearStepKeeps(key: string, ocr: string -> string, fetch: string -> Option<Document>)
    ensures forall s: Tables, year: string :: Valid(s) ==>
              Valid(YearSteps(key, ocr, fetch)(s, year).tables) && Grows(s, YearSteps(key, ocr, fetch)(s, year).tables)
  {
    forall s: Tables, year: string | Valid(s)
      ensures Valid(YearStep(key, ocr, fetch, s, year).tables) && Grows(s, YearStep(key, ocr, fetch, s, year).tables)
    {
      CrawlKeepsValid(key, ocr, fetch, year, s);
    }
  }

  /** Every crawl keeps the tables valid and only adds rows, so a whole run does too, however
    * it ends. */
  lemma RunKeepsValid(ocr: string -> string, fetch: string -> Option<Document>, t: Tables)
    requires Valid(t)
    ensures Valid(RunSpec(ocr, fetch, t).tables) && Grows(t, RunSpec(ocr, fetch, t).tables)
  {
    forall s: Tables, e: AvailableYears | Valid(s)
      ensures Valid(EntryStep(ocr, fetch, s, e).tables) && Grows(s, EntryStep(ocr, fetch, s, e).tables)
    {
      YearStepKeeps(e.methodKey, ocr, fetch);
      StepsKeep(s, e.availableYears, YearSteps(e.methodKey, ocr, fetch));
    }
    var r := AvailableYearsOf(fetch(BaseUrl));
    if r.Ok? && r.value != [] {
      StepsKeep(t, r.value, EntrySteps(ocr, fetch));
    } else {
      assert t.types[..|t.types|] == t.types && t.schools[..|t.schools|] == t.schools;
    }
  }
}
