# AdmissionScraper, modelled in Dafny

AdmissionScraper collects the admission lists of Taiwanese universities from www.com.tw and
stores them in a relational database. It covers five admission methods:

- 分科測驗 (exam)
- 大學繁星 (star)
- 學測查榜 (cross)
- 統測甄選 (vtech)
- 統測分發 (techreg)

This project models its core and proves properties of the model:

- **Driving loop.** The scraper reads the methods and their years from the landing page's menu. For each method and year it runs the crawler registered under that method's key (`Scraper`).
- **Crawlers.** For one year, a crawler fetches the university list, then each university's department list, then each department's admission page (`Crawlers`). It hands the result to its `save`.
- **Save.** A save writes into four tables: AdmissionType, SchoolDepartment, AdmissionList and AdmissionPerson (`Orm`, `Persist`, `Saves`, `Store`). It performs three lookup-or-create steps by natural key, then one per-ticket upsert per person. The schema's natural-key indexes are not unique, so uniqueness is proved as an invariant that every save keeps (`Persist.Valid`).
- **Page parsers.** They walk table rows, keep the rows with the expected cell count, and read fields by position (`WebParser`, `AdmissionParsers`, `Page`). They also read the summary tables by row counter and classify a candidate's status as 正取, 備取 or retest date.
- **String helpers.** `clean_string`, `clean_split` and the two school-name regular expressions (`Utils`). The expressions are written out as the searches Python's engine performs for them.
- **HTTP client.** Its bounded retry loop, the FlareSolverr fallback that replaces the session cookies, and the shared instance (`HttpClient`).

Five things are parameters rather than modelled:

- The network is a parameter. A fetch maps a URL to a page, or to None when the download failed. The client's attempts come from an oracle over attempt numbers.
- Text recognition of an image is a function from the image's `src` to a string.
- A page is abstract: the rows and cells its parser queries, with the few attributes it reads. Those attributes are text, link text and href, image src, title and parent class, div ids, the retest date, and the nested table.
- A Python exception is a `PyError` value: KeyError, ValueError, IndexError, AttributeError, TypeError or UnboundLocalError.
- A function that can raise returns a `Result`.

The model follows the code where it differs from the system's documented design:

- The client never rotates its user agent. Only the cookies change, after a successful solver reply.
- A failed fetch is not skipped. `None` is handed to the next parser, which raises TypeError, and that exception ends the crawl.
- Exam and Techreg detail results are always truthy, so their `save` also runs when the admission list is empty.
- Non-200 replies and failed solver replies return `None` at once and are not retried. Only exceptions are retried.
- The OCR module keeps no decode cache. Recognition is a plain function of the image source.
- `Scraper.run` catches only KeyError. Any other exception ends the whole run.

## Model

| member | source | states |
|---|---|---|
| Utils.ReplaceBreaks | scrapers/utils.py:9 | the two replacements keep the length and leave no line break and no no-break space |
| Utils.StripLeft | scrapers/utils.py:9 | drops exactly the leading whitespace: everything dropped is whitespace, and the result is empty or starts with a non-space |
| Utils.StripRight | scrapers/utils.py:9 | drops exactly the trailing whitespace: everything dropped is whitespace, and the result is empty or ends with a non-space |
| Utils.StripLeftKeepsSuffix | scrapers/utils.py:9 | the left strip is a suffix of its input |
| Utils.StripRightKeepsPrefix | scrapers/utils.py:9 | the right strip is a prefix of its input |
| Utils.CleanString | scrapers/utils.py:8-9 | the result has no line break, no no-break space and no whitespace at either end, and is no longer than the input |
| Utils.CleanFixed | scrapers/utils.py:8-9 | an already clean string is returned unchanged |
| Utils.CleanIdempotent | scrapers/utils.py:8-9 | cleaning twice is cleaning once |
| Utils.IndexOf | scrapers/utils.py:18 | finds the first occurrence of the separator, or reports that there is none |
| Utils.Split | scrapers/utils.py:18 | `str.split(sep, maxsplit)`: at least one piece; at most maxsplit + 1 pieces when maxsplit >= 0; no piece but the last contains the separator |
| Utils.SplitJoin | scrapers/utils.py:18 | joining the pieces with the separator gives the input back |
| Utils.SplitUnlimited | scrapers/utils.py:14-18 | with the default cut of -1 there is no limit: one piece more than there are separators |
| Utils.CleanPieces | scrapers/utils.py:18-20 | the kept pieces are non-empty clean strings, no more than there were pieces |
| Utils.CleanSplitOf | scrapers/utils.py:14-21 | every piece is non-empty and a fixed point of clean_string; at most cut + 1 pieces when cut >= 0 |
| Utils.CleanSplit | scrapers/utils.py:14-21 | the append loop returns exactly CleanSplitOf |
| Utils.SplitOnce | scrapers/utils.py:36 | a split with maxsplit 1 cuts at the first space, or leaves the string whole when it has none |
| Utils.CleanPiecesOfFirstSpace | scrapers/utils.py:36 | the cleaned pieces of that split are the cleaned halves, with empty halves dropped |
| Utils.FallbackSplitsAtFirstSpace | scrapers/utils.py:34-36 | the fallback `clean_split(s, ' ', 1)` is a split of the cleaned text at its first space |
| Utils.LastWord | scrapers/utils.py:26 | finds the last position in a range where a suffix word starts, as a greedy `.+` followed by the word does after backtracking |
| Utils.SpaceRun | scrapers/utils.py:26 | the greedy `\s*`: a maximal whitespace run |
| Utils.DigitRun | scrapers/utils.py:41 | the greedy `\d+`: a maximal run of decimal digits |
| Utils.MatchAtLastSuffix | scrapers/utils.py:26-33 | a school ending after the last suffix, then the skipped whitespace run, then the department, is a match of the pattern |
| Utils.SplitSchoolDepartment | scrapers/utils.py:26-36 | when a suffix starts at position 1 or later of the cleaned text, gives school and department as the match describes them; otherwise gives `clean_split(t, ' ', 1)` |
| Utils.SchoolDepartmentMatchUnique | scrapers/utils.py:26-33 | the match is unique: school = longest prefix ending in 大學/學院/學校 with a character before the suffix, and school ++ whitespace ++ department == cleaned input |
| Utils.SplitSchoolDepartmentExample | scrapers/utils.py:52 | "國立臺灣大學  資訊工程學系" splits into "國立臺灣大學" and "資訊工程學系" |
| Utils.NameAt | scrapers/utils.py:41 | a name the second group accepts at a position has the shape of that group |
| Utils.TrySpaces | scrapers/utils.py:41 | backtracking over `\s*` yields only a digit code and a well-formed name |
| Utils.TryDigits | scrapers/utils.py:41 | backtracking over `\d+` yields only a digit code and a well-formed name |
| Utils.SearchIdName | scrapers/utils.py:41-44 | the leftmost match, if any, is a digit code and a well-formed name |
| Utils.TrySpacesFinds | scrapers/utils.py:41 | backtracking over `\s*` from a longer run reaches any whitespace run after which a name is accepted |
| Utils.TryDigitsFinds | scrapers/utils.py:41 | backtracking over `\d+` from a longer run reaches any digit run that starts a match |
| Utils.SearchIdNameFinds | scrapers/utils.py:41-44 | the search is complete: when digits, whitespace and an accepted name occur at or after the start position, a match is found |
| Utils.SplitSchoolIdNameAsWrittenShape | scrapers/utils.py:41-49 | as written: a match gives code and name, otherwise the first-space fallback; a name ending in 學院/學校 is the bare word or comes from the fallback |
| Utils.SplitSchoolIdNameShape | scrapers/utils.py:41-49 | with the suffixes grouped: a match gives a digit code and a name ending in a suffix; otherwise the first-space fallback |
| Utils.AsWrittenNoNameInSample | scrapers/utils.py:41 | as written, no name starts after any of the digits of "002藝術學院" |
| Utils.IdNameAsWrittenNoMatch | scrapers/utils.py:41 | as written, the pattern finds no match anywhere in "002藝術學院" |
| Utils.IdNameGroupedMatch | scrapers/utils.py:41 | grouped, the pattern matches "002藝術學院" as ("002", "藝術學院") |
| Utils.AsWrittenOnePiece | scrapers/utils.py:45-49 | a clean text with no space and no match falls back to a single piece |
| Utils.IdNameCollegeCounterexample | scrapers/utils.py:41-49 | as written, "002藝術學院" yields one piece, which the caller cannot unpack into code and name |
| Utils.IdNameCollegeGrouped | scrapers/utils.py:41-49 | grouped, the same cell yields ["002", "藝術學院"] |
| Utils.SplitSchoolIdNameExample | scrapers/utils.py:42-46 | "001 國立臺灣大學" splits into "001" and "國立臺灣大學", under the pattern as written and grouped alike |
| Utils.StripParens | scrapers/webparser.py:104 | `strip('()')`: no longer than the input, and neither end of the result is a parenthesis |
| Utils.StripParensSlice | scrapers/webparser.py:104 | only the ends go: the result is a slice of the input with only parentheses before and after it |
| Orm.Validate | orm/model.py:79-83 | a falsy value (0, empty string, None) is refused with ValueError; a truthy one is returned unchanged |
| Orm.NewPersonFields | orm/model.py:64-83 | a person can be built exactly when list id and ticket are both truthy; otherwise ValueError |
| Persist.FirstWhere | scrapers/crawlers.py:98 | `query(...).filter(...).first()`: the first row that satisfies the filter, or None when no row does |
| Persist.EmptyValid | orm/model.py:9-115 | the empty database satisfies the uniqueness and reference invariant |
| Persist.EnsureType | scrapers/crawlers.py:98-103 | a type row is added exactly when none has the name; existing rows are kept; the returned row has the name and is the first that does |
| Persist.EnsureSchoolDepartment | scrapers/crawlers.py:105-115 | a row is added exactly when none has both codes; a new row takes the crawled names; an existing row's names are never updated |
| Persist.UpsertList | scrapers/crawlers.py:117-150 | the table grows by at most one row, exactly when no row has the key; an existing row is updated in place by the patch; no other row changes |
| Persist.UpsertListValid | scrapers/crawlers.py:117-150 | the list step never creates a second row with an existing (year, method, school department) key |
| Persist.UpsertPerson | scrapers/crawlers.py:154-172 | a row is added exactly when list id and ticket pass validation and no row has (list, ticket); otherwise only that row's columns change |
| Persist.ApplyPersons | scrapers/crawlers.py:153-173 | the loop adds at most one row per record, keeps every id, list and ticket, and leaves other lists' rows unchanged |
| Persist.UpsertPersonValid | scrapers/crawlers.py:154-172 | one iteration never creates a second row with an existing (list, ticket) key |
| Persist.ApplyPersonsValid | scrapers/crawlers.py:153-173 | the person loop keeps (list, ticket) unique and every list reference resolves |
| Persist.ApplyPersonsAppend | scrapers/crawlers.py:153-173 | running the loop over a + b is running it over a, then over b |
| Persist.EmptyTicketSkipped | scrapers/crawlers.py:156-165 | a record with an empty ticket raises ValueError, which is caught: the loop does exactly what it does without that record |
| Persist.ApplyPersonsCovers | scrapers/crawlers.py:153-173 | after the loop every non-empty ticket of the records has its row in the list |
| Persist.UpsertPersonKeepsHolds | scrapers/crawlers.py:166-172 | an update keeps the columns a row held and adds the record's columns when the ticket matches |
| Persist.UpsertPersonAllHold | scrapers/crawlers.py:154-172 | one iteration keeps every row of the list holding the combined columns of its ticket |
| Persist.ApplyPersonsAllHold | scrapers/crawlers.py:153-173 | after the loop every row of the list holds the combined columns the records give its ticket |
| Persist.ApplyPersonsHolds | scrapers/crawlers.py:153-173 | any row of the list after the loop holds the combined columns of its ticket |
| Persist.Overlay | scrapers/crawlers.py:166-172 | the in-place update of existing rows keeps the table's length |
| Persist.OverlayStepRejected | scrapers/crawlers.py:156-165 | a rejected record leaves updated rows as they are |
| Persist.OverlayStepPresent | scrapers/crawlers.py:166-172 | a record whose row exists only adds its columns to that row |
| Persist.ApplyPersonsOverlay | scrapers/crawlers.py:153-173 | when every record's row exists, the loop inserts nothing and only updates columns |
| Persist.ApplyPersonsIdempotent | scrapers/crawlers.py:153-173 | running the person loop again over the same records changes nothing |
| Persist.LastWriteWins | scrapers/crawlers.py:154-172 | the row of a ticket holds the columns of the last record with that ticket, whatever earlier records set |
| Persist.PatchForUniform | scrapers/crawlers.py:158-172 | when every record sets a column to v, the combined columns of any mentioned ticket set it to v |
| Persist.UniformColumn | scrapers/crawlers.py:158-172 | when every record sets a column to v, every row the records name ends with v there |
| Persist.ListSteps | scrapers/crawlers.py:97-150 | steps 1 to 3 leave the persons untouched and give the index of an existing list row |
| Persist.SaveSpecGrowth | scrapers/crawlers.py:95-173 | one save adds at most one type, one school department and one list, and at most one person per record; type and school rows are added exactly when the key is missing, and existing ones never change |
| Persist.SaveValid | scrapers/crawlers.py:95-173 | a save keeps every natural key unique and every reference resolving, although the indexes allow duplicates |
| Persist.EnsureTypeTwice | scrapers/crawlers.py:98-103 | the type step run again changes nothing |
| Persist.EnsureSchoolDepartmentTwice | scrapers/crawlers.py:105-115 | the school department step run again changes nothing |
| Persist.UpsertListTwice | scrapers/crawlers.py:117-150 | the list step run again with the same patch changes nothing |
| Persist.ListStepsTwice | scrapers/crawlers.py:97-150 | steps 1 to 3 run again find the rows the first run left and change nothing |
| Persist.ListStepsIgnorePersons | scrapers/crawlers.py:97-150 | steps 1 to 3 do not read the persons table |
| Persist.SaveIdempotent | scrapers/crawlers.py:95-173 | saving the same input twice adds no row the second time and leaves every value as the first save left it |
| Persist.ListStepsKey | scrapers/crawlers.py:117-136 | the list row found or added has the save's year, type and school department, and the id of its position |
| Persist.ListStepsColumns | scrapers/crawlers.py:120-149 | the list row's columns are the earlier ones overridden by the patch (none earlier for a new row); no other list row changes |
| Persist.SavedListRow | scrapers/crawlers.py:117-150 | the list a save files persons under has the save's key and columns; other lists are unchanged |
| Persist.SavedListHoldsPatch | scrapers/crawlers.py:121-149 | the saved list holds every column of the save's patch with its value |
| Persist.SavedPersons | scrapers/crawlers.py:153-173 | the person step runs the loop under the saved list's id, which resolves |
| Persist.SaveUniformColumn | scrapers/crawlers.py:153-173 | when every record sets a column to v, every row of the saved list that a record names holds v there |
| Persist.PatchForPaired | scrapers/crawlers.py:543-556 | when every record sets two columns to the same value, so do the combined columns of a ticket |
| Persist.PairedColumns | scrapers/crawlers.py:543-556 | when every record sets two columns to the same value, every named row agrees on the two columns |
| Persist.SavePairedColumns | scrapers/crawlers.py:536-557 | the same agreement holds for the rows of the saved list after a whole save |
| Persist.EmptyPatchKeepsLists | scrapers/crawlers.py:260-266 | a save whose list update sets only the key columns changes no existing list row |
| Store.First | scrapers/crawlers.py:98 | the scan returns the first row satisfying the filter (FirstWhere) |
| Store.Database.FindOrAddType | scrapers/crawlers.py:98-103 | query, add when missing and query again leaves the type table of EnsureType and touches no other table |
| Store.Database.FindOrAddSchoolDepartment | scrapers/crawlers.py:105-115 | leaves the school table of EnsureSchoolDepartment and touches no other table |
| Store.Database.UpsertListRow | scrapers/crawlers.py:117-150 | leaves the list table of UpsertList and touches no other table |
| Store.Database.UpsertPersonRow | scrapers/crawlers.py:154-172 | leaves the persons table of UpsertPerson and touches no other table |
| Store.Database.SaveList | scrapers/crawlers.py:97-150 | steps 1 to 3 on the database give ListSteps, and return the id the persons are filed under |
| Store.Database.FilePersons | scrapers/crawlers.py:153-173 | the person loop on the database gives ApplyPersons |
| Store.Database.Save | scrapers/crawlers.py:95-173 | the whole save leaves SaveSpec of the old tables |
| Store.Database.SaveExam | scrapers/crawlers.py:95-173 | ExamCrawler.save with its type label, list columns and records |
| Store.Database.SaveStar | scrapers/crawlers.py:225-288 | StarCrawler.save with its type label, key-only list update and records |
| Store.Database.SaveTechreg | scrapers/crawlers.py:609-683 | TechregCrawler.save with its type label, list columns and records |
| Store.Database.FileCrossEntries | scrapers/crawlers.py:419-439 | the inner loop over one candidate's entries files that candidate's records of the crawled department |
| Store.Database.SaveCross | scrapers/crawlers.py:372-440 | CrossCrawler.save with its nested loops leaves SaveSpec of the cross request |
| Store.Database.FileVtechEntries | scrapers/crawlers.py:537-557 | the inner loop over one candidate's entries files that candidate's records of the crawled department |
| Store.Database.SaveVtech | scrapers/crawlers.py:490-558 | VtechCrawler.save with its nested loops leaves SaveSpec of the vtech request |
| Store.FiledOne | scrapers/crawlers.py:153-173 | filing one more record continues the loop over the records before it |
| Saves.ExamWrites | scrapers/crawlers.py:153-172 | one record per candidate, in order: ticket, exam area and status 已錄取 |
| Saves.StarWrites | scrapers/crawlers.py:268-287 | one record per candidate, in order |
| Saves.CrossEntryWrites | scrapers/crawlers.py:419-439 | no more records than entries |
| Saves.CrossEntryWritesStep | scrapers/crawlers.py:419-420 | an entry adds its record exactly when its school and department names match the crawled ones |
| Saves.CrossEntryWritesMembers | scrapers/crawlers.py:419-439 | a candidate's records are exactly those of its entries for the crawled department, each with that entry's status |
| Saves.VtechEntryWrites | scrapers/crawlers.py:537-557 | no more records than entries |
| Saves.VtechEntryWritesStep | scrapers/crawlers.py:537-538 | an entry adds its record exactly when its names match the crawled ones |
| Saves.VtechEntryWritesMembers | scrapers/crawlers.py:537-557 | a candidate's records are exactly those of its entries for the crawled department |
| Saves.TechregWrites | scrapers/crawlers.py:665-682 | one record per candidate, in order |
| Saves.ExamMarksAdmitted | scrapers/crawlers.py:158-172 | after an exam save, every person of its list that a record names has status 已錄取 |
| Saves.ExamListPatchColumns | scrapers/crawlers.py:121-132 | the exam list columns are the department's score and weights and the page's order and four grades |
| Saves.ExamListColumns | scrapers/crawlers.py:117-150 | after an exam save its list holds those seven values |
| Saves.StarMarksAdmitted | scrapers/crawlers.py:273-287 | after a star save, every person of its list that a record names has status 已錄取 |
| Saves.StarKeepsLists | scrapers/crawlers.py:247-266 | a star save changes no existing list row: its update touches only the key columns |
| Saves.CrossApplyLabel | scrapers/crawlers.py:397-414 | the cross list's university_apply is 科大四技申請 for the technical pass and 大學個人申請 otherwise |
| Saves.CrossWritesExactly | scrapers/crawlers.py:418-439 | the cross save files exactly the candidates' entries naming the crawled university and department, each with its status |
| Saves.VtechWritesExactly | scrapers/crawlers.py:536-557 | the vtech save files exactly the candidates' entries naming the crawled university and department |
| Saves.VtechStatusesAgree | scrapers/crawlers.py:543-556 | after a vtech save, every named person of its list has the same second-stage status and admission status |
| Saves.TechregMarksAdmitted | scrapers/crawlers.py:670-681 | after a techreg save, every person of its list that a record names has status 已錄取 |
| Saves.TechregStoresNoName | scrapers/crawlers.py:665-682 | a techreg record sets only the admission status: the parsed name is never stored |
| Page.CollectErrSticks | scrapers/webparser.py:101-116 | once a row has raised, later rows change nothing |
| Page.CollectLoop | scrapers/webparser.py:99-116 | the `while row:` loop gathers exactly what the row walk specifies |
| Page.CollectFirstError | scrapers/webparser.py:101-116 | the walk succeeds exactly when every row does; otherwise it fails with the first failing row's exception |
| Page.CollectAll | scrapers/webparser.py:101-116 | a property of every row's records holds of all gathered records |
| Page.Filter | scrapers/webparser.py:103 | the kept rows are rows of the input that pass the test |
| Page.CollectSingles | scrapers/webparser.py:101-116 | when a row yields a record exactly when it is kept, the k-th record comes from the k-th kept row |
| WebParser.Soup | scrapers/webparser.py:35 | a failed download (None) makes the HTML parser raise TypeError; a page parses |
| WebParser.Table1 | scrapers/webparser.py:65-66 | the rows of `table1`; an error when the page or the table is missing |
| WebParser.Main | scrapers/webparser.py:155 | the `mainContent` div; an error when it is missing |
| WebParser.MainTable | scrapers/webparser.py:253-256 | the first table in `mainContent`, present exactly when page, div and table exist |
| WebParser.Take3 | scrapers/webparser.py:48 | `s[:3]`: a prefix of at most three characters, exactly three when there are |
| WebParser.DepartmentId | scrapers/webparser.py:104 | the department code is the cleaned first cell with only its leading and trailing parentheses removed, and neither of its ends is a parenthesis |
| WebParser.YearEntry | scrapers/webparser.py:46-48 | a year link gives the first three characters of its cleaned text; a missing link raises AttributeError |
| WebParser.NavEntry | scrapers/webparser.py:36-55 | a menu entry whose cleaned title is one of the five labels gives one entry with the mapped key and its year links; other entries give nothing; a missing link raises |
| WebParser.ParseAvailableYears | scrapers/webparser.py:33-56 | the loop over menu entries and year links gives AvailableYearsOf |
| WebParser.AvailableYearsEntries | scrapers/webparser.py:25-56 | one entry per method entry, in menu order, with the mapped key, the label and one three-character year per following link, in document order |
| WebParser.YearsInOrder | scrapers/webparser.py:42-49 | one year per following entry, in order, each read from its link |
| WebParser.SchoolOfFields | scrapers/webparser.py:72-90 | a university needs two status divs (IndexError), a link (AttributeError) and a code/name split of two parts by split_school_id_name as written (ValueError); the status is the full release text or else the partial one; the date is that of a third `releasedate` div, or empty |
| WebParser.CellPairs | scrapers/webparser.py:70-90 | k pairs of cells give k records |
| WebParser.SchoolsOfRow | scrapers/webparser.py:68-90 | an odd row gives no university; an even row gives one per pair of cells |
| WebParser.ParsePairs | scrapers/webparser.py:70-90 | the `for i in range(0, len, 2)` loop gives CellPairs |
| WebParser.ParseSchoolsOfRow | scrapers/webparser.py:68-91 | one row of the university list |
| WebParser.ParseUniversities | scrapers/webparser.py:62-93 | UniversityListParser.parse gives the walk over the rows of `table1`, each school cell split by split_school_id_name as written |
| WebParser.CollegeCellRaises | scrapers/webparser.py:83 | a linked school cell "002藝術學院" raises ValueError as written; with the suffixes grouped it reads code "002" and name "藝術學院" |
| WebParser.CellPairsAt | scrapers/webparser.py:70-90 | the j-th university of a row is read from cells 2j and 2j+1 |
| WebParser.CellPairsErrSticks | scrapers/webparser.py:70-90 | once a pair of cells has raised, later pairs change nothing |
| WebParser.UniversitiesPerRow | scrapers/webparser.py:66-91 | the list holds half the cells of every even row and nothing from odd rows |
| WebParser.ExamDepartmentRow | scrapers/webparser.py:102-115 | only five-cell rows give a department: code, name, link, score and the weights image title; a missing link or weights image raises AttributeError |
| WebParser.StarDepartmentRow | scrapers/webparser.py:192-201 | only five-cell rows give a department: code and name; a missing link raises AttributeError |
| WebParser.CrossDepartmentRow | scrapers/webparser.py:234-245 | only five-cell rows give a department: code, name and release status from the fifth cell |
| WebParser.VtechDepartmentRow | scrapers/webparser.py:312-323 | only five-cell rows give a department: code, name and group from the fourth cell |
| WebParser.TechregDepartmentRow | scrapers/webparser.py:388-401 | only five-cell rows give a department: code, name, group and average score |
| WebParser.ParseExamDepartments | scrapers/webparser.py:96-117 | the row loop of ExamDepartmentListParser gives the walk over `table1` |
| WebParser.ParseStarDepartments | scrapers/webparser.py:186-203 | the row loop of StarDepartmentListParser |
| WebParser.ParseCrossDepartments | scrapers/webparser.py:228-247 | the row loop of CrossDepartmentListParser |
| WebParser.ParseVtechDepartments | scrapers/webparser.py:306-325 | the row loop of VtechDepartmentListParser |
| WebParser.ParseTechregDepartments | scrapers/webparser.py:382-403 | the row loop of TechregDepartmentParser |
| WebParser.ExamDepartmentsFromRows | scrapers/webparser.py:101-116 | one department per five-cell row, in order, coded by that row's first cell |
| WebParser.StarDepartmentsFromRows | scrapers/webparser.py:191-202 | one department per five-cell row, in order, coded by that row's first cell |
| WebParser.CrossDepartmentsFromRows | scrapers/webparser.py:233-246 | one department per five-cell row, in order, coded by that row's first cell |
| WebParser.VtechDepartmentsFromRows | scrapers/webparser.py:311-324 | one department per five-cell row, in order, coded by that row's first cell |
| WebParser.TechregDepartmentsFromRows | scrapers/webparser.py:387-402 | one department per five-cell row, in order, coded by that row's first cell |
| AdmissionParsers.ExamInfoRowFails | scrapers/webparser.py:126-149 | reading a summary row raises IndexError exactly when the counter is at 1 to 5 and the row has no cell, or it is row 2 with no token |
| AdmissionParsers.ExamInfoRowKeys | scrapers/webparser.py:126-149 | row 1 writes weights, row 2 grade and order, rows 3 to 5 the other grades, other rows nothing |
| AdmissionParsers.SummaryErrSticks | scrapers/webparser.py:125-151 | once a summary row has raised, later rows change nothing |
| AdmissionParsers.ParseSummary | scrapers/webparser.py:121-152 | the counter loop of `parse_info` gives the summary dictionary |
| AdmissionParsers.SummaryOk | scrapers/webparser.py:125-151 | the loop ends without exception exactly when no row raises |
| AdmissionParsers.SummaryKey | scrapers/webparser.py:121-152 | a key written by one row position only is present exactly when that row was passed, with the value read from it |
| AdmissionParsers.ParseExamInfo | scrapers/webparser.py:121-152 | the exam `parse_info` |
| AdmissionParsers.ExamInfoOk | scrapers/webparser.py:121-152 | the exam summary is read without exception exactly when every row it reads is |
| AdmissionParsers.ExamInfoKey | scrapers/webparser.py:121-152 | after the loop a key is present exactly when its row exists, with the value read from that row |
| AdmissionParsers.ExamInfoKeys | scrapers/webparser.py:121-152 | the same for every key at once |
| AdmissionParsers.ExamAdmissionRow | scrapers/webparser.py:164-173 | only five-cell rows give a candidate; ValueError unless the school cell splits in two; IndexError for a ticket cell without a token; ticket and exam area are its first and last tokens |
| AdmissionParsers.StarAdmissionRow | scrapers/webparser.py:214-223 | the star rows are read as the exam rows |
| AdmissionParsers.ParseExamDetail | scrapers/webparser.py:120-183 | ExamAdmissionListParser.parse gives ExamDetailOf |
| AdmissionParsers.ExamDetailFromSummary | scrapers/webparser.py:175-183 | the detail is built exactly when the summary has six rows, KeyError otherwise; each field comes from its own row; with one token, grade and order are equal |
| AdmissionParsers.ExamAdmissionsFromRows | scrapers/webparser.py:163-174 | one candidate per five-cell row, in order, read from that row |
| AdmissionParsers.ParseStarAdmissions | scrapers/webparser.py:206-225 | StarAdmissionListParser.parse gives StarAdmissionsOf |
| AdmissionParsers.StarAdmissionsFromRows | scrapers/webparser.py:213-224 | one candidate per five-cell row, in order, read from that row |
| AdmissionParsers.ParseTechregInfo | scrapers/webparser.py:407-428 | the techreg `parse_info` loop |
| AdmissionParsers.TechregInfoRowKeys | scrapers/webparser.py:412-425 | only a four-cell row at counter 1 to 4 writes its own key, with its second cell |
| AdmissionParsers.TechregInfoKeys | scrapers/webparser.py:407-428 | a key is present exactly when its row exists and has four cells; the counter still counts rows of another size |
| AdmissionParsers.TechregAdmissionRow | scrapers/webparser.py:440-446 | only three-cell rows give a candidate; ticket and name come from a split at the first space; ValueError unless there are two parts |
| AdmissionParsers.ParseTechregDetail | scrapers/webparser.py:406-454 | TechregAdmissionParser.parse gives TechregDetailOf |
| AdmissionParsers.TechregDetailFromSummary | scrapers/webparser.py:448-454 | the detail is built exactly when rows 1 to 4 have four cells each, KeyError otherwise; each grade is its row's second cell |
| AdmissionParsers.TechregAdmissionsFromRows | scrapers/webparser.py:439-447 | one candidate per three-cell row, in order, read from that row |
| AdmissionParsers.EntryStatus | scrapers/webparser.py:281-288 | without an image the status is the retest date; with one, a missing or empty parent class raises TypeError or IndexError |
| AdmissionParsers.EntryStatusOutcome | scrapers/webparser.py:283-286 | 正取 when the image's parent has class `leftred`, otherwise 備取 followed by the recognised text |
| AdmissionParsers.EntryStatusIgnoresOcr | scrapers/webparser.py:281-288 | text recognition matters only for a waiting-list entry |
| AdmissionParsers.VtechStatusIsPrefixed | scrapers/webparser.py:356-365 | the vtech status is the cross status with the cell's text in front, when there is an image |
| AdmissionParsers.SchoolEntry | scrapers/webparser.py:272-294 | only three-cell rows with non-empty school text give an entry (other rows and empty school text give none): the 分發錄取 mark, school and department (ValueError unless two parts), and the status; a missing link or retest date raises AttributeError |
| AdmissionParsers.SchoolEntriesFromRows | scrapers/webparser.py:271-295 | one entry per nested row that names a school, in order; other rows are dropped |
| AdmissionParsers.CrossAdmissionRow | scrapers/webparser.py:258-301 | a five-cell row gives a candidate: ticket from the image text, exam area the last `:` piece, empty name, schools from the nested table |
| AdmissionParsers.VtechAdmissionRow | scrapers/webparser.py:336-377 | a five-cell row gives a candidate: ticket from the image text, empty name, prefixed statuses from the nested table |
| AdmissionParsers.ParseCrossRow | scrapers/webparser.py:258-301 | the outer loop body with its nested loop gives CrossAdmissionRow |
| AdmissionParsers.ParseCrossAdmissions | scrapers/webparser.py:250-303 | CrossAdmissionListParser.parse gives CrossAdmissionsOf |
| AdmissionParsers.ParseVtechRow | scrapers/webparser.py:336-377 | the outer loop body with its nested loop gives VtechAdmissionRow |
| AdmissionParsers.ParseVtechAdmissions | scrapers/webparser.py:328-379 | VtechAdmissionParser.parse gives VtechAdmissionsOf |
| AdmissionParsers.CrossAdmissionsFromRows | scrapers/webparser.py:257-302 | one candidate per five-cell row, in order, read from that row |
| AdmissionParsers.VtechAdmissionsFromRows | scrapers/webparser.py:335-378 | one candidate per five-cell row, in order, read from that row |
| HttpClient.CookieMapLookup | scrapers/client.py:41 | the cookie map holds exactly the reply's cookie names, each with the value of its last occurrence |
| HttpClient.AttemptBody | scrapers/client.py:29-46 | an attempt answers a page exactly for a 200 response or a solved challenge |
| HttpClient.AttemptCookies | scrapers/client.py:37-42 | the cookies become the solver's exactly when it replied 200 with status `ok`, even if reading `solution.response` then raises; otherwise they are unchanged |
| HttpClient.FirstAnswer | scrapers/client.py:51-57 | finds the first attempt below the retry count that does not raise, with every earlier one raising |
| HttpClient.GetFromAnswer | scrapers/client.py:48-59 | from attempt k: the answer and attempt count of the first non-raising attempt, or None after `retry`; cookies unchanged unless an attempt made stored the solver's, and then they are such an attempt's |
| HttpClient.GetSpecBounds | scrapers/client.py:48-59 | at most `retry` attempts (none when it is not positive); a page comes only from a non-raising attempt after raising ones; cookies change only when an attempt made, raising or not, stored the solver's cookies |
| HttpClient.CookiesSurviveRaise | scrapers/client.py:37-57 | an `ok` reply without a page stores the cookies and raises; the retry keeps them and a direct 200 returns its page |
| HttpClient.AnswerEndsRetries | scrapers/client.py:51-53 | an attempt that returns, even with None, ends the loop after one attempt: a refused request is not retried |
| HttpClient.Client.constructor | scrapers/client.py:13-20 | no cookies, the fixed user agent, the configuration's retry and delay |
| HttpClient.Client.TryGet | scrapers/client.py:22-46 | `_get`: raises exactly for a raising attempt; otherwise answers AttemptBody and sets the cookies by AttemptCookies |
| HttpClient.Client.Get | scrapers/client.py:48-59 | the retry loop returns the body, cookies and attempt count that GetSpec describes |
| HttpClient.Registry.constructor | scrapers/client.py:11 | no instance yet |
| HttpClient.Registry.GetInstance | scrapers/client.py:61-65 | the first call creates the client from its configuration; every later call returns that same client and ignores its configuration |
| Crawlers.GetParser | scrapers/crawlers.py:33-40 | KeyError for an unregistered name, ValueError for a parser of another class, the parser otherwise |
| Crawlers.RegisteredParsersResolve | scrapers/crawlers.py:54-59 | the three names a crawler asks for resolve to its parsers, so `get_parser` never raises in a crawl; any other name raises KeyError |
| Crawlers.StepsErrSticks | scrapers/crawlers.py:71-89 | once a loop body has raised, later items change nothing |
| Crawlers.StepsStopAt | scrapers/crawlers.py:71-89 | a body that raises ends the whole loop with its outcome |
| Crawlers.CrawlUniversity | scrapers/crawlers.py:72-91 | the university loop body (department list, then each department's page and save) transforms the database as UniversityStep says |
| Crawlers.CrawlPass | scrapers/crawlers.py:61-93 | a crawl transforms the database as PassSpec says |
| Crawlers.StepsKeep | scrapers/crawlers.py:71-89 | a loop whose bodies keep the tables valid and only add rows does so too |
| Crawlers.AdmissionStepKeeps | scrapers/crawlers.py:84-89 | the department body keeps the tables valid and only adds rows |
| Crawlers.PassKeepsValid | scrapers/crawlers.py:61-93 | a crawl pass, finished or ended by an exception, leaves valid tables that only grew |
| Crawlers.CrawlExam | scrapers/crawlers.py:61-93 | ExamCrawler.crawl with its URLs, parsers and save |
| Crawlers.CrawlStar | scrapers/crawlers.py:191-223 | StarCrawler.crawl with its URLs, parsers and save |
| Crawlers.CrawlVtech | scrapers/crawlers.py:457-488 | VtechCrawler.crawl with its URLs, parsers and save |
| Crawlers.CrawlTechreg | scrapers/crawlers.py:576-607 | TechregCrawler.crawl with its URLs, parsers and save |
| Crawlers.WhatIsSaved | scrapers/crawlers.py:84-89 | a parsed exam detail is always saved, even with no candidate; an empty star list is not saved |
| Crawlers.CrawlCross | scrapers/crawlers.py:310-369 | CrossCrawler.crawl, corrected: the general pass, then the technical pass with flag True, whatever the general pass found |
| Crawlers.CrossCrawlAgreesWhenBound | scrapers/crawlers.py:344-369 | once the general pass has seen a department, the crawl as written is the corrected one |
| Crawlers.CrossCrawlKeepsValid | scrapers/crawlers.py:310-369 | both passes keep the tables valid and only add rows |
| Crawlers.CrawlCrossAsWritten | scrapers/crawlers.py:310-369 | CrossCrawler.crawl as written: the general pass, then the technical pass with the parsers the general pass bound, UnboundLocalError where it bound none |
| Crawlers.CrossCrawlAsWrittenKeepsValid | scrapers/crawlers.py:310-369 | the crawl as written keeps the tables valid and only adds rows, however it ends |
| Crawlers.AsWrittenWithoutGeneral | scrapers/crawlers.py:344-363 | as written, with no general university the technical pass runs with both parser variables unbound |
| Crawlers.OneRowUniversities | scrapers/webparser.py:66-91 | a one-row, two-cell university list yields the university of that pair |
| Crawlers.CrossUnboundCounterexample | scrapers/crawlers.py:344-355 | year 112, an empty general list and one technical university: as written the crawl ends in UnboundLocalError; corrected it finishes |
| Scraper.Crawl | scrapers/scraper.py:49-50 | `crawlers.get(key).crawl(year)`: each of the five keys runs its crawler (cross as written); an unknown key raises AttributeError |
| Scraper.RunEntry | scrapers/scraper.py:46-52 | the year loop of one method, with KeyError caught |
| Scraper.Run | scrapers/scraper.py:36-52 | `run`: no crawl when the landing page yields no method; otherwise one crawl per (method, year), in order |
| Scraper.EveryMethodHasCrawler | scrapers/scraper.py:20-26 | every method key the landing page can yield names one of the five crawlers |
| Scraper.RunFinishesDespiteKeyErrors | scrapers/scraper.py:48-52 | when the landing page parses and crawls raise nothing but KeyError, the run finishes: caught exceptions never end it |
| Scraper.OtherErrorsStop | scrapers/scraper.py:48-52 | any other exception ends the year loop there, and later years are not crawled |
| Scraper.CrawlKeepsValid | scrapers/scraper.py:49-50 | each crawler keeps the tables valid and only adds rows; an unknown key changes nothing |
| Scraper.YearStepKeeps | scrapers/scraper.py:46-52 | the year loop body keeps the tables valid and only adds rows |
| Scraper.RunKeepsValid | scrapers/scraper.py:36-52 | a whole run, however it ends, leaves valid tables that only grew |

## Left out

- Network I/O is left out: cloudscraper, the FlareSolverr POST, JSON decoding and timeouts. The client's attempts are an oracle, and the pages the crawlers read come from a function of the URL.
- Crawlers and the scraper do not call `HttpClient.Client.Get`. They read pages from the fetch function. So the model does not capture that a later request sends the cookies an earlier one obtained.
- `time.sleep` between retries and every logging call are left out; neither affects state.
- Text recognition and the base64 image decoding in `scrapers/ocr.py` are not part of this model. Recognition is a function parameter.
- HTML parsing is left out. A page holds only what each parser's queries select:
  - the rows of `table1`;
  - the two tables after `mainContent`;
  - the menu entries;
  - per cell: its text, first link, first image, divs, retest date, 分發錄取 mark and nested table.
- Attributes are modelled only where they can be missing (image title, parent class). A link's href and an image's src are assumed present. `.get('href')` returning None does not occur in the model.
- The table queries assume the `table1` table, the `mainContent` div and its tables are found when present. The model does not follow BeautifulSoup's document-order `find_next` into unrelated parts of a page.
- SQLAlchemy is left out: sessions, commit, flush and engine creation. The store is four in-memory tables with immediate visibility. Ids are generated from 1 in insertion order.
- Foreign keys and string column widths (`String(20)`) are not enforced by the model.
- The year is kept as the string the crawler is given. The schema declares the Year column Integer, and the model does not convert the value.
- `\d` is modelled as the ASCII digits 0 to 9. Python's `re` also accepts other Unicode decimal digits.
- `\s` and `str.strip()` share one whitespace predicate. The model does not distinguish the few characters on which Python's two definitions differ.
- Utils.Split: the separator of `clean_split` is one character. Every call site passes `' '` or `':'`.
- `main.py`, `conf/config.py` and `scrapers/meta.py` are not part of this model. They cover CLI wiring, configuration loading and a thread-locked singleton metaclass.
- `Crawler.__init__` and `Scraper.__init__` are represented only by the parser map each crawler registers (Crawlers.ParsersOf) and the five crawler keys (Scraper.IsCrawlerKey). The shared client they obtain is the Registry.
- Crawlers.CrawlCross models the corrected crawl; see Findings. The scraper runs the crawl as written (Crawlers.CrawlCrossAsWritten), and no run with the corrected crawl is modelled.
- WebParser.SchoolOfGrouped is the university reader with the corrected pattern; see Findings. The parsers and crawlers use the pattern as written (WebParser.SchoolOf), and no university list read with the corrected pattern is modelled.
- WebParser.MainTable states when the table is found, but not which table it is.
- AdmissionParsers.CrossAdmissionRow: the missing-element errors are stated in one direction only: a missing image, link or nested table raises. The department's own entry errors are stated by AdmissionParsers.SchoolEntry.
- AdmissionParsers.VtechAdmissionRow: the missing-element errors are stated in one direction only, as for the cross rows.
- WebParser.SchoolsOfRow states the number of universities of a row. Their fields are stated by WebParser.SchoolOfFields and WebParser.CellPairsAt together.

## Findings

| source | as written | input that shows it | evidently intended | confidence | as-written member | corrected member |
|---|---|---|---|---|---|---|
| scrapers/crawlers.py:344-369 | The technical pass of CrossCrawler.crawl calls `department_parser.parse` and `admission_parser.parse`. Those variables are assigned only inside the loops of the general pass. | Year "112", a general university list with no university, and a technical list with one university. Reading `department_parser` then raises UnboundLocalError, which is not KeyError, so Scraper.run also stops. | The technical pass runs with the cross parsers whatever the general pass found. | not executed | Crawlers.CrossCrawlAsWritten, Crawlers.CrawlCrossAsWritten, Crawlers.CrossUnboundCounterexample | Crawlers.CrossCrawl, Crawlers.CrawlCross, Crawlers.CrossCrawlKeepsValid |
| scrapers/utils.py:41-49 | In `(\d+)\s*(.+大學\|學院\|學校)` the alternation binds loosest. A name ending in 學院 or 學校 therefore matches only as the bare word, directly after the digits. | The university cell "002藝術學院". No match exists, the fallback split gives one piece, and unpacking it into code and name at scrapers/webparser.py:83 raises ValueError. | `(\d+)\s*(.+(?:大學\|學院\|學校))`, with a non-capturing group so that `findall` still yields pairs and the length test at scrapers/utils.py:45 passes; it reads ("002", "藝術學院"). | not executed | Utils.SplitSchoolIdNameAsWritten, Utils.IdNameCollegeCounterexample, WebParser.SchoolOf, WebParser.CollegeCellRaises | Utils.SplitSchoolIdName, Utils.IdNameCollegeGrouped, WebParser.SchoolOfGrouped |
