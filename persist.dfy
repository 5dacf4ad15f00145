/** What one `save` of a crawler does to the four tables, as functions on table contents.
  * Each step is a query for the first row with a natural key followed by an insert when there
  * is none; the schema's natural-key indexes are not unique, so uniqueness of those keys is an
  * invariant the steps keep (Valid), not something the store enforces. */
module Persist {
  import opened Wrappers
  import opened Orm

  // ---------------------------------------------------------------------------
  // Queries

  /** The index of the first element satisfying p: what `query(...).filter(...).first()` finds. */
  function FirstWhere<T>(s: seq<T>, p: T -> bool): (r: Option<nat>)
    ensures r.Some? ==> r.value < |s| && p(s[r.value])
    ensures forall k :: 0 <= k < |s| && (r.None? || k < r.value) ==> !p(s[k])
  {
    if s == [] then None
    else if p(s[0]) then Some(0)
    else match FirstWhere(s[1..], p)
      case None => None
      case Some(i) => Some(i + 1)
  }

  /** The filter of the admission type query. */
  function TypeNamed(name: string): AdmissionTypeRow -> bool {
    (x: AdmissionTypeRow) => x.name == name
  }

  /** The filter of the school department query: both codes. */
  function SchoolCoded(schoolCode: string, departCode: string): SchoolDepartmentRow -> bool {
    (x: SchoolDepartmentRow) => x.schoolCode == schoolCode && x.departCode == departCode
  }

  /** The filter of the admission list query: year, method and school department. */
  function ListKeyed(year: string, methodId: nat, schoolDepartmentId: nat): AdmissionListRow -> bool {
    (x: AdmissionListRow) => x.year == year && x.methodId == methodId && x.schoolDepartmentId == schoolDepartmentId
  }

  /** The filter of the admission person query: list id and ticket. */
  function PersonKeyed(listId: nat, ticket: string): AdmissionPersonRow -> bool {
    (x: AdmissionPersonRow) => x.admissionListId == listId && x.ticket == ticket
  }

  // ---------------------------------------------------------------------------
  // The tables and their invariant

  datatype Tables = Tables(
    types: seq<AdmissionTypeRow>,
    schools: seq<SchoolDepartmentRow>,
    lists: seq<AdmissionListRow>,
    persons: seq<AdmissionPersonRow>)

  const EmptyTables := Tables([], [], [], [])

  /** Ids are generated in insertion order from 1, and no two types share a name. */
  predicate TypesValid(types: seq<AdmissionTypeRow>) {
    && (forall i :: 0 <= i < |types| ==> types[i].id == i + 1)
    && (forall i, j :: 0 <= i < j < |types| ==> types[i].name != types[j].name)
  }

  /** No two school departments share both codes. */
  predicate SchoolsValid(schools: seq<SchoolDepartmentRow>) {
    && (forall i :: 0 <= i < |schools| ==> schools[i].id == i + 1)
    && (forall i, j :: 0 <= i < j < |schools| ==>
          schools[i].schoolCode != schools[j].schoolCode || schools[i].departCode != schools[j].departCode)
  }

  /** No two lists share (year, method, school department), and both references resolve. */
  predicate ListsValid(lists: seq<AdmissionListRow>, typeCount: nat, schoolCount: nat) {
    && (forall i :: 0 <= i < |lists| ==> lists[i].id == i + 1)
    && (forall i :: 0 <= i < |lists| ==> 1 <= lists[i].methodId <= typeCount)
    && (forall i :: 0 <= i < |lists| ==> 1 <= lists[i].schoolDepartmentId <= schoolCount)
    && (forall i, j :: 0 <= i < j < |lists| ==>
          || lists[i].year != lists[j].year
          || lists[i].methodId != lists[j].methodId
          || lists[i].schoolDepartmentId != lists[j].schoolDepartmentId)
  }

  /** No two persons share (list, ticket), every list reference resolves and every ticket
    * passed validation. */
  predicate PersonsValid(persons: seq<AdmissionPersonRow>, listCount: nat) {
    && (forall i :: 0 <= i < |persons| ==> persons[i].id == i + 1)
    && (forall i :: 0 <= i < |persons| ==> 1 <= persons[i].admissionListId <= listCount)
    && (forall i :: 0 <= i < |persons| ==> persons[i].ticket != [])
    && (forall i, j :: 0 <= i < j < |persons| ==>
          persons[i].admissionListId != persons[j].admissionListId || persons[i].ticket != persons[j].ticket)
  }

  predicate Valid(t: Tables) {
    && TypesValid(t.types)
    && SchoolsValid(t.schools)
    && ListsValid(t.lists, |t.types|, |t.schools|)
    && PersonsValid(t.persons, |t.lists|)
  }

  lemma EmptyValid()
    ensures Valid(EmptyTables)
  {
  }

  // ---------------------------------------------------------------------------
  // Steps 1 and 2: find or create

  /** Step 1: the admission type named `name`, created when there is none. Returns the new
    * table and the index of the row whose id the rest of the save uses. */
  function EnsureType(types: seq<AdmissionTypeRow>, name: string): (r: (seq<AdmissionTypeRow>, nat))
    ensures |types| <= |r.0| <= |types| + 1 && r.0[..|types|] == types
    ensures |r.0| == |types| + 1 <==> forall k :: 0 <= k < |types| ==> types[k].name != name
    ensures r.1 < |r.0| && r.0[r.1].name == name
    ensures forall k :: 0 <= k < r.1 ==> r.0[k].name != name
    ensures TypesValid(types) ==> TypesValid(r.0)
  {
    match FirstWhere(types, TypeNamed(name))
    case Some(i) => (types, i)
    case None => (types + [AdmissionTypeRow(|types| + 1, name)], |types|)
  }

  /** Step 2: the school department with both codes, created with the crawled names when there
    * is none. An existing row keeps its names. */
  function EnsureSchoolDepartment(schools: seq<SchoolDepartmentRow>, schoolCode: string, departCode: string,
                                  schoolName: string, departName: string): (r: (seq<SchoolDepartmentRow>, nat))
    ensures |schools| <= |r.0| <= |schools| + 1 && r.0[..|schools|] == schools
    ensures |r.0| == |schools| + 1 <==>
              forall k :: 0 <= k < |schools| ==> !SchoolCoded(schoolCode, departCode)(schools[k])
    ensures r.1 < |r.0| && r.0[r.1].schoolCode == schoolCode && r.0[r.1].departCode == departCode
    ensures r.1 == |schools| ==> r.0[r.1].schoolName == schoolName && r.0[r.1].departName == departName
    ensures forall k :: 0 <= k < r.1 ==> !SchoolCoded(schoolCode, departCode)(r.0[k])
    ensures SchoolsValid(schools) ==> SchoolsValid(r.0)
  {
    match FirstWhere(schools, SchoolCoded(schoolCode, departCode))
    case Some(i) => (schools, i)
    case None => (schools + [SchoolDepartmentRow(|schools| + 1, schoolCode, departCode, schoolName, departName)], |schools|)
  }

  // ---------------------------------------------------------------------------
  // Step 3: insert or update the admission list

  /** Step 3: the list with key (year, method, school department). A new row gets the patch as
    * its nullable columns; an existing row is updated in place, the patch overriding the
    * columns it names. Returns the new table and the index of the list row. */
  function UpsertList(lists: seq<AdmissionListRow>, year: string, methodId: nat, schoolDepartmentId: nat,
                      patch: map<ListColumn, string>): (r: (seq<AdmissionListRow>, nat))
    ensures |lists| <= |r.0| <= |lists| + 1
    ensures |r.0| == |lists| + 1 <==>
              forall k :: 0 <= k < |lists| ==> !ListKeyed(year, methodId, schoolDepartmentId)(lists[k])
    ensures r.1 < |r.0| && ListKeyed(year, methodId, schoolDepartmentId)(r.0[r.1])
    ensures forall k :: 0 <= k < |lists| && k != r.1 ==> r.0[k] == lists[k]
    ensures r.1 < |lists| ==> r.0[r.1] == lists[r.1].(columns := lists[r.1].columns + patch)
    ensures r.1 == |lists| ==> r.0[r.1] == AdmissionListRow(|lists| + 1, year, methodId, schoolDepartmentId, patch)
  {
    match FirstWhere(lists, ListKeyed(year, methodId, schoolDepartmentId))
    case Some(i) => (lists[i := lists[i].(columns := lists[i].columns + patch)], i)
    case None => (lists + [AdmissionListRow(|lists| + 1, year, methodId, schoolDepartmentId, patch)], |lists|)
  }

  lemma UpsertListValid(lists: seq<AdmissionListRow>, year: string, methodId: nat, schoolDepartmentId: nat,
                        patch: map<ListColumn, string>, typeCount: nat, schoolCount: nat)
    requires ListsValid(lists, typeCount, schoolCount)
    requires 1 <= methodId <= typeCount && 1 <= schoolDepartmentId <= schoolCount
    ensures ListsValid(UpsertList(lists, year, methodId, schoolDepartmentId, patch).0, typeCount, schoolCount)
  {
    var r := UpsertList(lists, year, methodId, schoolDepartmentId, patch);
    forall i, j | 0 <= i < j < |r.0|
      ensures || r.0[i].year != r.0[j].year
              || r.0[i].methodId != r.0[j].methodId
              || r.0[i].schoolDepartmentId != r.0[j].schoolDepartmentId
    {
      if j == |lists| {
        assert !ListKeyed(year, methodId, schoolDepartmentId)(lists[i]);
      }
    }
  }

  // ---------------------------------------------------------------------------
  // Step 4: insert or update the persons of the list

  /** One person record a save writes: the ticket it is looked up by and the nullable columns
    * it sets. */
  datatype PersonWrite = PersonWrite(ticket: string, patch: map<PersonColumn, string>)

  /** One iteration of the person loop: an existing (list, ticket) row is updated in place; a new
    * row is built only when validation accepts list id and ticket, and otherwise the record is
    * skipped (the ValueError is caught and logged). */
  function UpsertPerson(persons: seq<AdmissionPersonRow>, listId: nat, w: PersonWrite): (r: seq<AdmissionPersonRow>)
    ensures |persons| <= |r| <= |persons| + 1
    ensures |r| == |persons| + 1 <==>
              listId != 0 && w.ticket != [] &&
              forall k :: 0 <= k < |persons| ==> !PersonKeyed(listId, w.ticket)(persons[k])
    ensures forall k :: 0 <= k < |persons| ==>
              r[k].id == persons[k].id && r[k].admissionListId == persons[k].admissionListId && r[k].ticket == persons[k].ticket
    ensures forall k :: 0 <= k < |persons| && !PersonKeyed(listId, w.ticket)(persons[k]) ==> r[k] == persons[k]
    ensures |r| == |persons| + 1 ==> r[|persons|] == AdmissionPersonRow(|persons| + 1, listId, w.ticket, w.patch)
  {
    match FirstWhere(persons, PersonKeyed(listId, w.ticket))
    case Some(i) => persons[i := persons[i].(columns := persons[i].columns + w.patch)]
    case None =>
      match NewPersonFields(listId, w.ticket)
      case Ok(_) => persons + [AdmissionPersonRow(|persons| + 1, listId, w.ticket, w.patch)]
      case Err(_) => persons
  }

  /** The whole person loop, one record after another; each query sees the rows the earlier
    * iterations added. */
  function ApplyPersons(persons: seq<AdmissionPersonRow>, listId: nat, ws: seq<PersonWrite>): (r: seq<AdmissionPersonRow>)
    ensures |persons| <= |r| <= |persons| + |ws|
    ensures forall k :: 0 <= k < |persons| ==>
              r[k].id == persons[k].id && r[k].admissionListId == persons[k].admissionListId && r[k].ticket == persons[k].ticket
    ensures forall k :: 0 <= k < |persons| && persons[k].admissionListId != listId ==> r[k] == persons[k]
  {
    if ws == [] then persons
    else UpsertPerson(ApplyPersons(persons, listId, ws[..|ws| - 1]), listId, ws[|ws| - 1])
  }


  lemma UpsertPersonValid(persons: seq<AdmissionPersonRow>, listCount: nat, listId: nat, w: PersonWrite)
    requires PersonsValid(persons, listCount) && 1 <= listId <= listCount
    ensures PersonsValid(UpsertPerson(persons, listId, w), listCount)
  {
    var r := UpsertPerson(persons, listId, w);
    forall i, j | 0 <= i < j < |r|
      ensures r[i].admissionListId != r[j].admissionListId || r[i].ticket != r[j].ticket
    {
      if j == |persons| {
        assert !PersonKeyed(listId, w.ticket)(persons[i]);
      }
    }
  }

  /** The person loop keeps the persons table valid. */
  lemma {:induction false} ApplyPersonsValid(persons: seq<AdmissionPersonRow>, listCount: nat, listId: nat, ws: seq<PersonWrite>)
    requires PersonsValid(persons, listCount) && 1 <= listId <= listCount
    ensures PersonsValid(ApplyPersons(persons, listId, ws), listCount)
  {
    if ws != [] {
      ApplyPersonsValid(persons, listCount, listId, ws[..|ws| - 1]);
      UpsertPersonValid(ApplyPersons(persons, listId, ws[..|ws| - 1]), listCount, listId, ws[|ws| - 1]);
    }
  }

  /** Running the loop over a + b is running it over a, then over b. */
  lemma {:induction false} ApplyPersonsAppend(persons: seq<AdmissionPersonRow>, listId: nat, a: seq<PersonWrite>, b: seq<PersonWrite>)
    ensures ApplyPersons(persons, listId, a + b) == ApplyPersons(ApplyPersons(persons, listId, a), listId, b)
    decreases |b|
  {
    if b == [] {
      assert a + b == a;
    } else {
      assert (a + b)[..|a + b| - 1] == a + b[..|b| - 1];
      assert (a + b)[|a + b| - 1] == b[|b| - 1];
      ApplyPersonsAppend(persons, listId, a, b[..|b| - 1]);
    }
  }

  /** A record with an empty ticket fails validation and is skipped: the loop then does
    * exactly what it does without that record. */
  lemma EmptyTicketSkipped(persons: seq<AdmissionPersonRow>, listCount: nat, listId: nat,
                           a: seq<PersonWrite>, w: PersonWrite, b: seq<PersonWrite>)
    requires PersonsValid(persons, listCount) && 1 <= listId <= listCount
    requires w.ticket == []
    ensures ApplyPersons(persons, listId, a + [w] + b) == ApplyPersons(persons, listId, a + b)
  {
    var s := ApplyPersons(persons, listId, a);
    ApplyPersonsValid(persons, listCount, listId, a);
    assert FirstWhere(s, PersonKeyed(listId, w.ticket)).None? by {
      forall k | 0 <= k < |s| ensures !PersonKeyed(listId, w.ticket)(s[k]) {
        assert s[k].ticket != [];
      }
    }
    assert UpsertPerson(s, listId, w) == s;
    assert ApplyPersons(s, listId, [w]) == s by {
      assert [w][..0] == [];
    }
    ApplyPersonsAppend(persons, listId, a, [w]);
    ApplyPersonsAppend(persons, listId, a + [w], b);
    ApplyPersonsAppend(persons, listId, a, b);
  }

  // ---------------------------------------------------------------------------
  // What the person loop leaves behind

  /** The columns the records for `ticket` set, later records overriding earlier ones. */
  function PatchFor(ws: seq<PersonWrite>, ticket: string): map<PersonColumn, string> {
    if ws == [] then map[]
    else PatchFor(ws[..|ws| - 1], ticket) + (if ws[|ws| - 1].ticket == ticket then ws[|ws| - 1].patch else map[])
  }

  /** Some record of ws has this ticket. */
  predicate Mentions(ws: seq<PersonWrite>, ticket: string) {
    exists k :: 0 <= k < |ws| && ws[k].ticket == ticket
  }

  /** Some row of persons has key (listId, ticket). */
  predicate HasRow(persons: seq<AdmissionPersonRow>, listId: nat, ticket: string) {
    exists k :: 0 <= k < |persons| && persons[k].admissionListId == listId && persons[k].ticket == ticket
  }

  /** The row holds every column of the patch with the patch's value. */
  predicate Holds(columns: map<PersonColumn, string>, patch: map<PersonColumn, string>) {
    columns + patch == columns
  }

  lemma MapAddEmpty<K, V>(m: map<K, V>)
    ensures m + map[] == m
  {
  }

  lemma MapAddAssoc<K, V>(a: map<K, V>, b: map<K, V>, c: map<K, V>)
    ensures (a + b) + c == a + (b + c)
  {
  }

  /** A patch that already holds still holds after another patch that both sides receive. */
  lemma MapHoldsAfter<K, V>(c: map<K, V>, p: map<K, V>, w: map<K, V>)
    requires c + p == c
    ensures (c + w) + (p + w) == c + w
  {
    forall k | k in p && k !in w ensures (c + w)[k] == p[k] {
      assert (c + p)[k] == p[k];
    }
  }

  /** Applying the same patch twice is applying it once. */
  lemma MapAddTwice<K, V>(c: map<K, V>, p: map<K, V>)
    ensures (c + p) + p == c + p
  {
  }

  lemma {:induction false} PatchForUnmentioned(ws: seq<PersonWrite>, ticket: string)
    requires !Mentions(ws, ticket)
    ensures PatchFor(ws, ticket) == map[]
  {
    if ws != [] {
      var init := ws[..|ws| - 1];
      assert !Mentions(init, ticket) by {
        forall k | 0 <= k < |init| ensures init[k].ticket != ticket {
          assert init[k] == ws[k];
        }
      }
      PatchForUnmentioned(init, ticket);
    }
  }

  /** After the loop, every non-empty ticket of the records has its row. */
  lemma {:induction false} ApplyPersonsCovers(persons: seq<AdmissionPersonRow>, listCount: nat, listId: nat,
                                              ws: seq<PersonWrite>, ticket: string)
    requires PersonsValid(persons, listCount) && 1 <= listId <= listCount
    requires Mentions(ws, ticket) && ticket != []
    ensures HasRow(ApplyPersons(persons, listId, ws), listId, ticket)
  {
    var init, w := ws[..|ws| - 1], ws[|ws| - 1];
    var s := ApplyPersons(persons, listId, init);
    if w.ticket == ticket {
      match FirstWhere(s, PersonKeyed(listId, ticket))
      case Some(i) =>
        assert UpsertPerson(s, listId, w)[i].ticket == ticket;
      case None =>
        assert UpsertPerson(s, listId, w)[|s|].ticket == ticket;
    } else {
      var k :| 0 <= k < |ws| && ws[k].ticket == ticket;
      assert init[k] == ws[k];
      ApplyPersonsCovers(persons, listCount, listId, init, ticket);
      var j :| 0 <= j < |s| && s[j].admissionListId == listId && s[j].ticket == ticket;
      assert UpsertPerson(s, listId, w)[j].ticket == ticket;
    }
  }

  /** One iteration on a row that was already there: it keeps what it held, and also holds the
    * record's patch when the record names its ticket. */
  lemma UpsertPersonKeepsHolds(s: seq<AdmissionPersonRow>, listCount: nat, listId: nat, w: PersonWrite,
                               k: nat, p: map<PersonColumn, string>)
    requires PersonsValid(s, listCount)
    requires k < |s| && s[k].admissionListId == listId && Holds(s[k].columns, p)
    ensures var r := UpsertPerson(s, listId, w);
            Holds(r[k].columns, p + (if w.ticket == s[k].ticket then w.patch else map[]))
  {
    var r := UpsertPerson(s, listId, w);
    var c := s[k].columns;
    if w.ticket == s[k].ticket {
      assert FirstWhere(s, PersonKeyed(listId, w.ticket)) == Some(k);
      assert r[k].columns == c + w.patch;
      MapHoldsAfter(c, p, w.patch);
    } else {
      assert r[k] == s[k];
      MapAddEmpty(p);
    }
  }

  /** Every row of list listId holds the combined patch of its ticket over the records ws. */
  predicate AllHold(s: seq<AdmissionPersonRow>, listId: nat, ws: seq<PersonWrite>) {
    forall j :: 0 <= j < |s| && s[j].admissionListId == listId ==> Holds(s[j].columns, PatchFor(ws, s[j].ticket))
  }

  /** One iteration of the person loop keeps every row of the list holding its combined patch,
    * provided a ticket earlier records name already has its row. */
  lemma UpsertPersonAllHold(s: seq<AdmissionPersonRow>, listCount: nat, listId: nat,
                            init: seq<PersonWrite>, w: PersonWrite)
    requires PersonsValid(s, listCount) && AllHold(s, listId, init)
    requires w.ticket != [] && Mentions(init, w.ticket) ==> HasRow(s, listId, w.ticket)
    ensures AllHold(UpsertPerson(s, listId, w), listId, init + [w])
  {
    var r := UpsertPerson(s, listId, w);
    var ws := init + [w];
    assert ws[..|ws| - 1] == init && ws[|ws| - 1] == w;
    forall j | 0 <= j < |r| && r[j].admissionListId == listId
      ensures Holds(r[j].columns, PatchFor(ws, r[j].ticket))
    {
      var ticket := r[j].ticket;
      assert PatchFor(ws, ticket) == PatchFor(init, ticket) + (if w.ticket == ticket then w.patch else map[]);
      if j < |s| {
        UpsertPersonKeepsHolds(s, listCount, listId, w, j, PatchFor(init, ticket));
      } else {
        assert r[j] == AdmissionPersonRow(|s| + 1, listId, w.ticket, w.patch);
        PatchForUnmentioned(init, w.ticket);
        assert PatchFor(ws, w.ticket) == map[] + w.patch;
      }
    }
  }

  /** The person loop keeps every row of the list holding the combined patch of its ticket. */
  lemma {:induction false} ApplyPersonsAllHold(persons: seq<AdmissionPersonRow>, listCount: nat, listId: nat,
                                               ws: seq<PersonWrite>)
    requires PersonsValid(persons, listCount) && 1 <= listId <= listCount
    ensures AllHold(ApplyPersons(persons, listId, ws), listId, ws)
  {
    if ws == [] {
      forall j | 0 <= j < |persons| { MapAddEmpty(persons[j].columns); }
    } else {
      var init, w := ws[..|ws| - 1], ws[|ws| - 1];
      var s := ApplyPersons(persons, listId, init);
      ApplyPersonsAllHold(persons, listCount, listId, init);
      ApplyPersonsValid(persons, listCount, listId, init);
      if w.ticket != [] && Mentions(init, w.ticket) {
        ApplyPersonsCovers(persons, listCount, listId, init, w.ticket);
      }
      UpsertPersonAllHold(s, listCount, listId, init, w);
      assert init + [w] == ws;
    }
  }

  /** After the loop, every row of the list holds the combined patch of its ticket. */
  lemma ApplyPersonsHolds(persons: seq<AdmissionPersonRow>, listCount: nat, listId: nat,
                          ws: seq<PersonWrite>, k: nat)
    requires PersonsValid(persons, listCount) && 1 <= listId <= listCount
    requires k < |ApplyPersons(persons, listId, ws)|
    requires ApplyPersons(persons, listId, ws)[k].admissionListId == listId
    ensures var row := ApplyPersons(persons, listId, ws)[k]; Holds(row.columns, PatchFor(ws, row.ticket))
  {
    ApplyPersonsAllHold(persons, listCount, listId, ws);
  }

  /** The rows of persons with the combined patch of each ticket applied to the rows of the list. */
  function Overlay(persons: seq<AdmissionPersonRow>, listId: nat, ws: seq<PersonWrite>): (r: seq<AdmissionPersonRow>)
    ensures |r| == |persons|
  {
    seq(|persons|, i requires 0 <= i < |persons| =>
      if persons[i].admissionListId == listId
      then persons[i].(columns := persons[i].columns + PatchFor(ws, persons[i].ticket))
      else persons[i])
  }

  /** A record with an empty ticket leaves the overlay as it is. */
  lemma OverlayStepRejected(persons: seq<AdmissionPersonRow>, listCount: nat, listId: nat,
                            init: seq<PersonWrite>, w: PersonWrite)
    requires PersonsValid(persons, listCount) && w.ticket == []
    ensures UpsertPerson(Overlay(persons, listId, init), listId, w) == Overlay(persons, listId, init + [w])
  {
    var o := Overlay(persons, listId, init);
    var ws := init + [w];
    assert ws[..|ws| - 1] == init;
    assert FirstWhere(o, PersonKeyed(listId, w.ticket)).None? by {
      forall k | 0 <= k < |o| ensures !PersonKeyed(listId, w.ticket)(o[k]) {
        assert persons[k].ticket != [];
      }
    }
    forall i | 0 <= i < |persons| ensures Overlay(persons, listId, ws)[i] == o[i] {
      assert persons[i].ticket != w.ticket;
      MapAddEmpty(PatchFor(init, persons[i].ticket));
    }
  }

  /** A record whose row exists adds its patch to that row of the overlay. */
  lemma OverlayStepPresent(persons: seq<AdmissionPersonRow>, listCount: nat, listId: nat,
                           init: seq<PersonWrite>, w: PersonWrite, j: nat)
    requires PersonsValid(persons, listCount)
    requires j < |persons| && persons[j].admissionListId == listId && persons[j].ticket == w.ticket
    ensures UpsertPerson(Overlay(persons, listId, init), listId, w) == Overlay(persons, listId, init + [w])
  {
    var o := Overlay(persons, listId, init);
    var ws := init + [w];
    assert ws[..|ws| - 1] == init;
    var r := UpsertPerson(o, listId, w);
    assert FirstWhere(o, PersonKeyed(listId, w.ticket)) == Some(j) by {
      assert PersonKeyed(listId, w.ticket)(o[j]);
    }
    forall i | 0 <= i < |persons| ensures Overlay(persons, listId, ws)[i] == r[i] {
      if i == j {
        MapAddAssoc(persons[j].columns, PatchFor(init, w.ticket), w.patch);
      } else if persons[i].admissionListId == listId {
        assert persons[i].ticket != w.ticket;
        MapAddEmpty(PatchFor(init, persons[i].ticket));
      }
    }
  }

  /** When every record's row already exists, the loop inserts nothing and only overlays the
    * records' columns. */
  lemma {:induction false} ApplyPersonsOverlay(persons: seq<AdmissionPersonRow>, listCount: nat, listId: nat,
                                               ws: seq<PersonWrite>)
    requires PersonsValid(persons, listCount)
    requires forall t :: Mentions(ws, t) && t != [] ==> HasRow(persons, listId, t)
    ensures ApplyPersons(persons, listId, ws) == Overlay(persons, listId, ws)
  {
    if ws == [] {
      forall i | 0 <= i < |persons| ensures Overlay(persons, listId, ws)[i] == persons[i] {
        MapAddEmpty(persons[i].columns);
      }
    } else {
      var init, w := ws[..|ws| - 1], ws[|ws| - 1];
      assert init + [w] == ws;
      forall t | Mentions(init, t) && t != [] ensures HasRow(persons, listId, t) {
        var k :| 0 <= k < |init| && init[k].ticket == t;
        assert ws[k].ticket == t;
      }
      ApplyPersonsOverlay(persons, listCount, listId, init);
      if w.ticket == [] {
        OverlayStepRejected(persons, listCount, listId, init, w);
      } else {
        assert Mentions(ws, w.ticket);
        var j :| 0 <= j < |persons| && persons[j].admissionListId == listId && persons[j].ticket == w.ticket;
        OverlayStepPresent(persons, listCount, listId, init, w, j);
      }
    }
  }

  /** The person loop is idempotent: running it again over the same records changes nothing. */
  lemma ApplyPersonsIdempotent(persons: seq<AdmissionPersonRow>, listCount: nat, listId: nat, ws: seq<PersonWrite>)
    requires PersonsValid(persons, listCount) && 1 <= listId <= listCount
    ensures ApplyPersons(ApplyPersons(persons, listId, ws), listId, ws) == ApplyPersons(persons, listId, ws)
  {
    var s := ApplyPersons(persons, listId, ws);
    ApplyPersonsValid(persons, listCount, listId, ws);
    forall t | Mentions(ws, t) && t != [] ensures HasRow(s, listId, t) {
      ApplyPersonsCovers(persons, listCount, listId, ws, t);
    }
    ApplyPersonsOverlay(s, listCount, listId, ws);
    forall k | 0 <= k < |s| ensures Overlay(s, listId, ws)[k] == s[k] {
      if s[k].admissionListId == listId {
        ApplyPersonsHolds(persons, listCount, listId, ws, k);
      }
    }
  }

  lemma MapHoldsPart<K, V>(c: map<K, V>, p: map<K, V>, w: map<K, V>)
    requires c + (p + w) == c
    ensures c + w == c
  {
    forall k | k in w ensures c[k] == w[k] {
      assert (c + (p + w))[k] == w[k];
    }
  }

  lemma {:induction false} PatchForAppendUnmentioned(a: seq<PersonWrite>, b: seq<PersonWrite>, ticket: string)
    requires !Mentions(b, ticket)
    ensures PatchFor(a + b, ticket) == PatchFor(a, ticket)
    decreases |b|
  {
    if b == [] {
      assert a + b == a;
    } else {
      var init := b[..|b| - 1];
      assert (a + b)[..|a + b| - 1] == a + init;
      assert (a + b)[|a + b| - 1] == b[|b| - 1];
      assert !Mentions(init, ticket) by {
        forall k | 0 <= k < |init| ensures init[k].ticket != ticket {
          assert init[k] == b[k];
        }
      }
      PatchForAppendUnmentioned(a, init, ticket);
      MapAddEmpty(PatchFor(a + init, ticket));
    }
  }

  /** Last write wins: the row of a ticket holds the columns of the last record with that
    * ticket, whatever the earlier records set. */
  lemma LastWriteWins(persons: seq<AdmissionPersonRow>, listCount: nat, listId: nat,
                      a: seq<PersonWrite>, w: PersonWrite, b: seq<PersonWrite>)
    requires PersonsValid(persons, listCount) && 1 <= listId <= listCount
    requires w.ticket != [] && !Mentions(b, w.ticket)
    ensures var r := ApplyPersons(persons, listId, a + [w] + b);
            && HasRow(r, listId, w.ticket)
            && forall k :: 0 <= k < |r| && r[k].admissionListId == listId && r[k].ticket == w.ticket ==>
                 Holds(r[k].columns, w.patch)
  {
    var ws := a + [w] + b;
    var r := ApplyPersons(persons, listId, ws);
    assert ws[|a|] == w;
    ApplyPersonsCovers(persons, listCount, listId, ws, w.ticket);
    PatchForAppendUnmentioned(a + [w], b, w.ticket);
    assert (a + [w])[..|a + [w]| - 1] == a;
    forall k | 0 <= k < |r| && r[k].admissionListId == listId && r[k].ticket == w.ticket
      ensures Holds(r[k].columns, w.patch)
    {
      ApplyPersonsHolds(persons, listCount, listId, ws, k);
      MapHoldsPart(r[k].columns, PatchFor(a, w.ticket), w.patch);
    }
  }

  /** When every record sets column `col` to v, so does the combined patch of any ticket they
    * mention. */
  lemma {:induction false} PatchForUniform(ws: seq<PersonWrite>, ticket: string, col: PersonColumn, v: string)
    requires forall k :: 0 <= k < |ws| ==> col in ws[k].patch && ws[k].patch[col] == v
    requires Mentions(ws, ticket)
    ensures col in PatchFor(ws, ticket) && PatchFor(ws, ticket)[col] == v
  {
    var init, w := ws[..|ws| - 1], ws[|ws| - 1];
    if w.ticket != ticket {
      var k :| 0 <= k < |ws| && ws[k].ticket == ticket;
      assert init[k] == ws[k];
      PatchForUniform(init, ticket, col, v);
    }
  }

  /** When every record sets column `col` to v, every row of the list that a record names ends
    * up with v in that column. */
  lemma UniformColumn(persons: seq<AdmissionPersonRow>, listCount: nat, listId: nat,
                      ws: seq<PersonWrite>, col: PersonColumn, v: string)
    requires PersonsValid(persons, listCount) && 1 <= listId <= listCount
    requires forall k :: 0 <= k < |ws| ==> col in ws[k].patch && ws[k].patch[col] == v
    ensures var r := ApplyPersons(persons, listId, ws);
            forall k :: 0 <= k < |r| && r[k].admissionListId == listId && Mentions(ws, r[k].ticket) ==>
              col in r[k].columns && r[k].columns[col] == v
  {
    var r := ApplyPersons(persons, listId, ws);
    forall k | 0 <= k < |r| && r[k].admissionListId == listId && Mentions(ws, r[k].ticket)
      ensures col in r[k].columns && r[k].columns[col] == v
    {
      ApplyPersonsHolds(persons, listCount, listId, ws, k);
      PatchForUniform(ws, r[k].ticket, col, v);
      assert (r[k].columns + PatchFor(ws, r[k].ticket))[col] == v;
    }
  }

  // ---------------------------------------------------------------------------
  // A whole save

  /** What a crawler's save is called with, once its fields have been picked: the admission
    * type label, the year, the school department, the columns the list row gets, and the
    * person records in loop order. */
  datatype SaveRequest = SaveRequest(
    typeName: string,
    year: string,
    schoolCode: string,
    departCode: string,
    schoolName: string,
    departName: string,
    listPatch: map<ListColumn, string>,
    persons: seq<PersonWrite>)

  /** Steps 1 to 3 of a save: the tables with the type, school department and list in place,
    * and the index of the list row the persons are filed under. */
  function ListSteps(t: Tables, q: SaveRequest): (r: (Tables, nat))
    ensures r.1 < |r.0.lists| && r.0.persons == t.persons
  {
    var (types, m) := EnsureType(t.types, q.typeName);
    var (schools, s) := EnsureSchoolDepartment(t.schools, q.schoolCode, q.departCode, q.schoolName, q.departName);
    var (lists, l) := UpsertList(t.lists, q.year, types[m].id, schools[s].id, q.listPatch);
    (Tables(types, schools, lists, t.persons), l)
  }

  /** The id of the list row a save files its persons under. */
  function SavedListId(t: Tables, q: SaveRequest): nat {
    var s := ListSteps(t, q);
    s.0.lists[s.1].id
  }

  /** The four steps of a save, in order. */
  function SaveSpec(t: Tables, q: SaveRequest): Tables {
    ListSteps(t, q).0.(persons := ApplyPersons(t.persons, SavedListId(t, q), q.persons))
  }

  /** Each table grows by at most one row in a save, except the persons table, which grows by
    * at most one row per record; existing type and school department rows are never changed,
    * and a type or school department row is added exactly when none has its natural key. */
  lemma SaveSpecGrowth(t: Tables, q: SaveRequest)
    ensures var r := SaveSpec(t, q);
            && |t.types| <= |r.types| <= |t.types| + 1 && r.types[..|t.types|] == t.types
            && (|r.types| == |t.types| + 1 <==> forall k :: 0 <= k < |t.types| ==> t.types[k].name != q.typeName)
            && |t.schools| <= |r.schools| <= |t.schools| + 1 && r.schools[..|t.schools|] == t.schools
            && (|r.schools| == |t.schools| + 1 <==>
                  forall k :: 0 <= k < |t.schools| ==> !SchoolCoded(q.schoolCode, q.departCode)(t.schools[k]))
            && |t.lists| <= |r.lists| <= |t.lists| + 1
            && |t.persons| <= |r.persons| <= |t.persons| + |q.persons|
  {
  }

  /** A save keeps the tables valid: in particular it never creates a second row with the
    * natural key of an existing one, although the schema would allow it. */
  lemma SaveValid(t: Tables, q: SaveRequest)
    requires Valid(t)
    ensures Valid(SaveSpec(t, q))
  {
    var (types, m) := EnsureType(t.types, q.typeName);
    var (schools, s) := EnsureSchoolDepartment(t.schools, q.schoolCode, q.departCode, q.schoolName, q.departName);
    UpsertListValid(t.lists, q.year, types[m].id, schools[s].id, q.listPatch, |types|, |schools|);
    var (lists, l) := UpsertList(t.lists, q.year, types[m].id, schools[s].id, q.listPatch);
    ApplyPersonsValid(t.persons, |lists|, lists[l].id, q.persons);
  }

  lemma EnsureTypeTwice(types: seq<AdmissionTypeRow>, name: string)
    ensures EnsureType(EnsureType(types, name).0, name) == EnsureType(types, name)
  {
    var (r, m) := EnsureType(types, name);
    assert TypeNamed(name)(r[m]);
  }

  lemma EnsureSchoolDepartmentTwice(schools: seq<SchoolDepartmentRow>, schoolCode: string, departCode: string,
                                    schoolName: string, departName: string)
    ensures var r := EnsureSchoolDepartment(schools, schoolCode, departCode, schoolName, departName);
            EnsureSchoolDepartment(r.0, schoolCode, departCode, schoolName, departName) == r
  {
    var (r, s) := EnsureSchoolDepartment(schools, schoolCode, departCode, schoolName, departName);
    assert SchoolCoded(schoolCode, departCode)(r[s]);
  }

  lemma UpsertListTwice(lists: seq<AdmissionListRow>, year: string, methodId: nat, schoolDepartmentId: nat,
                        patch: map<ListColumn, string>, typeCount: nat, schoolCount: nat)
    requires ListsValid(lists, typeCount, schoolCount)
    requires 1 <= methodId <= typeCount && 1 <= schoolDepartmentId <= schoolCount
    ensures var r := UpsertList(lists, year, methodId, schoolDepartmentId, patch);
            UpsertList(r.0, year, methodId, schoolDepartmentId, patch) == r
  {
    var (r, l) := UpsertList(lists, year, methodId, schoolDepartmentId, patch);
    UpsertListValid(lists, year, methodId, schoolDepartmentId, patch, typeCount, schoolCount);
    var key := ListKeyed(year, methodId, schoolDepartmentId);
    assert key(r[l]);
    assert FirstWhere(r, key) == Some(l);
    if l < |lists| {
      MapAddTwice(lists[l].columns, patch);
    } else {
      MapAddTwice(map[], patch);
      assert map[] + patch == patch;
    }
    assert r[l].columns + patch == r[l].columns;
    assert r[l := r[l].(columns := r[l].columns + patch)] == r;
  }

  /** Steps 1 to 3 run a second time find every row the first run left and change nothing. */
  lemma ListStepsTwice(t: Tables, q: SaveRequest)
    requires Valid(t)
    ensures ListSteps(ListSteps(t, q).0, q) == ListSteps(t, q)
  {
    var (types, m) := EnsureType(t.types, q.typeName);
    var (schools, s) := EnsureSchoolDepartment(t.schools, q.schoolCode, q.departCode, q.schoolName, q.departName);
    EnsureTypeTwice(t.types, q.typeName);
    EnsureSchoolDepartmentTwice(t.schools, q.schoolCode, q.departCode, q.schoolName, q.departName);
    UpsertListTwice(t.lists, q.year, types[m].id, schools[s].id, q.listPatch, |types|, |schools|);
  }

  /** Steps 1 to 3 do not read the persons table. */
  lemma ListStepsIgnorePersons(t: Tables, q: SaveRequest, p: seq<AdmissionPersonRow>)
    ensures ListSteps(t.(persons := p), q) == (ListSteps(t, q).0.(persons := p), ListSteps(t, q).1)
  {
  }

  /** Saving the same data twice is saving it once: the second call adds no row to any table
    * and leaves every value as the first call left it. */
  lemma SaveIdempotent(t: Tables, q: SaveRequest)
    requires Valid(t)
    ensures SaveSpec(SaveSpec(t, q), q) == SaveSpec(t, q)
  {
    var s := ListSteps(t, q);
    var id := SavedListId(t, q);
    var persons := ApplyPersons(t.persons, id, q.persons);
    var t1 := SaveSpec(t, q);
    assert t1 == s.0.(persons := persons);
    ListStepsTwice(t, q);
    ListStepsIgnorePersons(s.0, q, persons);
    assert ListSteps(t1, q) == (t1, s.1);
    assert SavedListId(t1, q) == id;
    SavedPersons(t, q);
    ApplyPersonsIdempotent(t.persons, |s.0.lists|, id, q.persons);
  }

  /** Steps 1 to 3 leave the list row at index l with id l + 1 and with the save's year, type
    * and school department. */
  lemma ListStepsKey(t: Tables, q: SaveRequest)
    requires Valid(t)
    ensures var (u, l) := ListSteps(t, q);
            && u.lists[l].id == l + 1
            && u.lists[l].year == q.year
            && 1 <= u.lists[l].methodId <= |u.types| && u.types[u.lists[l].methodId - 1].name == q.typeName
            && 1 <= u.lists[l].schoolDepartmentId <= |u.schools|
            && u.schools[u.lists[l].schoolDepartmentId - 1].schoolCode == q.schoolCode
            && u.schools[u.lists[l].schoolDepartmentId - 1].departCode == q.departCode
  {
    var (types, m) := EnsureType(t.types, q.typeName);
    assert types[m].id == m + 1;
    var (schools, s) := EnsureSchoolDepartment(t.schools, q.schoolCode, q.departCode, q.schoolName, q.departName);
    assert schools[s].id == s + 1;
    var (lists, l) := UpsertList(t.lists, q.year, m + 1, s + 1, q.listPatch);
    assert ListKeyed(q.year, m + 1, s + 1)(lists[l]);
    if l < |t.lists| {
      assert lists[l].id == t.lists[l].id;
    }
  }

  /** Steps 1 to 3 override the earlier columns of list row l by the patch (none earlier when
    * the row is new) and change no other list row. */
  lemma ListStepsColumns(t: Tables, q: SaveRequest)
    ensures var (u, l) := ListSteps(t, q);
            && u.lists[l].columns == (if l < |t.lists| then t.lists[l].columns else map[]) + q.listPatch
            && forall k :: 0 <= k < |t.lists| && k != l ==> u.lists[k] == t.lists[k]
  {
    var (types, m) := EnsureType(t.types, q.typeName);
    var (schools, s) := EnsureSchoolDepartment(t.schools, q.schoolCode, q.departCode, q.schoolName, q.departName);
    var (lists, l) := UpsertList(t.lists, q.year, types[m].id, schools[s].id, q.listPatch);
    if l == |t.lists| {
      assert map[] + q.listPatch == q.listPatch;
    }
  }

  /** The list row a save files its persons under: it has the save's year, type and school
    * department, its nullable columns are the earlier ones overridden by the patch (none
    * earlier when it is new), and no other list row changes. */
  lemma SavedListRow(t: Tables, q: SaveRequest)
    requires Valid(t)
    ensures var r := SaveSpec(t, q); var i := SavedListId(t, q) - 1;
            && 0 <= i < |r.lists|
            && r.lists[i].year == q.year
            && 1 <= r.lists[i].methodId <= |r.types| && r.types[r.lists[i].methodId - 1].name == q.typeName
            && 1 <= r.lists[i].schoolDepartmentId <= |r.schools|
            && r.schools[r.lists[i].schoolDepartmentId - 1].schoolCode == q.schoolCode
            && r.schools[r.lists[i].schoolDepartmentId - 1].departCode == q.departCode
            && r.lists[i].columns == (if i < |t.lists| then t.lists[i].columns else map[]) + q.listPatch
            && forall k :: 0 <= k < |t.lists| && k != i ==> r.lists[k] == t.lists[k]
  {
    var (u, l) := ListSteps(t, q);
    ListStepsKey(t, q);
    ListStepsColumns(t, q);
    var r := SaveSpec(t, q);
    assert r.types == u.types && r.schools == u.schools && r.lists == u.lists;
    assert SavedListId(t, q) - 1 == l;
  }

  /** The saved list row holds every column of the save's patch with the patch's value. */
  lemma SavedListHoldsPatch(t: Tables, q: SaveRequest)
    requires Valid(t)
    ensures var r := SaveSpec(t, q); var i := SavedListId(t, q) - 1;
            && 0 <= i < |r.lists|
            && forall c :: c in q.listPatch ==> c in r.lists[i].columns && r.lists[i].columns[c] == q.listPatch[c]
  {
    SavedListRow(t, q);
  }

  /** The persons step of a save runs the person loop on the old persons table, under a list
    * id that the tables after steps 1 to 3 resolve. */
  lemma SavedPersons(t: Tables, q: SaveRequest)
    requires Valid(t)
    ensures var n := |ListSteps(t, q).0.lists|;
            && PersonsValid(t.persons, n) && 1 <= SavedListId(t, q) <= n
            && SaveSpec(t, q).persons == ApplyPersons(t.persons, SavedListId(t, q), q.persons)
  {
    ListStepsKey(t, q);
    var (u, l) := ListSteps(t, q);
    assert |t.lists| <= |u.lists|;
  }

  /** When every person record of a save sets column `col` to v, every row of the saved list
    * that a record names holds v there afterwards. */
  lemma SaveUniformColumn(t: Tables, q: SaveRequest, col: PersonColumn, v: string)
    requires Valid(t)
    requires forall k :: 0 <= k < |q.persons| ==> col in q.persons[k].patch && q.persons[k].patch[col] == v
    ensures var r := SaveSpec(t, q);
            forall k :: 0 <= k < |r.persons| && r.persons[k].admissionListId == SavedListId(t, q) &&
                        Mentions(q.persons, r.persons[k].ticket) ==>
              col in r.persons[k].columns && r.persons[k].columns[col] == v
  {
    SavedPersons(t, q);
    UniformColumn(t.persons, |ListSteps(t, q).0.lists|, SavedListId(t, q), q.persons, col, v);
  }

  /** When every record sets columns c1 and c2 to the same value, so does the combined patch. */
  lemma {:induction false} PatchForPaired(ws: seq<PersonWrite>, ticket: string, c1: PersonColumn, c2: PersonColumn)
    requires forall k :: 0 <= k < |ws| ==> c1 in ws[k].patch && c2 in ws[k].patch && ws[k].patch[c1] == ws[k].patch[c2]
    requires Mentions(ws, ticket)
    ensures c1 in PatchFor(ws, ticket) && c2 in PatchFor(ws, ticket) && PatchFor(ws, ticket)[c1] == PatchFor(ws, ticket)[c2]
  {
    var init, w := ws[..|ws| - 1], ws[|ws| - 1];
    if w.ticket != ticket {
      var k :| 0 <= k < |ws| && ws[k].ticket == ticket;
      assert init[k] == ws[k];
      PatchForPaired(init, ticket, c1, c2);
    }
  }

  /** When every record sets c1 and c2 to the same value, every row of the list that a record
    * names agrees on the two columns after the loop. */
  lemma PairedColumns(persons: seq<AdmissionPersonRow>, listCount: nat, listId: nat,
                      ws: seq<PersonWrite>, c1: PersonColumn, c2: PersonColumn)
    requires PersonsValid(persons, listCount) && 1 <= listId <= listCount
    requires forall k :: 0 <= k < |ws| ==> c1 in ws[k].patch && c2 in ws[k].patch && ws[k].patch[c1] == ws[k].patch[c2]
    ensures var r := ApplyPersons(persons, listId, ws);
            forall k :: 0 <= k < |r| && r[k].admissionListId == listId && Mentions(ws, r[k].ticket) ==>
              c1 in r[k].columns && c2 in r[k].columns && r[k].columns[c1] == r[k].columns[c2]
  {
    var r := ApplyPersons(persons, listId, ws);
    forall k | 0 <= k < |r| && r[k].admissionListId == listId && Mentions(ws, r[k].ticket)
      ensures c1 in r[k].columns && c2 in r[k].columns && r[k].columns[c1] == r[k].columns[c2]
    {
      ApplyPersonsHolds(persons, listCount, listId, ws, k);
      var p := PatchFor(ws, r[k].ticket);
      PatchForPaired(ws, r[k].ticket, c1, c2);
      assert (r[k].columns + p)[c1] == p[c1];
      assert (r[k].columns + p)[c2] == p[c2];
    }
  }

  /** The same for a whole save. */
  lemma SavePairedColumns(t: Tables, q: SaveRequest, c1: PersonColumn, c2: PersonColumn)
    requires Valid(t)
    requires forall k :: 0 <= k < |q.persons| ==>
               c1 in q.persons[k].patch && c2 in q.persons[k].patch && q.persons[k].patch[c1] == q.persons[k].patch[c2]
    ensures var r := SaveSpec(t, q);
            forall k :: 0 <= k < |r.persons| && r.persons[k].admissionListId == SavedListId(t, q) &&
                        Mentions(q.persons, r.persons[k].ticket) ==>
              c1 in r.persons[k].columns && c2 in r.persons[k].columns &&
              r.persons[k].columns[c1] == r.persons[k].columns[c2]
  {
    SavedPersons(t, q);
    PairedColumns(t.persons, |ListSteps(t, q).0.lists|, SavedListId(t, q), q.persons, c1, c2);
  }

  /** A save whose list patch is empty changes no existing list row. */
  lemma EmptyPatchKeepsLists(t: Tables, q: SaveRequest)
    requires q.listPatch == map[]
    ensures forall k :: 0 <= k < |t.lists| ==> SaveSpec(t, q).lists[k] == t.lists[k]
  {
    ListStepsColumns(t, q);
    var (u, l) := ListSteps(t, q);
    assert SaveSpec(t, q).lists == u.lists;
    if l < |t.lists| {
      MapAddEmpty(t.lists[l].columns);
      assert u.lists[l] == t.lists[l];
    }
  }
}
