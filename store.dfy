/** The database a crawler's session writes to: the four tables, changed query by query, as
  * the crawlers' `save` methods do. Every method is proved to leave exactly the tables the
  * functions of Persist describe. */
module Store {
  import opened Wrappers
  import opened Orm
  import opened Persist
  import opened Records
  import opened Saves

  /** `query(...).filter(p).first()`: a scan for the first row satisfying p. */
  method First<T>(s: seq<T>, p: T -> bool) returns (r: Option<nat>)
    ensures r == FirstWhere(s, p)
  {
    var i := 0;
    while i < |s| && !p(s[i])
      invariant 0 <= i <= |s|
      invariant forall k :: 0 <= k < i ==> !p(s[k])
    {
      i := i + 1;
    }
    r := if i < |s| then Some(i) else None;
  }

  /** The session's view of the database; with autoflush every query sees every earlier add. */
  class Database {
    var types: seq<AdmissionTypeRow>
    var schools: seq<SchoolDepartmentRow>
    var lists: seq<AdmissionListRow>
    var persons: seq<AdmissionPersonRow>

    function Contents(): Tables
      reads this
    {
      Tables(types, schools, lists, persons)
    }

    /** A database created from the ORM metadata: four empty tables. */
    constructor ()
      ensures Contents() == EmptyTables
    {
      types, schools, lists, persons := [], [], [], [];
    }

    /** Step 1: query the type by name; add it when missing, then query it again. */
    method FindOrAddType(name: string) returns (m: nat)
      modifies this
      ensures (types, m) == EnsureType(old(types), name)
      ensures schools == old(schools) && lists == old(lists) && persons == old(persons)
    {
      var f := First(types, TypeNamed(name));
      if f.None? {
        types := types + [AdmissionTypeRow(|types| + 1, name)];
        assert TypeNamed(name)(types[|types| - 1]);
        f := First(types, TypeNamed(name));
      }
      m := f.value;
    }

    /** Step 2: query the school department by both codes; add it when missing, then query again. */
    method FindOrAddSchoolDepartment(schoolCode: string, departCode: string, schoolName: string, departName: string)
      returns (s: nat)
      modifies this
      ensures (schools, s) == EnsureSchoolDepartment(old(schools), schoolCode, departCode, schoolName, departName)
      ensures types == old(types) && lists == old(lists) && persons == old(persons)
    {
      var f := First(schools, SchoolCoded(schoolCode, departCode));
      if f.None? {
        schools := schools + [SchoolDepartmentRow(|schools| + 1, schoolCode, departCode, schoolName, departName)];
        assert SchoolCoded(schoolCode, departCode)(schools[|schools| - 1]);
        f := First(schools, SchoolCoded(schoolCode, departCode));
      }
      s := f.value;
    }

    /** Step 3: add the list when its key is missing (and query it again), otherwise update the
      * row found with the patch. */
    method UpsertListRow(year: string, methodId: nat, schoolDepartmentId: nat, patch: map<ListColumn, string>)
      returns (l: nat)
      modifies this
      ensures (lists, l) == UpsertList(old(lists), year, methodId, schoolDepartmentId, patch)
      ensures types == old(types) && schools == old(schools) && persons == old(persons)
    {
      var key := ListKeyed(year, methodId, schoolDepartmentId);
      var f := First(lists, key);
      if f.None? {
        lists := lists + [AdmissionListRow(|lists| + 1, year, methodId, schoolDepartmentId, patch)];
        assert key(lists[|lists| - 1]);
        f := First(lists, key);
        l := f.value;
      } else {
        l := f.value;
        lists := lists[l := lists[l].(columns := lists[l].columns + patch)];
      }
    }

    /** One iteration of a person loop: update the row of (list, ticket) when there is one;
      * otherwise build the person, which validation may refuse, and add it. */
    method UpsertPersonRow(listId: nat, w: PersonWrite)
      modifies this
      ensures persons == UpsertPerson(old(persons), listId, w)
      ensures types == old(types) && schools == old(schools) && lists == old(lists)
    {
      var f := First(persons, PersonKeyed(listId, w.ticket));
      if f.Some? {
        var i := f.value;
        persons := persons[i := persons[i].(columns := persons[i].columns + w.patch)];
      } else {
        var fields := NewPersonFields(listId, w.ticket);
        if fields.Ok? {
          persons := persons + [AdmissionPersonRow(|persons| + 1, listId, w.ticket, w.patch)];
        }
      }
    }

    /** Steps 1 to 3 of a save. Returns the id of the list row the persons are filed under. */
    method SaveList(q: SaveRequest) returns (listId: nat)
      modifies this
      ensures Contents() == ListSteps(old(Contents()), q).0
      ensures listId == SavedListId(old(Contents()), q)
    {
      var m := FindOrAddType(q.typeName);
      var s := FindOrAddSchoolDepartment(q.schoolCode, q.departCode, q.schoolName, q.departName);
      var l := UpsertListRow(q.year, types[m].id, schools[s].id, q.listPatch);
      listId := lists[l].id;
    }

    /** The person loop over prepared records, one query and add or update per record. */
    method FilePersons(listId: nat, ws: seq<PersonWrite>)
      modifies this
      ensures persons == ApplyPersons(old(persons), listId, ws)
      ensures types == old(types) && schools == old(schools) && lists == old(lists)
    {
      for k := 0 to |ws|
        invariant persons == ApplyPersons(old(persons), listId, ws[..k])
        invariant types == old(types) && schools == old(schools) && lists == old(lists)
      {
        UpsertPersonRow(listId, ws[k]);
        assert ws[..k + 1][..k] == ws[..k];
      }
      assert ws[..|ws|] == ws;
    }

    /** A save whose person loop takes every record in turn: the exam, star and techreg saves. */
    method Save(q: SaveRequest)
      modifies this
      ensures Contents() == SaveSpec(old(Contents()), q)
    {
      var listId := SaveList(q);
      FilePersons(listId, q.persons);
    }

    method SaveExam(year: string, u: School, d: ExamDepartment, a: ExamAdmissionDetail)
      modifies this
      ensures Contents() == SaveSpec(old(Contents()), ExamRequest(year, u, d, a))
    {
      Save(ExamRequest(year, u, d, a));
    }

    method SaveStar(year: string, u: School, d: StarDepartment, xs: seq<StarAdmission>)
      modifies this
      ensures Contents() == SaveSpec(old(Contents()), StarRequest(year, u, d, xs))
    {
      Save(StarRequest(year, u, d, xs));
    }

    method SaveTechreg(year: string, u: School, d: TechregDepartment, a: TechregAdmissionDetail)
      modifies this
      ensures Contents() == SaveSpec(old(Contents()), TechregRequest(year, u, d, a))
    {
      Save(TechregRequest(year, u, d, a));
    }

    /** The inner loop of CrossCrawler.save over the school entries of one candidate. */
    method FileCrossEntries(listId: nat, x: CrossAdmission, schoolName: string, departmentName: string)
      modifies this
      ensures persons == ApplyPersons(old(persons), listId, CrossEntryWrites(x, x.schools, schoolName, departmentName))
      ensures types == old(types) && schools == old(schools) && lists == old(lists)
    {
      for j := 0 to |x.schools|
        invariant persons == ApplyPersons(old(persons), listId, CrossEntryWrites(x, x.schools[..j], schoolName, departmentName))
        invariant types == old(types) && schools == old(schools) && lists == old(lists)
      {
        var s := x.schools[j];
        ghost var before := CrossEntryWrites(x, x.schools[..j], schoolName, departmentName);
        CrossEntryWritesStep(x, x.schools, j, schoolName, departmentName);
        if s.schoolName == schoolName && s.departmentName == departmentName {
          UpsertPersonRow(listId, CrossWrite(x, s));
          FiledOne(old(persons), listId, before, CrossWrite(x, s));
        } else {
          assert before + [] == before;
        }
      }
      assert x.schools[..|x.schools|] == x.schools;
    }

    /** CrossCrawler.save: for every candidate and every school entry of the candidate, only
      * the entries of the crawled university and department are filed. */
    method SaveCross(year: string, u: School, d: CrossDepartment, xs: seq<CrossAdmission>, isTechUniversity: bool)
      modifies this
      ensures Contents() == SaveSpec(old(Contents()), CrossRequest(year, u, d, xs, isTechUniversity))
    {
      var q := CrossRequest(year, u, d, xs, isTechUniversity);
      var listId := SaveList(q);
      ghost var p0 := persons;
      ghost var listed := Contents();
      for i := 0 to |xs|
        invariant persons == ApplyPersons(p0, listId, CrossWrites(xs[..i], u.schoolName, d.departmentName))
        invariant types == listed.types && schools == listed.schools && lists == listed.lists
      {
        ghost var done := CrossWrites(xs[..i], u.schoolName, d.departmentName);
        FileCrossEntries(listId, xs[i], u.schoolName, d.departmentName);
        ApplyPersonsAppend(p0, listId, done, CrossEntryWrites(xs[i], xs[i].schools, u.schoolName, d.departmentName));
        assert xs[..i + 1][..i] == xs[..i];
      }
      assert xs[..|xs|] == xs;
    }

    /** The inner loop of VtechCrawler.save over the school entries of one candidate. */
    method FileVtechEntries(listId: nat, x: VtechAdmission, schoolName: string, departmentName: string)
      modifies this
      ensures persons == ApplyPersons(old(persons), listId, VtechEntryWrites(x, x.schools, schoolName, departmentName))
      ensures types == old(types) && schools == old(schools) && lists == old(lists)
    {
      for j := 0 to |x.schools|
        invariant persons == ApplyPersons(old(persons), listId, VtechEntryWrites(x, x.schools[..j], schoolName, departmentName))
        invariant types == old(types) && schools == old(schools) && lists == old(lists)
      {
        var s := x.schools[j];
        ghost var before := VtechEntryWrites(x, x.schools[..j], schoolName, departmentName);
        VtechEntryWritesStep(x, x.schools, j, schoolName, departmentName);
        if s.schoolName == schoolName && s.departmentName == departmentName {
          UpsertPersonRow(listId, VtechWrite(x, s));
          FiledOne(old(persons), listId, before, VtechWrite(x, s));
        } else {
          assert before + [] == before;
        }
      }
      assert x.schools[..|x.schools|] == x.schools;
    }

    /** VtechCrawler.save: as the cross save, with both statuses set from the entry. */
    method SaveVtech(year: string, u: School, d: VtechDepartment, xs: seq<VtechAdmission>)
      modifies this
      ensures Contents() == SaveSpec(old(Contents()), VtechRequest(year, u, d, xs))
    {
      var q := VtechRequest(year, u, d, xs);
      var listId := SaveList(q);
      ghost var p0 := persons;
      ghost var listed := Contents();
      for i := 0 to |xs|
        invariant persons == ApplyPersons(p0, listId, VtechWrites(xs[..i], u.schoolName, d.departmentName))
        invariant types == listed.types && schools == listed.schools && lists == listed.lists
      {
        ghost var done := VtechWrites(xs[..i], u.schoolName, d.departmentName);
        FileVtechEntries(listId, xs[i], u.schoolName, d.departmentName);
        ApplyPersonsAppend(p0, listId, done, VtechEntryWrites(xs[i], xs[i].schools, u.schoolName, d.departmentName));
        assert xs[..i + 1][..i] == xs[..i];
      }
      assert xs[..|xs|] == xs;
    }
  }

  /** Filing one more record after ws is running the loop over ws and that record. */
  lemma FiledOne(persons: seq<AdmissionPersonRow>, listId: nat, ws: seq<PersonWrite>, w: PersonWrite)
    ensures UpsertPerson(ApplyPersons(persons, listId, ws), listId, w) == ApplyPersons(persons, listId, ws + [w])
  {
    assert (ws + [w])[..|ws|] == ws;
  }
}
