/** What each crawler's `save` writes: the admission type label, the list columns it sets and
  * the person records it files, picked from the parsed records. */
module Saves {
  import opened Orm
  import opened Persist
  import opened Records

  const ExamTypeName: string := "分科測驗"
  const StarTypeName: string := "大學繁星"
  const CrossTypeName: string := "學測查榜"
  const VtechTypeName: string := "統測甄選"
  const TechregTypeName: string := "統測分發"

  /** The status the exam, star and techreg saves give every person. */
  const Admitted: string := "已錄取"

  /** The university_apply values of the cross save: general universities, universities of technology. */
  const GeneralApply: string := "大學個人申請"
  const TechApply: string := "科大四技申請"

  /** The request of a save: the school department comes from the crawled university and department. */
  function Request(typeName: string, year: string, u: School, departmentId: string, departmentName: string,
                   listPatch: map<ListColumn, string>, persons: seq<PersonWrite>): SaveRequest {
    SaveRequest(typeName, year, u.schoolId, departmentId, u.schoolName, departmentName, listPatch, persons)
  }

  // ---------------------------------------------------------------------------
  // Exam

  /** The columns ExamCrawler.save sets on the list: score and weights of the department listing,
    * the grades and tie-break order of the admission page. */
  function ExamListPatch(d: ExamDepartment, a: ExamAdmissionDetail): map<ListColumn, string> {
    map[AverageScore := d.admissionScore, Weight := d.admissionWeights, SameGradeOrder := a.order,
        GeneralGrade := a.generalGrade, NativeGrade := a.nativeGrade,
        VeteranGrade := a.veteranGrade, OverseaGrade := a.overseaGrade]
  }

  function ExamWrite(x: ExamAdmission): PersonWrite {
    PersonWrite(x.ticket, map[ExamArea := x.examArea, AdmissionStatus := Admitted])
  }

  function ExamWrites(xs: seq<ExamAdmission>): (r: seq<PersonWrite>)
    ensures |r| == |xs| && forall k :: 0 <= k < |xs| ==> r[k] == ExamWrite(xs[k])
  {
    seq(|xs|, k requires 0 <= k < |xs| => ExamWrite(xs[k]))
  }

  function ExamRequest(year: string, u: School, d: ExamDepartment, a: ExamAdmissionDetail): SaveRequest {
    Request(ExamTypeName, year, u, d.departmentId, d.departmentName, ExamListPatch(d, a), ExamWrites(a.admissionList))
  }

  // ---------------------------------------------------------------------------
  // Star

  function StarWrite(x: StarAdmission): PersonWrite {
    PersonWrite(x.ticket, map[ExamArea := x.examArea, AdmissionStatus := Admitted])
  }

  function StarWrites(xs: seq<StarAdmission>): (r: seq<PersonWrite>)
    ensures |r| == |xs| && forall k :: 0 <= k < |xs| ==> r[k] == StarWrite(xs[k])
  {
    seq(|xs|, k requires 0 <= k < |xs| => StarWrite(xs[k]))
  }

  /** StarCrawler.save sets only the key columns of the list. */
  function StarRequest(year: string, u: School, d: StarDepartment, xs: seq<StarAdmission>): SaveRequest {
    Request(StarTypeName, year, u, d.departmentId, d.departmentName, map[], StarWrites(xs))
  }

  // ---------------------------------------------------------------------------
  // Cross and Vtech: only the school entries of the crawled department are filed

  /** The school entries of x naming the given university and department are filed in order,
    * each with its own status. */
  function CrossEntryWrites(x: CrossAdmission, ss: seq<SchoolAdmissionStatus>, schoolName: string, departmentName: string): (r: seq<PersonWrite>)
    ensures |r| <= |ss|
  {
    if ss == [] then []
    else
      var s := ss[|ss| - 1];
      CrossEntryWrites(x, ss[..|ss| - 1], schoolName, departmentName) +
        (if s.schoolName == schoolName && s.departmentName == departmentName then [CrossWrite(x, s)] else [])
  }

  /** One more school entry adds its record exactly when it names the crawled department. */
  lemma CrossEntryWritesStep(x: CrossAdmission, ss: seq<SchoolAdmissionStatus>, j: nat, schoolName: string, departmentName: string)
    requires j < |ss|
    ensures CrossEntryWrites(x, ss[..j + 1], schoolName, departmentName) ==
            CrossEntryWrites(x, ss[..j], schoolName, departmentName) +
              (if ss[j].schoolName == schoolName && ss[j].departmentName == departmentName then [CrossWrite(x, ss[j])] else [])
  {
    assert ss[..j + 1][..j] == ss[..j];
  }

  /** The records for one candidate: one per entry of the crawled department, with its status. */
  lemma {:induction false} CrossEntryWritesMembers(x: CrossAdmission, ss: seq<SchoolAdmissionStatus>, schoolName: string, departmentName: string)
    ensures forall w :: w in CrossEntryWrites(x, ss, schoolName, departmentName) <==>
              exists s :: s in ss && s.schoolName == schoolName && s.departmentName == departmentName && w == CrossWrite(x, s)
  {
    if ss != [] {
      var init := ss[..|ss| - 1];
      CrossEntryWritesMembers(x, init, schoolName, departmentName);
      assert ss == init + [ss[|ss| - 1]];
    }
  }


  function CrossWrite(x: CrossAdmission, s: SchoolAdmissionStatus): PersonWrite {
    PersonWrite(x.ticket, map[ExamArea := x.examArea, AdmissionStatus := s.status])
  }

  /** The records the nested loop of CrossCrawler.save files, admission by admission. */
  function CrossWrites(xs: seq<CrossAdmission>, schoolName: string, departmentName: string): seq<PersonWrite> {
    if xs == [] then []
    else
      var x := xs[|xs| - 1];
      CrossWrites(xs[..|xs| - 1], schoolName, departmentName) + CrossEntryWrites(x, x.schools, schoolName, departmentName)
  }

  function CrossListPatch(isTechUniversity: bool): map<ListColumn, string> {
    map[UniversityApply := if isTechUniversity then TechApply else GeneralApply]
  }

  function CrossRequest(year: string, u: School, d: CrossDepartment, xs: seq<CrossAdmission>, isTechUniversity: bool): SaveRequest {
    Request(CrossTypeName, year, u, d.departmentId, d.departmentName, CrossListPatch(isTechUniversity),
            CrossWrites(xs, u.schoolName, d.departmentName))
  }

  /** Vtech gives the entry's status both as admission status and as second-stage status. */
  function VtechWrite(x: VtechAdmission, s: SchoolAdmissionStatus): PersonWrite {
    PersonWrite(x.ticket, map[AdmissionStatus := s.status, SecondStageStatus := s.status])
  }

  function VtechEntryWrites(x: VtechAdmission, ss: seq<SchoolAdmissionStatus>, schoolName: string, departmentName: string): (r: seq<PersonWrite>)
    ensures |r| <= |ss|
  {
    if ss == [] then []
    else
      var s := ss[|ss| - 1];
      VtechEntryWrites(x, ss[..|ss| - 1], schoolName, departmentName) +
        (if s.schoolName == schoolName && s.departmentName == departmentName then [VtechWrite(x, s)] else [])
  }

  /** One more school entry adds its record exactly when it names the crawled department. */
  lemma VtechEntryWritesStep(x: VtechAdmission, ss: seq<SchoolAdmissionStatus>, j: nat, schoolName: string, departmentName: string)
    requires j < |ss|
    ensures VtechEntryWrites(x, ss[..j + 1], schoolName, departmentName) ==
            VtechEntryWrites(x, ss[..j], schoolName, departmentName) +
              (if ss[j].schoolName == schoolName && ss[j].departmentName == departmentName then [VtechWrite(x, ss[j])] else [])
  {
    assert ss[..j + 1][..j] == ss[..j];
  }

  /** The records for one candidate: one per entry of the crawled department, with its status. */
  lemma {:induction false} VtechEntryWritesMembers(x: VtechAdmission, ss: seq<SchoolAdmissionStatus>, schoolName: string, departmentName: string)
    ensures forall w :: w in VtechEntryWrites(x, ss, schoolName, departmentName) <==>
              exists s :: s in ss && s.schoolName == schoolName && s.departmentName == departmentName && w == VtechWrite(x, s)
  {
    if ss != [] {
      var init := ss[..|ss| - 1];
      VtechEntryWritesMembers(x, init, schoolName, departmentName);
      assert ss == init + [ss[|ss| - 1]];
    }
  }


  function VtechWrites(xs: seq<VtechAdmission>, schoolName: string, departmentName: string): seq<PersonWrite> {
    if xs == [] then []
    else
      var x := xs[|xs| - 1];
      VtechWrites(xs[..|xs| - 1], schoolName, departmentName) + VtechEntryWrites(x, x.schools, schoolName, departmentName)
  }

  function VtechRequest(year: string, u: School, d: VtechDepartment, xs: seq<VtechAdmission>): SaveRequest {
    Request(VtechTypeName, year, u, d.departmentId, d.departmentName, map[GroupCode := d.group],
            VtechWrites(xs, u.schoolName, d.departmentName))
  }

  // ---------------------------------------------------------------------------
  // Techreg

  function TechregListPatch(d: TechregDepartment, a: TechregAdmissionDetail): map<ListColumn, string> {
    map[GroupCode := d.group, AverageScore := d.averageScore, GeneralGrade := a.generalGrade,
        NativeGrade := a.nativeGrade, VeteranGrade := a.veteranGrade, OverseaGrade := a.overseaGrade]
  }

  /** TechregCrawler.save files ticket and status only; the parsed name is not stored. */
  function TechregWrite(x: TechregAdmission): PersonWrite {
    PersonWrite(x.ticket, map[AdmissionStatus := Admitted])
  }

  function TechregWrites(xs: seq<TechregAdmission>): (r: seq<PersonWrite>)
    ensures |r| == |xs| && forall k :: 0 <= k < |xs| ==> r[k] == TechregWrite(xs[k])
  {
    seq(|xs|, k requires 0 <= k < |xs| => TechregWrite(xs[k]))
  }

  function TechregRequest(year: string, u: School, d: TechregDepartment, a: TechregAdmissionDetail): SaveRequest {
    Request(TechregTypeName, year, u, d.departmentId, d.departmentName, TechregListPatch(d, a),
            TechregWrites(a.admissionList))
  }

  // ---------------------------------------------------------------------------
  // What the saves promise

  /** Every candidate of the exam admission page that its list now holds is marked admitted. */
  lemma ExamMarksAdmitted(t: Tables, year: string, u: School, d: ExamDepartment, a: ExamAdmissionDetail)
    requires Valid(t)
    ensures var q := ExamRequest(year, u, d, a); var r := SaveSpec(t, q);
            forall k :: 0 <= k < |r.persons| && r.persons[k].admissionListId == SavedListId(t, q) &&
                        Mentions(q.persons, r.persons[k].ticket) ==>
              AdmissionStatus in r.persons[k].columns && r.persons[k].columns[AdmissionStatus] == Admitted
  {
    SaveUniformColumn(t, ExamRequest(year, u, d, a), AdmissionStatus, Admitted);
  }

  /** The exam list patch sets exactly the seven score and grade columns. */
  lemma ExamListPatchColumns(d: ExamDepartment, a: ExamAdmissionDetail)
    ensures var p := ExamListPatch(d, a);
            && AverageScore in p && p[AverageScore] == d.admissionScore
            && Weight in p && p[Weight] == d.admissionWeights
            && SameGradeOrder in p && p[SameGradeOrder] == a.order
            && GeneralGrade in p && p[GeneralGrade] == a.generalGrade
            && NativeGrade in p && p[NativeGrade] == a.nativeGrade
            && VeteranGrade in p && p[VeteranGrade] == a.veteranGrade
            && OverseaGrade in p && p[OverseaGrade] == a.overseaGrade
  {
  }

  /** The exam save stores the department's score and weights and the page's grades on its list. */
  lemma ExamListColumns(t: Tables, year: string, u: School, d: ExamDepartment, a: ExamAdmissionDetail)
    requires Valid(t)
    ensures var q := ExamRequest(year, u, d, a); var r := SaveSpec(t, q); var i := SavedListId(t, q) - 1;
            && 0 <= i < |r.lists|
            && AverageScore in r.lists[i].columns && r.lists[i].columns[AverageScore] == d.admissionScore
            && Weight in r.lists[i].columns && r.lists[i].columns[Weight] == d.admissionWeights
            && SameGradeOrder in r.lists[i].columns && r.lists[i].columns[SameGradeOrder] == a.order
            && GeneralGrade in r.lists[i].columns && r.lists[i].columns[GeneralGrade] == a.generalGrade
            && NativeGrade in r.lists[i].columns && r.lists[i].columns[NativeGrade] == a.nativeGrade
            && VeteranGrade in r.lists[i].columns && r.lists[i].columns[VeteranGrade] == a.veteranGrade
            && OverseaGrade in r.lists[i].columns && r.lists[i].columns[OverseaGrade] == a.overseaGrade
  {
    var q := ExamRequest(year, u, d, a);
    SavedListHoldsPatch(t, q);
    assert q.listPatch == ExamListPatch(d, a);
    ExamListPatchColumns(d, a);
  }

  lemma StarMarksAdmitted(t: Tables, year: string, u: School, d: StarDepartment, xs: seq<StarAdmission>)
    requires Valid(t)
    ensures var q := StarRequest(year, u, d, xs); var r := SaveSpec(t, q);
            forall k :: 0 <= k < |r.persons| && r.persons[k].admissionListId == SavedListId(t, q) &&
                        Mentions(q.persons, r.persons[k].ticket) ==>
              AdmissionStatus in r.persons[k].columns && r.persons[k].columns[AdmissionStatus] == Admitted
  {
    SaveUniformColumn(t, StarRequest(year, u, d, xs), AdmissionStatus, Admitted);
  }

  /** The star save changes no existing list row: its update sets only the key columns, to the
    * values they already have. */
  lemma StarKeepsLists(t: Tables, year: string, u: School, d: StarDepartment, xs: seq<StarAdmission>)
    ensures var r := SaveSpec(t, StarRequest(year, u, d, xs));
            forall k :: 0 <= k < |t.lists| ==> r.lists[k] == t.lists[k]
  {
    EmptyPatchKeepsLists(t, StarRequest(year, u, d, xs));
  }

  /** The cross save labels its list with the kind of apply, general or technical. */
  lemma CrossApplyLabel(t: Tables, year: string, u: School, d: CrossDepartment, xs: seq<CrossAdmission>, isTechUniversity: bool)
    requires Valid(t)
    ensures var q := CrossRequest(year, u, d, xs, isTechUniversity); var r := SaveSpec(t, q); var i := SavedListId(t, q) - 1;
            && 0 <= i < |r.lists|
            && r.lists[i].columns[UniversityApply] == (if isTechUniversity then TechApply else GeneralApply)
  {
    SavedListRow(t, CrossRequest(year, u, d, xs, isTechUniversity));
  }

  /** w is the record for candidate xs[i] at entry s, an entry of the crawled department. */
  predicate CrossFiled(xs: seq<CrossAdmission>, schoolName: string, departmentName: string, w: PersonWrite) {
    exists i, s :: 0 <= i < |xs| && s in xs[i].schools &&
                   s.schoolName == schoolName && s.departmentName == departmentName && w == CrossWrite(xs[i], s)
  }

  /** The cross save files exactly one kind of record: a candidate's entry for the crawled
    * university and department, with that entry's status. */
  lemma {:induction false} CrossWritesExactly(xs: seq<CrossAdmission>, schoolName: string, departmentName: string)
    ensures forall w :: w in CrossWrites(xs, schoolName, departmentName) <==> CrossFiled(xs, schoolName, departmentName, w)
  {
    if xs != [] {
      var init, x := xs[..|xs| - 1], xs[|xs| - 1];
      CrossWritesExactly(init, schoolName, departmentName);
      var tail := CrossEntryWrites(x, x.schools, schoolName, departmentName);
      CrossEntryWritesMembers(x, x.schools, schoolName, departmentName);
      forall w | w in tail ensures CrossFiled(xs, schoolName, departmentName, w) {
        var s :| s in x.schools && s.schoolName == schoolName && s.departmentName == departmentName && w == CrossWrite(x, s);
        assert 0 <= |xs| - 1 < |xs| && s in xs[|xs| - 1].schools;
      }
      forall w | CrossFiled(init, schoolName, departmentName, w) ensures CrossFiled(xs, schoolName, departmentName, w) {
        var i, s :| 0 <= i < |init| && s in init[i].schools &&
                    s.schoolName == schoolName && s.departmentName == departmentName && w == CrossWrite(init[i], s);
        assert xs[i] == init[i];
      }
      forall w | CrossFiled(xs, schoolName, departmentName, w)
        ensures w in tail || CrossFiled(init, schoolName, departmentName, w)
      {
        var i, s :| 0 <= i < |xs| && s in xs[i].schools &&
                    s.schoolName == schoolName && s.departmentName == departmentName && w == CrossWrite(xs[i], s);
        if i < |xs| - 1 {
          assert xs[i] == init[i];
        }
      }
    }
  }


  predicate VtechFiled(xs: seq<VtechAdmission>, schoolName: string, departmentName: string, w: PersonWrite) {
    exists i, s :: 0 <= i < |xs| && s in xs[i].schools &&
                   s.schoolName == schoolName && s.departmentName == departmentName && w == VtechWrite(xs[i], s)
  }

  /** The vtech save files exactly the candidates' entries for the crawled department. */
  lemma {:induction false} VtechWritesExactly(xs: seq<VtechAdmission>, schoolName: string, departmentName: string)
    ensures forall w :: w in VtechWrites(xs, schoolName, departmentName) <==> VtechFiled(xs, schoolName, departmentName, w)
  {
    if xs != [] {
      var init, x := xs[..|xs| - 1], xs[|xs| - 1];
      VtechWritesExactly(init, schoolName, departmentName);
      var tail := VtechEntryWrites(x, x.schools, schoolName, departmentName);
      VtechEntryWritesMembers(x, x.schools, schoolName, departmentName);
      forall w | w in tail ensures VtechFiled(xs, schoolName, departmentName, w) {
        var s :| s in x.schools && s.schoolName == schoolName && s.departmentName == departmentName && w == VtechWrite(x, s);
        assert 0 <= |xs| - 1 < |xs| && s in xs[|xs| - 1].schools;
      }
      forall w | VtechFiled(init, schoolName, departmentName, w) ensures VtechFiled(xs, schoolName, departmentName, w) {
        var i, s :| 0 <= i < |init| && s in init[i].schools &&
                    s.schoolName == schoolName && s.departmentName == departmentName && w == VtechWrite(init[i], s);
        assert xs[i] == init[i];
      }
      forall w | VtechFiled(xs, schoolName, departmentName, w)
        ensures w in tail || VtechFiled(init, schoolName, departmentName, w)
      {
        var i, s :| 0 <= i < |xs| && s in xs[i].schools &&
                    s.schoolName == schoolName && s.departmentName == departmentName && w == VtechWrite(xs[i], s);
        if i < |xs| - 1 {
          assert xs[i] == init[i];
        }
      }
    }
  }


  /** After a vtech save, every candidate row of its list that the save names has the same
    * second-stage status as admission status. */
  lemma VtechStatusesAgree(t: Tables, year: string, u: School, d: VtechDepartment, xs: seq<VtechAdmission>)
    requires Valid(t)
    ensures var q := VtechRequest(year, u, d, xs); var r := SaveSpec(t, q);
            forall k :: 0 <= k < |r.persons| && r.persons[k].admissionListId == SavedListId(t, q) &&
                        Mentions(q.persons, r.persons[k].ticket) ==>
              && AdmissionStatus in r.persons[k].columns && SecondStageStatus in r.persons[k].columns
              && r.persons[k].columns[SecondStageStatus] == r.persons[k].columns[AdmissionStatus]
  {
    var q := VtechRequest(year, u, d, xs);
    var ws := q.persons;
    VtechWritesExactly(xs, u.schoolName, d.departmentName);
    forall k | 0 <= k < |ws|
      ensures SecondStageStatus in ws[k].patch && AdmissionStatus in ws[k].patch
      ensures ws[k].patch[SecondStageStatus] == ws[k].patch[AdmissionStatus]
    {
      assert ws[k] in ws;
    }
    SavePairedColumns(t, q, SecondStageStatus, AdmissionStatus);
  }

  lemma TechregMarksAdmitted(t: Tables, year: string, u: School, d: TechregDepartment, a: TechregAdmissionDetail)
    requires Valid(t)
    ensures var q := TechregRequest(year, u, d, a); var r := SaveSpec(t, q);
            forall k :: 0 <= k < |r.persons| && r.persons[k].admissionListId == SavedListId(t, q) &&
                        Mentions(q.persons, r.persons[k].ticket) ==>
              AdmissionStatus in r.persons[k].columns && r.persons[k].columns[AdmissionStatus] == Admitted
  {
    SaveUniformColumn(t, TechregRequest(year, u, d, a), AdmissionStatus, Admitted);
  }

  /** The techreg save never stores a candidate name: no record it files sets one. */
  lemma TechregStoresNoName(a: TechregAdmissionDetail)
    ensures forall w :: w in TechregWrites(a.admissionList) ==> Name !in w.patch && w.patch.Keys == {AdmissionStatus}
  {
  }
}
