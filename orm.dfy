/** The four tables of the admission database: one datatype per row shape. A column the
  * schema declares non-null is a plain field; the nullable columns of a row are a map from
  * column to value in which an absent column is NULL. */
module Orm {
  import opened Wrappers

  /** A row of AdmissionType: an admission method such as 分科測驗. */
  datatype AdmissionTypeRow = AdmissionTypeRow(id: nat, name: string)

  /** A row of SchoolDepartment. Both codes and both names are required. */
  datatype SchoolDepartmentRow = SchoolDepartmentRow(
    id: nat,
    schoolCode: string,
    departCode: string,
    schoolName: string,
    departName: string)

  /** The nullable columns of AdmissionList. */
  datatype ListColumn =
    | AverageScore | Weight | SameGradeOrder
    | GeneralGrade | NativeGrade | VeteranGrade | OverseaGrade
    | UniversityApply | GroupCode

  /** A row of AdmissionList: year, method and school department are required. */
  datatype AdmissionListRow = AdmissionListRow(
    id: nat,
    year: string,
    methodId: nat,
    schoolDepartmentId: nat,
    columns: map<ListColumn, string>)

  /** The nullable columns of AdmissionPerson. */
  datatype PersonColumn = Name | ExamArea | SecondStageStatus | AdmissionStatus

  /** A row of AdmissionPerson: the list it belongs to and the admission ticket are required. */
  datatype AdmissionPersonRow = AdmissionPersonRow(
    id: nat,
    admissionListId: nat,
    ticket: string,
    columns: map<PersonColumn, string>)

  /** A value handed to an AdmissionPerson attribute. */
  datatype FieldValue = IntValue(i: int) | StrValue(s: string) | NoneValue

  /** Python truthiness of such a value. */
  predicate Truthy(v: FieldValue) {
    match v
    case IntValue(i) => i != 0
    case StrValue(s) => s != []
    case NoneValue => false
  }

  /** AdmissionPerson.validate, run on admission_list_id and admission_ticket: a falsy value is
    * refused with ValueError, any other value is stored unchanged. */
  function Validate(key: string, v: FieldValue): (r: Result<FieldValue>)
    ensures r.Ok? <==> Truthy(v)
    ensures r.Ok? ==> r.value == v
    ensures r.Err? ==> r.error == ValueError
  {
    if !Truthy(v) then Err(ValueError) else Ok(v)
  }

  /** The validated attributes of a new person: the list id and the ticket, in the order the
    * constructor assigns them. A person can be built exactly when both are truthy. */
  function NewPersonFields(listId: nat, ticket: string): (r: Result<(nat, string)>)
    ensures r.Ok? <==> listId != 0 && ticket != []
    ensures r.Ok? ==> r.value == (listId, ticket)
    ensures r.Err? ==> r.error == ValueError
  {
    match Validate("admission_list_id", IntValue(listId))
    case Err(e) => Err(e)
    case Ok(_) =>
      match Validate("admission_ticket", StrValue(ticket))
      case Err(e) => Err(e)
      case Ok(_) => Ok((listId, ticket))
  }
}
