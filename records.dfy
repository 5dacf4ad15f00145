/** The records the page parsers produce and the crawlers hand to `save`, field for field. */
module Records {

  /** One admission method on the landing page and the years it offers. */
  datatype AvailableYears = AvailableYears(methodKey: string, methodName: string, availableYears: seq<string>)

  /** A university of a university list. */
  datatype School = School(
    releaseStatus: string,
    releaseDate: string,
    schoolId: string,
    schoolName: string,
    schoolHref: string)

  datatype ExamDepartment = ExamDepartment(
    departmentId: string,
    departmentName: string,
    admissionHref: string,
    admissionScore: string,
    admissionWeights: string)

  datatype ExamAdmission = ExamAdmission(ticket: string, examArea: string, schoolName: string, schoolDepart: string)

  /** The admission page of the exam method: its summary rows and the admitted candidates. */
  datatype ExamAdmissionDetail = ExamAdmissionDetail(
    weights: string,
    order: string,
    generalGrade: string,
    nativeGrade: string,
    veteranGrade: string,
    overseaGrade: string,
    admissionList: seq<ExamAdmission>)

  datatype StarDepartment = StarDepartment(departmentId: string, departmentName: string, admissionHref: string)

  datatype StarAdmission = StarAdmission(ticket: string, examArea: string, schoolName: string, schoolDepart: string)

  datatype CrossDepartment = CrossDepartment(
    departmentId: string,
    departmentName: string,
    admissionHref: string,
    releaseStatus: string)

  /** One school a candidate applied to, with the outcome there. */
  datatype SchoolAdmissionStatus = SchoolAdmissionStatus(
    admission: bool,
    schoolName: string,
    departmentName: string,
    status: string)

  datatype CrossAdmission = CrossAdmission(
    ticket: string,
    examArea: string,
    name: string,
    schools: seq<SchoolAdmissionStatus>)

  datatype VtechDepartment = VtechDepartment(
    departmentId: string,
    departmentName: string,
    admissionHref: string,
    group: string)

  datatype VtechAdmission = VtechAdmission(ticket: string, name: string, schools: seq<SchoolAdmissionStatus>)

  datatype TechregDepartment = TechregDepartment(
    departmentId: string,
    departmentName: string,
    admissionHref: string,
    averageScore: string,
    group: string)

  datatype TechregAdmission = TechregAdmission(ticket: string, name: string)

  /** The admission page of the technical-school distribution: summary rows and candidates. */
  datatype TechregAdmissionDetail = TechregAdmissionDetail(
    generalGrade: string,
    nativeGrade: string,
    veteranGrade: string,
    overseaGrade: string,
    admissionList: seq<TechregAdmission>)
}
