/**
 * The applicant record and its field values. Each field type wraps an
 * already validated string; the validity rules live in the field classes,
 * which are not part of this model.
 */
module Applicants {

  datatype Name = Name(fullName: string)
  datatype Phone = Phone(value: string)
  datatype Email = Email(value: string)
  datatype Grade = Grade(value: string)
  datatype Institution = Institution(value: string)
  datatype Course = Course(value: string)
  datatype GraduationYearMonth = GraduationYearMonth(value: string)
  datatype ApplicationStatus = ApplicationStatus(value: string)
  datatype Skill = Skill(skillName: string)

  /** An applicant: seven mandatory fields, an application status and a set of skills. */
  datatype Applicant = Applicant(
    name: Name,
    phone: Phone,
    email: Email,
    grade: Grade,
    institution: Institution,
    course: Course,
    graduationYearMonth: GraduationYearMonth,
    status: ApplicationStatus,
    skills: set<Skill>)
}
