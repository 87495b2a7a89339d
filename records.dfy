/** The plain records every stage passes along: an instructor's contact
    details, a time of day, and one course meeting. */
module Records {
  import opened Wrappers

  /** The `name_and_section` of a meeting read from the office-hours table. */
  const OFFICE_HOURS: string := "Office Hours"

  /** The text of a table cell that holds only a non-breaking space. */
  const NBSP: string := "\U{a0}"

  datatype InstructorInfo = InstructorInfo(
    name: string,
    ext: string,
    email: string,
    officeLocation: string)

  /** A 24-hour time of day, as the pair `(hour, minute)`. */
  datatype Time = Time(hour: int, minute: int)

  /** One meeting. `instructor` is `None` for an office-hours entry, which is
      attached to its instructor by name instead. */
  datatype CourseInfo = CourseInfo(
    nameAndSection: string,
    ty: string,
    days: seq<char>,
    startTime: Time,
    endTime: Time,
    instructor: Option<InstructorInfo>,
    location: string)

  predicate IsOfficeHours(c: CourseInfo)
  {
    c.nameAndSection == OFFICE_HOURS
  }
}
