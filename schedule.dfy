/** The two sources of meetings: rows of the published class schedule and
    rows of the office-hours table, and how office hours join the meetings
    of their instructor. */
module Schedule {
  import opened Wrappers
  import opened Text
  import opened Records
  import opened TimeCodec
  import opened Grouping

  /** The texts the program takes from one row of the class schedule. */
  datatype ScheduleRow = ScheduleRow(
    courseName: string,
    section: string,
    ty: string,
    days: string,
    startTime: string,
    endTime: string,
    personText: string,
    location: string)

  /** A row with no start time or no instructor is not on the grid. */
  predicate IsUnscheduled(row: ScheduleRow)
  {
    row.startTime == NBSP || row.personText == NBSP
  }

  /** The meeting a scheduled row describes, with the record looked up for
      its instructor; `None` when either time cannot be read. */
  function CourseFromRow(row: ScheduleRow, instructor: InstructorInfo): Option<CourseInfo>
  {
    var start, end := ParseTime(row.startTime), ParseTime(row.endTime);
    if start.None? || end.None? then None
    else Some(CourseInfo(row.courseName + "-" + row.section, row.ty, row.days,
                         start.value, end.value, Some(instructor), row.location))
  }

  /** A meeting read from the class schedule names its instructor, and it
      is never taken for office hours: its name holds the `-` between
      course and section, which `"Office Hours"` does not. */
  lemma ScheduledMeeting(row: ScheduleRow, instructor: InstructorInfo)
    requires CourseFromRow(row, instructor).Some?
    ensures var c := CourseFromRow(row, instructor).value;
      && c.instructor == Some(instructor)
      && c.startTime == ParseTime(row.startTime).value
      && c.endTime == ParseTime(row.endTime).value
      && !IsOfficeHours(c)
  {
    SectionNameIsNotOfficeHours(row.courseName, row.section);
  }

  /** A name joined to a section by `-` is never `"Office Hours"`. */
  lemma SectionNameIsNotOfficeHours(courseName: string, section: string)
    ensures courseName + "-" + section != OFFICE_HOURS
  {
    assert (courseName + "-" + section)[|courseName|] == '-';
    assert '-' !in OFFICE_HOURS;
  }

  /** One row of the office-hours table: instructor name, day letters,
      start, end and location. A row of another length, or with a time that
      cannot be read, raises in the source: `None` here. */
  function OfficeHoursEntry(fields: seq<string>): Option<(string, CourseInfo)>
  {
    if |fields| != 5 then None
    else
      var start, end := ParseTime(fields[2]), ParseTime(fields[3]);
      if start.None? || end.None? then None
      else Some((fields[0], CourseInfo(OFFICE_HOURS, "", fields[1], start.value, end.value, None, fields[4])))
  }

  /** An office-hours entry is a meeting without an instructor record, of
      no type, on the row's days, at the row's times and place. */
  lemma OfficeHoursEntryFields(fields: seq<string>)
    ensures OfficeHoursEntry(fields).Some?
        <==> |fields| == 5 && ParseTime(fields[2]).Some? && ParseTime(fields[3]).Some?
    ensures OfficeHoursEntry(fields).Some? ==>
      var (name, c) := OfficeHoursEntry(fields).value;
      && name == fields[0]
      && IsOfficeHours(c) && c.ty == "" && c.instructor.None?
      && c.days == fields[1] && c.location == fields[4]
      && c.startTime == ParseTime(fields[2]).value && c.endTime == ParseTime(fields[3]).value
  {
  }

  /** Office hours go at the end of the named instructor's meetings; a name
      with no meetings raises in the source and is excluded here. */
  function AttachOfficeHours(groups: map<string, seq<CourseInfo>>, name: string, entry: CourseInfo)
    : (after: map<string, seq<CourseInfo>>)
    requires name in groups
    ensures after.Keys == groups.Keys
    ensures after[name] == groups[name] + [entry]
    ensures forall k :: k in groups && k != name ==> after[k] == groups[k]
  {
    groups[name := groups[name] + [entry]]
  }

  /** Every group opens with a meeting of the instructor it is keyed by. */
  predicate OpensWithOwner(groups: map<string, seq<CourseInfo>>)
  {
    forall k :: k in groups ==>
      groups[k] != [] && groups[k][0].instructor.Some? && groups[k][0].instructor.value.name == k
  }

  /** Each group the grouping makes opens with its owner's meeting, and
      so every page is titled with the name it was grouped under. */
  lemma GroupsOpenWithOwner(courses: seq<CourseInfo>, groups: map<string, seq<CourseInfo>>)
    requires AllHaveInstructor(courses)
    requires forall k :: k in groups ==> k in FirstSeenKeys(courses) && groups[k] == Members(courses, k)
    ensures OpensWithOwner(groups)
  {
    forall k | k in groups
      ensures groups[k] != [] && groups[k][0].instructor.Some? && groups[k][0].instructor.value.name == k
    {
      BucketOpensWithKey(courses, k);
    }
  }

  /** Attaching office hours leaves every group's first meeting in place. */
  lemma AttachKeepsOwner(groups: map<string, seq<CourseInfo>>, name: string, entry: CourseInfo)
    requires name in groups && OpensWithOwner(groups)
    ensures OpensWithOwner(AttachOfficeHours(groups, name, entry))
  {
    var after := AttachOfficeHours(groups, name, entry);
    assert after[name][0] == groups[name][0];
  }
}
