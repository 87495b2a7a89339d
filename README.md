# Instructor schedule workbook generator, modelled in Dafny

The program (`main.py`) takes the published class schedule of a department, reads each instructor's contact details, and adds one worksheet per instructor to a workbook built from a template. Each worksheet is a weekly grid with the instructor's meetings and office hours drawn on it. This project models the program's core and proves properties of the model:

- **Time codec** (`time_codec.dfy`):
  - `parse_time` turns `"H:MM AM"`/`"H:MM PM"` into a 24-hour `(hour, minute)` pair.
  - `time_to_row` turns that pair into a row of the grid. Rows start at 7:00 on row 3, with two rows per hour.
  - The Python string operations these use (`split`, `strip`, `replace`, `int`) are modelled in `text.dfy`.
- **Instructor details** (`instructor.dfy`):
  - The string logic of `get_instructor_info` reads the office, the email and the phone extension from the text of an instructor's page.
  - Its per-URL cache is modelled twice: as a function of the cache map, and as a class whose method updates the map in place.
- **Meetings** (`schedule.dfy`): how one schedule row or one office-hours row becomes a `CourseInfo`, and how office hours join their instructor's meetings.
- **Grouping** (`grouping.dfy`): `group_courses_by(courses, "instructor.name")` is a method with the source's loop. It is proved against a specification function: the insertion-ordered dictionary is modelled as its key order beside a map from key to bucket. Further lemmas show the result is a partition of the input, in first-seen order.
- **Calendar renderer** (`calendar.dfy`):
  - `add_instructor_page` is a method over `Worksheet` and `Workbook` classes. It follows the source's two nested loops and its branches for the label and the fill.
  - The method is proved to produce exactly `RenderPage`, a pure description of the finished page.
  - Lemmas about `RenderPage` state the merge geometry, the labels, the fills and the header.

The test at main.py:192 is `end_row - start_row < 3`, where `end_row` is the block's last row (main.py:185). So blocks of up to three rows get the compact two-line label, as do office hours; `Calendar.LabelLines` states the rule in those terms.

Files: `wrappers.dfy` (`Option`), `records.dfy` (the records), `text.dfy`, `time_codec.dfy`, `instructor.dfy`, `schedule.dfy`, `grouping.dfy` and `calendar.dfy`.

## Model

| member | source | states |
|---|---|---|
| Text.Split | main.py:31 | `str.split(sep)` gives at least one part, and no part contains the separator |
| Text.JoinSplit | main.py:31 | joining the parts of a split with the separator gives the text back |
| Text.SplitJoin | main.py:59 | splitting the join of separator-free parts gives exactly those parts |
| Text.SplitCount | main.py:59-62 | a split has one part more than the text has separators, so `alias_parts[1]` exists exactly when the alias holds a `*` |
| Text.SplitFirst | main.py:60 | the first part is the prefix before the first separator, or the whole text |
| Text.SplitSecond | main.py:62 | the second part is the first part of what follows the first separator |
| Text.SplitLast | main.py:57 | the last part (`[-1]`) is the separator-free suffix after the last separator |
| Text.SplitFirstTwoAt | main.py:59-62 | with the first separator at `p` and the next one (or the end) at `q`, parts 0 and 1 are `s[..p]` and `s[p+1..q]` |
| Text.LeadCountCuts | main.py:60 | the leading count covers only whitespace and stops at the first character that is not whitespace |
| Text.KeepCountCuts | main.py:62 | only whitespace follows the kept length, and the last kept character is not whitespace |
| Text.Strip | main.py:60-62 | `str.strip()` leaves text that neither starts nor ends with whitespace; it is the input with only whitespace cut from each end |
| Text.StripKeepsTrimmed | main.py:60-62 | text with no whitespace at either end is unchanged by `strip()` |
| Text.Replace | main.py:31 | `replace(":", " ")` on single characters: every occurrence of the target becomes the replacement, every other character stays |
| Text.ReplaceConcat | main.py:31 | `replace(":", " ")` distributes over concatenation |
| Text.ReplaceAbsent | main.py:31 | `replace` leaves text without the target unchanged |
| Text.ParseInt | main.py:33-39 | `int()`: `None` when the text holds an information separator (U+001C..U+001F); otherwise the stripped text as one optional sign followed by ASCII digits, or `None` |
| Text.ParseDigits | main.py:33-39 | `int()` reads a run of decimal digits as the number it denotes (in Python, for runs of at most 4300 digits unless that limit is lifted) |
| Text.ParseIntToString | main.py:33-39 | `int(str(i)) == i` for every integer (in Python, for every integer of at most 4300 digits unless that limit is lifted) |
| Text.ParseNegative | main.py:33-39 | `int()` reads `-` followed by digits as the negated number |
| Text.InfoSeparatorIsNotSkipped | main.py:33-39 | U+001C is whitespace to `strip()`, yet `int()` rejects `"\x1c5"` |
| TimeCodec.ParseTime | main.py:30-40 | `parse_time`: colons become spaces, the text is split on single spaces, and the fields are read by `ReadFields` |
| TimeCodec.ReadFields | main.py:33-40 | `None` without a third field or with an unreadable hour or minute; otherwise the hour, plus 12 when the third field is `"PM"` and the hour is not 12, and the minute |
| TimeCodec.ClockTextFields | main.py:31 | `"H:MM X"` with colons turned into spaces splits into exactly the three fields `H`, `MM`, `X` |
| TimeCodec.ReadNumericFields | main.py:33-40 | given readable hour and minute fields, the hour gains 12 exactly when the third field is `"PM"` and the hour is not 12 |
| TimeCodec.ParseClockText | main.py:30-40 | `"H:MM X"` parses to `(H + 12, MM)` for `PM` with `H != 12` and to `(H, MM)` otherwise; hours 1..12 land in 1..23 |
| TimeCodec.FormatParseRoundTrip | main.py:30-40 | rendering a time between 1:00 and 23:59 in twelve-hour form and parsing it gives the time back |
| TimeCodec.ReparseIsStable | main.py:30-40 | a parsed time, rendered canonically, parses to the same time |
| TimeCodec.ParseTimeNeedsThreeFields | main.py:31-36 | text with fewer than two spaces and colons in all has no third field, so parsing fails (an `IndexError` at main.py:36, or a `ValueError` at main.py:33 when the first field is not an integer) |
| TimeCodec.SpacesAfterReplace | main.py:31 | after the colons become spaces, the text has as many spaces as it had spaces and colons |
| TimeCodec.TimeToRow | main.py:148-155 | `time_to_row`: row `(hour - 7) * 2 + 3`, one row further for minute 40 |
| TimeCodec.TimeToRowMeaning | main.py:148-155 | half a row's offset from row 3 is the hour's offset from 7:00, and a row is even exactly when it is a `:40` slot |
| TimeCodec.RowSlotRoundTrip | main.py:148-155 | every row is the row of its own slot, and a time's row is the row of its slot (`:40`, or on the hour for every other minute) |
| TimeCodec.TimeToRowOrder | main.py:148-155 | an earlier slot has a smaller row, in both directions |
| TimeCodec.GridAnchors | main.py:150-153 | 7:00 and 7:10 are row 3, 7:40 is row 4, 8:00 is row 5 |
| Grouping.Key | main.py:132-139 | the value the key path `instructor.name` reaches: the name in the meeting's instructor record |
| Grouping.Members | main.py:141-144 | every course in a key's bucket has that key |
| Grouping.GroupCoursesBy | main.py:127-145 | the loop's key order is the first-seen key order, its map has exactly those keys, and each bucket is the courses with that key in input order |
| Grouping.MembersAppend | main.py:131-144 | the bucket of a concatenation is the bucket of the first part followed by that of the second |
| Grouping.MembersSnoc | main.py:141-144 | appending a course adds it to its own bucket and to no other |
| Grouping.KeysPresent | main.py:141-144 | a key is listed exactly when some course has it |
| Grouping.KeysDistinct | main.py:141-144 | no key is listed twice |
| Grouping.MembersNonEmpty | main.py:141-144 | a bucket is non-empty exactly when its key is listed |
| Grouping.FirstSeenOrder | main.py:141-144 | keys come in first-seen order: a course with a later key is preceded by a course with each earlier key |
| Grouping.GroupingIsPartition | main.py:127-145 | the buckets laid end to end in key order are a permutation of the input |
| Grouping.BucketOpensWithKey | main.py:141-144 | every listed key's bucket opens with a course of that instructor (the one `courses[0].instructor` reads at line 171) |
| InstructorPage.Extension | main.py:53-57 | `""` without a phone number; otherwise `x6-` and the phone text's last `.`-separated group |
| InstructorPage.Email | main.py:62-66 | the user name and `@calpoly.edu`, or `""` for an empty user name |
| InstructorPage.ParseAlias | main.py:52-74 | the record: the given name, the extension, the email of the stripped second `*` field and the office of the stripped first one; `None` when the alias holds no `*` |
| InstructorPage.ParseAliasDefined | main.py:59-62 | the record can be read exactly when the alias holds a `*`, and it carries the given name |
| InstructorPage.OfficeBeforeFirstStar | main.py:59-60 | the office is the stripped text before the first `*` |
| InstructorPage.EmailFromSecondField | main.py:62-66 | the email is the stripped text between the first and the next `*` at `@calpoly.edu`, and it is empty exactly when that text is |
| InstructorPage.ExtensionIsLastGroup | main.py:53-57 | with a phone number, the extension is `x6-` and the number's text after its last `.` |
| InstructorPage.NoPhoneNoExtension | main.py:53-57 | without a phone number, the extension is empty |
| InstructorPage.Lookup | main.py:44-78 | a cached URL answers from the cache; otherwise the fetched record is the answer and is stored; entries already present never change, and no other key is added |
| InstructorPage.LookupIsStable | main.py:46-47 | after a successful lookup, asking again for the URL returns the same record and leaves the cache as it is, whatever the page would now say |
| InstructorPage.InstructorCache.constructor | main.py:43 | the cache starts empty |
| InstructorPage.InstructorCache.GetInstructorInfo | main.py:44-78 | the answer and the new cache map are those of `Lookup` on the old map and on the record parsed from the page |
| Schedule.IsUnscheduled | main.py:101-102 | a row is skipped when its start time or its instructor cell is a lone no-break space |
| Schedule.CourseFromRow | main.py:104-122 | the meeting of a row: `name-section`, type, day letters, both parsed times, the instructor's record and the location; `None` when a time cannot be read |
| Schedule.ScheduledMeeting | main.py:104-122 | a meeting read from a schedule row names its instructor, has the parsed times, and is never taken for office hours |
| Schedule.SectionNameIsNotOfficeHours | main.py:106 | a `name-section` string is never `"Office Hours"` |
| Schedule.OfficeHoursEntry | main.py:225-234 | an office-hours row of five fields: the instructor name and an `"Office Hours"` meeting with no type and no record, on the row's days, times and place; `None` for another length or an unreadable time |
| Schedule.OfficeHoursEntryFields | main.py:225-234 | an office-hours row can be read exactly when it has five fields and both times parse; it is an office-hours meeting with no instructor, no type, and the row's days, times and place |
| Schedule.AttachOfficeHours | main.py:235 | the office hours go at the end of the named instructor's meetings and every other group is unchanged |
| Schedule.GroupsOpenWithOwner | main.py:127-145 | every group the grouping makes opens with a meeting of the instructor it is keyed by |
| Schedule.AttachKeepsOwner | main.py:235 | attaching office hours keeps every group opening with its owner's meeting |
| Calendar.StartRow | main.py:184 | a block's first row is the row of the start time |
| Calendar.EndRow | main.py:185 | a block's last row is the row just above that of the end time |
| Calendar.CompactLabel | main.py:192 | `end_row - start_row < 3`, or the meeting is office hours |
| Calendar.Label | main.py:192-195 | `name-section type` and location on two lines when compact; name, type and location on three lines otherwise |
| Calendar.FillColor | main.py:199-202 | `ffff00` for office hours, `c6e0b4` for every other meeting |
| Calendar.Styled | main.py:192-202 | the top cell: the label, bold, centred, with the fill colour |
| Calendar.Placements | main.py:181-189 | every visit of the page, meeting after meeting and, within a meeting, day letter after day letter |
| Calendar.Step | main.py:189-202 | one visit: the block's range is appended to the merged ranges and its top cell becomes the styled label |
| Calendar.Apply | main.py:181-202 | the visits carried out one after another on a page |
| Calendar.WriteHeader | main.py:176-179 | B1, D1, E1 and G1 get the name, the extension, `"Office: "` plus the office, and the email; the merged ranges stay |
| Calendar.RenderPage | main.py:168-202 | the finished page: the header written over the template, then every visit of the meetings applied in order |
| Calendar.Visits | main.py:188-189 | one visit per day letter, in order, each in `day_to_column[day]` |
| Calendar.VisitsSnoc | main.py:188-189 | the visits for one more day letter extend the earlier ones by that letter's visit |
| Calendar.DayColumns | main.py:159-165 | `day_to_column` maps M, T, W, R, F one-to-one into the columns B to F |
| Calendar.Worksheet.Copy | main.py:172 | the copy has the source's cells and merged ranges and the title `"<title> Copy"` |
| Calendar.Worksheet.MergeCells | main.py:190 | a valid range is appended to the merged ranges; nothing else changes |
| Calendar.Worksheet.SetValue | main.py:176-179 | the cell gets the value and keeps its style; nothing else changes |
| Calendar.Worksheet.SetFont | main.py:196 | the cell becomes bold; nothing else changes |
| Calendar.Worksheet.SetAlignment | main.py:197 | the cell becomes centred; nothing else changes |
| Calendar.Worksheet.SetFill | main.py:199-202 | the cell gets a solid fill of the colour; nothing else changes |
| Calendar.FirstTitled | main.py:169 | the sheet returned has the title and no earlier sheet has it |
| Calendar.Workbook.SheetNamed | main.py:169 | `workbook["Template"]` is the first sheet titled `Template` |
| Calendar.Workbook.CopyWorksheet | main.py:172 | the copy is a new sheet appended to the workbook, with the source's contents |
| Calendar.AddInstructorPage | main.py:168-202 | the workbook gains exactly one new sheet, titled with the instructor's name, whose contents are `RenderPage` of the template as it was |
| Calendar.DrawMeeting | main.py:184-202 | drawing one meeting applies its visits, day after day, to the page |
| Calendar.DrawBlock | main.py:189-202 | one day's block of a meeting: the merge is appended and the top cell gets the styled label |
| Calendar.ApplyMerged | main.py:188-190 | the page keeps the template's merged ranges and then has one range per visit, in visit order |
| Calendar.ApplyLastWins | main.py:191-202 | a targeted cell holds the styled label of the last visit that targets it |
| Calendar.ApplyUntouched | main.py:191 | a cell no visit targets keeps what it held |
| Calendar.PlacementOf | main.py:181-189 | meeting `i` on its day `j` is visit number `|visits of meetings before i| + j` |
| Calendar.PlacementSource | main.py:181-189 | every visit is some meeting on one of its days |
| Calendar.MergeGeometry | main.py:184-190 | the page keeps the template's ranges; meeting `i` on day `j` gets range `column(day)` rows `time_to_row(start)` to `time_to_row(end) - 1`, at its place in order |
| Calendar.MergedFromMeetings | main.py:184-190 | every range the page adds is the block of some meeting on one of its days |
| Calendar.TopCell | main.py:191-202 | a block's top cell holds the meeting's styled label, unless a later visit draws on the same cell |
| Calendar.StyledCell | main.py:192-202 | the top cell is bold and centred, with the label; it is filled `ffff00` exactly for office hours and `c6e0b4` exactly otherwise |
| Calendar.LabelLines | main.py:192-195 | the label splits into name-and-type and location when `end_row - start_row < 3` or for office hours, and into name, type and location otherwise |
| Calendar.HeaderEmailKept | main.py:179 | G1 always ends with the instructor's email; columns stop at F |
| Calendar.HeaderKept | main.py:176-179 | when no meeting starts on row 1, B1, D1, E1 and G1 hold the name, the extension, `"Office: "` plus the office, and the email |
| Calendar.ExampleLabels | main.py:192-195 | an 8:10–11:00 lecture gets the three-line label; 7:10–8:00 office hours get the compact one |
| Calendar.OfficeHoursExample | main.py:184-202 | for a lecture and then office hours on a Monday, the page adds B5:B10 and B3:B4; B3 is the yellow compact label and B5 the green three-line one |

## Left out

- Network and HTML: `requests.get` and BeautifulSoup (main.py:49-52, 81-112) are outside the model.
  - `get_instructor_info` is given the page's alias text and phone text (`PageText`). On a cache hit that text is ignored, just as the source makes no request.
  - The traversal of the schedule table is not modelled. Only the handling of one extracted row is (`Schedule.CourseFromRow`, `Schedule.IsUnscheduled`).
- Files and the clock: the CSV reader, the header row skip, `date.today()` and saving the workbook (main.py:217-241) are outside the model. The loop of `main` over the groups (main.py:237-238) is not modelled as a method; one call of `add_instructor_page` is.
- The `__dict__` walk of `group_courses_by` is modelled only for the one key path the program uses, `instructor.name`.
- Crashes become `None` or preconditions:
  - An unreadable time, an alias without `*` and an office-hours row of the wrong length raise in the source; they are `None` here.
  - Some are preconditions instead: a missing `Template` sheet, an unknown day letter, a meeting without an instructor where its name is read, a block the worksheet cannot merge (`AllRenderable` on `Calendar.AddInstructorPage`: rows outside 1..1048576, or a last row above the first, as for a 10:00–10:10 meeting; the condition is asked also of meetings with no day letters, which the source never merges), and an office-hours name with no group (`Schedule.AttachOfficeHours`).
- `openpyxl` internals:
  - `Calendar.Worksheet.MergeCells`: does not clear the cells a merge covers. It also does not turn them into read-only merged cells, so a later write into one of them (a meeting that starts inside another's block) is not an error in the model. And it appends every range, where openpyxl's merged-cell collection skips a range that an existing merged range already covers: two sections in the same slot add two ranges in the model and one in openpyxl.
  - `Calendar.Worksheet.Copy`: does not de-duplicate titles. The sheet title set from the instructor's name is neither validated nor de-duplicated either.
  - Fonts beyond bold, alignment beyond centring, and fill patterns beyond solid are not modelled.
  - An empty cell is the value `""`.
- `Text.ParseInt`: does not accept underscores between digits or non-ASCII decimal digits, which Python's `int()` accepts. It also reads digit runs of any length, where Python's `int()` (and `str()`) raise `ValueError` beyond 4300 decimal digits unless `sys.set_int_max_str_digits` lifts the limit; the times this program parses are a few digits long. The whitespace it skips is that of `Text.Strip` less the information separators U+001C..U+001F, following how CPython's `int()` treats ASCII text.
- `Text.IsWhitespace`: covers the characters `str.isspace()` holds for, written out as a fixed list rather than taken from the Unicode database.
