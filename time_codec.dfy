/** The time codec: a clock time written `"H:MM AM"` or `"H:MM PM"` becomes
    a 24-hour `(hour, minute)` pair, and such a pair becomes a row of the
    weekly grid, which starts at 7:00 on row 3 with two rows per hour. */
module TimeCodec {
  import opened Wrappers
  import opened Text
  import opened Records

  /** `parse_time`: colons become spaces, the text is split on single
      spaces, the first two fields are read as integers and the hour moves
      to the afternoon when the third field is exactly `"PM"` and the hour is
      not 12. A missing field or an unreadable number raises in the source,
      which is `None` here. */
  function ParseTime(text: string): Option<Time>
  {
    ReadFields(Split(Replace(text, ':', ' '), ' '))
  }

  /** The second half of `parse_time`, on the fields of the split text. */
  function ReadFields(parts: seq<string>): Option<Time>
  {
    if |parts| < 3 then None
    else
      var hour, minute := ParseInt(parts[0]), ParseInt(parts[1]);
      if hour.None? || minute.None? then None
      else Some(Time(if parts[2] == "PM" && hour.value != 12 then hour.value + 12 else hour.value, minute.value))
  }

  /** The text `"H:MM <meridiem>"`, with no leading zero on the hour and
      two digits for the minute. */
  function ClockText(hour: nat, minute: nat, meridiem: string): string
    requires minute < 100
  {
    Decimal(hour) + ":" + PadTwo(minute) + " " + meridiem
  }

  /** The canonical twelve-hour rendering of a time between 1:00 and 23:59. */
  function Format12(t: Time): string
    requires 1 <= t.hour <= 23 && 0 <= t.minute < 60
  {
    ClockText(if t.hour > 12 then t.hour - 12 else t.hour, t.minute, if t.hour >= 12 then "PM" else "AM")
  }

  lemma DigitsHaveNoSeparator(s: string)
    requires IsDigits(s)
    ensures ':' !in s && ' ' !in s
  {
  }

  /** Once colons are spaces, `"H:MM X"` splits into its three fields. */
  lemma ClockTextFields(hour: nat, minute: nat, meridiem: string)
    requires minute < 100
    requires ' ' !in meridiem && ':' !in meridiem
    ensures Split(Replace(ClockText(hour, minute, meridiem), ':', ' '), ' ') == [Decimal(hour), PadTwo(minute), meridiem]
  {
    var h, m := Decimal(hour), PadTwo(minute);
    DigitsHaveNoSeparator(h);
    DigitsHaveNoSeparator(m);
    var spaced := h + " " + m + " " + meridiem;
    calc {
      Replace(ClockText(hour, minute, meridiem), ':', ' ');
    == { ReplaceConcat(h + ":" + m + " ", meridiem, ':', ' '); ReplaceAbsent(meridiem, ':', ' '); }
      Replace(h + ":" + m + " ", ':', ' ') + meridiem;
    == { ReplaceConcat(h + ":" + m, " ", ':', ' '); ReplaceAbsent(" ", ':', ' '); }
      Replace(h + ":" + m, ':', ' ') + " " + meridiem;
    == { ReplaceConcat(h + ":", m, ':', ' '); ReplaceAbsent(m, ':', ' '); }
      Replace(h + ":", ':', ' ') + m + " " + meridiem;
    == { ReplaceConcat(h, ":", ':', ' '); ReplaceAbsent(h, ':', ' '); }
      spaced;
    }
    assert [h, m, meridiem][1..] == [m, meridiem] && [m, meridiem][1..] == [meridiem];
    assert Join([meridiem], ' ') == meridiem;
    assert Join([m, meridiem], ' ') == m + [' '] + meridiem;
    assert Join([h, m, meridiem], ' ') == h + [' '] + (m + [' '] + meridiem);
    assert h + [' '] + (m + [' '] + meridiem) == spaced;
    SplitJoin([h, m, meridiem], ' ');
  }

  /** `"H:MM X"` parses to hour `H + 12` when `X` is `"PM"` and `H` is not 12,
      and to hour `H` otherwise (an `"AM"`, or 12 o'clock); the minute is
      `MM` unchanged. For `H` in 1..12 the hour lands in 1..23. */
  lemma ParseClockText(hour: nat, minute: nat, meridiem: string)
    requires minute < 100
    requires ' ' !in meridiem && ':' !in meridiem
    ensures ParseTime(ClockText(hour, minute, meridiem))
         == Some(Time(if meridiem == "PM" && hour != 12 then hour + 12 else hour, minute))
    ensures 1 <= hour <= 12 ==> 1 <= ParseTime(ClockText(hour, minute, meridiem)).value.hour <= 23
  {
    var h, m := Decimal(hour), PadTwo(minute);
    ClockTextFields(hour, minute, meridiem);
    ParseDigits(h);
    ParseDigits(m);
    ReadNumericFields(h, m, meridiem, hour, minute);
  }

  lemma ReadNumericFields(h: string, m: string, meridiem: string, hour: int, minute: int)
    requires ParseInt(h) == Some(hour) && ParseInt(m) == Some(minute)
    ensures ReadFields([h, m, meridiem]) == Some(Time(if meridiem == "PM" && hour != 12 then hour + 12 else hour, minute))
  {
  }

  /** Rendering a time in twelve-hour form and parsing it gives the time
      back. */
  lemma FormatParseRoundTrip(t: Time)
    requires 1 <= t.hour <= 23 && 0 <= t.minute < 60
    ensures ParseTime(Format12(t)) == Some(t)
  {
    ParseClockText(if t.hour > 12 then t.hour - 12 else t.hour, t.minute, if t.hour >= 12 then "PM" else "AM");
  }

  /** Parsing is idempotent under re-rendering: whatever text parsed to a
      time between 1:00 and 23:59, its canonical rendering parses to the
      same time. */
  lemma ReparseIsStable(text: string)
    requires ParseTime(text).Some?
    requires 1 <= ParseTime(text).value.hour <= 23 && 0 <= ParseTime(text).value.minute < 60
    ensures ParseTime(Format12(ParseTime(text).value)) == ParseTime(text)
  {
    FormatParseRoundTrip(ParseTime(text).value);
  }

  /** Text that holds fewer than two spaces and colons in all has no third
      field: `parse_time` raises. */
  lemma ParseTimeNeedsThreeFields(text: string)
    requires multiset(text)[' '] + multiset(text)[':'] < 2
    ensures ParseTime(text) == None
  {
    var spaced := Replace(text, ':', ' ');
    SplitCount(spaced, ' ');
    assert multiset(spaced)[' '] == multiset(text)[' '] + multiset(text)[':'] by {
      SpacesAfterReplace(text);
    }
  }

  lemma {:induction false} SpacesAfterReplace(text: string)
    ensures multiset(Replace(text, ':', ' '))[' '] == multiset(text)[' '] + multiset(text)[':']
    decreases |text|
  {
    if text != [] {
      SpacesAfterReplace(text[1..]);
      ReplaceConcat([text[0]], text[1..], ':', ' ');
      assert [text[0]] + text[1..] == text;
    }
  }

  /** `time_to_row`: hour `h` starts on row `(h - 7) * 2 + 3` and the
      `:40` slot takes the row after it. */
  function TimeToRow(t: Time): int
  {
    var row := (t.hour - 7) * 2 + 3;
    if t.minute == 40 then row + 1 else row
  }

  /** What a row means: half of its offset from row 3 is the hour's offset
      from 7:00, and it is an even row exactly when it is a `:40` slot. */
  lemma TimeToRowMeaning(t: Time)
    ensures (TimeToRow(t) - 3) / 2 == t.hour - 7
    ensures TimeToRow(t) % 2 == 0 <==> t.minute == 40
  {
  }

  /** The slot a grid row stands for: an odd row is on the hour, an even one
      at `:40`. */
  function SlotOfRow(row: int): Time
  {
    Time(7 + (row - 3) / 2, if (row - 3) % 2 == 1 then 40 else 0)
  }

  /** The minute of the slot a time falls in: only `:40` is its own slot;
      `:00`, `:10` and every other minute share the on-the-hour row. */
  function SlotMinute(t: Time): int
  {
    if t.minute == 40 then 40 else 0
  }

  /** Every row is the row of its own slot, and a time's row is the row of
      its slot: the two maps are inverse on slots. */
  lemma RowSlotRoundTrip(row: int, t: Time)
    ensures TimeToRow(SlotOfRow(row)) == row
    ensures SlotOfRow(TimeToRow(t)) == Time(t.hour, SlotMinute(t))
  {
  }

  /** Rows follow the order of slots: an earlier slot has a smaller row. */
  lemma TimeToRowOrder(a: Time, b: Time)
    ensures TimeToRow(a) < TimeToRow(b)
        <==> a.hour < b.hour || (a.hour == b.hour && SlotMinute(a) < SlotMinute(b))
  {
  }

  /** The fixed points of the layout: 7:00 is row 3, 7:10 shares it, 7:40
      is row 4 and 8:00 row 5. */
  lemma GridAnchors()
    ensures TimeToRow(Time(7, 0)) == 3
    ensures TimeToRow(Time(7, 10)) == 3
    ensures TimeToRow(Time(7, 40)) == 4
    ensures TimeToRow(Time(8, 0)) == 5
  {
  }
}
