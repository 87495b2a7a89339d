/** The string operations of Python's `str` that the scraper applies to text
    it has already extracted: `split` on a one-character separator, `strip`
    with no argument, `replace` of one character, and `int()` on a string.
    `str(n)` and the two-digit minute rendering are here too, as the
    canonical renderings the round-trip lemmas start from. */
module Text {
  import opened Wrappers

  /** The characters for which Python's `str.isspace()` holds: the ones
      `str.strip()` removes when it is given no argument. */
  predicate IsWhitespace(c: char)
  {
    || c == ' '
    || ('\t' <= c <= '\r')
    || ('\U{1c}' <= c <= '\U{1f}')
    || c == '\U{85}'
    || c == '\U{a0}'
    || c == '\U{1680}'
    || ('\U{2000}' <= c <= '\U{200a}')
    || c == '\U{2028}'
    || c == '\U{2029}'
    || c == '\U{202f}'
    || c == '\U{205f}'
    || c == '\U{3000}'
  }

  // ---------------------------------------------------------------------
  // str.split(sep) and its inverse, sep.join(parts)
  // ---------------------------------------------------------------------

  /** `s.split(sep)`: the maximal runs between occurrences of `sep`,
      empty runs included, so there is always at least one part. */
  function Split(s: string, sep: char): (parts: seq<string>)
    ensures |parts| >= 1
    ensures forall i :: 0 <= i < |parts| ==> sep !in parts[i]
    decreases |s|
  {
    if s == [] then [[]]
    else
      var rest := Split(s[1..], sep);
      if s[0] == sep then [[]] + rest
      else [[s[0]] + rest[0]] + rest[1..]
  }

  /** `sep.join(parts)`. */
  function Join(parts: seq<string>, sep: char): string
    decreases |parts|
  {
    if parts == [] then []
    else if |parts| == 1 then parts[0]
    else parts[0] + [sep] + Join(parts[1..], sep)
  }

  function Last<T>(s: seq<T>): T
    requires |s| > 0
  {
    s[|s| - 1]
  }

  /** Joining the parts of a split with the same separator gives back the
      original string. */
  lemma {:induction false} JoinSplit(s: string, sep: char)
    ensures Join(Split(s, sep), sep) == s
    decreases |s|
  {
    if s != [] {
      var rest := Split(s[1..], sep);
      JoinSplit(s[1..], sep);
      if s[0] == sep {
        assert ([[]] + rest)[1..] == rest;
      } else if |rest| > 1 {
        assert ([[s[0]] + rest[0]] + rest[1..])[1..] == rest[1..];
      }
    }
  }

  /** Splitting a string whose first `|a|` characters hold no separator:
      those characters open the first part. */
  lemma {:induction false} SplitAfterPlainPrefix(a: string, t: string, sep: char)
    requires sep !in a
    ensures Split(a + t, sep) == [a + Split(t, sep)[0]] + Split(t, sep)[1..]
    decreases |a|
  {
    if a == [] {
      assert a + t == t;
      assert a + Split(t, sep)[0] == Split(t, sep)[0];
      assert Split(t, sep) == [Split(t, sep)[0]] + Split(t, sep)[1..];
    } else {
      assert (a + t)[0] == a[0];
      assert (a + t)[1..] == a[1..] + t;
      SplitAfterPlainPrefix(a[1..], t, sep);
      assert [a[0]] + (a[1..] + Split(t, sep)[0]) == a + Split(t, sep)[0];
    }
  }

  /** Splitting the join of separator-free parts gives the parts back. */
  lemma {:induction false} SplitJoin(parts: seq<string>, sep: char)
    requires |parts| >= 1
    requires forall i :: 0 <= i < |parts| ==> sep !in parts[i]
    ensures Split(Join(parts, sep), sep) == parts
    decreases |parts|
  {
    if |parts| == 1 {
      SplitAfterPlainPrefix(parts[0], [], sep);
      assert parts[0] + [] == parts[0];
    } else {
      var tail := Join(parts[1..], sep);
      SplitJoin(parts[1..], sep);
      assert ([sep] + tail)[0] == sep && ([sep] + tail)[1..] == tail;
      assert Split([sep] + tail, sep) == [[]] + parts[1..];
      SplitAfterPlainPrefix(parts[0], [sep] + tail, sep);
      assert parts[0] + [sep] + tail == parts[0] + ([sep] + tail);
      assert parts[0] + [] == parts[0];
      assert ([[]] + parts[1..])[1..] == parts[1..];
    }
  }

  /** A split yields one part more than there are separators, so indexing
      part `i` succeeds exactly when the text holds at least `i`
      separators. */
  lemma {:induction false} SplitCount(s: string, sep: char)
    ensures |Split(s, sep)| == multiset(s)[sep] + 1
    decreases |s|
  {
    if s != [] {
      SplitCount(s[1..], sep);
      assert s == [s[0]] + s[1..];
      assert multiset(s) == multiset([s[0]]) + multiset(s[1..]);
    }
  }

  /** The first part is the text before the first separator: a prefix of
      `s` that is either all of `s` or is followed by the separator. */
  lemma {:induction false} SplitFirst(s: string, sep: char)
    ensures var first := Split(s, sep)[0];
      && |first| <= |s| && first == s[..|first|] && sep !in first
      && (|first| == |s| || s[|first|] == sep)
    decreases |s|
  {
    if s != [] && s[0] != sep {
      SplitFirst(s[1..], sep);
    }
  }

  /** The second part is the text between the first and the second
      separator. */
  lemma {:induction false} SplitSecond(s: string, sep: char)
    requires |Split(s, sep)| >= 2
    ensures var first := Split(s, sep)[0];
      var second := Split(s, sep)[1];
      && |first| < |s| && s[|first|] == sep
      && second == Split(s[|first| + 1..], sep)[0]
    decreases |s|
  {
    SplitFirst(s, sep);
    SplitCount(s, sep);
    var first := Split(s, sep)[0];
    assert sep in multiset(s);
    assert sep in s;
    assert |first| < |s|;
    if s[0] != sep {
      SplitSecond(s[1..], sep);
      assert s[1..][|first| - 1 + 1..] == s[|first| + 1..];
    }
  }

  /** Joining two or more parts puts the last one after a final
      separator. */
  lemma {:induction false} JoinLast(parts: seq<string>, sep: char)
    requires |parts| >= 2
    ensures Join(parts, sep) == Join(parts[..|parts| - 1], sep) + [sep] + Last(parts)
    decreases |parts|
  {
    if |parts| > 2 {
      JoinLast(parts[1..], sep);
      assert parts[1..][..|parts| - 2] == parts[..|parts| - 1][1..];
    }
  }

  /** The last part is the text after the last separator: a suffix of `s`
      that is either all of `s` or is preceded by the separator. */
  lemma SplitLast(s: string, sep: char)
    ensures var last := Last(Split(s, sep));
      && |last| <= |s| && last == s[|s| - |last|..] && sep !in last
      && (|last| == |s| || s[|s| - |last| - 1] == sep)
  {
    var parts := Split(s, sep);
    JoinSplit(s, sep);
    if |parts| >= 2 {
      JoinLast(parts, sep);
    }
  }

  /** Only one prefix is free of `sep` and ends at a separator or at the
      end of the text: the one before the first separator. */
  lemma PrefixBeforeFirstUnique(s: string, sep: char, a: nat, b: nat)
    requires a <= |s| && sep !in s[..a] && (a == |s| || s[a] == sep)
    requires b <= |s| && sep !in s[..b] && (b == |s| || s[b] == sep)
    ensures a == b
  {
  }

  /** With the first separator at `p`, the first field is the text before
      it, and there is a second field. */
  lemma SplitFirstAt(s: string, sep: char, p: nat)
    requires p < |s| && s[p] == sep && sep !in s[..p]
    ensures |Split(s, sep)| >= 2 && Split(s, sep)[0] == s[..p]
  {
    SplitFirst(s, sep);
    PrefixBeforeFirstUnique(s, sep, |Split(s, sep)[0]|, p);
    SplitCount(s, sep);
    assert sep in multiset(s);
  }

  /** The text up to the next separator (at `q`, or the end of the text) is
      the first field. */
  lemma SplitFirstUpTo(s: string, sep: char, q: nat)
    requires q <= |s| && sep !in s[..q] && (q == |s| || s[q] == sep)
    ensures Split(s, sep)[0] == s[..q]
  {
    SplitFirst(s, sep);
    PrefixBeforeFirstUnique(s, sep, |Split(s, sep)[0]|, q);
  }

  /** With the first separator at `p` and the next one (or the end) at `q`,
      the first two parts are the text before `p` and between `p` and `q`. */
  lemma SplitFirstTwoAt(s: string, sep: char, p: nat, q: nat)
    requires p < q <= |s|
    requires s[p] == sep && sep !in s[..p]
    requires sep !in s[p + 1..q] && (q == |s| || s[q] == sep)
    ensures |Split(s, sep)| >= 2
    ensures Split(s, sep)[0] == s[..p] && Split(s, sep)[1] == s[p + 1..q]
  {
    SplitFirstAt(s, sep, p);
    SplitSecond(s, sep);
    var rest := s[p + 1..];
    assert rest[..q - (p + 1)] == s[p + 1..q];
    SplitFirstUpTo(rest, sep, q - (p + 1));
  }

  /** Only one suffix is free of `sep` and starts after a separator or at
      the start of the text: the one after the last separator. */
  lemma SuffixAfterLastUnique(s: string, sep: char, a: nat, b: nat)
    requires a <= |s| && sep !in s[a..] && (a == 0 || s[a - 1] == sep)
    requires b <= |s| && sep !in s[b..] && (b == 0 || s[b - 1] == sep)
    ensures a == b
  {
  }

  // ---------------------------------------------------------------------
  // str.strip()
  // ---------------------------------------------------------------------

  /** How many whitespace characters open `s`. */
  function LeadCount(s: string): (n: nat)
    ensures n <= |s|
    decreases |s|
  {
    if s != [] && IsWhitespace(s[0]) then 1 + LeadCount(s[1..]) else 0
  }

  /** How much of `s` is left once the whitespace that closes it is cut. */
  function KeepCount(s: string): (n: nat)
    ensures n <= |s|
    decreases |s|
  {
    if s != [] && IsWhitespace(s[|s| - 1]) then KeepCount(s[..|s| - 1]) else |s|
  }

  /** Exactly the leading whitespace is counted: everything before the
      count is whitespace, and the character at the count is not. */
  lemma {:induction false} LeadCountCuts(s: string)
    ensures forall i :: 0 <= i < LeadCount(s) ==> IsWhitespace(s[i])
    ensures LeadCount(s) < |s| ==> !IsWhitespace(s[LeadCount(s)])
    decreases |s|
  {
    if s != [] && IsWhitespace(s[0]) {
      LeadCountCuts(s[1..]);
      WhitespaceRunShifts(s, LeadCount(s));
      assert LeadCount(s) < |s| ==> s[LeadCount(s)] == s[1..][LeadCount(s[1..])];
    }
  }

  /** A whitespace run at the front of `s[1..]`, after a whitespace first
      character, is one character longer in `s`. */
  lemma WhitespaceRunShifts(s: string, n: nat)
    requires 0 < n <= |s| && IsWhitespace(s[0])
    requires forall i :: 0 <= i < n - 1 ==> IsWhitespace(s[1..][i])
    ensures forall i :: 0 <= i < n ==> IsWhitespace(s[i])
  {
    forall i | 0 < i < n
      ensures IsWhitespace(s[i])
    {
      assert s[i] == s[1..][i - 1];
    }
  }

  /** Exactly the trailing whitespace is cut: everything from the kept
      length on is whitespace, and the last kept character is not. */
  lemma {:induction false} KeepCountCuts(s: string)
    ensures forall i :: KeepCount(s) <= i < |s| ==> IsWhitespace(s[i])
    ensures KeepCount(s) > 0 ==> !IsWhitespace(s[KeepCount(s) - 1])
    decreases |s|
  {
    if s != [] && IsWhitespace(s[|s| - 1]) {
      var init := s[..|s| - 1];
      KeepCountCuts(init);
      forall i | KeepCount(s) <= i < |s| - 1
        ensures IsWhitespace(s[i])
      {
        assert s[i] == init[i];
      }
      assert KeepCount(s) > 0 ==> s[KeepCount(s) - 1] == init[KeepCount(init) - 1];
    }
  }

  /** `r` is `s` with `lead` whitespace characters cut from the front and
      only whitespace cut from the back. */
  predicate StrippedAt(s: string, lead: nat, r: string)
  {
    && lead + |r| <= |s|
    && r == s[lead..lead + |r|]
    && (forall i :: 0 <= i < lead ==> IsWhitespace(s[i]))
    && (forall i :: lead + |r| <= i < |s| ==> IsWhitespace(s[i]))
  }

  /** Whitespace that closes the tail `s[lead..]` closes `s` too. */
  lemma WhitespaceTailOfSuffix(s: string, lead: nat, n: nat)
    requires lead + n <= |s|
    requires forall i :: n <= i < |s| - lead ==> IsWhitespace(s[lead..][i])
    ensures forall i :: lead + n <= i < |s| ==> IsWhitespace(s[i])
  {
    forall i | lead + n <= i < |s|
      ensures IsWhitespace(s[i])
    {
      assert s[i] == s[lead..][i - lead];
    }
  }

  /** `s.strip()`: the text between the leading and the trailing
      whitespace. */
  function Strip(s: string): (r: string)
    ensures r != [] ==> !IsWhitespace(r[0]) && !IsWhitespace(r[|r| - 1])
    ensures exists lead: nat :: StrippedAt(s, lead, r)
  {
    var lead := LeadCount(s);
    var keep := KeepCount(s[lead..]);
    StripCuts(s, lead, keep);
    StrippedSomewhere(s, lead, s[lead..lead + keep]);
    s[lead..lead + keep]
  }

  lemma StrippedSomewhere(s: string, lead: nat, r: string)
    requires StrippedAt(s, lead, r)
    ensures exists k: nat :: StrippedAt(s, k, r)
  {
  }

  /** The slice `Strip` returns is stripped at the leading count. */
  lemma StripCuts(s: string, lead: nat, keep: nat)
    requires lead == LeadCount(s) && keep == KeepCount(s[lead..])
    ensures lead + keep <= |s|
    ensures keep > 0 ==> !IsWhitespace(s[lead]) && !IsWhitespace(s[lead + keep - 1])
    ensures StrippedAt(s, lead, s[lead..lead + keep])
  {
    LeadCountCuts(s);
    KeepCountCuts(s[lead..]);
    StrippedByCuts(s, lead, keep);
  }

  /** Whitespace before `lead`, and whitespace after the first `keep`
      characters of `s[lead..]`, make `s` stripped at `lead`. */
  lemma StrippedByCuts(s: string, lead: nat, keep: nat)
    requires lead + keep <= |s|
    requires forall i :: 0 <= i < lead ==> IsWhitespace(s[i])
    requires lead < |s| ==> !IsWhitespace(s[lead])
    requires forall i :: keep <= i < |s| - lead ==> IsWhitespace(s[lead..][i])
    requires keep > 0 ==> !IsWhitespace(s[lead..][keep - 1])
    ensures keep > 0 ==> !IsWhitespace(s[lead]) && !IsWhitespace(s[lead + keep - 1])
    ensures StrippedAt(s, lead, s[lead..lead + keep])
  {
    WhitespaceTailOfSuffix(s, lead, keep);
    if keep > 0 {
      assert s[lead + keep - 1] == s[lead..][keep - 1];
    }
  }

  /** Text with no whitespace at either end is left as it is by strip. */
  lemma StripKeepsTrimmed(s: string)
    requires s != [] ==> !IsWhitespace(s[0]) && !IsWhitespace(s[|s| - 1])
    ensures Strip(s) == s
  {
  }

  // ---------------------------------------------------------------------
  // str.replace(target, replacement) on single characters
  // ---------------------------------------------------------------------

  function Replace(s: string, target: char, replacement: char): string
  {
    seq(|s|, i requires 0 <= i < |s| => if s[i] == target then replacement else s[i])
  }

  lemma ReplaceConcat(a: string, b: string, target: char, replacement: char)
    ensures Replace(a + b, target, replacement) == Replace(a, target, replacement) + Replace(b, target, replacement)
  {
    var l, r := Replace(a + b, target, replacement), Replace(a, target, replacement) + Replace(b, target, replacement);
    assert |l| == |r|;
    forall i | 0 <= i < |l| ensures l[i] == r[i] {
      if i < |a| { assert (a + b)[i] == a[i]; } else { assert (a + b)[i] == b[i - |a|]; }
    }
  }

  lemma ReplaceAbsent(s: string, target: char, replacement: char)
    requires target !in s
    ensures Replace(s, target, replacement) == s
  {
  }

  // ---------------------------------------------------------------------
  // Decimal digits: int() and str()
  // ---------------------------------------------------------------------

  predicate IsDigit(c: char)
  {
    '0' <= c <= '9'
  }

  /** A non-empty run of ASCII decimal digits. */
  predicate IsDigits(s: string)
  {
    |s| > 0 && forall i :: 0 <= i < |s| ==> IsDigit(s[i])
  }

  function DigitValue(c: char): int
  {
    c as int - '0' as int
  }

  function DigitChar(d: int): (c: char)
    requires 0 <= d < 10
    ensures IsDigit(c) && DigitValue(c) == d
  {
    ('0' as int + d) as char
  }

  /** The number a run of decimal digits denotes, most significant first. */
  function DecimalValue(s: string): int
    decreases |s|
  {
    if s == [] then 0 else DecimalValue(s[..|s| - 1]) * 10 + DigitValue(s[|s| - 1])
  }

  /** `str(n)` for a natural number: its decimal digits, which denote `n`. */
  function Decimal(n: nat): (s: string)
    ensures IsDigits(s)
    ensures DecimalValue(s) == n
    decreases n
  {
    if n < 10 then [DigitChar(n)]
    else
      var high := Decimal(n / 10);
      var digits := high + [DigitChar(n % 10)];
      assert digits[..|digits| - 1] == high;
      assert n == (n / 10) * 10 + n % 10;
      digits
  }

  /** `f"{n:02d}"` for `n` below 100: exactly two digits, which denote `n`. */
  function PadTwo(n: nat): (s: string)
    requires n < 100
    ensures IsDigits(s) && |s| == 2
    ensures DecimalValue(s) == n
  {
    var high, low := DigitChar(n / 10), DigitChar(n % 10);
    assert [high][..0] == [];
    assert DecimalValue([high]) == n / 10;
    assert [high, low][..1] == [high];
    assert n == (n / 10) * 10 + n % 10;
    [high, low]
  }

  /** The ASCII information separators U+001C..U+001F: `str.isspace()`
      holds for them, but `int()` does not skip them. */
  predicate IsInfoSeparator(c: char)
  {
    '\U{1c}' <= c <= '\U{1f}'
  }

  predicate HasInfoSeparator(s: string)
  {
    exists i :: 0 <= i < |s| && IsInfoSeparator(s[i])
  }

  /** Digits are not information separators. */
  lemma DigitsHaveNoInfoSeparator(d: string)
    requires IsDigits(d)
    ensures !HasInfoSeparator(d)
  {
    forall k | 0 <= k < |d|
      ensures !IsInfoSeparator(d[k])
    {
      assert IsDigit(d[k]);
    }
  }

  /** Nor is a `-` before digits. */
  lemma NegativeHasNoInfoSeparator(d: string)
    requires IsDigits(d)
    ensures !HasInfoSeparator("-" + d)
  {
    var s := "-" + d;
    forall k | 0 <= k < |s|
      ensures !IsInfoSeparator(s[k])
    {
      if k > 0 {
        assert s[k] == d[k - 1];
      }
    }
  }

  /** `int(s)` for ASCII digits: surrounding whitespace other than the
      information separators is ignored and one leading `+` or `-` is
      accepted; any other text raises, which is `None` here. An information
      separator is never part of a number, so one anywhere in `s` makes it
      unreadable. */
  function ParseInt(s: string): Option<int>
  {
    var t := Strip(s);
    if HasInfoSeparator(s) then None
    else if |t| > 0 && (t[0] == '+' || t[0] == '-') then
      if IsDigits(t[1..]) then
        Some(if t[0] == '-' then -DecimalValue(t[1..]) else DecimalValue(t[1..]))
      else None
    else if IsDigits(t) then Some(DecimalValue(t))
    else None
  }

  /** `str(i)` for any integer. */
  function IntToString(i: int): string
  {
    if i < 0 then "-" + Decimal(-i) else Decimal(i)
  }

  /** `int()` reads a run of digits as the number it denotes. */
  lemma ParseDigits(s: string)
    requires IsDigits(s)
    ensures ParseInt(s) == Some(DecimalValue(s))
  {
    StripKeepsTrimmed(s);
    DigitsHaveNoInfoSeparator(s);
  }

  /** `strip()` skips an information separator but `int()` does not. */
  lemma InfoSeparatorIsNotSkipped()
    ensures IsWhitespace('\U{1c}')
    ensures ParseInt("\U{1c}5") == None
  {
    assert IsInfoSeparator("\U{1c}5"[0]);
  }

  /** `int(str(i)) == i`. */
  lemma ParseIntToString(i: int)
    ensures ParseInt(IntToString(i)) == Some(i)
  {
    if i < 0 {
      ParseNegative(Decimal(-i));
    } else {
      ParseDigits(Decimal(i));
    }
  }

  /** `int()` reads a `-` and a run of digits as the negated number. */
  lemma ParseNegative(d: string)
    requires IsDigits(d)
    ensures ParseInt("-" + d) == Some(-DecimalValue(d))
  {
    var s := "-" + d;
    StripKeepsTrimmed(s);
    NegativeHasNoInfoSeparator(d);
    assert s[1..] == d;
  }
}
