/** The instructor record read from the text of an instructor's schedule
    page, and the per-URL cache that makes every later lookup of the same
    page return the first record. */
module InstructorPage {
  import opened Wrappers
  import opened Text
  import opened Records

  const EMAIL_DOMAIN: string := "@calpoly.edu"

  /** Campus extensions are written after this prefix. */
  const EXT_PREFIX: string := "x6-"

  /** What the program reads from an instructor's page: the text of the
      alias span and, when the span holds an anchor, the anchor's text
      (the phone number). */
  datatype PageText = PageText(alias: string, phone: Option<string>)

  /** The extension: the prefix and the last `.`-separated group of the
      phone number, or nothing when the page shows no phone number. */
  function Extension(phone: Option<string>): string
  {
    if phone.Some? then EXT_PREFIX + Last(Split(phone.value, '.')) else ""
  }

  /** The address for a user name; no address for an empty one. */
  function Email(username: string): string
  {
    if username != "" then username + EMAIL_DOMAIN else ""
  }

  /** The string logic of `get_instructor_info`: the alias reads
      `office * username ...`; the office is the stripped text before the
      first `*`, the user name the stripped text after it up to the next
      `*`. An alias without `*` raises in the source: `None` here. */
  function ParseAlias(name: string, page: PageText): Option<InstructorInfo>
  {
    var ext := Extension(page.phone);
    var parts := Split(page.alias, '*');
    if |parts| < 2 then None
    else Some(InstructorInfo(name, ext, Email(Strip(parts[1])), Strip(parts[0])))
  }

  /** The record can be read exactly when the alias holds a `*`. */
  lemma ParseAliasDefined(name: string, page: PageText)
    ensures ParseAlias(name, page).Some? <==> '*' in page.alias
    ensures ParseAlias(name, page).Some? ==> ParseAlias(name, page).value.name == name
  {
    SplitCount(page.alias, '*');
    assert '*' in page.alias <==> '*' in multiset(page.alias);
  }

  /** The office is the stripped text before the first `*`. */
  lemma OfficeBeforeFirstStar(name: string, page: PageText, p: nat)
    requires p < |page.alias| && page.alias[p] == '*' && '*' !in page.alias[..p]
    ensures ParseAlias(name, page).Some?
    ensures ParseAlias(name, page).value.officeLocation == Strip(page.alias[..p])
  {
    var s := page.alias;
    ParseAliasDefined(name, page);
    SplitFirst(s, '*');
    PrefixBeforeFirstUnique(s, '*', |Split(s, '*')[0]|, p);
  }

  /** The user name is the stripped text between the first `*` (at `p`) and
      the next one (at `q`, or the end of the alias); the email is that name
      at the campus domain when the name is not empty, and empty otherwise. */
  lemma EmailFromSecondField(name: string, page: PageText, p: nat, q: nat)
    requires p < q <= |page.alias|
    requires page.alias[p] == '*' && '*' !in page.alias[..p]
    requires '*' !in page.alias[p + 1..q] && (q == |page.alias| || page.alias[q] == '*')
    ensures ParseAlias(name, page).Some?
    ensures var username := Strip(page.alias[p + 1..q]);
      var email := ParseAlias(name, page).value.email;
      && (email != "" <==> username != "")
      && (username != "" ==> email == username + "@calpoly.edu")
  {
    SplitFirstTwoAt(page.alias, '*', p, q);
  }

  /** The extension is the prefix and the part of the phone number after
      the last `.`: the suffix that starts at `i` and holds no `.`, where
      `i` is the start of the number or the place just after a `.`. */
  lemma ExtensionIsLastGroup(phone: string, i: nat)
    requires i <= |phone| && '.' !in phone[i..]
    requires i == 0 || phone[i - 1] == '.'
    ensures Extension(Some(phone)) == "x6-" + phone[i..]
  {
    var last := Last(Split(phone, '.'));
    SplitLast(phone, '.');
    var a := |phone| - |last|;
    assert phone[a..] == last;
    SuffixAfterLastUnique(phone, '.', a, i);
    assert Extension(Some(phone)) == EXT_PREFIX + last;
  }

  /** A page without a phone number gives an empty extension. */
  lemma NoPhoneNoExtension(name: string, alias: string)
    requires '*' in alias
    ensures ParseAlias(name, PageText(alias, None)).Some?
    ensures ParseAlias(name, PageText(alias, None)).value.ext == ""
  {
    ParseAliasDefined(name, PageText(alias, None));
  }

  // ---------------------------------------------------------------------
  // The cache
  // ---------------------------------------------------------------------

  /** One call of `get_instructor_info` on a cache, as the pair of its
      answer and the cache afterwards; `fetched` is what reading the page
      would give. A cached URL answers from the cache and the page is not
      consulted; otherwise the fetched record is the answer and, when there
      is one, it is stored under the URL. Entries already present never
      change. */
  function Lookup(entries: map<string, InstructorInfo>, url: string, fetched: Option<InstructorInfo>)
    : (result: (Option<InstructorInfo>, map<string, InstructorInfo>))
    ensures forall u :: u in result.1 <==> u in entries || (u == url && result.0.Some?)
    ensures forall u :: u in entries ==> result.1[u] == entries[u]
    ensures result.0.Some? ==> url in result.1 && result.1[url] == result.0.value
    ensures url in entries ==> result.0 == Some(entries[url])
    ensures url !in entries ==> result.0 == fetched
  {
    if url in entries then (Some(entries[url]), entries)
    else if fetched.Some? then (fetched, entries[url := fetched.value])
    else (None, entries)
  }

  /** After a successful lookup, asking again for the same URL returns the
      same record and leaves the cache as it is, whatever the second call
      would have read from the page. */
  lemma LookupIsStable(entries: map<string, InstructorInfo>, url: string, fetched: Option<InstructorInfo>,
                       fetched': Option<InstructorInfo>)
    requires Lookup(entries, url, fetched).0.Some?
    ensures var (info, after) := Lookup(entries, url, fetched);
      Lookup(after, url, fetched') == (info, after)
  {
  }

  class InstructorCache {
    /** `instructor_info_cache`: records by the URL of their page. */
    var entries: map<string, InstructorInfo>

    constructor ()
      ensures entries == map[]
    {
      entries := map[];
    }

    /** `get_instructor_info(name, url)`, with the page text the fetch
        would return passed in; it is used only on a cache miss. */
    method GetInstructorInfo(name: string, url: string, page: PageText) returns (info: Option<InstructorInfo>)
      modifies this
      ensures (info, entries) == Lookup(old(entries), url, ParseAlias(name, page))
    {
      if url in entries {
        return Some(entries[url]);
      }
      info := ParseAlias(name, page);
      if info.Some? {
        entries := entries[url := info.value];
      }
    }
  }
}
