/** From a raw row of the source's JSON to a record, or to the reason it is rejected. */
module Normalize {
  import opened Wrappers
  import opened Text
  import opened Sequences
  import opened Calendar
  import opened Areas
  import opened Flagger
  import opened Identity

  /** The keys of a raw row that are read; `rest` stands for everything else in it. */
  datatype RawRow = RawRow(
    name: Option<string>,
    country: Option<string>,
    dateOfCertification: Option<string>,
    dscCountry: Option<string>,
    areasOfExpertise: Option<string>,
    contact: Option<string>,
    contactUrl: Option<string>,
    website: Option<string>,
    address: Option<string>,
    rest: string
  )

  datatype RowError = MissingName | InvalidCountry(code: string) | UnparseableDate(raw: Option<string>)

  datatype Normalized = Accepted(record: Scraped) | Rejected(error: RowError)

  /** Library functions the scraper calls and this model leaves open. */
  datatype Libraries = Libraries(
    uuid5: string -> Uuid,
    strptime: string -> Option<Date>,
    unquote: string -> string,
    upper: string -> string,
    sha256: RawRow -> string
  )

  /** `(raw or "").strip()`. */
  function Stripped(raw: Option<string>): string {
    if raw.None? then "" else Strip(raw.value)
  }

  /** `s or None`. */
  function OrNone(s: string): Option<string> {
    if s == "" then None else Some(s)
  }

  function ParseEuDate(lib: Libraries, raw: Option<string>): Option<Date> {
    if raw.None? || raw.value == "" then None else lib.strptime(Strip(raw.value))
  }

  predicate IsUpperLetter(c: char) {
    'A' <= c <= 'Z'
  }

  /** The two capital letters of a trailing "(CC)", white space allowed after it. */
  function ExtractDscCountryCode(dscName: Option<string>): (cc: Option<string>)
    ensures cc.Some? ==> |cc.value| == 2
  {
    if dscName.None? then None
    else
      var s := StripRight(dscName.value);
      var n := |s|;
      if n >= 4 && s[n - 4] == '(' && IsUpperLetter(s[n - 3]) && IsUpperLetter(s[n - 2]) && s[n - 1] == ')'
      then Some(s[n - 3..n - 1])
      else None
  }

  const MAILTO := "mailto:"

  function DecodeUrlEncodedEmail(lib: Libraries, encoded: Option<string>): Option<string> {
    if encoded.None? || encoded.value == "" then None
    else
      var decoded := lib.unquote(encoded.value);
      OrNone(Strip(if MAILTO <= decoded then decoded[|MAILTO|..] else decoded))
  }

  function ExtractEmailDomain(email: Option<string>): Option<string> {
    if email.None? || '@' !in email.value then None
    else OrNone(Lower(Strip(email.value[IndexOf(email.value, '@') + 1..])))
  }

  function EmailOf(lib: Libraries, raw: RawRow): Option<string> {
    var contact := OrNone(Stripped(raw.contact));
    if contact.None? then DecodeUrlEncodedEmail(lib, raw.contactUrl) else contact
  }

  function NormalizeRow(lib: Libraries, raw: RawRow): Normalized {
    var name := Stripped(raw.name);
    var countryCode := lib.upper(Stripped(raw.country));
    var designated := ParseEuDate(lib, raw.dateOfCertification);
    if name == "" then Rejected(MissingName)
    else if |countryCode| != 2 then Rejected(InvalidCountry(countryCode))
    else if designated.None? then Rejected(UnparseableDate(raw.dateOfCertification))
    else
      var dscName := OrNone(Stripped(raw.dscCountry));
      var dscCode := ExtractDscCountryCode(dscName);
      var areasRaw := SplitAreasRaw(raw.areasOfExpertise);
      var email := EmailOf(lib, raw);
      Accepted(Scraped(
        lib.uuid5(Canonical(name, Stripped(raw.dscCountry), designated.value)),
        Synced(
          name, None, OrNone(Stripped(raw.website)), email, ExtractEmailDomain(email),
          OrNone(Stripped(raw.address)), countryCode, None, None, dscName,
          if dscCode.None? then Some(countryCode) else dscCode,
          areasRaw, FirstSeen(Mapped(areasRaw)), designated.value, lib.sha256(raw))))
  }

  // ----- which key feeds which column -----

  ghost predicate Cut(text: string, l: string, m: string, r: string) {
    Blank(l) && Blank(r) && text == l + m + r
  }

  /** `m` is the raw text without its outer white space. */
  ghost predicate TrimmedText(raw: Option<string>, m: string) {
    if raw.None? then m == "" else Trimmed(m) && exists l, r :: Cut(raw.value, l, m, r)
  }

  /** The column holds the trimmed raw text, or nothing when that is empty. */
  ghost predicate TrimmedColumn(raw: Option<string>, column: Option<string>) {
    if column.None? then TrimmedText(raw, "") else column.value != "" && TrimmedText(raw, column.value)
  }

  ghost predicate HasText(raw: Option<string>) {
    raw.Some? && exists i :: 0 <= i < |raw.value| && !IsSpace(raw.value[i])
  }

  ghost predicate CountryRead(lib: Libraries, raw: RawRow, code: string) {
    exists m :: TrimmedText(raw.country, m) && code == lib.upper(m)
  }

  ghost predicate DateRead(lib: Libraries, raw: Option<string>, date: Option<Date>) {
    if raw.None? || raw.value == "" then date.None? else exists m :: TrimmedText(raw, m) && date == lib.strptime(m)
  }

  /** What follows the scheme of a decoded link, or all of it when the scheme is missing. */
  ghost predicate AddressIn(decoded: string, rest: string) {
    decoded == "mailto:" + rest || (!("mailto:" <= decoded) && rest == decoded)
  }

  /** The published address when there is one, otherwise the one in the link. */
  ghost predicate EmailRead(lib: Libraries, raw: RawRow, email: Option<string>) {
    if HasText(raw.contact) then TrimmedColumn(raw.contact, email)
    else if raw.contactUrl.None? || raw.contactUrl.value == "" then email.None?
    else exists rest :: AddressIn(lib.unquote(raw.contactUrl.value), rest) && TrimmedColumn(Some(rest), email)
  }

  /** The text ends with "(cc)" and white space, `cc` being two capital letters. */
  ghost predicate EndsWithCode(text: string, cc: string) {
    |cc| == 2 && IsUpperLetter(cc[0]) && IsUpperLetter(cc[1])
    && exists head, tail :: Blank(tail) && text == head + "(" + cc + ")" + tail
  }

  /** The code that ends the regulator's name when there is one, otherwise the row's country. */
  ghost predicate CodeRead(dscName: Option<string>, country: string, code: Option<string>) {
    && (forall cc :: dscName.Some? && EndsWithCode(dscName.value, cc) ==> code == Some(cc))
    && (dscName.None? || (forall cc :: !EndsWithCode(dscName.value, cc)) ==> code == Some(country))
  }

  /** Every column of an accepted row is read from its own key. */
  ghost predicate ColumnsRead(lib: Libraries, raw: RawRow, s: Synced) {
    && TrimmedText(raw.name, s.name) && CountryRead(lib, raw, s.countryCode)
    && TrimmedColumn(raw.website, s.website) && TrimmedColumn(raw.address, s.addressRaw)
    && TrimmedColumn(raw.dscCountry, s.dscName) && CodeRead(s.dscName, s.countryCode, s.dscCountryCode)
    && EmailRead(lib, raw, s.email) && s.emailDomain == ExtractEmailDomain(s.email)
    && DateRead(lib, raw.dateOfCertification, Some(s.designationDate))
    && s.areasRaw == SplitAreasRaw(raw.areasOfExpertise)
    && (forall a :: a in s.areas <==> exists x :: x in s.areasRaw && AreaOf(x) == a)
    && s.sourceHash == lib.sha256(raw) && s.legalForm.None? && s.city.None? && s.postalCode.None?
  }

  /** A row is accepted when it has a name, a two-letter country and a date; otherwise the first part
      missing, in that order, is the reason. */
  ghost predicate Reads(lib: Libraries, raw: RawRow, outcome: Normalized) {
    match outcome
    case Rejected(MissingName) => !HasText(raw.name)
    case Rejected(InvalidCountry(code)) => HasText(raw.name) && CountryRead(lib, raw, code) && |code| != 2
    case Rejected(UnparseableDate(text)) =>
      && HasText(raw.name) && (exists code :: CountryRead(lib, raw, code) && |code| == 2)
      && text == raw.dateOfCertification && DateRead(lib, text, None)
    case Accepted(x) =>
      && HasText(raw.name) && |x.synced.countryCode| == 2 && ColumnsRead(lib, raw, x.synced)
      && x.id == lib.uuid5(Canonical(x.synced.name, if x.synced.dscName.None? then "" else x.synced.dscName.value,
                                     x.synced.designationDate))
  }

  lemma StrippedIsTrimmed(raw: Option<string>)
    ensures TrimmedText(raw, Stripped(raw))
    ensures HasText(raw) <==> Stripped(raw) != ""
    ensures TrimmedColumn(raw, OrNone(Stripped(raw)))
  {
    if raw.Some? {
      var l, r := StripSplits(raw.value);
      var m := Strip(raw.value);
      assert Cut(raw.value, l, m, r);
      if m != "" {
        assert raw.value[|l|] == m[0];
      } else {
        assert raw.value == l + r;
      }
    }
  }

  lemma DateIsRead(lib: Libraries, raw: Option<string>)
    ensures DateRead(lib, raw, ParseEuDate(lib, raw))
  {
    StrippedIsTrimmed(raw);
  }

  lemma EmailIsRead(lib: Libraries, raw: RawRow)
    ensures EmailRead(lib, raw, EmailOf(lib, raw))
  {
    StrippedIsTrimmed(raw.contact);
    if !HasText(raw.contact) && raw.contactUrl.Some? && raw.contactUrl.value != "" {
      var decoded := lib.unquote(raw.contactUrl.value);
      var rest := if MAILTO <= decoded then decoded[|MAILTO|..] else decoded;
      assert MAILTO <= decoded ==> decoded == MAILTO + rest;
      assert AddressIn(decoded, rest);
      StrippedIsTrimmed(Some(rest));
    }
  }

  lemma FoundCode(text: string, cc: string)
    requires ExtractDscCountryCode(Some(text)) == Some(cc)
    ensures EndsWithCode(text, cc)
  {
    var r := StripRightSplits(text);
    var s := StripRight(text);
    var n := |s|;
    assert s == s[..n - 4] + "(" + cc + ")";
    assert text == s[..n - 4] + "(" + cc + ")" + r;
  }

  lemma CodeIsFound(text: string, cc: string)
    requires EndsWithCode(text, cc)
    ensures ExtractDscCountryCode(Some(text)) == Some(cc)
  {
    var head, tail :| Blank(tail) && text == head + "(" + cc + ")" + tail;
    StripRightBlank(head + "(" + cc + ")", tail);
    assert text == (head + "(" + cc + ")") + tail;
  }

  lemma CodeIsRead(dscName: Option<string>, country: string)
    ensures CodeRead(dscName, country,
                     if ExtractDscCountryCode(dscName).None? then Some(country) else ExtractDscCountryCode(dscName))
  {
    if dscName.Some? {
      forall cc | EndsWithCode(dscName.value, cc) ensures ExtractDscCountryCode(dscName) == Some(cc) {
        CodeIsFound(dscName.value, cc);
      }
      if ExtractDscCountryCode(dscName).Some? {
        FoundCode(dscName.value, ExtractDscCountryCode(dscName).value);
      }
    }
  }

  lemma AreasAreRead(labels: seq<string>)
    ensures forall a :: a in FirstSeen(Mapped(labels)) <==> exists x :: x in labels && AreaOf(x) == a
  {
    FirstSeenElements(Mapped(labels));
    MappedElements(labels);
  }

  lemma AcceptedRowReads(lib: Libraries, raw: RawRow)
    requires NormalizeRow(lib, raw).Accepted?
    ensures ColumnsRead(lib, raw, NormalizeRow(lib, raw).record.synced)
  {
    StrippedIsTrimmed(raw.name);
    StrippedIsTrimmed(raw.country);
    StrippedIsTrimmed(raw.website);
    StrippedIsTrimmed(raw.address);
    StrippedIsTrimmed(raw.dscCountry);
    DateIsRead(lib, raw.dateOfCertification);
    EmailIsRead(lib, raw);
    CodeIsRead(OrNone(Stripped(raw.dscCountry)), lib.upper(Stripped(raw.country)));
    AreasAreRead(SplitAreasRaw(raw.areasOfExpertise));
  }

  lemma RowReads(lib: Libraries, raw: RawRow)
    ensures Reads(lib, raw, NormalizeRow(lib, raw))
  {
    StrippedIsTrimmed(raw.name);
    StrippedIsTrimmed(raw.country);
    assert CountryRead(lib, raw, lib.upper(Stripped(raw.country)));
    DateIsRead(lib, raw.dateOfCertification);
    if NormalizeRow(lib, raw).Accepted? {
      AcceptedRowReads(lib, raw);
    }
  }

  method NormalizeOne(lib: Libraries, raw: RawRow) returns (outcome: Normalized)
    ensures outcome == NormalizeRow(lib, raw)
    ensures Reads(lib, raw, outcome)
  {
    RowReads(lib, raw);
    outcome := BuildRow(lib, raw);
  }

  /** Normalizes one row, building its area list step by step. */
  method BuildRow(lib: Libraries, raw: RawRow) returns (outcome: Normalized)
    ensures outcome == NormalizeRow(lib, raw)
  {
    var name, countryCode := Stripped(raw.name), lib.upper(Stripped(raw.country));
    if name == "" {
      return Rejected(MissingName);
    }
    if |countryCode| != 2 {
      return Rejected(InvalidCountry(countryCode));
    }
    var designated := ParseEuDate(lib, raw.dateOfCertification);
    if designated.None? {
      return Rejected(UnparseableDate(raw.dateOfCertification));
    }
    var dscName := OrNone(Stripped(raw.dscCountry));
    var dscCode := ExtractDscCountryCode(dscName);
    var areasRaw := SplitAreasRaw(raw.areasOfExpertise);
    var areas := NormalizeAreas(areasRaw);
    var email := EmailOf(lib, raw);
    var synced := Synced(
      name, None, OrNone(Stripped(raw.website)), email, ExtractEmailDomain(email),
      OrNone(Stripped(raw.address)), countryCode, None, None, dscName,
      if dscCode.None? then Some(countryCode) else dscCode,
      areasRaw, areas, designated.value, lib.sha256(raw));
    var id := lib.uuid5(Canonical(name, if dscName.None? then "" else dscName.value, designated.value));
    return Accepted(Scraped(id, synced));
  }

  predicate Nonempty(text: Option<string>) {
    text != Some("")
  }

  predicate Filled(s: Synced) {
    Nonempty(s.email) && Nonempty(s.emailDomain) && Nonempty(s.website) && Nonempty(s.dscName)
  }

  /** What every normalized record satisfies: its derived columns agree with their sources. */
  ghost predicate Derived(s: Synced) {
    && s.emailDomain == ExtractEmailDomain(s.email)
    && CleanLabels(s.areasRaw)
    && s.areas == FirstSeen(Mapped(s.areasRaw))
    && s.name != "" && Trimmed(s.name)
    && |s.countryCode| == 2 && s.dscCountryCode.Some? && |s.dscCountryCode.value| == 2
    && s.legalForm.None? && s.city.None? && s.postalCode.None?
    && Filled(s)
  }

  lemma NamesAreTrimmed(raw: Option<string>)
    ensures Trimmed(Stripped(raw))
  {
    if raw.Some? {
      StripIdempotent(raw.value);
    }
  }

  /** An accepted row's derived columns agree with the columns they are derived from. */
  lemma AcceptedRowIsDerived(lib: Libraries, raw: RawRow)
    requires NormalizeRow(lib, raw).Accepted?
    ensures Derived(NormalizeRow(lib, raw).record.synced)
  {
    NamesAreTrimmed(raw.name);
    SplitAreasClean(raw.areasOfExpertise);
  }

  ghost predicate Injective(f: string -> Uuid) {
    forall s, t :: f(s) == f(t) ==> s == t
  }

  /** When the hash keeps texts apart, two accepted rows share an identifier and a bar count in
      their names exactly when name, regulator and date agree up to case and outer white space. */
  lemma SameIdentifier(lib: Libraries, raw1: RawRow, raw2: RawRow)
    requires Injective(lib.uuid5)
    requires NormalizeRow(lib, raw1).Accepted? && NormalizeRow(lib, raw2).Accepted?
    ensures var r1, r2 := NormalizeRow(lib, raw1).record, NormalizeRow(lib, raw2).record;
      (r1.id == r2.id && Occurrences(r1.synced.name, '|') == Occurrences(r2.synced.name, '|'))
      <==>
      (&& Lower(Stripped(raw1.name)) == Lower(Stripped(raw2.name))
       && Lower(Stripped(raw1.dscCountry)) == Lower(Stripped(raw2.dscCountry))
       && ParseEuDate(lib, raw1.dateOfCertification) == ParseEuDate(lib, raw2.dateOfCertification))
  {
    var d1, d2 := ParseEuDate(lib, raw1.dateOfCertification).value, ParseEuDate(lib, raw2.dateOfCertification).value;
    CanonicalDecides(Stripped(raw1.name), Stripped(raw1.dscCountry), d1, Stripped(raw2.name),
      Stripped(raw2.dscCountry), d2);
    StrippedTwice(raw1.name);
    StrippedTwice(raw2.name);
    StrippedTwice(raw1.dscCountry);
    StrippedTwice(raw2.dscCountry);
  }

  lemma StrippedTwice(raw: Option<string>)
    ensures Strip(Stripped(raw)) == Stripped(raw)
  {
    if raw.Some? {
      StripIdempotent(raw.value);
    }
  }

  // ----- a whole response -----

  function AllNormalized(lib: Libraries, rows: seq<RawRow>): (all: seq<Normalized>)
    ensures |all| == |rows|
  {
    seq(|rows|, i requires 0 <= i < |rows| => NormalizeRow(lib, rows[i]))
  }

  function AcceptedOf(all: seq<Normalized>): seq<Scraped> {
    if all == [] then []
    else AcceptedOf(all[..|all| - 1]) + if all[|all| - 1].Accepted? then [all[|all| - 1].record] else []
  }

  function RejectedOf(all: seq<Normalized>): seq<RowError> {
    if all == [] then []
    else RejectedOf(all[..|all| - 1]) + if all[|all| - 1].Rejected? then [all[|all| - 1].error] else []
  }

  function Records(lib: Libraries, rows: seq<RawRow>): seq<Scraped> {
    AcceptedOf(AllNormalized(lib, rows))
  }

  function Errors(lib: Libraries, rows: seq<RawRow>): seq<RowError> {
    RejectedOf(AllNormalized(lib, rows))
  }

  method NormalizeAt(lib: Libraries, rows: seq<RawRow>, i: nat) returns (outcome: Normalized)
    requires i < |rows|
    ensures outcome == AllNormalized(lib, rows)[i]
  {
    outcome := NormalizeOne(lib, rows[i]);
  }

  /** The loop over the rows that normalizes each. */
  method NormalizeEach(lib: Libraries, rows: seq<RawRow>) returns (all: seq<Normalized>)
    ensures all == AllNormalized(lib, rows)
  {
    all := [];
    for i := 0 to |rows|
      invariant |all| == i
      invariant forall k :: 0 <= k < i ==> all[k] == AllNormalized(lib, rows)[k]
    {
      var outcome := NormalizeAt(lib, rows, i);
      all := all + [outcome];
    }
  }

  /** The loop over the rows' outcomes: good rows are kept, bad ones recorded. */
  method Partition(all: seq<Normalized>) returns (normalized: seq<Scraped>, errors: seq<RowError>)
    ensures normalized == AcceptedOf(all) && errors == RejectedOf(all)
    ensures |normalized| + |errors| == |all|
  {
    normalized, errors := [], [];
    for i := 0 to |all|
      invariant normalized == AcceptedOf(all[..i]) && errors == RejectedOf(all[..i])
      invariant |normalized| + |errors| == i
    {
      assert all[..i + 1][..i] == all[..i];
      match all[i]
      case Accepted(record) => normalized := normalized + [record];
      case Rejected(error) => errors := errors + [error];
    }
    assert all[..|all|] == all;
  }

  function Normalizer(lib: Libraries): RawRow -> Normalized {
    (raw: RawRow) => NormalizeRow(lib, raw)
  }

  function Accepts(f: RawRow -> Normalized): RawRow -> bool {
    (raw: RawRow) => f(raw).Accepted?
  }

  function Refuses(f: RawRow -> Normalized): RawRow -> bool {
    (raw: RawRow) => f(raw).Rejected?
  }

  /** The records are those of the acceptable rows and the errors those of the others, each in order. */
  ghost predicate Sorted(f: RawRow -> Normalized, rows: seq<RawRow>, normalized: seq<Scraped>, errors: seq<RowError>) {
    var good, bad := Filter(rows, Accepts(f)), Filter(rows, Refuses(f));
    && |normalized| == |good| && |errors| == |bad| && |good| + |bad| == |rows|
    && (forall i :: 0 <= i < |good| ==> f(good[i]) == Accepted(normalized[i]))
    && forall i :: 0 <= i < |bad| ==> f(bad[i]) == Rejected(errors[i])
  }

  lemma {:induction false} OutcomesAreSorted(f: RawRow -> Normalized, rows: seq<RawRow>, all: seq<Normalized>)
    requires |all| == |rows| && forall i :: 0 <= i < |rows| ==> all[i] == f(rows[i])
    ensures Sorted(f, rows, AcceptedOf(all), RejectedOf(all))
  {
    if rows != [] {
      OutcomesAreSorted(f, rows[..|rows| - 1], all[..|all| - 1]);
    }
  }

  /** Bad rows are skipped, not fatal: every row ends up in exactly one of the two lists. */
  method NormalizeRows(lib: Libraries, rows: seq<RawRow>) returns (normalized: seq<Scraped>, errors: seq<RowError>)
    ensures normalized == Records(lib, rows)
    ensures errors == Errors(lib, rows)
    ensures Sorted(Normalizer(lib), rows, normalized, errors)
  {
    OutcomesAreSorted(Normalizer(lib), rows, AllNormalized(lib, rows));
    var all := NormalizeEach(lib, rows);
    normalized, errors := Partition(all);
  }

  lemma {:induction false} AcceptedAreDerived(all: seq<Normalized>)
    requires forall n :: n in all && n.Accepted? ==> Derived(n.record.synced)
    ensures forall x :: x in AcceptedOf(all) ==> Derived(x.synced)
    ensures |AcceptedOf(all)| + |RejectedOf(all)| == |all|
  {
    if all != [] {
      assert all == all[..|all| - 1] + [all[|all| - 1]];
      AcceptedAreDerived(all[..|all| - 1]);
    }
  }

  /** Every record that reaches the reconciler has derived columns that agree with their sources. */
  lemma RecordsAreDerived(lib: Libraries, rows: seq<RawRow>)
    ensures forall x :: x in Records(lib, rows) ==> Derived(x.synced)
    ensures |Records(lib, rows)| + |Errors(lib, rows)| == |rows|
  {
    var all := AllNormalized(lib, rows);
    forall n | n in all && n.Accepted? ensures Derived(n.record.synced) {
      var i :| 0 <= i < |all| && all[i] == n;
      AcceptedRowIsDerived(lib, rows[i]);
    }
    AcceptedAreDerived(all);
  }
}
