/** Trusted-flagger records: what one scrape yields, what the table stores, and
    how either is serialized for comparison, diffs and snapshots. */
module Flagger {
  import opened Wrappers
  import opened Areas
  import opened Calendar

  /** The identifier of a flagger or of a scrape run. */
  datatype Uuid = Uuid(value: nat)

  type Time = int

  /** The fields copied from a scraped record onto its table row. */
  datatype Synced = Synced(
    name: string,
    legalForm: Option<string>,
    website: Option<string>,
    email: Option<string>,
    emailDomain: Option<string>,
    addressRaw: Option<string>,
    countryCode: string,
    city: Option<string>,
    postalCode: Option<string>,
    dscName: Option<string>,
    dscCountryCode: Option<string>,
    areasRaw: seq<string>,
    areas: seq<Area>,
    designationDate: Date,
    sourceHash: string
  )

  datatype Scraped = Scraped(id: Uuid, synced: Synced)

  datatype Status = Active | Suspended | Revoked | Removed

  datatype Row = Row(synced: Synced, status: Status, firstSeenAt: Time, lastSeenAt: Time)

  type Table = map<Uuid, Row>

  datatype Field =
    | Name | LegalForm | Website | Email | EmailDomain | AddressRaw | CountryCode | City | PostalCode
    | DscName | DscCountryCode | AreasRaw | AreasOfExpertise | DesignationDate | SourceHash

  const SYNCED_FIELDS: seq<Field> := [
    Name, LegalForm, Website, Email, EmailDomain, AddressRaw, CountryCode, City, PostalCode,
    DscName, DscCountryCode, AreasRaw, AreasOfExpertise, DesignationDate, SourceHash
  ]

  datatype Json = Null | Text(s: string) | Texts(xs: seq<string>) | Codes(areas: seq<Area>)

  type Dict = map<Field, Json>

  function Nullable(x: Option<string>): Json {
    if x.None? then Null else Text(x.value)
  }

  function ValueOf(s: Synced, f: Field): Json {
    match f
    case Name => Text(s.name)
    case LegalForm => Nullable(s.legalForm)
    case Website => Nullable(s.website)
    case Email => Nullable(s.email)
    case EmailDomain => Nullable(s.emailDomain)
    case AddressRaw => Nullable(s.addressRaw)
    case CountryCode => Text(s.countryCode)
    case City => Nullable(s.city)
    case PostalCode => Nullable(s.postalCode)
    case DscName => Nullable(s.dscName)
    case DscCountryCode => Nullable(s.dscCountryCode)
    case AreasRaw => Texts(s.areasRaw)
    case AreasOfExpertise => Codes(s.areas)
    case DesignationDate => Text(Iso(s.designationDate))
    case SourceHash => Text(s.sourceHash)
  }

  /** The JSON form of the synced fields. */
  function CompareDict(s: Synced): Dict {
    map f | f in SYNCED_FIELDS :: ValueOf(s, f)
  }

  lemma EveryFieldIsSynced(f: Field)
    ensures f in SYNCED_FIELDS
  {
    match f
    case Name => assert SYNCED_FIELDS[0] == f;
    case LegalForm => assert SYNCED_FIELDS[1] == f;
    case Website => assert SYNCED_FIELDS[2] == f;
    case Email => assert SYNCED_FIELDS[3] == f;
    case EmailDomain => assert SYNCED_FIELDS[4] == f;
    case AddressRaw => assert SYNCED_FIELDS[5] == f;
    case CountryCode => assert SYNCED_FIELDS[6] == f;
    case City => assert SYNCED_FIELDS[7] == f;
    case PostalCode => assert SYNCED_FIELDS[8] == f;
    case DscName => assert SYNCED_FIELDS[9] == f;
    case DscCountryCode => assert SYNCED_FIELDS[10] == f;
    case AreasRaw => assert SYNCED_FIELDS[11] == f;
    case AreasOfExpertise => assert SYNCED_FIELDS[12] == f;
    case DesignationDate => assert SYNCED_FIELDS[13] == f;
    case SourceHash => assert SYNCED_FIELDS[14] == f;
  }

  // ----- reading a dictionary back -----

  function TextAt(d: Dict, f: Field): Option<string> {
    if f in d && d[f].Text? then Some(d[f].s) else None
  }

  predicate HoldsNullable(d: Dict, f: Field) {
    f in d && (d[f].Text? || d[f].Null?)
  }

  predicate HoldsNullables(d: Dict) {
    && HoldsNullable(d, LegalForm) && HoldsNullable(d, Website) && HoldsNullable(d, Email)
    && HoldsNullable(d, EmailDomain) && HoldsNullable(d, AddressRaw) && HoldsNullable(d, City)
    && HoldsNullable(d, PostalCode) && HoldsNullable(d, DscName) && HoldsNullable(d, DscCountryCode)
  }

  predicate HoldsTexts(d: Dict) {
    && TextAt(d, Name).Some? && TextAt(d, CountryCode).Some? && TextAt(d, SourceHash).Some?
    && TextAt(d, DesignationDate).Some? && ParsedIso(TextAt(d, DesignationDate).value).Some?
  }

  predicate HoldsLists(d: Dict) {
    AreasRaw in d && d[AreasRaw].Texts? && AreasOfExpertise in d && d[AreasOfExpertise].Codes?
  }

  /** The record a dictionary stands for: every column from the key of its own name. */
  function Parsed(d: Dict): Option<Synced> {
    if HoldsTexts(d) && HoldsNullables(d) && HoldsLists(d)
    then
      Some(Synced(
        name := TextAt(d, Name).value,
        legalForm := TextAt(d, LegalForm),
        website := TextAt(d, Website),
        email := TextAt(d, Email),
        emailDomain := TextAt(d, EmailDomain),
        addressRaw := TextAt(d, AddressRaw),
        countryCode := TextAt(d, CountryCode).value,
        city := TextAt(d, City),
        postalCode := TextAt(d, PostalCode),
        dscName := TextAt(d, DscName),
        dscCountryCode := TextAt(d, DscCountryCode),
        areasRaw := d[AreasRaw].xs,
        areas := d[AreasOfExpertise].areas,
        designationDate := ParsedIso(TextAt(d, DesignationDate).value).value,
        sourceHash := TextAt(d, SourceHash).value))
    else None
  }

  predicate NullablesAgree(d: Dict, s: Synced) {
    && TextAt(d, LegalForm) == s.legalForm && TextAt(d, Website) == s.website && TextAt(d, Email) == s.email
    && TextAt(d, EmailDomain) == s.emailDomain && TextAt(d, AddressRaw) == s.addressRaw && TextAt(d, City) == s.city
    && TextAt(d, PostalCode) == s.postalCode && TextAt(d, DscName) == s.dscName
    && TextAt(d, DscCountryCode) == s.dscCountryCode
  }

  predicate RestAgrees(d: Dict, s: Synced)
    requires HoldsTexts(d) && HoldsLists(d)
  {
    && TextAt(d, Name) == Some(s.name) && TextAt(d, CountryCode) == Some(s.countryCode)
    && TextAt(d, SourceHash) == Some(s.sourceHash)
    && ParsedIso(TextAt(d, DesignationDate).value) == Some(s.designationDate)
    && d[AreasRaw].xs == s.areasRaw && d[AreasOfExpertise].areas == s.areas
  }

  lemma AgreementParses(d: Dict, s: Synced)
    requires HoldsTexts(d) && HoldsNullables(d) && HoldsLists(d) && NullablesAgree(d, s) && RestAgrees(d, s)
    ensures Parsed(d) == Some(s)
  {
  }

  /** The dictionary has every field of the record under its own key. */
  ghost predicate HoldsAll(d: Dict, s: Synced) {
    forall f: Field :: HoldsField(d, s, f)
  }

  predicate HoldsField(d: Dict, s: Synced, f: Field) {
    f in d && d[f] == ValueOf(s, f)
  }

  lemma RestIsThere(d: Dict, s: Synced)
    requires HoldsAll(d, s)
    ensures HoldsTexts(d) && HoldsLists(d) && RestAgrees(d, s)
  {
    assert HoldsField(d, s, Name) && HoldsField(d, s, CountryCode) && HoldsField(d, s, SourceHash);
    assert HoldsField(d, s, DesignationDate) && HoldsField(d, s, AreasRaw) && HoldsField(d, s, AreasOfExpertise);
    IsoReadsBack(s.designationDate);
  }

  lemma NullablesAreThere(d: Dict, s: Synced)
    requires HoldsAll(d, s)
    ensures HoldsNullables(d) && NullablesAgree(d, s)
  {
    assert HoldsField(d, s, LegalForm) && HoldsField(d, s, Website) && HoldsField(d, s, Email);
    assert HoldsField(d, s, EmailDomain) && HoldsField(d, s, AddressRaw) && HoldsField(d, s, City);
    assert HoldsField(d, s, PostalCode) && HoldsField(d, s, DscName) && HoldsField(d, s, DscCountryCode);
  }

  lemma AllIsParsed(d: Dict, s: Synced)
    requires HoldsAll(d, s)
    ensures Parsed(d) == Some(s)
  {
    RestIsThere(d, s);
    NullablesAreThere(d, s);
    AgreementParses(d, s);
  }

  /** Every column is read back from its own key: no two are exchanged, merged or lost. */
  lemma DictReadsBack(s: Synced)
    ensures Parsed(CompareDict(s)) == Some(s)
  {
    forall f: Field ensures HoldsField(CompareDict(s), s, f) { EveryFieldIsSynced(f); }
    AllIsParsed(CompareDict(s), s);
  }

  /** Comparing serialized records compares the records: no field is lost or merged. */
  lemma CompareDictInjective(a: Synced, b: Synced)
    ensures CompareDict(a) == CompareDict(b) <==> a == b
  {
    DictReadsBack(a);
    DictReadsBack(b);
  }

  /** Serializes a stored row. */
  method OrmToCompareDict(row: Row) returns (out: Dict)
    ensures out == CompareDict(row.synced)
    ensures Parsed(out) == Some(row.synced)
  {
    DictReadsBack(row.synced);
    out := CollectFields(row);
  }

  /** The loop over the synced fields. */
  method CollectFields(row: Row) returns (out: Dict)
    ensures out == CompareDict(row.synced)
  {
    out := map[];
    for i := 0 to |SYNCED_FIELDS|
      invariant out == map f | f in SYNCED_FIELDS[..i] :: ValueOf(row.synced, f)
    {
      out := out[SYNCED_FIELDS[i] := ValueOf(row.synced, SYNCED_FIELDS[i])];
    }
    assert SYNCED_FIELDS[..|SYNCED_FIELDS|] == SYNCED_FIELDS;
  }
}
