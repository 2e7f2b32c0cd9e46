/** The open-data files written after a scrape: current state as JSON and CSV, and the changelog. */
module Export {
  import opened Wrappers
  import opened Text
  import opened Sequences
  import opened Calendar
  import opened Areas
  import opened Flagger
  import opened Normalize
  import opened Reconcile
  import opened Histories

  /** One exported flagger: its fields without the source hash, beside its id and status. */
  datatype ExportRow = ExportRow(id: Uuid, fields: Dict, status: Status)

  datatype Column = Id | Of(field: Field) | StatusColumn

  /** Identifiers and statuses stand for their own texts. */
  datatype Cell = Ident(id: Uuid) | Written(text: string) | Label(status: Status)

  type CsvRow = map<Column, Cell>

  const CSV_COLUMNS: seq<Column> := [
    Id, Of(Name), Of(CountryCode), Of(DscCountryCode), Of(DscName), Of(Email), Of(EmailDomain), Of(Website),
    Of(AreasOfExpertise), Of(AreasRaw), Of(DesignationDate), StatusColumn
  ]

  /** The three files. Rows are keyed by id and the changelog is a multiset: the
      order among equal names or equal times is not fixed by the export. */
  datatype Files = Files(json: map<Uuid, ExportRow>, csv: map<Uuid, CsvRow>, changelog: multiset<Event>)

  /** The projection leaves out both scrape times and the source hash. */
  function TfToDict(id: Uuid, row: Row): ExportRow {
    ExportRow(id, map f | f in SYNCED_FIELDS && f != SourceHash :: ValueOf(row.synced, f), row.status)
  }

  function CsvCell(v: Json): string {
    match v
    case Null => ""
    case Text(s) => s
    case Texts(xs) => Join(xs, "; ")
    case Codes(areas) => Join(CodeList(areas), "; ")
  }

  function CellOf(x: ExportRow, col: Column): Cell {
    match col
    case Id => Ident(x.id)
    case StatusColumn => Label(x.status)
    case Of(f) => Written(CsvCell(if f in x.fields then x.fields[f] else Null))
  }

  function Flattened(x: ExportRow, columns: seq<Column>): CsvRow {
    map c | c in columns :: CellOf(x, c)
  }

  function CsvRowOf(x: ExportRow): CsvRow {
    Flattened(x, CSV_COLUMNS)
  }

  /** The loop over the columns that flattens one exported row. */
  method FlattenForCsv(x: ExportRow) returns (flat: CsvRow)
    ensures flat == CsvRowOf(x)
  {
    flat := map[];
    for i := 0 to |CSV_COLUMNS|
      invariant flat == Flattened(x, CSV_COLUMNS[..i])
    {
      flat := flat[CSV_COLUMNS[i] := CellOf(x, CSV_COLUMNS[i])];
    }
    assert CSV_COLUMNS[..|CSV_COLUMNS|] == CSV_COLUMNS;
  }

  function ExportAll(db: Db): Files {
    Files(
      map id | id in db.table :: TfToDict(id, db.table[id]),
      map id | id in db.table :: CsvRowOf(TfToDict(id, db.table[id])),
      multiset(db.log))
  }

  /** What the export leaves out besides the scrape times. */
  function WithoutHash(s: Synced): Synced {
    s.(sourceHash := "")
  }

  lemma ExportedValue(id: Uuid, row: Row, f: Field)
    requires f != SourceHash
    ensures f in TfToDict(id, row).fields && TfToDict(id, row).fields[f] == ValueOf(row.synced, f)
  {
    EveryFieldIsSynced(f);
  }

  /** The record an exported row stands for, every column read from the key of its own name. */
  function ReadExport(x: ExportRow): Option<Synced> {
    Parsed(x.fields[SourceHash := Text("")])
  }

  lemma FieldIsExported(id: Uuid, row: Row, f: Field)
    ensures HoldsField(TfToDict(id, row).fields[SourceHash := Text("")], WithoutHash(row.synced), f)
  {
    if f != SourceHash {
      ExportedValue(id, row, f);
    }
  }

  /** An exported row gives back its id, its status and all of its record but the source hash. */
  lemma ExportReadsBack(id: Uuid, row: Row)
    ensures var x := TfToDict(id, row);
      x.id == id && x.status == row.status && SourceHash !in x.fields && ReadExport(x) == Some(WithoutHash(row.synced))
  {
    var d, bare := TfToDict(id, row).fields[SourceHash := Text("")], WithoutHash(row.synced);
    forall f: Field ensures HoldsField(d, bare, f) { FieldIsExported(id, row, f); }
    AllIsParsed(d, bare);
  }

  /** Two rows export alike exactly when they have one id and differ at most in source hash and
      scrape times. */
  lemma ExportIsFaithful(i: Uuid, a: Row, j: Uuid, b: Row)
    ensures TfToDict(i, a) == TfToDict(j, b)
      <==> i == j && a.status == b.status && WithoutHash(a.synced) == WithoutHash(b.synced)
  {
    ExportReadsBack(i, a);
    ExportReadsBack(j, b);
    HashIsNotExported(i, a);
    HashIsNotExported(j, b);
  }

  lemma HashIsNotExported(id: Uuid, a: Row)
    ensures TfToDict(id, a) == TfToDict(id, a.(synced := WithoutHash(a.synced)))
    ensures TfToDict(id, a).status == a.status
  {
  }

  // ----- what the CSV file keeps -----

  /** What the CSV file leaves out besides. */
  function WithoutAddress(s: Synced): Synced {
    s.(addressRaw := None)
  }

  predicate InCsv(f: Field) {
    f != LegalForm && f != AddressRaw && f != City && f != PostalCode && f != SourceHash
  }

  lemma FieldColumns(f: Field)
    ensures Of(f) in CSV_COLUMNS <==> InCsv(f)
  {
    match f
    case Name => assert CSV_COLUMNS[1] == Of(f);
    case CountryCode => assert CSV_COLUMNS[2] == Of(f);
    case DscCountryCode => assert CSV_COLUMNS[3] == Of(f);
    case DscName => assert CSV_COLUMNS[4] == Of(f);
    case Email => assert CSV_COLUMNS[5] == Of(f);
    case EmailDomain => assert CSV_COLUMNS[6] == Of(f);
    case Website => assert CSV_COLUMNS[7] == Of(f);
    case AreasOfExpertise => assert CSV_COLUMNS[8] == Of(f);
    case AreasRaw => assert CSV_COLUMNS[9] == Of(f);
    case DesignationDate => assert CSV_COLUMNS[10] == Of(f);
    case _ =>
  }

  lemma CellOfField(id: Uuid, row: Row, f: Field)
    requires f != SourceHash
    ensures CellOf(TfToDict(id, row), Of(f)) == Written(CsvCell(ValueOf(row.synced, f)))
  {
    ExportedValue(id, row, f);
  }

  lemma CellIsWritten(id: Uuid, row: Row, f: Field)
    requires InCsv(f)
    ensures var csv := CsvRowOf(TfToDict(id, row));
      Of(f) in csv && csv[Of(f)] == Written(CsvCell(ValueOf(row.synced, f)))
  {
    FieldColumns(f);
    CellOfField(id, row, f);
  }

  lemma RowIsIdentified(id: Uuid, row: Row)
    ensures var csv := CsvRowOf(TfToDict(id, row));
      Id in csv && csv[Id] == Ident(id) && StatusColumn in csv && csv[StatusColumn] == Label(row.status)
  {
    assert CSV_COLUMNS[0] == Id && CSV_COLUMNS[11] == StatusColumn;
  }

  /** The raw area labels of a normalized row can be read back from its CSV cell. */
  lemma CsvKeepsAreaLabels(id: Uuid, row: Row)
    requires Derived(row.synced)
    ensures var csv := CsvRowOf(TfToDict(id, row));
      && Of(AreasRaw) in csv && csv[Of(AreasRaw)].Written?
      && SplitAreasRaw(Some(csv[Of(AreasRaw)].text)) == row.synced.areasRaw
  {
    CellIsWritten(id, row, AreasRaw);
    LabelsAreReadBack(row.synced.areasRaw);
  }

  lemma LabelsAreReadBack(labels: seq<string>)
    requires CleanLabels(labels)
    ensures SplitAreasRaw(Some(CsvCell(Texts(labels)))) == labels
  {
    PrintThenParse(labels);
  }

  // ----- reading the CSV file back -----

  function CsvText(csv: CsvRow, f: Field): Option<string> {
    if Of(f) in csv && csv[Of(f)].Written? then Some(csv[Of(f)].text) else None
  }

  function OrNull(text: string): Option<string> {
    if text == "" then None else Some(text)
  }

  predicate HoldsColumns(csv: CsvRow) {
    && CsvText(csv, Name).Some? && CsvText(csv, CountryCode).Some? && CsvText(csv, DscCountryCode).Some?
    && CsvText(csv, DscName).Some? && CsvText(csv, Email).Some? && CsvText(csv, EmailDomain).Some?
    && CsvText(csv, Website).Some? && CsvText(csv, AreasRaw).Some?
    && CsvText(csv, AreasOfExpertise).Some? && AreasNamed(SplitAreasRaw(CsvText(csv, AreasOfExpertise))).Some?
    && CsvText(csv, DesignationDate).Some? && ParsedIso(CsvText(csv, DesignationDate).value).Some?
  }

  /** The record a CSV line stands for: empty cells are null and lists are split again. */
  function ReadCsv(csv: CsvRow): Option<Synced> {
    if HoldsColumns(csv)
    then
      Some(Synced(
        name := CsvText(csv, Name).value,
        legalForm := None,
        website := OrNull(CsvText(csv, Website).value),
        email := OrNull(CsvText(csv, Email).value),
        emailDomain := OrNull(CsvText(csv, EmailDomain).value),
        addressRaw := None,
        countryCode := CsvText(csv, CountryCode).value,
        city := None,
        postalCode := None,
        dscName := OrNull(CsvText(csv, DscName).value),
        dscCountryCode := OrNull(CsvText(csv, DscCountryCode).value),
        areasRaw := SplitAreasRaw(CsvText(csv, AreasRaw)),
        areas := AreasNamed(SplitAreasRaw(CsvText(csv, AreasOfExpertise))).value,
        designationDate := ParsedIso(CsvText(csv, DesignationDate).value).value,
        sourceHash := ""))
    else None
  }

  predicate HoldsCell(csv: CsvRow, s: Synced, f: Field) {
    CsvText(csv, f) == Some(CsvCell(ValueOf(s, f)))
  }

  ghost predicate HoldsCells(csv: CsvRow, s: Synced) {
    forall f: Field :: InCsv(f) ==> HoldsCell(csv, s, f)
  }

  lemma NullableCell(csv: CsvRow, s: Synced, f: Field, value: Option<string>)
    requires HoldsCell(csv, s, f) && ValueOf(s, f) == Nullable(value) && Nonempty(value)
    ensures CsvText(csv, f).Some? && OrNull(CsvText(csv, f).value) == value
  {
  }

  predicate TextColumnsAgree(csv: CsvRow, s: Synced) {
    && CsvText(csv, Name) == Some(s.name) && CsvText(csv, CountryCode) == Some(s.countryCode)
    && CsvText(csv, Website).Some? && OrNull(CsvText(csv, Website).value) == s.website
    && CsvText(csv, Email).Some? && OrNull(CsvText(csv, Email).value) == s.email
    && CsvText(csv, EmailDomain).Some? && OrNull(CsvText(csv, EmailDomain).value) == s.emailDomain
    && CsvText(csv, DscName).Some? && OrNull(CsvText(csv, DscName).value) == s.dscName
    && CsvText(csv, DscCountryCode).Some? && OrNull(CsvText(csv, DscCountryCode).value) == s.dscCountryCode
  }

  predicate LabelsColumnAgrees(csv: CsvRow, s: Synced) {
    CsvText(csv, AreasRaw).Some? && SplitAreasRaw(CsvText(csv, AreasRaw)) == s.areasRaw
  }

  predicate CodesColumnAgrees(csv: CsvRow, s: Synced) {
    && CsvText(csv, AreasOfExpertise).Some?
    && AreasNamed(SplitAreasRaw(CsvText(csv, AreasOfExpertise))) == Some(s.areas)
  }

  predicate DateColumnAgrees(csv: CsvRow, s: Synced) {
    && CsvText(csv, DesignationDate).Some?
    && ParsedIso(CsvText(csv, DesignationDate).value) == Some(s.designationDate)
  }

  lemma TextColumnsAreThere(csv: CsvRow, s: Synced)
    requires HoldsCells(csv, s) && Filled(s) && s.dscCountryCode.Some? && s.dscCountryCode.value != ""
    ensures TextColumnsAgree(csv, s)
  {
    assert HoldsCell(csv, s, Name) && HoldsCell(csv, s, CountryCode);
    NullableCell(csv, s, Website, s.website);
    NullableCell(csv, s, Email, s.email);
    NullableCell(csv, s, EmailDomain, s.emailDomain);
    NullableCell(csv, s, DscName, s.dscName);
    NullableCell(csv, s, DscCountryCode, s.dscCountryCode);
  }

  lemma LabelsColumnIsThere(csv: CsvRow, s: Synced)
    requires HoldsCell(csv, s, AreasRaw) && CleanLabels(s.areasRaw)
    ensures LabelsColumnAgrees(csv, s)
  {
    LabelsAreReadBack(s.areasRaw);
  }

  lemma CodesColumnIsThere(csv: CsvRow, s: Synced)
    requires HoldsCell(csv, s, AreasOfExpertise)
    ensures CodesColumnAgrees(csv, s)
  {
    PrintedCodesAreReadBack(s.areas);
  }

  lemma DateColumnIsThere(csv: CsvRow, s: Synced)
    requires HoldsCell(csv, s, DesignationDate)
    ensures DateColumnAgrees(csv, s)
  {
    IsoReadsBack(s.designationDate);
  }

  lemma AgreementReads(csv: CsvRow, s: Synced)
    requires TextColumnsAgree(csv, s)
    requires LabelsColumnAgrees(csv, s) && CodesColumnAgrees(csv, s) && DateColumnAgrees(csv, s)
    requires s.legalForm.None? && s.city.None? && s.postalCode.None?
    ensures ReadCsv(csv) == Some(WithoutAddress(WithoutHash(s)))
  {
  }

  /** The CSV line of a normalized row gives back its id, its status and its record but for address
      and source hash. */
  lemma CsvReadsBack(id: Uuid, row: Row)
    requires Derived(row.synced)
    ensures var csv := CsvRowOf(TfToDict(id, row));
      && Id in csv && csv[Id] == Ident(id) && StatusColumn in csv && csv[StatusColumn] == Label(row.status)
      && ReadCsv(csv) == Some(WithoutAddress(WithoutHash(row.synced)))
  {
    var csv := CsvRowOf(TfToDict(id, row));
    RowIsIdentified(id, row);
    forall f: Field | InCsv(f) ensures HoldsCell(csv, row.synced, f) { CellIsWritten(id, row, f); }
    TextColumnsAreThere(csv, row.synced);
    assert HoldsCell(csv, row.synced, AreasRaw) && HoldsCell(csv, row.synced, AreasOfExpertise);
    assert HoldsCell(csv, row.synced, DesignationDate);
    LabelsColumnIsThere(csv, row.synced);
    CodesColumnIsThere(csv, row.synced);
    DateColumnIsThere(csv, row.synced);
    AgreementReads(csv, row.synced);
  }

  /** A row with nothing in the places the CSV file leaves out. */
  function Bare(row: Row): Row {
    row.(synced := WithoutAddress(WithoutHash(row.synced)))
  }

  lemma BareKeepsValue(row: Row, f: Field)
    requires InCsv(f)
    ensures ValueOf(Bare(row).synced, f) == ValueOf(row.synced, f)
  {
  }

  lemma BareKeepsCell(id: Uuid, row: Row, c: Column)
    requires c in CSV_COLUMNS
    ensures CellOf(TfToDict(id, row), c) == CellOf(TfToDict(id, Bare(row)), c)
  {
    if c.Of? {
      FieldColumns(c.field);
      CellOfField(id, row, c.field);
      CellOfField(id, Bare(row), c.field);
      BareKeepsValue(row, c.field);
    }
  }

  lemma CsvLeavesOutTheRest(id: Uuid, row: Row)
    ensures CsvRowOf(TfToDict(id, row)) == CsvRowOf(TfToDict(id, Bare(row)))
  {
    forall c | c in CSV_COLUMNS ensures CellOf(TfToDict(id, row), c) == CellOf(TfToDict(id, Bare(row)), c) {
      BareKeepsCell(id, row, c);
    }
  }

  /** Two normalized rows have the same CSV line exactly when they differ at most in address, source
      hash and scrape times: null cells and joined lists lose nothing. */
  lemma CsvIsFaithful(i: Uuid, a: Row, j: Uuid, b: Row)
    requires Derived(a.synced) && Derived(b.synced)
    ensures CsvRowOf(TfToDict(i, a)) == CsvRowOf(TfToDict(j, b))
      <==> i == j && a.status == b.status
           && WithoutAddress(WithoutHash(a.synced)) == WithoutAddress(WithoutHash(b.synced))
  {
    CsvReadsBack(i, a);
    CsvReadsBack(j, b);
    CsvLeavesOutTheRest(i, a);
    CsvLeavesOutTheRest(j, b);
  }

  // ----- writing the files -----

  /** Both files have one entry for every row and no other, and the changelog has every event as often
      as the log. */
  ghost predicate Complete(files: Files, t: Table, log: seq<Event>) {
    && files.json.Keys == t.Keys && files.csv.Keys == t.Keys
    && (forall id :: id in t ==>
          files.json[id] == TfToDict(id, t[id]) && files.csv[id] == CsvRowOf(TfToDict(id, t[id])))
    && |files.changelog| == |log| && forall e :: e in log <==> e in files.changelog
  }

  lemma ExportIsComplete(t: Table, log: seq<Event>)
    ensures Complete(ExportAll(Db(t, log)), t, log)
  {
  }

  /** Exactly the rows with these ids are written. */
  ghost predicate Wrote(json: map<Uuid, ExportRow>, csv: map<Uuid, CsvRow>, t: Table, ids: set<Uuid>) {
    && json.Keys == ids && csv.Keys == ids && ids <= t.Keys
    && forall id :: id in ids ==> json[id] == TfToDict(id, t[id]) && csv[id] == CsvRowOf(TfToDict(id, t[id]))
  }

  /** The loop over the rows, in whatever order the query returns them. */
  method WriteRows(t: Table, log: seq<Event>) returns (files: Files)
    ensures files == ExportAll(Db(t, log))
  {
    var json: map<Uuid, ExportRow>, csv: map<Uuid, CsvRow>, rest := map[], map[], t.Keys;
    while rest != {}
      invariant rest <= t.Keys && Wrote(json, csv, t, t.Keys - rest)
      decreases |rest|
    {
      var id :| id in rest;
      var dict := TfToDict(id, t[id]);
      var flat := FlattenForCsv(dict);
      json, csv, rest := json[id := dict], csv[id := flat], rest - {id};
    }
    files := Files(json, csv, multiset(log));
  }

  method WriteAll(t: Table, log: seq<Event>) returns (files: Files)
    ensures files == ExportAll(Db(t, log))
    ensures Complete(files, t, log)
  {
    ExportIsComplete(t, log);
    files := WriteRows(t, log);
  }

  // ----- which scrapes change the files -----

  lemma SilentRow(t: Table, s: Scrape, id: Uuid)
    requires Enumerates(s.selected, t.Keys) && NewEvents(t, s) == []
    ensures var after := TableAfter(t, ById(s.records), s.scrapedAt);
      && (id in after <==> id in t)
      && (id in t ==> TfToDict(id, after[id]) == TfToDict(id, t[id]))
  {
    VisitOrderEnumerates(t, s);
    var seen, order := ById(s.records), VisitOrder(s.records, s.selected);
    if id in t.Keys + seen.Keys {
      assert id in Elements(order);
      SilentMeansUnchanged(order, t, seen, s.runId, s.occurredAt, id);
      if id in t && id in seen {
        CompareDictInjective(t[id].synced, seen[id].synced);
      }
    }
  }

  lemma SameProjection(a: Db, b: Db)
    requires a.log == b.log && a.table.Keys == b.table.Keys
    requires forall id :: id in a.table ==> TfToDict(id, a.table[id]) == TfToDict(id, b.table[id])
    ensures ExportAll(a) == ExportAll(b)
  {
  }

  lemma SilentScrapeKeepsFiles(db: Db, s: Scrape)
    requires Enumerates(s.selected, db.table.Keys) && NewEvents(db.table, s) == []
    ensures ExportAll(Reconciled(db, s)) == ExportAll(db)
  {
    forall id { SilentRow(db.table, s, id); }
    SameProjection(db, Reconciled(db, s));
  }

  /** A scrape changes the exported files exactly when it logs an event, although every
      scrape moves the last-seen time of every row it contains. */
  lemma FilesChangeIffLogged(db: Db, s: Scrape)
    requires Enumerates(s.selected, db.table.Keys)
    ensures ExportAll(Reconciled(db, s)) != ExportAll(db) <==> NewEvents(db.table, s) != []
  {
    if NewEvents(db.table, s) == [] {
      SilentScrapeKeepsFiles(db, s);
    } else {
      assert |multiset(Reconciled(db, s).log)| == |db.log| + |NewEvents(db.table, s)|;
      assert |multiset(db.log)| == |db.log|;
    }
  }

  /** No run after `p` changed anything. */
  ghost predicate Quiet(p: History, h: History) {
    p == h || (h.Then? && Quiet(p, h.past) && NewEvents(After(h.past).table, h.scrape) == [])
  }

  lemma {:induction false} QuietMeansSameFiles(p: History, h: History)
    requires Valid(h) && Earlier(p, h)
    ensures Quiet(p, h) <==> |After(p).log| == |After(h).log|
    ensures Quiet(p, h) ==> ExportAll(After(p)) == ExportAll(After(h))
    ensures |After(p).log| <= |After(h).log|
  {
    if p != h {
      QuietMeansSameFiles(p, h.past);
      if Quiet(p, h) {
        SilentScrapeKeepsFiles(After(h.past), h.scrape);
      }
    }
  }

  /** The files written at an earlier point equal today's exactly when no run since then
      changed anything. */
  lemma FilesAreCurrentIffQuiet(p: History, h: History)
    requires Valid(h) && Earlier(p, h)
    ensures ExportAll(After(p)) == ExportAll(After(h)) <==> Quiet(p, h)
  {
    QuietMeansSameFiles(p, h);
    assert |multiset(After(p).log)| == |After(p).log| && |multiset(After(h).log)| == |After(h).log|;
  }
}
