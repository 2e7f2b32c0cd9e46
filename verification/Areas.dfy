/** Areas of expertise: the free-text list of the source page, its parsed labels,
    and the fixed vocabulary they are mapped to. */
module Areas {
  import opened Wrappers
  import opened Text
  import opened Sequences

  datatype Area =
    | IpInfringement | IllegalSpeech | TerroristContent | Csam | ProtectionOfMinors | CyberViolence
    | GenderBasedViolence | ScamsFraud | IllegalProducts | ConsumerProtection | Disinformation
    | DataPrivacy | PublicSecurity | Violence | SelfHarm | AnimalWelfare | CivilDiscourse | Other

  const AREA_LABEL_MAP: map<string, Area> := map[
    "intellectual property infringements" := IpInfringement,
    "illegal speech" := IllegalSpeech,
    "terrorist content" := TerroristContent,
    "csam" := Csam,
    "protection of minors violations" := ProtectionOfMinors,
    "cyberviolence" := CyberViolence,
    "cyber violence against women" := GenderBasedViolence,
    "scams and fraud" := ScamsFraud,
    "illegal products" := IllegalProducts,
    "consumer protection" := ConsumerProtection,
    "consumer information infringements" := ConsumerProtection,
    "disinformation" := Disinformation,
    "data protection and privacy violations" := DataPrivacy,
    "risk for public security" := PublicSecurity,
    "violence" := Violence,
    "incitement to self-harm" := SelfHarm,
    "animal welfare" := AnimalWelfare,
    "negative effects on civil discourse and elections" := CivilDiscourse
  ]

  /** The string value of each member of the enumeration. */
  function Code(a: Area): string {
    match a
    case IpInfringement => "ip_infringement"
    case IllegalSpeech => "illegal_speech"
    case TerroristContent => "terrorist_content"
    case Csam => "csam"
    case ProtectionOfMinors => "protection_of_minors"
    case CyberViolence => "cyber_violence"
    case GenderBasedViolence => "gender_based_violence"
    case ScamsFraud => "scams_fraud"
    case IllegalProducts => "illegal_products"
    case ConsumerProtection => "consumer_protection"
    case Disinformation => "disinformation"
    case DataPrivacy => "data_privacy"
    case PublicSecurity => "public_security"
    case Violence => "violence"
    case SelfHarm => "self_harm"
    case AnimalWelfare => "animal_welfare"
    case CivilDiscourse => "civil_discourse"
    case Other => "other"
  }

  const AREA_NAMES: map<string, Area> := map[
    "ip_infringement" := IpInfringement,
    "illegal_speech" := IllegalSpeech,
    "terrorist_content" := TerroristContent,
    "csam" := Csam,
    "protection_of_minors" := ProtectionOfMinors,
    "cyber_violence" := CyberViolence,
    "gender_based_violence" := GenderBasedViolence,
    "scams_fraud" := ScamsFraud,
    "illegal_products" := IllegalProducts,
    "consumer_protection" := ConsumerProtection,
    "disinformation" := Disinformation,
    "data_privacy" := DataPrivacy,
    "public_security" := PublicSecurity,
    "violence" := Violence,
    "self_harm" := SelfHarm,
    "animal_welfare" := AnimalWelfare,
    "civil_discourse" := CivilDiscourse,
    "other" := Other
  ]

  /** The member of the enumeration with that value. */
  function AreaNamed(code: string): Option<Area> {
    if code in AREA_NAMES then Some(AREA_NAMES[code]) else None
  }

  /** Every member is told from its value, so no two share one. */
  lemma CodeIsReadBack(a: Area)
    ensures AreaNamed(Code(a)) == Some(a)
  {
  }

  // ----- the raw list -----

  function Labels(parts: seq<string>): seq<string> {
    if parts == [] then []
    else (if Strip(parts[0]) == "" then [] else [Strip(parts[0])]) + Labels(parts[1..])
  }

  function SplitAreasRaw(raw: Option<string>): seq<string> {
    if raw.None? || raw.value == "" then [] else Labels(SplitOn(raw.value, ';'))
  }

  /** A label that survives being written to the list and read back. */
  ghost predicate CleanLabel(x: string) {
    x != "" && Trimmed(x) && ';' !in x
  }

  ghost predicate CleanLabels(xs: seq<string>) {
    forall x :: x in xs ==> CleanLabel(x)
  }

  lemma {:induction false} LabelsConcat(a: seq<string>, b: seq<string>)
    ensures Labels(a + b) == Labels(a) + Labels(b)
  {
    if a == [] {
      assert a + b == b;
    } else {
      assert (a + b)[1..] == a[1..] + b;
      LabelsConcat(a[1..], b);
    }
  }

  lemma StripKeepsOut(s: string, c: char)
    requires c !in s
    ensures c !in Strip(s)
  {
    var l, r := StripSplits(s);
    forall i | 0 <= i < |Strip(s)| ensures Strip(s)[i] != c {
      assert s[|l| + i] == Strip(s)[i];
    }
  }

  lemma {:induction false} LabelsClean(parts: seq<string>)
    requires forall p :: p in parts ==> ';' !in p
    ensures CleanLabels(Labels(parts))
  {
    if parts != [] {
      LabelsClean(parts[1..]);
      StripKeepsOut(parts[0], ';');
      StripIdempotent(parts[0]);
    }
  }

  lemma LabelsOfEmpty()
    ensures Labels(SplitOn("", ';')) == []
  {
    assert SplitOn("", ';') == [""];
    assert Strip("") == "";
  }

  /** Parsing is a homomorphism: the list of two joined texts is the two lists joined. */
  lemma SplitAreasConcat(s: string, t: string)
    ensures SplitAreasRaw(Some(s + ";" + t)) == SplitAreasRaw(Some(s)) + SplitAreasRaw(Some(t))
  {
    LabelsOfEmpty();
    assert s + ";" + t == s + [';'] + t;
    SplitConcat(s, t, ';');
    LabelsConcat(SplitOn(s, ';'), SplitOn(t, ';'));
  }

  lemma SplitAreasClean(raw: Option<string>)
    ensures CleanLabels(SplitAreasRaw(raw))
  {
    if raw.Some? {
      LabelsClean(SplitOn(raw.value, ';'));
    }
  }

  lemma LabelsSpaceFirst(x: string, rest: seq<string>)
    ensures Labels([" " + x] + rest) == Labels([x] + rest)
  {
    StripPadded(" ", x, "");
    assert " " + x + "" == " " + x;
    assert ([" " + x] + rest)[1..] == rest && ([x] + rest)[1..] == rest;
  }

  lemma LabelsSpaceFirstAlone(t: string)
    requires ';' !in t
    ensures Labels(SplitOn(" " + t, ';')) == Labels(SplitOn(t, ';'))
  {
    assert ';' !in " " + t;
    LabelsSpaceFirst(t, []);
    assert [" " + t] + [] == [" " + t] && [t] + [] == [t];
  }

  lemma LabelsSpaceFirstOfMany(t: string, i: nat)
    requires i < |t| && t[i] == ';' && forall k :: 0 <= k < i ==> t[k] != ';'
    ensures Labels(SplitOn(" " + t, ';')) == Labels(SplitOn(t, ';'))
  {
    SplitAtFirst(t, ';', i);
    SplitPrefixed(' ', t, ';', i);
    assert " " + t == [' '] + t && " " + t[..i] == [' '] + t[..i];
    LabelsSpaceFirst(t[..i], SplitOn(t[i + 1..], ';'));
  }

  /** White space after a separator is dropped with the rest of the padding. */
  lemma SplitAreasSpaceFirst(t: string)
    ensures SplitAreasRaw(Some(" " + t)) == SplitAreasRaw(Some(t))
  {
    LabelsOfEmpty();
    if ';' !in t {
      LabelsSpaceFirstAlone(t);
    } else {
      LabelsSpaceFirstOfMany(t, IndexOf(t, ';'));
    }
  }

  lemma SplitAreasOne(x: string)
    requires CleanLabel(x)
    ensures SplitAreasRaw(Some(x)) == [x]
  {
    StripUnique("", x, "");
    assert "" + x + "" == x;
    assert Labels([x]) == [x] + Labels([]);
  }

  /** A text without a semicolon is one label, trimmed, or none. */
  lemma SplitAreasPart(x: string)
    requires ';' !in x
    ensures SplitAreasRaw(Some(x)) == if Strip(x) == "" then [] else [Strip(x)]
  {
    LabelsOfEmpty();
    assert SplitOn(x, ';') == [x] && [x][1..] == [];
  }

  lemma {:induction false} SplitAreasJoined(xs: seq<string>)
    requires CleanLabels(xs)
    ensures SplitAreasRaw(Some(Join(xs, "; "))) == xs
    decreases |xs|
  {
    if |xs| == 1 {
      SplitAreasOne(xs[0]);
    } else if |xs| > 1 {
      var rest := Join(xs[1..], "; ");
      assert Join(xs, "; ") == xs[0] + ";" + (" " + rest);
      SplitAreasConcat(xs[0], " " + rest);
      SplitAreasOne(xs[0]);
      SplitAreasSpaceFirst(rest);
      SplitAreasJoined(xs[1..]);
    }
  }

  /** Printing a list and parsing it back gives the list exactly when its labels are clean. */
  lemma PrintThenParse(xs: seq<string>)
    ensures SplitAreasRaw(Some(Join(xs, "; "))) == xs <==> CleanLabels(xs)
  {
    SplitAreasClean(Some(Join(xs, "; ")));
    if CleanLabels(xs) {
      SplitAreasJoined(xs);
    }
  }

  /** Whatever text the source publishes, its parsed list survives the CSV column. */
  lemma ParsePrintParse(raw: Option<string>)
    ensures SplitAreasRaw(Some(Join(SplitAreasRaw(raw), "; "))) == SplitAreasRaw(raw)
  {
    SplitAreasClean(raw);
    PrintThenParse(SplitAreasRaw(raw));
  }

  // ----- the vocabulary -----

  function AreaOf(text: string): Area {
    var key := Lower(Strip(text));
    if key in AREA_LABEL_MAP then AREA_LABEL_MAP[key] else Other
  }

  /** The labels the source page publishes, in any case and with any outer white space, have these areas. */
  lemma PublishedLabels(text: string)
    ensures var area, key := AreaOf(text), Lower(Strip(text));
      && (key == "intellectual property infringements" ==> area == IpInfringement)
      && (key == "illegal speech" ==> area == IllegalSpeech)
      && (key == "terrorist content" ==> area == TerroristContent)
      && (key == "csam" ==> area == Csam)
      && (key == "protection of minors violations" ==> area == ProtectionOfMinors)
      && (key == "cyberviolence" ==> area == CyberViolence)
  {
  }

  lemma MorePublishedLabels(text: string)
    ensures var area, key := AreaOf(text), Lower(Strip(text));
      && (key == "cyber violence against women" ==> area == GenderBasedViolence)
      && (key == "scams and fraud" ==> area == ScamsFraud)
      && (key == "illegal products" ==> area == IllegalProducts)
      && (key == "consumer protection" || key == "consumer information infringements" ==> area == ConsumerProtection)
      && (key == "disinformation" ==> area == Disinformation)
  {
  }

  lemma OtherPublishedLabels(text: string)
    ensures var area, key := AreaOf(text), Lower(Strip(text));
      && (key == "data protection and privacy violations" ==> area == DataPrivacy)
      && (key == "risk for public security" ==> area == PublicSecurity)
      && (key == "violence" ==> area == Violence)
      && (key == "incitement to self-harm" ==> area == SelfHarm)
      && (key == "animal welfare" ==> area == AnimalWelfare)
      && (key == "negative effects on civil discourse and elections" ==> area == CivilDiscourse)
  {
  }

  const PUBLISHED_LABELS: set<string> := {
    "intellectual property infringements", "illegal speech", "terrorist content", "csam",
    "protection of minors violations", "cyberviolence", "cyber violence against women", "scams and fraud",
    "illegal products", "consumer protection", "consumer information infringements", "disinformation",
    "data protection and privacy violations", "risk for public security", "violence", "incitement to self-harm",
    "animal welfare", "negative effects on civil discourse and elections"
  }

  /** Every other label, and no published one, falls into `other`. */
  lemma OtherIsTheRest(text: string)
    ensures AreaOf(text) == Other <==> Lower(Strip(text)) !in PUBLISHED_LABELS
  {
    PublishedLabels(text);
    MorePublishedLabels(text);
    OtherPublishedLabels(text);
  }

  function Mapped(labels: seq<string>): (areas: seq<Area>)
    ensures |areas| == |labels|
  {
    seq(|labels|, i requires 0 <= i < |labels| => AreaOf(labels[i]))
  }

  method NormalizeAreas(rawLabels: seq<string>) returns (areas: seq<Area>)
    ensures areas == FirstSeen(Mapped(rawLabels))
    ensures Distinct(areas)
    ensures forall a :: a in areas <==> exists x :: x in rawLabels && AreaOf(x) == a
  {
    areas := [];
    for i := 0 to |rawLabels|
      invariant areas == FirstSeen(Mapped(rawLabels)[..i])
    {
      var mapped := AreaOf(rawLabels[i]);
      assert Mapped(rawLabels)[..i + 1][..i] == Mapped(rawLabels)[..i];
      if mapped !in areas {
        areas := areas + [mapped];
      }
    }
    assert Mapped(rawLabels)[..|rawLabels|] == Mapped(rawLabels);
    FirstSeenElements(Mapped(rawLabels));
    MappedElements(rawLabels);
  }

  lemma MappedElements(labels: seq<string>)
    ensures forall a :: a in Mapped(labels) <==> exists x :: x in labels && AreaOf(x) == a
  {
    forall a ensures a in Mapped(labels) <==> exists x :: x in labels && AreaOf(x) == a {
      if a in Mapped(labels) {
        var i :| 0 <= i < |labels| && Mapped(labels)[i] == a;
        assert labels[i] in labels;
      }
      if x :| x in labels && AreaOf(x) == a {
        var i :| 0 <= i < |labels| && labels[i] == x;
        assert Mapped(labels)[i] == a;
      }
    }
  }

  /** Areas come out in the order in which their first labels appear. */
  lemma AreasKeepFirstSeenOrder(labels: seq<string>, i: nat, j: nat) returns (k: nat)
    requires i < j < |FirstSeen(Mapped(labels))|
    ensures k < |labels| && AreaOf(labels[k]) == FirstSeen(Mapped(labels))[i]
    ensures forall m :: 0 <= m <= k ==> AreaOf(labels[m]) != FirstSeen(Mapped(labels))[j]
  {
    k := FirstSeenOrder(Mapped(labels), i, j);
    forall m | 0 <= m <= k ensures AreaOf(labels[m]) != FirstSeen(Mapped(labels))[j] {
      assert Mapped(labels)[m] == AreaOf(labels[m]);
    }
  }

  /** White space and ASCII case around a label never change the area it maps to. */
  lemma AreaIgnoresCaseAndSpace(l: string, text: string, r: string)
    requires Blank(l) && Blank(r)
    ensures AreaOf(l + text + r) == AreaOf(text) == AreaOf(Lower(text))
  {
    StripPadded(l, text, r);
    LowerStrip(text);
    LowerIdempotent(Strip(text));
  }

  // ----- lists of values -----

  predicate IsEarly(a: Area) {
    a == IpInfringement || a == IllegalSpeech || a == TerroristContent || a == Csam || a == ProtectionOfMinors
  }

  predicate IsMiddle(a: Area) {
    a == CyberViolence || a == GenderBasedViolence || a == ScamsFraud || a == IllegalProducts
    || a == ConsumerProtection || a == Disinformation || a == DataPrivacy
  }

  predicate CodeChar(c: char) {
    'a' <= c <= 'z' || c == '_'
  }

  lemma EarlyCodeChars(a: Area, i: nat)
    requires IsEarly(a) && i < |Code(a)|
    ensures CodeChar(Code(a)[i])
  {
  }

  lemma MiddleCodeChars(a: Area, i: nat)
    requires IsMiddle(a) && i < |Code(a)|
    ensures CodeChar(Code(a)[i])
  {
  }

  lemma LateCodeChars(a: Area, i: nat)
    requires !IsEarly(a) && !IsMiddle(a) && i < |Code(a)|
    ensures CodeChar(Code(a)[i])
  {
  }

  lemma CodeIsClean(a: Area)
    ensures CleanLabel(Code(a))
  {
    forall i | 0 <= i < |Code(a)| ensures CodeChar(Code(a)[i]) {
      if IsEarly(a) { EarlyCodeChars(a, i); }
      else if IsMiddle(a) { MiddleCodeChars(a, i); }
      else { LateCodeChars(a, i); }
    }
  }

  function CodeList(areas: seq<Area>): (codes: seq<string>)
    ensures |codes| == |areas|
  {
    seq(|areas|, i requires 0 <= i < |areas| => Code(areas[i]))
  }

  /** The areas with these values, if all of them are values. */
  function AreasNamed(codes: seq<string>): Option<seq<Area>> {
    if codes == [] then Some([])
    else
      var front, last := AreasNamed(codes[..|codes| - 1]), AreaNamed(codes[|codes| - 1]);
      if front.None? || last.None? then None else Some(front.value + [last.value])
  }

  lemma OneMoreCode(codes: seq<string>, areas: seq<Area>, code: string, area: Area)
    requires AreasNamed(codes) == Some(areas) && AreaNamed(code) == Some(area)
    ensures AreasNamed(codes + [code]) == Some(areas + [area])
  {
    assert (codes + [code])[..|codes|] == codes;
  }

  lemma CodeListGrows(areas: seq<Area>, area: Area)
    ensures CodeList(areas + [area]) == CodeList(areas) + [Code(area)]
  {
  }

  lemma OneMoreArea(areas: seq<Area>, area: Area)
    requires AreasNamed(CodeList(areas)) == Some(areas)
    ensures AreasNamed(CodeList(areas + [area])) == Some(areas + [area])
  {
    CodeIsReadBack(area);
    OneMoreCode(CodeList(areas), areas, Code(area), area);
    CodeListGrows(areas, area);
  }

  lemma {:induction false} CodesAreReadBack(areas: seq<Area>)
    ensures AreasNamed(CodeList(areas)) == Some(areas)
  {
    if areas != [] {
      var front, last := areas[..|areas| - 1], areas[|areas| - 1];
      CodesAreReadBack(front);
      OneMoreArea(front, last);
      assert front + [last] == areas;
    }
  }

  /** A printed list of values gives the areas back. */
  lemma PrintedCodesAreReadBack(areas: seq<Area>)
    ensures AreasNamed(SplitAreasRaw(Some(Join(CodeList(areas), "; ")))) == Some(areas)
  {
    forall x | x in CodeList(areas) ensures CleanLabel(x) {
      var i :| 0 <= i < |areas| && CodeList(areas)[i] == x;
      CodeIsClean(areas[i]);
    }
    PrintThenParse(CodeList(areas));
    CodesAreReadBack(areas);
  }
}
