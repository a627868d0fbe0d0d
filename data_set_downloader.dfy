/**
 * The record-decoding half of the data-acquisition pipeline: one CSV row to one
 * record (`makeDeseaseModel(from:)`), the compactMap over all rows, the choice of
 * which records get an image download, and what a download session delivers.
 */
module DataSetDownloader {
  import opened Wrappers
  import opened FoundationText
  import opened DeseaseModels
  import opened HTTPMethods
  import opened Collections

  /** One CSV data row: header string to cell text. */
  type Row = map<string, string>

  /** `Double(String)`: the platform's floating-point parser, left uninterpreted. */
  type DoubleParser = string -> Option<Float64>

  const CsvName: string := "metadata.csv"

  /** The headers whose absence drops the whole row. */
  const GatingHeaders: set<DeseaseModelHeader> := {
    DeseaseModelHeader.Offset, DeseaseModelHeader.Sex, DeseaseModelHeader.Age,
    DeseaseModelHeader.Finding, DeseaseModelHeader.Survival, DeseaseModelHeader.Intubated,
    DeseaseModelHeader.Temperature, DeseaseModelHeader.PO2Saturation,
    DeseaseModelHeader.LeukocyteCount, DeseaseModelHeader.NeutrophilCount,
    DeseaseModelHeader.LymphocyteCount, DeseaseModelHeader.View, DeseaseModelHeader.Modality
  }

  /** The gating headers whose value, once present, never drops the row. */
  const LenientHeaders: set<DeseaseModelHeader> := GatingHeaders - {DeseaseModelHeader.View, DeseaseModelHeader.Modality}

  /** The headers whose absence is read as the empty string. */
  const FallbackHeaders: set<DeseaseModelHeader> := {
    DeseaseModelHeader.PatientId, DeseaseModelHeader.Date, DeseaseModelHeader.Location,
    DeseaseModelHeader.Folder, DeseaseModelHeader.Filename, DeseaseModelHeader.Doi,
    DeseaseModelHeader.Url, DeseaseModelHeader.License, DeseaseModelHeader.ClinicalNotes
  }

  /** `dictionary[header.rawValue]` */
  function Value(row: Row, h: DeseaseModelHeader): Option<string> {
    if h.RawValue() in row then Some(row[h.RawValue()]) else None
  }

  /** `dictionary[header.rawValue] ?? ""` */
  function ValueOrEmpty(row: Row, h: DeseaseModelHeader): string {
    if h.RawValue() in row then row[h.RawValue()] else ""
  }

  /** Every header of `GatingHeaders` is a key of the row. */
  predicate HasGatingKeys(row: Row) {
    && DeseaseModelHeader.Offset.RawValue() in row
    && DeseaseModelHeader.Sex.RawValue() in row
    && DeseaseModelHeader.Age.RawValue() in row
    && DeseaseModelHeader.Finding.RawValue() in row
    && DeseaseModelHeader.Survival.RawValue() in row
    && DeseaseModelHeader.Intubated.RawValue() in row
    && DeseaseModelHeader.Temperature.RawValue() in row
    && DeseaseModelHeader.PO2Saturation.RawValue() in row
    && DeseaseModelHeader.LeukocyteCount.RawValue() in row
    && DeseaseModelHeader.NeutrophilCount.RawValue() in row
    && DeseaseModelHeader.LymphocyteCount.RawValue() in row
    && DeseaseModelHeader.View.RawValue() in row
    && DeseaseModelHeader.Modality.RawValue() in row
  }

  /** The rows `makeDeseaseModel` turns into a record: every gating key is present,
      and the view and modality cells hold exact raw values. */
  predicate Accepts(row: Row) {
    && HasGatingKeys(row)
    && View.FromRaw(row[DeseaseModelHeader.View.RawValue()]).Some?
    && Modality.FromRaw(row[DeseaseModelHeader.Modality.RawValue()]).Some?
  }

  /** What each field of a record decoded from an accepted row holds. */
  predicate DecodedFrom(m: DeseaseModel, row: Row, parseDouble: DoubleParser) {
    DecodedText(m, row) && DecodedCoded(m, row) && DecodedDoubles(m, row, parseDouble)
  }

  /** The text fields: the cell as it stands, the file name trimmed of whitespace. */
  predicate DecodedText(m: DeseaseModel, row: Row) {
    && m.patientId == ValueOrEmpty(row, DeseaseModelHeader.PatientId)
    && m.date == ValueOrEmpty(row, DeseaseModelHeader.Date)
    && m.location == ValueOrEmpty(row, DeseaseModelHeader.Location)
    && m.folder == ValueOrEmpty(row, DeseaseModelHeader.Folder)
    && m.filename == Trim(ValueOrEmpty(row, DeseaseModelHeader.Filename))
    && m.doi == ValueOrEmpty(row, DeseaseModelHeader.Doi)
    && m.url == ValueOrEmpty(row, DeseaseModelHeader.Url)
    && m.license == ValueOrEmpty(row, DeseaseModelHeader.License)
    && m.clinicalNotes == ValueOrEmpty(row, DeseaseModelHeader.ClinicalNotes)
  }

  /** The integer and enumerated fields: each cell through its own parser. */
  predicate DecodedCoded(m: DeseaseModel, row: Row) {
    && m.offset == ParseInt(ValueOrEmpty(row, DeseaseModelHeader.Offset))
    && m.sex == Sex.FromRaw(ValueOrEmpty(row, DeseaseModelHeader.Sex))
    && m.age == ParseInt(ValueOrEmpty(row, DeseaseModelHeader.Age))
    && m.finding == Desease.Classify(ValueOrEmpty(row, DeseaseModelHeader.Finding))
    && m.survival == YesOrNo.FromRaw(ValueOrEmpty(row, DeseaseModelHeader.Survival))
    && m.intubated == YesOrNo.FromRaw(ValueOrEmpty(row, DeseaseModelHeader.Intubated))
    && m.view.RawValue() == ValueOrEmpty(row, DeseaseModelHeader.View)
    && m.modality.RawValue() == ValueOrEmpty(row, DeseaseModelHeader.Modality)
  }

  /** The measurements: each cell through `Double(_:)`. */
  predicate DecodedDoubles(m: DeseaseModel, row: Row, parseDouble: DoubleParser) {
    && m.temperature == parseDouble(ValueOrEmpty(row, DeseaseModelHeader.Temperature))
    && m.pO2Saturation == parseDouble(ValueOrEmpty(row, DeseaseModelHeader.PO2Saturation))
    && m.leukocyteCount == parseDouble(ValueOrEmpty(row, DeseaseModelHeader.LeukocyteCount))
    && m.neutrophilCount == parseDouble(ValueOrEmpty(row, DeseaseModelHeader.NeutrophilCount))
    && m.lymphocyteCount == parseDouble(ValueOrEmpty(row, DeseaseModelHeader.LymphocyteCount))
  }

  /** `makeDeseaseModel(from:)`: the guard chain over the row's cells. */
  function MakeDeseaseModel(row: Row, parseDouble: DoubleParser): (r: Option<DeseaseModel>)
    ensures r.Some? <==> Accepts(row)
    ensures r.Some? ==> DecodedFrom(r.value, row, parseDouble)
  {
    var patientId := ValueOrEmpty(row, DeseaseModelHeader.PatientId);
    match Value(row, DeseaseModelHeader.Offset)
    case None => None
    case Some(offsetValue) =>
    var offset := ParseInt(offsetValue);
    match Value(row, DeseaseModelHeader.Sex)
    case None => None
    case Some(sexValue) =>
    var sex := Sex.FromRaw(sexValue);
    match Value(row, DeseaseModelHeader.Age)
    case None => None
    case Some(ageValue) =>
    var age := ParseInt(ageValue);
    match Value(row, DeseaseModelHeader.Finding)
    case None => None
    case Some(findingValue) =>
    var finding := Desease.Classify(findingValue);
    match Value(row, DeseaseModelHeader.Survival)
    case None => None
    case Some(survivalValue) =>
    var survival := YesOrNo.FromRaw(survivalValue);
    match Value(row, DeseaseModelHeader.Intubated)
    case None => None
    case Some(intubatedValue) =>
    var intubated := YesOrNo.FromRaw(intubatedValue);
    match Value(row, DeseaseModelHeader.Temperature)
    case None => None
    case Some(temperatureValue) =>
    var temperature := parseDouble(temperatureValue);
    match Value(row, DeseaseModelHeader.PO2Saturation)
    case None => None
    case Some(pO2SaturationValue) =>
    var pO2Saturation := parseDouble(pO2SaturationValue);
    match Value(row, DeseaseModelHeader.LeukocyteCount)
    case None => None
    case Some(leukocyteCountValue) =>
    var leukocyteCount := parseDouble(leukocyteCountValue);
    match Value(row, DeseaseModelHeader.NeutrophilCount)
    case None => None
    case Some(neutrophilCountValue) =>
    var neutrophilCount := parseDouble(neutrophilCountValue);
    match Value(row, DeseaseModelHeader.LymphocyteCount)
    case None => None
    case Some(lymphocyteCountValue) =>
    var lymphocyteCount := parseDouble(lymphocyteCountValue);
    match Value(row, DeseaseModelHeader.View)
    case None => None
    case Some(viewValue) =>
    match View.FromRaw(viewValue)
    case None => None
    case Some(view) =>
    match Value(row, DeseaseModelHeader.Modality)
    case None => None
    case Some(modalityValue) =>
    match Modality.FromRaw(modalityValue)
    case None => None
    case Some(modality) =>
    Some(DeseaseModel(
      patientId, offset, sex, age, finding, survival, intubated,
      temperature, pO2Saturation, leukocyteCount, neutrophilCount, lymphocyteCount,
      view, modality,
      ValueOrEmpty(row, DeseaseModelHeader.Date),
      ValueOrEmpty(row, DeseaseModelHeader.Location),
      ValueOrEmpty(row, DeseaseModelHeader.Folder),
      Trim(ValueOrEmpty(row, DeseaseModelHeader.Filename)),
      ValueOrEmpty(row, DeseaseModelHeader.Doi),
      ValueOrEmpty(row, DeseaseModelHeader.Url),
      ValueOrEmpty(row, DeseaseModelHeader.License),
      ValueOrEmpty(row, DeseaseModelHeader.ClinicalNotes)))
  }

  // ---------------------------------------------------------------------
  // Accept and reject conditions

  /** `HasGatingKeys` is exactly "every header of `GatingHeaders` is present". */
  lemma GatingKeysAreGatingHeaders(row: Row)
    ensures HasGatingKeys(row) <==> forall h :: h in GatingHeaders ==> h.RawValue() in row
  {
  }

  /** A row without one of the thirteen gating keys is rejected. */
  lemma MissingGatingKeyRejects(row: Row, h: DeseaseModelHeader, parseDouble: DoubleParser)
    requires h in GatingHeaders && h.RawValue() !in row
    ensures MakeDeseaseModel(row, parseDouble) == None
  {
    GatingKeysAreGatingHeaders(row);
  }

  /** Rewriting the cell of a lenient header (an integer, a double, sex, survival,
      intubated or finding) to any text at all never turns an accepted row into a
      rejected one: an unparsable value only becomes `None` in its field. */
  lemma LenientCellNeverRejects(row: Row, h: DeseaseModelHeader, text: string, parseDouble: DoubleParser)
    requires h in LenientHeaders && Accepts(row)
    ensures Accepts(row[h.RawValue() := text])
    ensures MakeDeseaseModel(row[h.RawValue() := text], parseDouble).Some?
  {
    var row' := row[h.RawValue() := text];
    assert row'[DeseaseModelHeader.View.RawValue()] == row[DeseaseModelHeader.View.RawValue()];
    assert row'[DeseaseModelHeader.Modality.RawValue()] == row[DeseaseModelHeader.Modality.RawValue()];
  }

  /** The text fields that fall back to "" when their key is missing. */
  function TextField(m: DeseaseModel, h: DeseaseModelHeader): string
    requires h in FallbackHeaders
  {
    match h
    case PatientId => m.patientId
    case Date => m.date
    case Location => m.location
    case Folder => m.folder
    case Filename => m.filename
    case Doi => m.doi
    case Url => m.url
    case License => m.license
    case ClinicalNotes => m.clinicalNotes
  }

  /** The fallback text fields other than `filename` are their cells, copied unchanged. */
  lemma FallbackTextCopied(row: Row, h: DeseaseModelHeader, parseDouble: DoubleParser)
    requires h in FallbackHeaders - {DeseaseModelHeader.Filename} && Accepts(row)
    ensures TextField(MakeDeseaseModel(row, parseDouble).value, h) == ValueOrEmpty(row, h)
  {
    match h
    case PatientId =>
    case Date =>
    case Location =>
    case Folder =>
    case Doi =>
    case Url =>
    case License =>
    case ClinicalNotes =>
  }

  /** `filename` is its cell trimmed of whitespace at both ends, and nothing else. */
  lemma FilenameTrimmed(row: Row, parseDouble: DoubleParser)
    requires Accepts(row)
    ensures MakeDeseaseModel(row, parseDouble).value.filename == Trim(ValueOrEmpty(row, DeseaseModelHeader.Filename))
  {
  }

  /** A missing fallback key gives the empty string in its field. */
  lemma MissingFallbackKeyIsEmpty(row: Row, h: DeseaseModelHeader, parseDouble: DoubleParser)
    requires h in FallbackHeaders && Accepts(row) && h.RawValue() !in row
    ensures TextField(MakeDeseaseModel(row, parseDouble).value, h) == ""
  {
    if h == DeseaseModelHeader.Filename {
      FilenameTrimmed(row, parseDouble);
    } else {
      FallbackTextCopied(row, h, parseDouble);
    }
  }

  /** Removing a fallback key never changes whether the row is accepted. */
  lemma FallbackKeysNeverGate(row: Row, h: DeseaseModelHeader)
    requires h in FallbackHeaders
    ensures Accepts(row - {h.RawValue()}) <==> Accepts(row)
  {
    var row' := row - {h.RawValue()};
    forall g | g in GatingHeaders
      ensures g.RawValue() in row' <==> g.RawValue() in row
    {
      HeaderRawValueInjective(g, h);
    }
    GatingKeysAreGatingHeaders(row);
    GatingKeysAreGatingHeaders(row');
    if HasGatingKeys(row) {
      assert row'[DeseaseModelHeader.View.RawValue()] == row[DeseaseModelHeader.View.RawValue()];
      assert row'[DeseaseModelHeader.Modality.RawValue()] == row[DeseaseModelHeader.Modality.RawValue()];
    }
  }

  // ---------------------------------------------------------------------
  // Writing a record back as a row, and the round trip

  /** A finding text that `Desease(findingValue:)` classifies as `d`. */
  function FindingText(d: Desease): (s: string)
    ensures Desease.Classify(s) == d
  {
    match d
    case Covid19 => "Pneumonia/Viral/COVID-19"
    case NoFinding => "No Finding"
    case Other => "Other"
  }

  function IntCell(n: Option<int>): string {
    match n
    case None => ""
    case Some(v) => IntDescription(v)
  }

  function SexCell(s: Option<Sex>): string {
    match s
    case None => ""
    case Some(v) => v.RawValue()
  }

  function YesOrNoCell(y: Option<YesOrNo>): string {
    match y
    case None => ""
    case Some(v) => v.RawValue()
  }

  function DoubleCell(x: Option<Float64>, formatDouble: Float64 -> string): string {
    match x
    case None => ""
    case Some(v) => formatDouble(v)
  }

  /** The records a row can describe: integers in Swift's 64-bit range and a file
      name without surrounding whitespace. */
  predicate Encodable(m: DeseaseModel) {
    && (m.offset.Some? ==> Int64Min <= m.offset.value <= Int64Max)
    && (m.age.Some? ==> Int64Min <= m.age.value <= Int64Max)
    && (m.filename == [] || (!IsWhitespace(m.filename[0]) && !IsWhitespace(m.filename[|m.filename| - 1])))
  }

  lemma IntCellRoundTrip(n: Option<int>)
    requires n.Some? ==> Int64Min <= n.value <= Int64Max
    ensures ParseInt(IntCell(n)) == n
  {
    if n.Some? { ParseIntDescription(n.value); }
  }

  lemma SexCellRoundTrip(s: Option<Sex>)
    ensures Sex.FromRaw(SexCell(s)) == s
  {
  }

  lemma YesOrNoCellRoundTrip(y: Option<YesOrNo>)
    ensures YesOrNo.FromRaw(YesOrNoCell(y)) == y
  {
  }

  /** The row holds, under every header `makeDeseaseModel` reads, the cell of `m`. */
  predicate HoldsCells(row: Row, m: DeseaseModel, formatDouble: Float64 -> string) {
    HoldsTextCells(row, m) && HoldsCodedCells(row, m) && HoldsDoubleCells(row, m, formatDouble)
  }

  predicate HoldsTextCells(row: Row, m: DeseaseModel) {
    && ValueOrEmpty(row, DeseaseModelHeader.PatientId) == m.patientId
    && ValueOrEmpty(row, DeseaseModelHeader.Date) == m.date
    && ValueOrEmpty(row, DeseaseModelHeader.Location) == m.location
    && ValueOrEmpty(row, DeseaseModelHeader.Folder) == m.folder
    && ValueOrEmpty(row, DeseaseModelHeader.Filename) == m.filename
    && ValueOrEmpty(row, DeseaseModelHeader.Doi) == m.doi
    && ValueOrEmpty(row, DeseaseModelHeader.Url) == m.url
    && ValueOrEmpty(row, DeseaseModelHeader.License) == m.license
    && ValueOrEmpty(row, DeseaseModelHeader.ClinicalNotes) == m.clinicalNotes
  }

  predicate HoldsCodedCells(row: Row, m: DeseaseModel) {
    && ValueOrEmpty(row, DeseaseModelHeader.Offset) == IntCell(m.offset)
    && ValueOrEmpty(row, DeseaseModelHeader.Sex) == SexCell(m.sex)
    && ValueOrEmpty(row, DeseaseModelHeader.Age) == IntCell(m.age)
    && ValueOrEmpty(row, DeseaseModelHeader.Finding) == FindingText(m.finding)
    && ValueOrEmpty(row, DeseaseModelHeader.Survival) == YesOrNoCell(m.survival)
    && ValueOrEmpty(row, DeseaseModelHeader.Intubated) == YesOrNoCell(m.intubated)
    && ValueOrEmpty(row, DeseaseModelHeader.View) == m.view.RawValue()
    && ValueOrEmpty(row, DeseaseModelHeader.Modality) == m.modality.RawValue()
  }

  predicate HoldsDoubleCells(row: Row, m: DeseaseModel, formatDouble: Float64 -> string) {
    && ValueOrEmpty(row, DeseaseModelHeader.Temperature) == DoubleCell(m.temperature, formatDouble)
    && ValueOrEmpty(row, DeseaseModelHeader.PO2Saturation) == DoubleCell(m.pO2Saturation, formatDouble)
    && ValueOrEmpty(row, DeseaseModelHeader.LeukocyteCount) == DoubleCell(m.leukocyteCount, formatDouble)
    && ValueOrEmpty(row, DeseaseModelHeader.NeutrophilCount) == DoubleCell(m.neutrophilCount, formatDouble)
    && ValueOrEmpty(row, DeseaseModelHeader.LymphocyteCount) == DoubleCell(m.lymphocyteCount, formatDouble)
  }

  lemma DoubleCellRoundTrip(x: Option<Float64>, parseDouble: DoubleParser, formatDouble: Float64 -> string)
    requires parseDouble("") == None
    requires forall y :: parseDouble(formatDouble(y)) == Some(y)
    ensures parseDouble(DoubleCell(x, formatDouble)) == x
  {
  }

  /** The fields decoded from cells that were written from `m` are those of `m`, group by group. */
  lemma DecodeTextCells(row: Row, r: DeseaseModel, m: DeseaseModel)
    requires m.filename == [] || (!IsWhitespace(m.filename[0]) && !IsWhitespace(m.filename[|m.filename| - 1]))
    requires HoldsTextCells(row, m) && DecodedText(r, row)
    ensures && r.patientId == m.patientId && r.date == m.date && r.location == m.location
            && r.folder == m.folder && r.filename == m.filename && r.doi == m.doi
            && r.url == m.url && r.license == m.license && r.clinicalNotes == m.clinicalNotes
  {
    TrimUnchanged(m.filename);
  }

  lemma DecodeCodedCells(row: Row, r: DeseaseModel, m: DeseaseModel)
    requires m.offset.Some? ==> Int64Min <= m.offset.value <= Int64Max
    requires m.age.Some? ==> Int64Min <= m.age.value <= Int64Max
    requires HoldsCodedCells(row, m) && DecodedCoded(r, row)
    ensures && r.offset == m.offset && r.age == m.age && r.sex == m.sex && r.finding == m.finding
            && r.survival == m.survival && r.intubated == m.intubated
            && r.view == m.view && r.modality == m.modality
  {
    IntCellRoundTrip(m.offset);
    IntCellRoundTrip(m.age);
    SexCellRoundTrip(m.sex);
    YesOrNoCellRoundTrip(m.survival);
    YesOrNoCellRoundTrip(m.intubated);
    ViewRawValueInjective(r.view, m.view);
  }

  lemma DecodeDoubleCells(row: Row, r: DeseaseModel, m: DeseaseModel, parseDouble: DoubleParser, formatDouble: Float64 -> string)
    requires parseDouble("") == None
    requires forall x :: parseDouble(formatDouble(x)) == Some(x)
    requires HoldsDoubleCells(row, m, formatDouble) && DecodedDoubles(r, row, parseDouble)
    ensures && r.temperature == m.temperature && r.pO2Saturation == m.pO2Saturation
            && r.leukocyteCount == m.leukocyteCount && r.neutrophilCount == m.neutrophilCount
            && r.lymphocyteCount == m.lymphocyteCount
  {
    DoubleCellRoundTrip(m.temperature, parseDouble, formatDouble);
    DoubleCellRoundTrip(m.pO2Saturation, parseDouble, formatDouble);
    DoubleCellRoundTrip(m.leukocyteCount, parseDouble, formatDouble);
    DoubleCellRoundTrip(m.neutrophilCount, parseDouble, formatDouble);
    DoubleCellRoundTrip(m.lymphocyteCount, parseDouble, formatDouble);
  }

  /** Fields decoded from an accepted row whose cells are those of `m` are the fields of `m`. */
  lemma FieldsOfCells(row: Row, r: DeseaseModel, m: DeseaseModel, parseDouble: DoubleParser, formatDouble: Float64 -> string)
    requires Encodable(m) && Accepts(row)
    requires parseDouble("") == None
    requires forall x :: parseDouble(formatDouble(x)) == Some(x)
    requires HoldsCells(row, m, formatDouble) && DecodedFrom(r, row, parseDouble)
    ensures r == m
  {
    DecodeTextCells(row, r, m);
    DecodeCodedCells(row, r, m);
    DecodeDoubleCells(row, r, m, parseDouble, formatDouble);
  }

  /** Round trip: a row that has every gating key and holds, under each header
      `makeDeseaseModel` reads, the cell `m` is written as, decodes to `m`. */
  lemma DecodeCells(row: Row, m: DeseaseModel, parseDouble: DoubleParser, formatDouble: Float64 -> string)
    requires Encodable(m) && HasGatingKeys(row)
    requires parseDouble("") == None
    requires forall x :: parseDouble(formatDouble(x)) == Some(x)
    requires HoldsCells(row, m, formatDouble)
    ensures MakeDeseaseModel(row, parseDouble) == Some(m)
  {
    assert row[DeseaseModelHeader.View.RawValue()] == m.view.RawValue();
    assert row[DeseaseModelHeader.Modality.RawValue()] == m.modality.RawValue();
    FieldsOfCells(row, MakeDeseaseModel(row, parseDouble).value, m, parseDouble, formatDouble);
  }

  lemma ViewRawValueInjective(v: View, w: View)
    requires v.RawValue() == w.RawValue()
    ensures v == w
  {
  }

  /** The closure `execute` maps every row through. */
  function Decoder(parseDouble: DoubleParser): Row -> Option<DeseaseModel> {
    (row: Row) => MakeDeseaseModel(row, parseDouble)
  }

  /** `csv.namedRows.compactMap { makeDeseaseModel(from: $0) }` */
  function ParseRows(rows: seq<Row>, parseDouble: DoubleParser): (models: seq<DeseaseModel>)
    ensures |models| <= |rows|
  {
    CompactMap(rows, Decoder(parseDouble))
  }

  /** The records keep the order of their rows: parsing a concatenation of row lists
      concatenates the parsed lists. */
  lemma ParseRowsAppend(a: seq<Row>, b: seq<Row>, parseDouble: DoubleParser)
    ensures ParseRows(a + b, parseDouble) == ParseRows(a, parseDouble) + ParseRows(b, parseDouble)
  {
    CompactMapAppend(a, b, Decoder(parseDouble));
  }

  /** A single row parses to its record, or to nothing when it is rejected. */
  lemma ParseOneRow(row: Row, parseDouble: DoubleParser)
    ensures Accepts(row) ==> ParseRows([row], parseDouble) == [MakeDeseaseModel(row, parseDouble).value]
    ensures !Accepts(row) ==> ParseRows([row], parseDouble) == []
  {
    assert [row][..0] == [];
  }

  /** A record is parsed exactly when some row decodes to it. */
  lemma ParseRowsMembers(rows: seq<Row>, parseDouble: DoubleParser, m: DeseaseModel)
    ensures m in ParseRows(rows, parseDouble)
            <==> exists i :: 0 <= i < |rows| && MakeDeseaseModel(rows[i], parseDouble) == Some(m)
  {
    CompactMapMembers(rows, Decoder(parseDouble), m);
    if m in ParseRows(rows, parseDouble) {
      var i :| 0 <= i < |rows| && Decoder(parseDouble)(rows[i]) == Some(m);
      assert MakeDeseaseModel(rows[i], parseDouble) == Some(m);
    }
    if i :| 0 <= i < |rows| && MakeDeseaseModel(rows[i], parseDouble) == Some(m) {
      assert Decoder(parseDouble)(rows[i]) == Some(m);
    }
  }

  /** No row is dropped exactly when every row is accepted. */
  lemma ParseRowsKeepsAll(rows: seq<Row>, parseDouble: DoubleParser)
    ensures |ParseRows(rows, parseDouble)| == |rows| <==> forall i :: 0 <= i < |rows| ==> Accepts(rows[i])
  {
    CompactMapTotal(rows, Decoder(parseDouble));
    assert forall i :: 0 <= i < |rows| ==> (Decoder(parseDouble)(rows[i]).Some? <==> Accepts(rows[i]));
  }

  /** The test `execute` filters the records with. */
  function InImages(): DeseaseModel -> bool {
    (m: DeseaseModel) => m.folder == "images"
  }

  /** `models.filter { $0.folder == "images" }`: the records whose image is downloaded. */
  function ImageRecords(models: seq<DeseaseModel>): (chosen: seq<DeseaseModel>)
    ensures |chosen| <= |models|
    ensures forall k :: 0 <= k < |chosen| ==> chosen[k].folder == "images"
  {
    Filter(models, InImages())
  }

  /** A record gets an image download exactly when it is parsed and lies in "images". */
  lemma ImageRecordsMembers(models: seq<DeseaseModel>, m: DeseaseModel)
    ensures m in ImageRecords(models) <==> m in models && m.folder == "images"
  {
    FilterMembers(models, InImages(), m);
  }

  /** The chosen records keep their order. */
  lemma ImageRecordsAppend(a: seq<DeseaseModel>, b: seq<DeseaseModel>)
    ensures ImageRecords(a + b) == ImageRecords(a) + ImageRecords(b)
  {
    FilterAppend(a, b, InImages());
  }

  /** `FileRequest`: a path relative to the repository's base URL and a method. */
  datatype FileRequest = FileRequest(path: string, httpMethod: HTTPMethod)

  /** A download: what is requested and where the file is saved. */
  datatype Download = Download(request: FileRequest, destination: FileURL)

  /** The metadata download of `execute`: `metadata.csv`, saved in the documents
      directory, or nothing when that directory cannot be resolved. */
  function CsvDownload(documents: Option<FileURL>): (d: Option<Download>)
    ensures d.Some? <==> documents.Some?
    ensures d.Some? ==> d.value.request.path == CsvName && d.value.request.httpMethod == Get
    ensures d.Some? ==> d.value.destination.components == documents.value.components + [CsvName]
  {
    match documents
    case None => None
    case Some(docs) => Some(Download(FileRequest(CsvName, Get), docs.AppendingPathComponent(CsvName)))
  }

  /** `downloadImage(for:)`: a GET of `<folder>/<filename>` saved at the record's
      `imageURL`; nothing is fetched when `imageURL` is nil. */
  function ImageDownload(m: DeseaseModel, documents: Option<FileURL>): (d: Option<Download>)
    ensures d.None? <==> ImageURL(m, documents).None?
    ensures d.Some? ==> d.value.request == FileRequest(m.folder + "/" + m.filename, Get)
    ensures d.Some? ==> Some(d.value.destination) == ImageURL(m, documents)
  {
    match ImageURL(m, documents)
    case None => None
    case Some(u) => Some(Download(FileRequest(m.folder + "/" + m.filename, Get), u))
  }

  /** What `downloadImage(for:)` reports: success when there was nothing to fetch,
      otherwise whether the download succeeded. */
  function ImageReported(m: DeseaseModel, documents: Option<FileURL>, downloadSucceeded: bool): (ok: bool)
    ensures documents.None? ==> ok
    ensures documents.Some? ==> ok == downloadSucceeded
  {
    ImageDownload(m, documents).None? || downloadSucceeded
  }

  /** A file name that a file URL keeps as one entry of its folder: not empty, without
      '/', and neither "." nor "..". */
  predicate PlainFileName(name: string) {
    && name != "" && name != "." && name != ".."
    && forall i :: 0 <= i < |name| ==> name[i] != '/'
  }

  /** The image fetched from `<folder>/<filename>` is saved under the same file name,
      inside the folder of its class, when the file name is a plain one. */
  lemma ImageSavedUnderRequestedName(m: DeseaseModel, documents: Option<FileURL>)
    requires documents.Some? && PlainFileName(m.filename)
    ensures ImageDownload(m, documents).Some?
    ensures var d := ImageDownload(m, documents).value;
            var n := |d.destination.components|;
            && n >= 2
            && d.destination.components[n - 1] == m.filename
            && d.destination.components[n - 2] == FolderName(m.finding)
            && d.request.path == m.folder + "/" + d.destination.components[n - 1]
  {
  }

  /** The metadata file is never saved where an image with a plain file name is: it
      lies directly in the documents directory, the images in a folder two levels below it. */
  lemma CsvNeverOverwritesImage(m: DeseaseModel, documents: Option<FileURL>)
    requires documents.Some? && PlainFileName(m.filename)
    ensures CsvDownload(documents).value.destination != ImageDownload(m, documents).value.destination
  {
    assert |CsvDownload(documents).value.destination.components|
           != |ImageDownload(m, documents).value.destination.components|;
  }

  /** What the metadata download delivered. */
  datatype CsvFetch = DownloadFailed | Unreadable | Parsed(rows: seq<Row>)

  /** Why a session fails: the documents directory, the download, or the CSV parser. */
  datatype PipelineError = DocumentDirectoryUnavailable | CsvDownloadFailed | CsvUnreadable

  /** One run of `execute`: the records whose image is scheduled for download, and what
      the completion handler receives, if it is ever called. */
  datatype Session = Session(scheduled: seq<DeseaseModel>, completion: Option<Result<seq<DeseaseModel>, PipelineError>>)

  /** `execute` in its sequential essence, with the completion delivered once every
      scheduled image download is over, including when none is scheduled. */
  function Execute(documents: Option<FileURL>, fetch: CsvFetch, parseDouble: DoubleParser): (s: Session)
    ensures s.completion.Some?
    ensures s.completion.value.Success? <==> documents.Some? && fetch.Parsed?
    ensures documents.None? ==> s.completion.value == Failure(DocumentDirectoryUnavailable)
    ensures documents.Some? && fetch.DownloadFailed? ==> s.completion.value == Failure(CsvDownloadFailed)
    ensures documents.Some? && fetch.Unreadable? ==> s.completion.value == Failure(CsvUnreadable)
    ensures s.completion.value.Failure? ==> s.scheduled == []
    ensures s.completion.value.Success? ==>
              && s.completion.value.value == ParseRows(fetch.rows, parseDouble)
              && s.scheduled == ImageRecords(s.completion.value.value)
  {
    if documents.None? then Session([], Some(Failure(DocumentDirectoryUnavailable)))
    else
      match fetch
      case DownloadFailed => Session([], Some(Failure(CsvDownloadFailed)))
      case Unreadable => Session([], Some(Failure(CsvUnreadable)))
      case Parsed(rows) =>
        var models := ParseRows(rows, parseDouble);
        Session(ImageRecords(models), Some(Success(models)))
  }

  /** What the completion handler receives on one call. */
  type Outcome = Result<seq<DeseaseModel>, PipelineError>

  /** The calls made by the completion blocks of the first `n` scheduled operations, as
      written: the block of operation `k` calls `completion(.success(models))` only when
      it finds the operation queue empty, which `queueEmptyAfter(k)` reports. Whether it
      does depends on how the concurrent downloads interleave. */
  function BlockCalls(n: nat, models: seq<DeseaseModel>, queueEmptyAfter: nat -> bool): (calls: seq<Outcome>)
    ensures |calls| <= n
    ensures forall k :: 0 <= k < |calls| ==> calls[k] == Success(models)
  {
    if n == 0 then []
    else BlockCalls(n - 1, models, queueEmptyAfter) + (if queueEmptyAfter(n - 1) then [Success(models)] else [])
  }

  /** The completion blocks call nothing exactly when none of them finds the queue empty. */
  lemma {:induction false} BlockCallsNone(n: nat, models: seq<DeseaseModel>, queueEmptyAfter: nat -> bool)
    ensures BlockCalls(n, models, queueEmptyAfter) == [] <==> forall k :: 0 <= k < n ==> !queueEmptyAfter(k)
  {
    if n > 0 {
      BlockCallsNone(n - 1, models, queueEmptyAfter);
    }
  }

  /** One run of `execute` as written: the records whose image it schedules, and every
      call it makes to `completion`. */
  datatype AsWrittenRun = AsWrittenRun(scheduled: seq<DeseaseModel>, calls: seq<Outcome>)

  /** `execute` as written. Each failure calls `completion` once, directly. On success,
      one operation is added per record in "images", and `completion` is called only
      from the completion blocks of those operations, never directly. */
  function ExecuteAsWritten(documents: Option<FileURL>, fetch: CsvFetch, parseDouble: DoubleParser,
                            queueEmptyAfter: nat -> bool): (run: AsWrittenRun)
    ensures !(documents.Some? && fetch.Parsed?) ==> run.scheduled == [] && |run.calls| == 1 && run.calls[0].Failure?
    ensures documents.Some? && fetch.Parsed? ==>
              && |run.calls| <= |run.scheduled|
              && forall k :: 0 <= k < |run.calls| ==> run.calls[k] == Success(ParseRows(fetch.rows, parseDouble))
  {
    if documents.None? then AsWrittenRun([], [Failure(DocumentDirectoryUnavailable)])
    else
      match fetch
      case DownloadFailed => AsWrittenRun([], [Failure(CsvDownloadFailed)])
      case Unreadable => AsWrittenRun([], [Failure(CsvUnreadable)])
      case Parsed(rows) =>
        var models := ParseRows(rows, parseDouble);
        var filtered := ImageRecords(models);
        AsWrittenRun(filtered, BlockCalls(|filtered|, models, queueEmptyAfter))
  }

  /** The success payload is the full parsed list: every scheduled record is in it, and
      so is every decoded row whatever its folder. */
  lemma PayloadIsFullList(documents: Option<FileURL>, rows: seq<Row>, parseDouble: DoubleParser, i: int)
    requires documents.Some? && 0 <= i < |rows| && Accepts(rows[i])
    ensures var s := Execute(documents, Parsed(rows), parseDouble);
            && MakeDeseaseModel(rows[i], parseDouble).value in s.completion.value.value
            && (MakeDeseaseModel(rows[i], parseDouble).value in s.scheduled
                <==> MakeDeseaseModel(rows[i], parseDouble).value.folder == "images")
  {
    var m := MakeDeseaseModel(rows[i], parseDouble).value;
    ParseRowsMembers(rows, parseDouble, m);
    ImageRecordsMembers(ParseRows(rows, parseDouble), m);
  }

  /** The code as written schedules the same image downloads as the corrected session. */
  lemma AsWrittenSchedulesSame(documents: Option<FileURL>, fetch: CsvFetch, parseDouble: DoubleParser,
                               queueEmptyAfter: nat -> bool)
    ensures ExecuteAsWritten(documents, fetch, parseDouble, queueEmptyAfter).scheduled
            == Execute(documents, fetch, parseDouble).scheduled
  {
  }

  /** On the failure paths the code as written calls `completion` exactly once, with the
      corrected session's failure. */
  lemma AsWrittenFailuresAgree(documents: Option<FileURL>, fetch: CsvFetch, parseDouble: DoubleParser,
                               queueEmptyAfter: nat -> bool)
    requires Execute(documents, fetch, parseDouble).completion.value.Failure?
    ensures ExecuteAsWritten(documents, fetch, parseDouble, queueEmptyAfter).calls
            == [Execute(documents, fetch, parseDouble).completion.value]
  {
  }

  /** On success, every call the code as written makes delivers the corrected session's
      payload, and there is at most one call per scheduled download. */
  lemma AsWrittenSuccessPayload(documents: Option<FileURL>, fetch: CsvFetch, parseDouble: DoubleParser,
                                queueEmptyAfter: nat -> bool)
    requires Execute(documents, fetch, parseDouble).completion.value.Success?
    ensures var run := ExecuteAsWritten(documents, fetch, parseDouble, queueEmptyAfter);
            && |run.calls| <= |run.scheduled|
            && forall k :: 0 <= k < |run.calls| ==> run.calls[k] == Execute(documents, fetch, parseDouble).completion.value
  {
  }

  /** On success, the code as written calls `completion` at all exactly when some scheduled
      download's completion block finds the queue empty. */
  lemma AsWrittenCompletesOnlyFromBlocks(documents: Option<FileURL>, rows: seq<Row>, parseDouble: DoubleParser,
                                         queueEmptyAfter: nat -> bool)
    requires documents.Some?
    ensures var run := ExecuteAsWritten(documents, Parsed(rows), parseDouble, queueEmptyAfter);
            run.calls != [] <==> exists k :: 0 <= k < |run.scheduled| && queueEmptyAfter(k)
  {
    var filtered := ImageRecords(ParseRows(rows, parseDouble));
    BlockCallsNone(|filtered|, ParseRows(rows, parseDouble), queueEmptyAfter);
  }

  /** As written, a session whose CSV yields no record in "images", an empty CSV for
      one, never calls its completion handler, however the downloads interleave. */
  lemma AsWrittenSilentWithoutImages(documents: Option<FileURL>, rows: seq<Row>, parseDouble: DoubleParser,
                                     queueEmptyAfter: nat -> bool)
    requires documents.Some?
    requires forall i :: 0 <= i < |rows| && Accepts(rows[i]) ==> MakeDeseaseModel(rows[i], parseDouble).value.folder != "images"
    ensures ExecuteAsWritten(documents, Parsed(rows), parseDouble, queueEmptyAfter).calls == []
  {
    var models := ParseRows(rows, parseDouble);
    if ImageRecords(models) != [] {
      var m := ImageRecords(models)[0];
      ImageRecordsMembers(models, m);
      ParseRowsMembers(rows, parseDouble, m);
    }
  }

  /** The smallest input that shows it: a documents directory and an empty CSV. */
  lemma AsWrittenEmptyCsvNeverCompletes(documents: FileURL, parseDouble: DoubleParser, queueEmptyAfter: nat -> bool)
    ensures ExecuteAsWritten(Some(documents), Parsed([]), parseDouble, queueEmptyAfter).calls == []
    ensures Execute(Some(documents), Parsed([]), parseDouble).completion == Some(Success([]))
  {
  }
}
