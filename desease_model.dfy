/**
 * The record schema of the COVID-19 chest X-ray metadata: the CSV column headers,
 * the closed enumerations a row is decoded into, the decoded record, and the local
 * placement rules that turn a record into the file an image is stored at.
 */
module DeseaseModels {
  import opened Wrappers

  /** The columns of the metadata CSV, with their header strings as raw values. */
  datatype DeseaseModelHeader =
    | PatientId | Offset | Sex | Age | Finding | Survival | Intubated | WentIcu
    | NeededSupplementalO2 | Extubated | Temperature | PO2Saturation | LeukocyteCount
    | NeutrophilCount | LymphocyteCount | View | Modality | Date | Location | Folder
    | Filename | Doi | Url | License | ClinicalNotes | OtherNotes
  {
    function RawValue(): string {
      match this
      case PatientId => "patientid"
      case Offset => "offset"
      case Sex => "sex"
      case Age => "age"
      case Finding => "finding"
      case Survival => "survival"
      case Intubated => "intubated"
      case WentIcu => "went_icu"
      case NeededSupplementalO2 => "needed_supplemental_O2"
      case Extubated => "extubated"
      case Temperature => "temperature"
      case PO2Saturation => "pO2_saturation"
      case LeukocyteCount => "leukocyte_count"
      case NeutrophilCount => "neutrophil_count"
      case LymphocyteCount => "lymphocyte_count"
      case View => "view"
      case Modality => "modality"
      case Date => "date"
      case Location => "location"
      case Folder => "folder"
      case Filename => "filename"
      case Doi => "doi"
      case Url => "url"
      case License => "license"
      case ClinicalNotes => "clinical_notes"
      case OtherNotes => "other_notes"
    }
  }

  /** The header strings are pairwise distinct, so a header is found by its string. */
  lemma HeaderRawValueInjective(g: DeseaseModelHeader, h: DeseaseModelHeader)
    ensures g.RawValue() == h.RawValue() ==> g == h
  {
  }

  datatype YesOrNo = Yes | No {
    function RawValue(): string {
      match this
      case Yes => "Y"
      case No => "N"
    }

    /** `YesOrNo(rawValue:)`: exactly the inverse of `RawValue`. */
    static function FromRaw(s: string): (r: Option<YesOrNo>)
      ensures r.Some? ==> r.value.RawValue() == s
      ensures r.None? ==> forall v: YesOrNo :: v.RawValue() != s
    {
      if s == "Y" then Some(Yes) else if s == "N" then Some(No) else None
    }
  }

  datatype Sex = Male | Female {
    function RawValue(): string {
      match this
      case Male => "M"
      case Female => "F"
    }

    /** `Sex(rawValue:)`: exactly the inverse of `RawValue`. */
    static function FromRaw(s: string): (r: Option<Sex>)
      ensures r.Some? ==> r.value.RawValue() == s
      ensures r.None? ==> forall v: Sex :: v.RawValue() != s
    {
      if s == "M" then Some(Male) else if s == "F" then Some(Female) else None
    }
  }

  datatype Desease = Covid19 | NoFinding | Other {
    /** The raw value, which is also the training label of the class. */
    function RawValue(): string {
      match this
      case Covid19 => "COVID-19"
      case NoFinding => "No Finding"
      case Other => "Other"
    }

    /** `Desease(findingValue:)`: a classification of the CSV's finding text, not the
        inverse of `RawValue`; two exact, case-sensitive strings pick a class and every
        other string, the empty one included, is `Other`. */
    static function Classify(findingValue: string): (d: Desease)
      ensures d == Covid19 <==> findingValue == "Pneumonia/Viral/COVID-19"
      ensures d == NoFinding <==> findingValue == "No Finding"
      ensures d == Other <==> findingValue != "Pneumonia/Viral/COVID-19" && findingValue != "No Finding"
    {
      if findingValue == "Pneumonia/Viral/COVID-19" then Covid19
      else if findingValue == "No Finding" then NoFinding
      else Other
    }
  }

  /** The classes have pairwise distinct raw values, so a label names one class. */
  lemma DeseaseRawValueInjective()
    ensures forall d: Desease, e: Desease :: d.RawValue() == e.RawValue() ==> d == e
  {
  }

  /** `Desease.allCases`, in declaration order. */
  const AllDeseases: seq<Desease> := [Covid19, NoFinding, Other]

  datatype View = Posteroanterior | Anteroposterior | ApSupine | Lateral | Axial | Coronal {
    function RawValue(): string {
      match this
      case Posteroanterior => "PA"
      case Anteroposterior => "AP"
      case ApSupine => "AP Supine"
      case Lateral => "L"
      case Axial => "Axial"
      case Coronal => "Coronal"
    }

    /** `View(rawValue:)`: exactly the inverse of `RawValue`. */
    static function FromRaw(s: string): (r: Option<View>)
      ensures r.Some? ==> r.value.RawValue() == s
      ensures r.None? ==> forall v: View :: v.RawValue() != s
    {
      if s == "PA" then Some(Posteroanterior)
      else if s == "AP" then Some(Anteroposterior)
      else if s == "AP Supine" then Some(ApSupine)
      else if s == "L" then Some(Lateral)
      else if s == "Axial" then Some(Axial)
      else if s == "Coronal" then Some(Coronal)
      else None
    }
  }

  datatype Modality = Ct | XRay {
    function RawValue(): string {
      match this
      case Ct => "CT"
      case XRay => "X-ray"
    }

    /** `Modality(rawValue:)`: exactly the inverse of `RawValue`. */
    static function FromRaw(s: string): (r: Option<Modality>)
      ensures r.Some? ==> r.value.RawValue() == s
      ensures r.None? ==> forall v: Modality :: v.RawValue() != s
    {
      if s == "CT" then Some(Ct) else if s == "X-ray" then Some(XRay) else None
    }
  }

  /** A `Double`, kept as its IEEE 754 binary64 bit pattern; nothing here computes with it. */
  type Float64 = bv64

  /** One decoded row of the metadata CSV. */
  datatype DeseaseModel = DeseaseModel(
    patientId: string,
    offset: Option<int>,
    sex: Option<Sex>,
    age: Option<int>,
    finding: Desease,
    survival: Option<YesOrNo>,
    intubated: Option<YesOrNo>,
    temperature: Option<Float64>,
    pO2Saturation: Option<Float64>,
    leukocyteCount: Option<Float64>,
    neutrophilCount: Option<Float64>,
    lymphocyteCount: Option<Float64>,
    view: View,
    modality: Modality,
    date: string,
    location: string,
    folder: string,
    filename: string,
    doi: string,
    url: string,
    license: string,
    clinicalNotes: string)

  /** A file URL, as the sequence of its path components. */
  datatype FileURL = FileURL(components: seq<string>) {
    function AppendingPathComponent(c: string): (u: FileURL)
      ensures |u.components| == |components| + 1
      ensures u.components[..|components|] == components && u.components[|components|] == c
    {
      FileURL(components + [c])
    }
  }

  /** `DeseaseModel.folder`: `<documents>/DataSet`, or nil when the documents directory
      cannot be resolved (`documents` is that resolution). */
  function DataSetFolder(documents: Option<FileURL>): (r: Option<FileURL>)
    ensures r.Some? <==> documents.Some?
    ensures r.Some? ==> r.value.components == documents.value.components + ["DataSet"]
  {
    match documents
    case None => None
    case Some(d) => Some(d.AppendingPathComponent("DataSet"))
  }

  /** `folderName(for:)`: the class's raw value, except that `Other` is stored under
      "others" while its training label is "Other". */
  function FolderName(d: Desease): (name: string)
    ensures d != Other ==> name == d.RawValue()
    ensures d == Other ==> name == "others" && name != d.RawValue()
  {
    if d == Covid19 || d == NoFinding then d.RawValue() else "others"
  }

  /** Distinct classes are stored in distinct folders. */
  lemma FolderNameInjective(d: Desease, e: Desease)
    ensures FolderName(d) == FolderName(e) ==> d == e
  {
  }

  /** `imageURL`: `<documents>/DataSet/<folderName(finding)>/<filename>`, or nil exactly
      when the documents directory cannot be resolved. */
  function ImageURL(m: DeseaseModel, documents: Option<FileURL>): (r: Option<FileURL>)
    ensures r.None? <==> documents.None?
    ensures r.Some? ==> r.value.components
                        == documents.value.components + ["DataSet", FolderName(m.finding), m.filename]
  {
    match DataSetFolder(documents)
    case None => None
    case Some(f) => Some(f.AppendingPathComponent(FolderName(m.finding)).AppendingPathComponent(m.filename))
  }
}
