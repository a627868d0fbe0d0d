/**
 * The labelled training set the image classifier is built from: the records are
 * split into one group per class, and each group becomes the list of its records'
 * local image files, keyed by the class's training label.
 */
module DataModelCreator {
  import opened Wrappers
  import opened DeseaseModels
  import opened Collections

  /** The test that picks the records of class `d`. */
  function HasFinding(d: Desease): DeseaseModel -> bool {
    (m: DeseaseModel) => m.finding == d
  }

  /** `models.filter { $0.finding == desease }` */
  function WithFinding(models: seq<DeseaseModel>, d: Desease): (group: seq<DeseaseModel>)
    ensures |group| <= |models|
    ensures forall k :: 0 <= k < |group| ==> group[k].finding == d
  {
    var group := Filter(models, HasFinding(d));
    assert forall k :: 0 <= k < |group| ==> HasFinding(d)(group[k]);
    group
  }

  /** The image file of a record, under the given documents directory. */
  function LocalImage(documents: Option<FileURL>): DeseaseModel -> Option<FileURL> {
    (m: DeseaseModel) => ImageURL(m, documents)
  }

  /** `group.compactMap { $0.imageURL }` */
  function ImageURLs(group: seq<DeseaseModel>, documents: Option<FileURL>): (urls: seq<FileURL>)
    ensures |urls| <= |group|
  {
    CompactMap(group, LocalImage(documents))
  }

  /** Every record has an image file once the documents directory is known, and none
      has one otherwise: the list holds one file per record, in order, or nothing. */
  lemma LocalImages(group: seq<DeseaseModel>, documents: Option<FileURL>)
    ensures documents.None? ==> ImageURLs(group, documents) == []
    ensures documents.Some? ==> |ImageURLs(group, documents)| == |group|
    ensures documents.Some? ==> forall k :: 0 <= k < |group| ==>
              Some(ImageURLs(group, documents)[k]) == ImageURL(group[k], documents)
  {
    if documents.None? {
      CompactMapNone(group, LocalImage(documents));
    } else {
      assert forall i :: 0 <= i < |group| ==> LocalImage(documents)(group[i]).Some?;
      CompactMapTotal(group, LocalImage(documents));
    }
  }

  /**
   * The grouping loops of `DataModelCreator.init(models:to:pretrainedModelURL:)`: one
   * group per class, filled by filtering the records, then one list of image files
   * per group, keyed by the class's raw value. `documents` is the resolution of the
   * documents directory that every `imageURL` depends on.
   */
  method GroupModels(models: seq<DeseaseModel>, documents: Option<FileURL>)
    returns (groupedDeseases: map<Desease, seq<DeseaseModel>>, groupedImageURLs: map<string, seq<FileURL>>)
    ensures forall d: Desease :: d in groupedDeseases && groupedDeseases[d] == WithFinding(models, d)
    ensures forall k :: k in groupedImageURLs <==> k == "COVID-19" || k == "No Finding" || k == "Other"
    ensures forall d: Desease :: d.RawValue() in groupedImageURLs
              && groupedImageURLs[d.RawValue()] == ImageURLs(WithFinding(models, d), documents)
  {
    groupedDeseases := GroupByFinding(models);
    groupedImageURLs := ImageURLsByLabel(groupedDeseases, (group: seq<DeseaseModel>) => ImageURLs(group, documents));
  }

  /** The first loop: the group of every class, in `Desease.allCases` order. */
  method GroupByFinding(models: seq<DeseaseModel>) returns (groupedDeseases: map<Desease, seq<DeseaseModel>>)
    ensures forall d: Desease :: d in groupedDeseases && groupedDeseases[d] == WithFinding(models, d)
  {
    groupedDeseases := map[];
    for i := 0 to |AllDeseases|
      invariant forall d :: d in groupedDeseases <==> CaseIndex(d) < i
      invariant forall d :: d in groupedDeseases ==> groupedDeseases[d] == WithFinding(models, d)
    {
      var desease := AllDeseases[i];
      groupedDeseases := groupedDeseases[desease := WithFinding(models, desease)];
    }
  }

  /** The second loop: for each group, in whatever order the dictionary yields them,
      the image files of its records, `urlsOf(group)`, under the class's raw value. */
  method ImageURLsByLabel(groupedDeseases: map<Desease, seq<DeseaseModel>>, urlsOf: seq<DeseaseModel> -> seq<FileURL>)
    returns (groupedImageURLs: map<string, seq<FileURL>>)
    requires forall d: Desease :: d in groupedDeseases
    ensures forall k :: k in groupedImageURLs <==> k == "COVID-19" || k == "No Finding" || k == "Other"
    ensures forall d: Desease :: d.RawValue() in groupedImageURLs
              && groupedImageURLs[d.RawValue()] == urlsOf(groupedDeseases[d])
  {
    DeseaseRawValueInjective();
    groupedImageURLs := map[];
    var remaining := groupedDeseases.Keys;
    while remaining != {}
      invariant forall k :: k in groupedImageURLs ==> k == "COVID-19" || k == "No Finding" || k == "Other"
      invariant forall d: Desease :: d !in remaining ==>
                  d.RawValue() in groupedImageURLs && groupedImageURLs[d.RawValue()] == urlsOf(groupedDeseases[d])
      decreases |remaining|
    {
      var key :| key in remaining;
      groupedImageURLs := groupedImageURLs[key.RawValue() := urlsOf(groupedDeseases[key])];
      remaining := remaining - {key};
    }
    assert Covid19.RawValue() in groupedImageURLs && NoFinding.RawValue() in groupedImageURLs;
    assert Other.RawValue() in groupedImageURLs;
  }

  /** The position of a class in `Desease.allCases`. */
  function CaseIndex(d: Desease): (i: nat)
    ensures i < |AllDeseases| && AllDeseases[i] == d
  {
    match d
    case Covid19 => 0
    case NoFinding => 1
    case Other => 2
  }

  /** A record is in the group of class `d` exactly when it is one of the records and its
      finding is `d`. */
  lemma WithFindingMembers(models: seq<DeseaseModel>, d: Desease, m: DeseaseModel)
    ensures m in WithFinding(models, d) <==> m in models && m.finding == d
  {
    FilterMembers(models, HasFinding(d), m);
  }

  /** Filtering keeps the order of the records: the group of a concatenation is the
      concatenation of the groups. */
  lemma WithFindingAppend(a: seq<DeseaseModel>, b: seq<DeseaseModel>, d: Desease)
    ensures WithFinding(a + b, d) == WithFinding(a, d) + WithFinding(b, d)
  {
    FilterAppend(a, b, HasFinding(d));
  }

  /** The three groups partition the records: together they hold every record exactly
      as often as the input does. */
  lemma GroupsPartition(models: seq<DeseaseModel>)
    ensures multiset(WithFinding(models, Covid19)) + multiset(WithFinding(models, NoFinding))
            + multiset(WithFinding(models, Other)) == multiset(models)
  {
    var whole := multiset(WithFinding(models, Covid19)) + multiset(WithFinding(models, NoFinding))
                 + multiset(WithFinding(models, Other));
    forall m
      ensures whole[m] == multiset(models)[m]
    {
      GroupCount(models, Covid19, m);
      GroupCount(models, NoFinding, m);
      GroupCount(models, Other, m);
    }
  }

  /** A record occurs in the group of its finding as often as among all records, and
      never in another group. */
  lemma GroupCount(models: seq<DeseaseModel>, d: Desease, m: DeseaseModel)
    ensures multiset(WithFinding(models, d))[m] == if m.finding == d then multiset(models)[m] else 0
  {
    FilterCount(models, HasFinding(d), m);
  }

  /** The group sizes add up to the number of records. */
  lemma GroupSizesSum(models: seq<DeseaseModel>)
    ensures |WithFinding(models, Covid19)| + |WithFinding(models, NoFinding)|
            + |WithFinding(models, Other)| == |models|
  {
    GroupsPartition(models);
    assert |multiset(models)| == |models|;
  }

  /** Every record is in the group of its own finding and in no other group. */
  lemma ExactlyOneGroup(models: seq<DeseaseModel>, m: DeseaseModel, d: Desease)
    requires m in models
    ensures m in WithFinding(models, d) <==> d == m.finding
  {
    WithFindingMembers(models, d, m);
  }

  /** The training label of a class is its raw value; its images live under the same
      name except for `Other`, labelled "Other" but stored under "others". */
  lemma LabelAndFolder(d: Desease)
    ensures FolderName(d) == d.RawValue() <==> d != Other
    ensures d == Other ==> d.RawValue() == "Other" && FolderName(d) == "others"
  {
  }
}
