/** Worked examples: the listings and inventories of the repository's unit
    tests, run through the model. Dates are seconds since the epoch, UTC. */
module Scenarios {
  import opened Wrappers
  import opened Matcher
  import opened Coordinator
  import opened Seqs
  import Retention

  const May12: int := 1620777600       // 2021-05-12
  const Jul14: int := 1626220800       // 2021-07-14
  const Aug21: int := 1629504000       // 2021-08-21
  const Sep12: int := 1631404800       // 2021-09-12
  const Sep25: int := 1632528000       // 2021-09-25
  const Oct12: int := 1633996800       // 2021-10-12

  /* The two strings whose characters the lemmas below inspect are written in
     two parts, split where those characters are: the verifier does not reach
     a character deep inside one long literal. */
  const StorageTemplate: string :=
    "Synapse S3" + " Custom Storage (https://docs.synapse.org/articles/custom_storage_location.html)"
  const Ec2Template: string := "Service Catalog: Workflows Linux EC2"
  const AssocTemplate: string := "SC action assocations to SC EC2 products"

  const QzhaName: string := "SC-465877038949-pp-qzha7mc257fbo"
  const HgcdName: string := "SC-465877038949-pp-hgcdyuiopvtxa"
  const SevenName: string := "SC-465877038949-pp-7yjimm2chq4nq"
  const AssocName: string := "sc-" + "product-assoc-ec2-linux-jumpcloud-workflows"

  /** The eight bucket names of the test inventory. */
  const AlbBucket: string := "alb-notebook-access-logsbucke-albaccesslogsbucket-1rzim5kz2nl3o"
  const CfBucket: string := "cf-templates-1povqxuabylok-us-east-1"
  const PupBucket: string := "sc-465877038949-pp-7pup2nolwsdym-s3bucket-l2va9c9yid12"
  const SevenBucket: string := "sc-465877038949-pp-7yjimm2chq4nq-s3bucket-jdyynbf6wr4b"
  const Con4Bucket: string := "sc-465877038949-pp-con4cmcptfvgm-s3bucket-fnaumo4nb3lb"
  const QzhaBucket: string := "sc-465877038949-pp-qzha7mc257fbo-s3bucket-1m9wbdmmcjukq"
  const XabBucket: string := "sc-465877038949-pp-xab7zqb7wiero-s3bucket-1rkpmtqiu83ey"
  const SynapseBucket: string := "synapse-login-scipooldev-loadbalanceraccesslogsbu-30wr5c69ynzz"

  /** The associated resources of the no-matching-buckets test: bucket names
      that the inventory does not hold. */
  const QzhaStaleBucket: string := "sc-465877038949-pp-qzha7mc257fbo-s3bucket-539wbdjmcjopf"
  const Con4StaleBucket: string := "sc-465877038949-pp-con4cmcptfvgm-s3bucket-wrtumo4n91dg"

  /** The four deleted stacks of the matcher test. */
  const QzhaStack: StackRecord :=
    StackRecord("arn:aws:cloudformation:us-east-1:465877038949:stack/SC-465877038949-pp-qzha7mc257fbo/f9566150-2090-11ec-9d2c-12b31fceab89",
                QzhaName, StorageTemplate, Some(May12))
  const HgcdStack: StackRecord :=
    StackRecord("arn:aws:cloudformation:us-east-1:465877038949:stack/SC-465877038949-pp-hgcdyuiopvtxa/65630bd0-fafa-11eb-8b9c-0e443e7db6f3",
                HgcdName, Ec2Template, Some(Jul14))
  const SevenStack: StackRecord :=
    StackRecord("arn:aws:cloudformation:us-east-1:465877038949:stack/SC-465877038949-pp-7yjimm2chq4nq/dae9af10-2090-11ec-b2d4-0a9dbbfba805",
                SevenName, StorageTemplate, Some(Sep25))
  const AssocStack: StackRecord :=
    StackRecord("arn:aws:cloudformation:us-east-1:465877038949:stack/sc-product-assoc-ec2-linux-jumpcloud-workflows/df427f90-faf9-11eb-a0df-0e508885cec5",
                AssocName, AssocTemplate, Some(Aug21))

  function Listing(): seq<StackRecord> {
    [QzhaStack, HgcdStack, SevenStack, AssocStack]
  }

  /** The resources the test reports for every stack: the bucket, then an object in it. */
  function Resources(stackId: string): seq<StackResource> {
    [ StackResource(BucketType, QzhaBucket),
      StackResource("Custom::S3Object", "s3://" + QzhaBucket + "/owner.txt") ]
  }

  /** The test inventory, in listing order. */
  function Inventory(): seq<Bucket> {
    [ Bucket(AlbBucket), Bucket(CfBucket), Bucket(PupBucket), Bucket(SevenBucket),
      Bucket(Con4Bucket), Bucket(QzhaBucket), Bucket(XabBucket), Bucket(SynapseBucket) ]
  }

  /** Over a sequence of four, `FlatMap` is the four contributions in order. */
  lemma FlatMapOfFour<T, U>(l: seq<T>, f: T -> seq<U>)
    requires |l| == 4
    ensures FlatMap(l, f) == f(l[0]) + f(l[1]) + f(l[2]) + f(l[3])
  {
    assert l[..0] == [] && l[..4] == l;
    FlatMapSnoc(l, 0, f);
    FlatMapSnoc(l, 1, f);
    FlatMapSnoc(l, 2, f);
    FlatMapSnoc(l, 3, f);
  }

  /** A stack deleted before the cutoff, named "SC-...", with "s3" or "S3" at
      position `i` of its description and a bucket first among its resources, is
      kept with that bucket. */
  lemma KeepsCandidate(r: StackRecord, cutoff: int, resourcesOf: string -> seq<StackResource>, i: int)
    requires r.deletionTime.Some? && r.deletionTime.value < cutoff
    requires |r.stackName| >= 3 && r.stackName[0] == 'S' && r.stackName[1] == 'C' && r.stackName[2] == '-'
    requires 0 <= i < |r.templateDescription| - 1 && r.templateDescription[i] == 'S' && r.templateDescription[i + 1] == '3'
    requires |resourcesOf(r.stackId)| > 0 && IsBucket(resourcesOf(r.stackId)[0])
    ensures Keep(r, cutoff, resourcesOf) == [MatchedStack(r, resourcesOf(r.stackId)[0].physicalResourceId)]
  {
    CandidateIff(r, cutoff);
    assert FirstIndex(resourcesOf(r.stackId), IsBucket) == 0;
  }

  /** A stack whose description has no '3' at all is not kept. */
  lemma DropsWithoutThree(r: StackRecord, cutoff: int, resourcesOf: string -> seq<StackResource>)
    requires forall i :: 0 <= i < |r.templateDescription| ==> r.templateDescription[i] != '3'
    ensures Keep(r, cutoff, resourcesOf) == []
  {
    CandidateIff(r, cutoff);
  }

  /** A stack deleted at or after the cutoff is not kept. */
  lemma DropsRecent(r: StackRecord, cutoff: int, resourcesOf: string -> seq<StackResource>)
    requires r.deletionTime.Some? && r.deletionTime.value >= cutoff
    ensures Keep(r, cutoff, resourcesOf) == []
  {
  }

  /** A stack whose name starts with a lower-case 's' is not kept. */
  lemma DropsLowerCaseName(r: StackRecord, cutoff: int, resourcesOf: string -> seq<StackResource>)
    requires |r.stackName| > 0 && r.stackName[0] == 's'
    ensures Keep(r, cutoff, resourcesOf) == []
  {
    if |r.stackName| >= 3 {
      assert r.stackName[..3][0] == 's';
    }
  }

  /** The first test stack's name starts with "SC-". */
  lemma QzhaNameStart()
    ensures |QzhaName| >= 3 && QzhaName[0] == 'S' && QzhaName[1] == 'C' && QzhaName[2] == '-'
  {
  }

  /** "Synapse S3 ...": the "S3" sits at positions 8 and 9. */
  lemma StorageMentionsS3()
    ensures |StorageTemplate| > 10 && StorageTemplate[8] == 'S' && StorageTemplate[9] == '3'
  {
  }

  /** "Service Catalog: Workflows Linux EC2" has no '3'. */
  lemma Ec2HasNoThree()
    ensures forall i :: 0 <= i < |Ec2Template| ==> Ec2Template[i] != '3'
  {
  }

  lemma KeepsQzha()
    ensures Keep(QzhaStack, Sep12, Resources) == [MatchedStack(QzhaStack, QzhaBucket)]
  {
    QzhaNameStart();
    StorageMentionsS3();
    KeepsCandidate(QzhaStack, Sep12, Resources, 8);
  }

  lemma DropsHgcd()
    ensures Keep(HgcdStack, Sep12, Resources) == []
  {
    Ec2HasNoThree();
    DropsWithoutThree(HgcdStack, Sep12, Resources);
  }

  lemma DropsSeven()
    ensures Keep(SevenStack, Sep12, Resources) == []
  {
    DropsRecent(SevenStack, Sep12, Resources);
  }

  lemma DropsAssoc()
    ensures Keep(AssocStack, Sep12, Resources) == []
  {
    DropsLowerCaseName(AssocStack, Sep12, Resources);
  }

  /** With a 30-day window ending on 2021-10-12 (cutoff 2021-09-12) only the
      first stack is kept: the second has no "s3" in its description, the third
      was deleted after the cutoff, the fourth is named "sc-" in lower case. */
  lemma MatcherExample()
    ensures Retention.Cutoff(Oct12, 30) == Sep12
    ensures MatchedStacks(Listing(), Sep12, Resources) == [MatchedStack(QzhaStack, QzhaBucket)]
  {
    var keep := KeepEach(Sep12, Resources);
    FlatMapOfFour(Listing(), keep);
    assert keep(QzhaStack) == Keep(QzhaStack, Sep12, Resources);
    assert keep(HgcdStack) == Keep(HgcdStack, Sep12, Resources);
    assert keep(SevenStack) == Keep(SevenStack, Sep12, Resources);
    assert keep(AssocStack) == Keep(AssocStack, Sep12, Resources);
    KeepsQzha();
    DropsHgcd();
    DropsSeven();
    DropsAssoc();
  }

  /** A name different from each of the eight in the inventory causes no delete call. */
  lemma Unlisted(name: string)
    requires name != AlbBucket && name != CfBucket && name != SynapseBucket
    requires name != PupBucket && name != SevenBucket && name != XabBucket
    requires name != Con4Bucket && name != QzhaBucket
    ensures CallsFor(name, Inventory()) == []
  {
    var inv := Inventory();
    forall j | 0 <= j < |inv|
      ensures inv[j].name != name
    {
    }
    ListedIff(inv, name);
  }

  /** A name the inventory holds at position `j`. */
  lemma ListedAt(name: string, j: int)
    requires 0 <= j < |Inventory()| && Inventory()[j].name == name
    ensures CallsFor(name, Inventory()) == [name]
  {
    ListedIff(Inventory(), name);
  }

  /** The delete calls for two stacks are the calls for the first, then for the second. */
  lemma PlanOfTwo(a: string, b: string, buckets: seq<Bucket>)
    ensures DeletePlan([a, b], buckets) == CallsFor(a, buckets) + CallsFor(b, buckets)
  {
    assert [a, b] == [a] + [b] && [b] == [b] + [];
    DeletePlanCons(a, [b], buckets);
    DeletePlanCons(b, [], buckets);
  }

  /** No matched stack at all: no delete call, whatever the inventory. */
  lemma HandlerNoStacks()
    ensures Execute(DeletePlan([], Inventory()), {}) == Execution([], Completed)
  {
  }

  /** Two matched stacks whose buckets are not in the inventory: no delete call. */
  lemma HandlerNoMatchingBuckets()
    ensures Execute(DeletePlan([QzhaStaleBucket, Con4StaleBucket], Inventory()), {}) == Execution([], Completed)
  {
    PlanOfTwo(QzhaStaleBucket, Con4StaleBucket, Inventory());
    Unlisted(QzhaStaleBucket);
    Unlisted(Con4StaleBucket);
  }

  /** Two matched stacks whose buckets are both listed: both are deleted, in order. */
  lemma HandlerMultipleBuckets()
    ensures Execute(DeletePlan([QzhaBucket, Con4Bucket], Inventory()), {})
            == Execution([QzhaBucket, Con4Bucket], Completed)
  {
    PlanOfTwo(QzhaBucket, Con4Bucket, Inventory());
    ListedAt(QzhaBucket, 5);
    ListedAt(Con4Bucket, 4);
    ExecuteSucceeding([QzhaBucket, Con4Bucket], [], {});
    assert [QzhaBucket, Con4Bucket] + [] == [QzhaBucket, Con4Bucket];
  }

  /** The same stacks when the first bucket cannot be deleted: its error ends
      the run before the second bucket is touched. */
  lemma HandlerFirstDeleteFails()
    ensures Execute(DeletePlan([QzhaBucket, Con4Bucket], Inventory()), {QzhaBucket})
            == Execution([], Aborted(QzhaBucket))
  {
    PlanOfTwo(QzhaBucket, Con4Bucket, Inventory());
    ListedAt(QzhaBucket, 5);
    ListedAt(Con4Bucket, 4);
  }
}
