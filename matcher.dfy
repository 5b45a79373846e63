/** The stack matcher: the deleted CloudFormation stacks that Service Catalog
    created to provision an S3 bucket, each resolved to the bucket it provisioned. */
module Matcher {
  import opened Wrappers
  import opened Seqs
  import opened Text
  import Retention

  const BucketType: string := "AWS::S3::Bucket"
  const StackPrefix: string := "SC-"
  const S3Marker: string := "s3"

  /** One entry of a stack's resource summaries. */
  datatype StackResource = StackResource(resourceType: string, physicalResourceId: string)

  /** The fields of a deleted-stack summary the matcher reads; `deletionTime`
      is `None` when the summary carries no `DeletionTime` key. */
  datatype StackRecord = StackRecord(
    stackId: string,
    stackName: string,
    templateDescription: string,
    deletionTime: Option<int>)

  /** A stack the matcher keeps, with the bucket it provisioned. */
  datatype MatchedStack = MatchedStack(record: StackRecord, associatedResource: string)

  /** A stack summary as the listing returns it. The matcher writes
      `associatedResource` into the very summaries it keeps. */
  class StackSummary {
    const record: StackRecord
    var associatedResource: Option<string>

    constructor (record: StackRecord)
      ensures this.record == record && associatedResource == None
    {
      this.record := record;
      associatedResource := None;
    }
  }

  function Records(stacks: seq<StackSummary>): seq<StackRecord> {
    seq(|stacks|, i requires 0 <= i < |stacks| => stacks[i].record)
  }

  predicate IsBucket(r: StackResource) {
    r.resourceType == BucketType
  }

  /** The physical id of the first bucket among `resources`, if there is one. */
  function FirstBucket(resources: seq<StackResource>): (id: Option<string>)
    ensures id.None? <==> forall i :: 0 <= i < |resources| ==> !IsBucket(resources[i])
    ensures id.Some? ==>
      exists i :: 0 <= i < |resources| && IsBucket(resources[i])
                  && resources[i].physicalResourceId == id.value
                  && forall j :: 0 <= j < i ==> !IsBucket(resources[j])
  {
    var k := FirstIndex(resources, IsBucket);
    if k < |resources| then Some(resources[k].physicalResourceId) else None
  }

  /** The four conditions a stack summary must meet to be inspected further. */
  predicate IsCandidate(r: StackRecord, cutoff: int) {
    && r.deletionTime.Some?
    && r.deletionTime.value < cutoff
    && StartsWith(r.stackName, StackPrefix)
    && Contains(Lower(r.templateDescription), S3Marker)
  }

  /** The bucket a stack resolves to: `None` for a non-candidate or for a
      candidate that provisioned no bucket. */
  function Resolve(r: StackRecord, cutoff: int, resourcesOf: string -> seq<StackResource>): Option<string> {
    if IsCandidate(r, cutoff) then FirstBucket(resourcesOf(r.stackId)) else None
  }

  /** What the matcher keeps of one listed stack: nothing, or the stack with its bucket. */
  function Keep(r: StackRecord, cutoff: int, resourcesOf: string -> seq<StackResource>): seq<MatchedStack> {
    match Resolve(r, cutoff, resourcesOf)
    case Some(id) => [MatchedStack(r, id)]
    case None => []
  }

  /** `Keep` for a fixed cutoff and resource lookup, as a function of the record. */
  function KeepEach(cutoff: int, resourcesOf: string -> seq<StackResource>): StackRecord -> seq<MatchedStack> {
    r => Keep(r, cutoff, resourcesOf)
  }

  /** What the matcher returns for `records`, in listing order. */
  function MatchedStacks(records: seq<StackRecord>, cutoff: int, resourcesOf: string -> seq<StackResource>)
    : seq<MatchedStack>
  {
    FlatMap(records, KeepEach(cutoff, resourcesOf))
  }

  /** Each listed stack is kept at most once. */
  lemma KeepsAtMostOne(records: seq<StackRecord>, cutoff: int, resourcesOf: string -> seq<StackResource>)
    ensures AtMostOneEach(records, KeepEach(cutoff, resourcesOf))
  {
    forall i | 0 <= i < |records|
      ensures |KeepEach(cutoff, resourcesOf)(records[i])| <= 1
    {
    }
  }

  /** Every returned stack meets all four conditions, and its associated
      resource is the first bucket among its resources. */
  lemma MatchedStacksSound(records: seq<StackRecord>, cutoff: int, resourcesOf: string -> seq<StackResource>)
    ensures forall m | m in MatchedStacks(records, cutoff, resourcesOf) ::
      IsCandidate(m.record, cutoff) && FirstBucket(resourcesOf(m.record.stackId)) == Some(m.associatedResource)
  {
    var result := MatchedStacks(records, cutoff, resourcesOf);
    KeepsAtMostOne(records, cutoff, resourcesOf);
    var idx := FlatMapPositions(records, KeepEach(cutoff, resourcesOf));
    forall m | m in result
      ensures IsCandidate(m.record, cutoff) && FirstBucket(resourcesOf(m.record.stackId)) == Some(m.associatedResource)
    {
      var k :| 0 <= k < |result| && result[k] == m;
      assert Keep(records[idx[k]], cutoff, resourcesOf) == [m];
    }
  }

  /** The result is exactly the stacks that resolve to a bucket, taken in order:
      `idx` gives the listing position of each returned stack; positions increase,
      so no stack is returned twice; and a position is taken exactly when that
      stack is a candidate with a bucket resource. */
  lemma MatchedStacksPositions(records: seq<StackRecord>, cutoff: int, resourcesOf: string -> seq<StackResource>)
    returns (idx: seq<int>)
    ensures |idx| == |MatchedStacks(records, cutoff, resourcesOf)|
    ensures IsIncreasing(idx, |records|)
    ensures forall k :: 0 <= k < |idx| ==>
      MatchedStacks(records, cutoff, resourcesOf)[k].record == records[idx[k]]
    ensures forall i :: 0 <= i < |records| ==>
      (i in idx <==> Resolve(records[i], cutoff, resourcesOf).Some?)
  {
    var result := MatchedStacks(records, cutoff, resourcesOf);
    KeepsAtMostOne(records, cutoff, resourcesOf);
    idx := FlatMapPositions(records, KeepEach(cutoff, resourcesOf));
    forall k | 0 <= k < |idx|
      ensures result[k].record == records[idx[k]]
    {
      assert Keep(records[idx[k]], cutoff, resourcesOf) == [result[k]];
    }
    forall i | 0 <= i < |records|
      ensures i in idx <==> Resolve(records[i], cutoff, resourcesOf).Some?
    {
      assert KeepEach(cutoff, resourcesOf)(records[i]) == Keep(records[i], cutoff, resourcesOf);
    }
  }

  /** Listing one more stack appends what the matcher keeps of it. */
  lemma MatchedStacksSnoc(records: seq<StackRecord>, i: int, cutoff: int, resourcesOf: string -> seq<StackResource>)
    requires 0 <= i < |records|
    ensures MatchedStacks(records[..i + 1], cutoff, resourcesOf)
            == MatchedStacks(records[..i], cutoff, resourcesOf) + Keep(records[i], cutoff, resourcesOf)
  {
    FlatMapSnoc(records, i, KeepEach(cutoff, resourcesOf));
  }

  /** A listing with no candidate at all yields nothing; in particular the
      empty listing does. */
  lemma NoCandidateNoMatch(records: seq<StackRecord>, cutoff: int, resourcesOf: string -> seq<StackResource>)
    requires forall i :: 0 <= i < |records| ==> !IsCandidate(records[i], cutoff)
    ensures MatchedStacks(records, cutoff, resourcesOf) == []
  {
    forall i | 0 <= i < |records|
      ensures KeepEach(cutoff, resourcesOf)(records[i]) == []
    {
    }
    FlatMapNone(records, KeepEach(cutoff, resourcesOf));
  }

  /** The candidacy test in plain terms: a deletion time strictly before the
      cutoff (a stack deleted exactly at the cutoff is not a candidate), a name
      beginning with the three characters "SC-", and an "s3" or "S3" somewhere
      in the template description. */
  lemma CandidateIff(r: StackRecord, cutoff: int)
    ensures IsCandidate(r, cutoff) <==>
      && r.deletionTime.Some? && r.deletionTime.value < cutoff
      && |r.stackName| >= 3 && r.stackName[0] == 'S' && r.stackName[1] == 'C' && r.stackName[2] == '-'
      && exists i :: 0 <= i < |r.templateDescription| - 1
                     && (r.templateDescription[i] == 's' || r.templateDescription[i] == 'S')
                     && r.templateDescription[i + 1] == '3'
  {
    LowerContainsS3(r.templateDescription);
    if |r.stackName| >= 3 {
      assert r.stackName[..3] == StackPrefix <==>
        (r.stackName[0] == 'S' && r.stackName[1] == 'C' && r.stackName[2] == '-');
    }
  }

  /** `objs` are summaries taken from `universe` that carry, one for one, the
      records and associated resources of `m`. */
  ghost predicate Matches(objs: seq<StackSummary>, universe: seq<StackSummary>, m: seq<MatchedStack>)
    reads objs
  {
    && |objs| == |m|
    && forall k :: 0 <= k < |m| ==>
         && objs[k] in universe
         && objs[k].record == m[k].record
         && objs[k].associatedResource == Some(m[k].associatedResource)
  }

  /** The inner loop of `_get_deleted_stacks`: scans the resources in order and
      writes the physical id of the first bucket into the summary. */
  method AttachFirstBucket(stackSummary: StackSummary, stackResources: seq<StackResource>) returns (found: bool)
    modifies stackSummary
    ensures found == FirstBucket(stackResources).Some?
    ensures stackSummary.associatedResource == if found then FirstBucket(stackResources) else old(stackSummary.associatedResource)
  {
    found := false;
    var j := 0;
    while j < |stackResources|
      invariant 0 <= j <= |stackResources|
      invariant forall jj :: 0 <= jj < j ==> !IsBucket(stackResources[jj])
      invariant stackSummary.associatedResource == old(stackSummary.associatedResource)
    {
      if stackResources[j].resourceType == BucketType {
        assert FirstIndex(stackResources, IsBucket) == j;
        stackSummary.associatedResource := Some(stackResources[j].physicalResourceId);
        found := true;
        return;
      }
      j := j + 1;
    }
  }

  /** One pass of the outer loop of `_get_deleted_stacks`: tests the four
      conditions and, for a candidate, looks for its first bucket. The summary is
      appended to the stacks kept so far exactly when it resolves to a bucket,
      and only then is its associated resource written; so the kept stacks go on
      carrying what the matcher keeps of the listing so far, `before`, followed by
      what it keeps of this summary. */
  method ConsiderStack(stackSummary: StackSummary, purgeDate: int, resourcesOf: string -> seq<StackResource>,
                       scStacks: seq<StackSummary>, ghost universe: seq<StackSummary>, ghost before: seq<MatchedStack>)
    returns (kept: seq<StackSummary>)
    requires stackSummary in universe
    requires Matches(scStacks, universe, before)
    requires forall m | m in before :: FirstBucket(resourcesOf(m.record.stackId)) == Some(m.associatedResource)
    modifies stackSummary
    ensures Matches(kept, universe, before + Keep(stackSummary.record, purgeDate, resourcesOf))
    ensures kept == scStacks || kept == scStacks + [stackSummary]
    ensures kept == scStacks ==> stackSummary.associatedResource == old(stackSummary.associatedResource)
  {
    kept := scStacks;
    var r := stackSummary.record;
    if && r.deletionTime.Some?
       && r.deletionTime.value < purgeDate
       && StartsWith(r.stackName, StackPrefix)
       && Contains(Lower(r.templateDescription), S3Marker)
    {
      var stackResources := resourcesOf(r.stackId);
      var found := AttachFirstBucket(stackSummary, stackResources);
      if found {
        forall k | 0 <= k < |scStacks|
          ensures scStacks[k].associatedResource == Some(before[k].associatedResource)
        {
          if scStacks[k] == stackSummary {
            assert before[k] in before;
          }
        }
        kept := kept + [stackSummary];
      }
    }
  }

  /** `_get_deleted_stacks`: clamps the day count, computes the purge date, keeps
      every listed summary that is a candidate and has a bucket resource, writing
      that first bucket's physical id into the summary itself. `idx` gives the
      listing position of each returned summary; positions increase, so the
      result keeps listing order and returns no summary twice. Summaries it does
      not keep are left as they were. */
  method GetDeletedStacks(now: int, daysFromDeletion: int, stackSummaries: seq<StackSummary>,
                          resourcesOf: string -> seq<StackResource>)
    returns (scStacks: seq<StackSummary>, ghost idx: seq<int>)
    modifies stackSummaries
    ensures Matches(scStacks, stackSummaries,
                    MatchedStacks(Records(stackSummaries), Retention.Cutoff(now, daysFromDeletion), resourcesOf))
    ensures |idx| == |scStacks| && IsIncreasing(idx, |stackSummaries|)
    ensures forall k :: 0 <= k < |scStacks| ==> scStacks[k] == stackSummaries[idx[k]]
    ensures forall s :: s in stackSummaries && s !in scStacks ==>
      s.associatedResource == old(s.associatedResource)
  {
    var days := daysFromDeletion;
    if days >= Retention.MaxDaysFromDeletion {
      days := Retention.MaxDaysFromDeletion;
    }
    var purgeDate := Retention.PurgeDate(now, days);
    ghost var records := Records(stackSummaries);

    scStacks := [];
    idx := [];
    var i := 0;
    while i < |stackSummaries|
      invariant 0 <= i <= |stackSummaries|
      invariant Matches(scStacks, stackSummaries, MatchedStacks(records[..i], purgeDate, resourcesOf))
      invariant |idx| == |scStacks| && IsIncreasing(idx, i)
      invariant forall k :: 0 <= k < |scStacks| ==> scStacks[k] == stackSummaries[idx[k]]
      invariant forall s :: s in stackSummaries && s !in scStacks ==>
        s.associatedResource == old(s.associatedResource)
    {
      var stackSummary := stackSummaries[i];
      ghost var before := MatchedStacks(records[..i], purgeDate, resourcesOf);
      MatchedStacksSnoc(records, i, purgeDate, resourcesOf);
      MatchedStacksSound(records[..i], purgeDate, resourcesOf);
      ghost var prev := scStacks;
      scStacks := ConsiderStack(stackSummary, purgeDate, resourcesOf, scStacks, stackSummaries, before);
      idx := SelectExtend(stackSummaries, i, prev, scStacks, idx);
      i := i + 1;
    }
    assert records[..i] == records;
  }
}
