/** The deletion coordinator (`lambda_handler`): joins the matched stacks against
    the bucket inventory and deletes each bucket a matched stack provisioned,
    stopping the whole run at the first deletion that fails. */
module Coordinator {
  import opened Wrappers
  import opened Seqs
  import opened Matcher
  import Retention

  /** An entry of the bucket listing; only its name is read. */
  datatype Bucket = Bucket(name: string)

  /** How a run ends: every planned deletion done, or the deletion of `bucket`
      failed and its error ended the run. */
  datatype Outcome = Completed | Aborted(bucket: string)

  /** Some listed bucket is named `name`: a scan of the listing from its start. */
  predicate Listed(buckets: seq<Bucket>, name: string)
    decreases |buckets|
  {
    buckets != [] && (buckets[0].name == name || Listed(buckets[1..], name))
  }

  /** The scan finds `name` exactly when some entry carries it. */
  lemma {:induction false} ListedIff(buckets: seq<Bucket>, name: string)
    ensures Listed(buckets, name) <==> exists j :: 0 <= j < |buckets| && buckets[j].name == name
    decreases |buckets|
  {
    if buckets != [] {
      ListedIff(buckets[1..], name);
      if exists j :: 0 <= j < |buckets| && buckets[j].name == name {
        var j :| 0 <= j < |buckets| && buckets[j].name == name;
        if j > 0 {
          assert buckets[1..][j - 1].name == name;
        }
      }
    }
  }

  /** The inventory left once the buckets named in `gone` are removed. */
  function Without(buckets: seq<Bucket>, gone: seq<string>): seq<Bucket>
    decreases |buckets|
  {
    if buckets == [] then []
    else
      var last := buckets[|buckets| - 1];
      Without(buckets[..|buckets| - 1], gone) + if last.name in gone then [] else [last]
  }

  /** A bucket survives the removal exactly when it was there and is not named in `gone`. */
  lemma {:induction false} WithoutMembers(buckets: seq<Bucket>, gone: seq<string>)
    ensures forall b :: b in Without(buckets, gone) <==> b in buckets && b.name !in gone
    decreases |buckets|
  {
    if buckets != [] {
      var n := |buckets| - 1;
      WithoutMembers(buckets[..n], gone);
      assert buckets == buckets[..n] + [buckets[n]];
    }
  }

  /** Removing `gone` and then `more` is removing both at once. */
  lemma {:induction false} WithoutWithout(buckets: seq<Bucket>, gone: seq<string>, more: seq<string>)
    ensures Without(Without(buckets, gone), more) == Without(buckets, gone + more)
    decreases |buckets|
  {
    if buckets != [] {
      var n := |buckets| - 1;
      var last := buckets[n];
      WithoutWithout(buckets[..n], gone, more);
      var front := Without(buckets[..n], gone);
      var tail := if last.name in gone then [] else [last];
      var w := front + tail;
      assert Without(buckets, gone) == w;
      if tail == [] {
        assert w == front;
      } else {
        assert w[..|w| - 1] == front;
      }
    }
  }

  /** Removing no name leaves the inventory as it was. */
  lemma {:induction false} WithoutNothing(buckets: seq<Bucket>)
    ensures Without(buckets, []) == buckets
    decreases |buckets|
  {
    if buckets != [] {
      var n := |buckets| - 1;
      WithoutNothing(buckets[..n]);
      assert buckets == buckets[..n] + [buckets[n]];
    }
  }

  /** The delete calls one matched stack causes: a scan of the inventory that
      stops at the first bucket named `resource`, if any. */
  function CallsFor(resource: string, buckets: seq<Bucket>): seq<string> {
    if Listed(buckets, resource) then [resource] else []
  }

  /** `CallsFor` for a fixed inventory, as a function of the resource. */
  function CallsOf(buckets: seq<Bucket>): string -> seq<string> {
    resource => CallsFor(resource, buckets)
  }

  /** The bucket names delete is called with when no deletion fails: for each
      associated resource in order, one call when the inventory has a bucket of
      that name, none otherwise. */
  function DeletePlan(resources: seq<string>, buckets: seq<Bucket>): seq<string> {
    FlatMap(resources, CallsOf(buckets))
  }

  /** Each matched stack causes at most one call. */
  lemma CallsAtMostOne(resources: seq<string>, buckets: seq<Bucket>)
    ensures AtMostOneEach(resources, CallsOf(buckets))
  {
    forall i | 0 <= i < |resources|
      ensures |CallsOf(buckets)(resources[i])| <= 1
    {
    }
  }

  /** The plan is exactly the resources that name an existing bucket, in order:
      `idx` gives the matched stack behind each delete call; positions increase,
      so each matched stack causes at most one call; and a stack causes a call
      exactly when its resource names a listed bucket. */
  lemma DeletePlanPositions(resources: seq<string>, buckets: seq<Bucket>)
    returns (idx: seq<int>)
    ensures |idx| == |DeletePlan(resources, buckets)|
    ensures IsIncreasing(idx, |resources|)
    ensures forall k :: 0 <= k < |idx| ==> DeletePlan(resources, buckets)[k] == resources[idx[k]]
    ensures forall i :: 0 <= i < |resources| ==> (i in idx <==> Listed(buckets, resources[i]))
  {
    var plan := DeletePlan(resources, buckets);
    CallsAtMostOne(resources, buckets);
    idx := FlatMapPositions(resources, CallsOf(buckets));
    forall k | 0 <= k < |idx|
      ensures plan[k] == resources[idx[k]]
    {
      assert CallsFor(resources[idx[k]], buckets) == [plan[k]];
    }
    forall i | 0 <= i < |resources|
      ensures i in idx <==> Listed(buckets, resources[i])
    {
      assert CallsOf(buckets)(resources[i]) == CallsFor(resources[i], buckets);
    }
  }

  /** A bucket name is deleted exactly when some matched stack has it as its
      associated resource and the inventory lists it. */
  lemma DeletePlanMembers(resources: seq<string>, buckets: seq<Bucket>, name: string)
    ensures name in DeletePlan(resources, buckets) <==> name in resources && Listed(buckets, name)
  {
    var plan := DeletePlan(resources, buckets);
    var idx := DeletePlanPositions(resources, buckets);
    if name in plan {
      var k :| 0 <= k < |plan| && plan[k] == name;
      assert idx[k] in idx;
    }
    if name in resources && Listed(buckets, name) {
      var i :| 0 <= i < |resources| && resources[i] == name;
      var k :| 0 <= k < |idx| && idx[k] == i;
      assert plan[k] == name;
    }
  }

  /** When no associated resource names a listed bucket (in particular when no
      stack matched at all) no delete is issued. */
  lemma NoMatchNoDelete(resources: seq<string>, buckets: seq<Bucket>)
    requires forall i :: 0 <= i < |resources| ==> !Listed(buckets, resources[i])
    ensures DeletePlan(resources, buckets) == []
  {
    forall i | 0 <= i < |resources|
      ensures CallsOf(buckets)(resources[i]) == []
    {
    }
    FlatMapNone(resources, CallsOf(buckets));
  }

  /** One more matched stack appends its calls. */
  lemma DeletePlanSnoc(resources: seq<string>, i: int, buckets: seq<Bucket>)
    requires 0 <= i < |resources|
    ensures DeletePlan(resources[..i + 1], buckets) == DeletePlan(resources[..i], buckets) + CallsFor(resources[i], buckets)
  {
    FlatMapSnoc(resources, i, CallsOf(buckets));
  }

  /** Handling the first stack and then the rest issues the calls for the first
      stack followed by the calls for the rest. */
  lemma DeletePlanCons(resource: string, rest: seq<string>, buckets: seq<Bucket>)
    ensures DeletePlan([resource] + rest, buckets) == CallsFor(resource, buckets) + DeletePlan(rest, buckets)
  {
    FlatMapCons(resource, rest, CallsOf(buckets));
  }

  /** Running the cleanup a second time, against the inventory a complete first
      run left behind, deletes nothing. */
  lemma SecondRunDeletesNothing(resources: seq<string>, buckets: seq<Bucket>)
    ensures DeletePlan(resources, Without(buckets, DeletePlan(resources, buckets))) == []
  {
    var plan := DeletePlan(resources, buckets);
    var left := Without(buckets, plan);
    WithoutMembers(buckets, plan);
    forall i | 0 <= i < |resources|
      ensures !Listed(left, resources[i])
    {
      DeletePlanMembers(resources, buckets, resources[i]);
      ListedIff(buckets, resources[i]);
      forall j | 0 <= j < |left|
        ensures left[j].name != resources[i]
      {
        assert left[j] in left;
      }
      ListedIff(left, resources[i]);
    }
    NoMatchNoDelete(resources, left);
  }

  /** The position in `plan` of the first bucket whose deletion fails; `|plan|`
      when every deletion succeeds. Deletions before it were all carried out. */
  function FailurePoint(plan: seq<string>, undeletable: set<string>): (k: nat)
    ensures k <= |plan|
    ensures forall j :: 0 <= j < k ==> plan[j] !in undeletable
    ensures k < |plan| ==> plan[k] in undeletable
  {
    FirstIndex(plan, name => name in undeletable)
  }

  /** How a run with delete calls `plan` goes: the calls are made in order until
      one fails. */
  datatype Execution = Execution(deleted: seq<string>, outcome: Outcome)

  function Execute(plan: seq<string>, undeletable: set<string>): Execution
    decreases |plan|
  {
    if plan == [] then Execution([], Completed)
    else if plan[0] in undeletable then Execution([], Aborted(plan[0]))
    else
      var rest := Execute(plan[1..], undeletable);
      Execution([plan[0]] + rest.deleted, rest.outcome)
  }

  /** Calls that all succeed are carried out, and the run goes on with what follows them. */
  lemma {:induction false} ExecuteSucceeding(done: seq<string>, next: seq<string>, undeletable: set<string>)
    requires forall j :: 0 <= j < |done| ==> done[j] !in undeletable
    ensures Execute(done + next, undeletable).deleted == done + Execute(next, undeletable).deleted
    ensures Execute(done + next, undeletable).outcome == Execute(next, undeletable).outcome
    decreases |done|
  {
    if done == [] {
      assert done + next == next;
    } else {
      var plan := done + next;
      var tail := done[1..];
      assert plan[0] == done[0] && plan[0] !in undeletable;
      assert plan[1..] == tail + next;
      var rest := Execute(tail + next, undeletable);
      assert Execute(plan, undeletable) == Execution([done[0]] + rest.deleted, rest.outcome);
      assert forall j :: 0 <= j < |tail| ==> tail[j] == done[j + 1];
      ExecuteSucceeding(tail, next, undeletable);
      assert [done[0]] + (tail + Execute(next, undeletable).deleted) == done + Execute(next, undeletable).deleted;
    }
  }

  /** A run carries out exactly the calls before the first failing one and ends
      with that failure, or carries out the whole plan and completes. */
  lemma {:induction false} ExecuteStopsAtFirstFailure(plan: seq<string>, undeletable: set<string>)
    ensures var k := FailurePoint(plan, undeletable);
      && Execute(plan, undeletable).deleted == plan[..k]
      && Execute(plan, undeletable).outcome == if k < |plan| then Aborted(plan[k]) else Completed
    decreases |plan|
  {
    if plan != [] && plan[0] !in undeletable {
      var k := FailurePoint(plan, undeletable);
      var k' := FailurePoint(plan[1..], undeletable);
      ExecuteStopsAtFirstFailure(plan[1..], undeletable);
      assert k == 1 + k' by {
        forall j | 1 <= j < k' + 1
          ensures plan[j] !in undeletable
        {
          assert plan[j] == plan[1..][j - 1];
        }
        if k' < |plan[1..]| {
          assert plan[k' + 1] == plan[1..][k'];
        }
      }
      assert plan[..k] == [plan[0]] + plan[1..][..k'];
    }
  }

  /** The S3 side of the account: the live bucket inventory and the record of
      the deletions carried out so far. A delete fails, raising an error, for
      the buckets in `undeletable` (a versioned bucket, say). */
  class S3 {
    var buckets: seq<Bucket>
    var deleted: seq<string>
    const undeletable: set<string>
    /** The inventory before any deletion. */
    ghost const inventory: seq<Bucket>

    /** The live inventory is the original one without the buckets deleted so far. */
    ghost predicate Valid()
      reads this
    {
      buckets == Without(inventory, deleted)
    }

    constructor (buckets: seq<Bucket>, undeletable: set<string>)
      ensures Valid()
      ensures this.buckets == buckets && deleted == [] && this.undeletable == undeletable
    {
      this.buckets := buckets;
      deleted := [];
      this.undeletable := undeletable;
      inventory := buckets;
      new;
      WithoutNothing(buckets);
    }

    /** `_get_buckets`. */
    method ListBuckets() returns (listing: seq<Bucket>)
      ensures listing == buckets
    {
      listing := buckets;
    }

    /** `_delete_bucket`: empties and removes the bucket, or fails and changes nothing. */
    method DeleteBucket(name: string) returns (ok: bool)
      requires Valid()
      modifies this
      ensures Valid()
      ensures ok == (name !in undeletable)
      ensures buckets == if ok then Without(old(buckets), [name]) else old(buckets)
      ensures deleted == if ok then old(deleted) + [name] else old(deleted)
    {
      ok := name !in undeletable;
      if ok {
        WithoutWithout(inventory, deleted, [name]);
        buckets := Without(buckets, [name]);
        deleted := deleted + [name];
      }
    }
  }

  /** The associated resources of the matched stacks, in order. */
  function AssociatedNames(matched: seq<MatchedStack>): seq<string> {
    seq(|matched|, k requires 0 <= k < |matched| => matched[k].associatedResource)
  }

  /** The `AssociatedResource` entries of stack summaries that all carry one. */
  ghost function AssociatedResources(stacks: seq<StackSummary>): (names: seq<string>)
    reads stacks
    requires forall k :: 0 <= k < |stacks| ==> stacks[k].associatedResource.Some?
    ensures |names| == |stacks|
    decreases |stacks|
  {
    if stacks == [] then []
    else AssociatedResources(stacks[..|stacks| - 1]) + [stacks[|stacks| - 1].associatedResource.value]
  }

  lemma {:induction false} MatchesAssociated(objs: seq<StackSummary>, universe: seq<StackSummary>,
                                            matched: seq<MatchedStack>)
    requires Matches(objs, universe, matched)
    ensures forall k :: 0 <= k < |objs| ==> objs[k].associatedResource.Some?
    ensures AssociatedResources(objs) == AssociatedNames(matched)
    decreases |objs|
  {
    if objs != [] {
      var n := |objs| - 1;
      assert Matches(objs[..n], universe, matched[..n]);
      MatchesAssociated(objs[..n], universe, matched[..n]);
    }
  }

  /** The inner loop of `lambda_handler` for one matched stack: the first listed
      bucket named `resource` is deleted and the scan stops; `ok` is false when
      that deletion failed. */
  method DeleteMatching(resource: string, buckets: seq<Bucket>, s3: S3) returns (ok: bool)
    requires s3.Valid()
    modifies s3
    ensures s3.Valid()
    ensures ok == (!Listed(buckets, resource) || resource !in s3.undeletable)
    ensures s3.deleted == if ok then old(s3.deleted) + CallsFor(resource, buckets) else old(s3.deleted)
  {
    ok := true;
    assert buckets[0..] == buckets;
    var j := 0;
    while j < |buckets|
      invariant 0 <= j <= |buckets|
      invariant Listed(buckets, resource) == Listed(buckets[j..], resource)
      invariant s3.deleted == old(s3.deleted) && s3.Valid()
    {
      if resource == buckets[j].name {
        ok := s3.DeleteBucket(buckets[j].name);
        return;
      }
      assert buckets[j..][1..] == buckets[j + 1..];
      j := j + 1;
    }
  }

  /** No stack before position `i` has a listed bucket that cannot be deleted. */
  ghost predicate NoFailureBefore(resources: seq<string>, i: int, buckets: seq<Bucket>, undeletable: set<string>)
    requires 0 <= i <= |resources|
  {
    forall j :: 0 <= j < i ==> !(Listed(buckets, resources[j]) && resources[j] in undeletable)
  }

  /** When no stack before `i` fails, no delete call planned for them fails. */
  lemma PlanAvoidsFailures(resources: seq<string>, i: int, buckets: seq<Bucket>, undeletable: set<string>)
    requires 0 <= i <= |resources|
    requires NoFailureBefore(resources, i, buckets, undeletable)
    ensures forall k :: 0 <= k < |DeletePlan(resources[..i], buckets)| ==>
      DeletePlan(resources[..i], buckets)[k] !in undeletable
  {
    var done := DeletePlan(resources[..i], buckets);
    forall k | 0 <= k < |done|
      ensures done[k] !in undeletable
    {
      DeletePlanMembers(resources[..i], buckets, done[k]);
      var j :| 0 <= j < i && resources[..i][j] == done[k];
      assert resources[j] == done[k];
    }
  }

  /** A run in which no stack fails carries out the whole plan and completes. */
  lemma RunCompletes(resources: seq<string>, buckets: seq<Bucket>, undeletable: set<string>)
    requires NoFailureBefore(resources, |resources|, buckets, undeletable)
    ensures Execute(DeletePlan(resources, buckets), undeletable)
            == Execution(DeletePlan(resources, buckets), Completed)
  {
    assert resources[..|resources|] == resources;
    PlanAvoidsFailures(resources, |resources|, buckets, undeletable);
    var plan := DeletePlan(resources, buckets);
    ExecuteSucceeding(plan, [], undeletable);
    assert plan + [] == plan;
  }

  /** A run whose first failing stack is `i` carries out the calls of the
      stacks before it and ends with the failure of stack `i`'s bucket. */
  lemma RunAbortsAt(resources: seq<string>, i: int, buckets: seq<Bucket>, undeletable: set<string>)
    requires 0 <= i < |resources|
    requires NoFailureBefore(resources, i, buckets, undeletable)
    requires Listed(buckets, resources[i]) && resources[i] in undeletable
    ensures Execute(DeletePlan(resources, buckets), undeletable)
            == Execution(DeletePlan(resources[..i], buckets), Aborted(resources[i]))
  {
    var done := DeletePlan(resources[..i], buckets);
    var rest := DeletePlan(resources[i + 1..], buckets);
    assert resources == resources[..i] + ([resources[i]] + resources[i + 1..]);
    FlatMapAppend(resources[..i], [resources[i]] + resources[i + 1..], CallsOf(buckets));
    DeletePlanCons(resources[i], resources[i + 1..], buckets);
    PlanAvoidsFailures(resources, i, buckets, undeletable);
    ExecuteSucceeding(done, [resources[i]] + rest, undeletable);
    assert done + [] == done;
  }

  /** The loop of `lambda_handler`: for each stack, the first listed bucket with
      its associated resource as name is deleted; a failed deletion ends the run.
      The run is `Execute` of the delete plan of the stacks' associated resources. */
  method CleanUp(deletedStacks: seq<StackSummary>, buckets: seq<Bucket>, s3: S3) returns (outcome: Outcome)
    requires forall k :: 0 <= k < |deletedStacks| ==> deletedStacks[k].associatedResource.Some?
    requires s3.Valid()
    modifies s3
    ensures s3.Valid()
    ensures var run := Execute(DeletePlan(old(AssociatedResources(deletedStacks)), buckets), s3.undeletable);
      && s3.deleted == old(s3.deleted) + run.deleted
      && s3.buckets == Without(old(s3.buckets), run.deleted)
      && outcome == run.outcome
  {
    ghost var names := AssociatedResources(deletedStacks);
    var i := 0;
    while i < |deletedStacks|
      invariant 0 <= i <= |deletedStacks|
      invariant NoFailureBefore(names, i, buckets, s3.undeletable)
      invariant s3.deleted == old(s3.deleted) + DeletePlan(names[..i], buckets)
      invariant s3.Valid()
    {
      var deletedStack := deletedStacks[i];
      var name := deletedStack.associatedResource.value;
      NamesAt(deletedStacks, i);
      var ok := DeleteMatching(name, buckets, s3);
      if !ok {
        RunAbortsAt(names, i, buckets, s3.undeletable);
        WithoutWithout(s3.inventory, old(s3.deleted), DeletePlan(names[..i], buckets));
        outcome := Aborted(name);
        return;
      }
      DeletePlanSnoc(names, i, buckets);
      i := i + 1;
    }
    assert names[..i] == names;
    RunCompletes(names, buckets, s3.undeletable);
    WithoutWithout(s3.inventory, old(s3.deleted), DeletePlan(names, buckets));
    outcome := Completed;
  }

  lemma {:induction false} NamesAt(stacks: seq<StackSummary>, i: int)
    requires forall k :: 0 <= k < |stacks| ==> stacks[k].associatedResource.Some?
    requires 0 <= i < |stacks|
    ensures AssociatedResources(stacks)[i] == stacks[i].associatedResource.value
    decreases |stacks|
  {
    var n := |stacks| - 1;
    if i < n {
      NamesAt(stacks[..n], i);
    }
  }

  /** `lambda_handler`: matches the deleted stacks, lists the buckets once, and
      deletes every listed bucket some matched stack provisioned, in the order of
      the matched stacks, until a deletion fails. */
  method LambdaHandler(now: int, archivedPeriod: int, stackSummaries: seq<StackSummary>,
                       resourcesOf: string -> seq<StackResource>, s3: S3)
    returns (outcome: Outcome)
    requires s3.Valid()
    modifies stackSummaries, s3
    ensures s3.Valid()
    ensures var matched := MatchedStacks(Records(stackSummaries), Retention.Cutoff(now, archivedPeriod), resourcesOf);
      var run := Execute(DeletePlan(AssociatedNames(matched), old(s3.buckets)), s3.undeletable);
      && s3.deleted == old(s3.deleted) + run.deleted
      && s3.buckets == Without(old(s3.buckets), run.deleted)
      && outcome == run.outcome
  {
    ghost var matched := MatchedStacks(Records(stackSummaries), Retention.Cutoff(now, archivedPeriod), resourcesOf);
    var deletedStacks, positions := GetDeletedStacks(now, archivedPeriod, stackSummaries, resourcesOf);
    MatchesAssociated(deletedStacks, stackSummaries, matched);
    var buckets := s3.ListBuckets();
    assert buckets == old(s3.buckets) && s3.deleted == old(s3.deleted);
    outcome := CleanUp(deletedStacks, buckets, s3);
  }
}
