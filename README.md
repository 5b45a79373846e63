# sc_bucket_cleanup, modelled in Dafny

`sc_bucket_cleanup` is a scheduled cleanup job for an AWS account that uses
Service Catalog. It lists the CloudFormation stacks that are fully deleted
(`DELETE_COMPLETE`). It then keeps the stacks Service Catalog created to
provision an S3 bucket, provided they were deleted long enough ago. Finally it
deletes every such bucket that still exists. Its decision logic lives in
`sc_bucket_cleanup/app.py`, and this project models it in three stages.

- **Retention** (`retention.dfy`): the day-count clamp and the purge date.
  A request of 90 days or more becomes 90, because CloudFormation keeps deleted
  stacks for only 90 days. The cutoff is `now` minus that many days. Times are
  integer seconds since the epoch, and `now` is a parameter.
- **Matcher** (`matcher.dfy`, with the string tests in `text.dfy`): models
  `_get_deleted_stacks`, which walks the stack summaries in order.
  - A summary is a candidate when all four hold:
    - it has a `DeletionTime`;
    - that time is strictly before the cutoff;
    - its name starts with `SC-`;
    - its lowercased `TemplateDescription` contains `s3`.
  - For a candidate, the model scans that stack's resources. The first resource
    of type `AWS::S3::Bucket` wins: its physical id is written into the summary
    object itself as the associated resource, and the summary is kept.
  - Summaries are modelled as objects (`StackSummary`) whose
    `associatedResource` field the method writes, as the source writes into
    each dictionary.
  - The method is proved against the function `MatchedStacks`, which is a
    specification of the result as a value.
- **Coordinator** (`coordinator.dfy`): models the loop of `lambda_handler`.
  - For each matched stack, in order, it scans the bucket listing. It deletes
    the first bucket whose name is the stack's associated resource, then stops
    that scan.
  - A failed delete raises an error, and the raise ends the whole run.
  - The S3 side is an object (`S3`) with three parts:
    - the live inventory;
    - the sequence of deletions carried out;
    - the set of bucket names whose deletion fails.
  - The handler is proved against two functions. `DeletePlan` is the sequence
    of delete calls that the join gives. `Execute` says how those calls go once
    one of them fails.

`seqs.dfy` holds the sequence facts shared by the matcher and the coordinator.
Both loops append at most one item per element. `FlatMap` is that shape, and
its lemmas show that the result is an order-preserving selection.
`scenarios.dfy` states the listings and inventories of `tests/unit/test_app.py`
as lemmas about the model.

The unit test of the matcher keeps exactly one of its four stacks. Only the
first stack meets all four conditions. The third stack has an `S3`
description and an `SC-` name, but it was deleted on 2021-09-25, after the
mocked cutoff of 2021-09-12. Every stack in that test reports the same
resources, including a bucket (`Scenarios.MatcherExample`).

## Model

| member | source | states |
|---|---|---|
| `Retention.EffectiveDays` | sc_bucket_cleanup/app.py:74-77 | the day count used is at most the request and at most 90, and is one of the two (the minimum) |
| `Retention.PurgeDate` | sc_bucket_cleanup/app.py:56-62 | the purge date lies exactly `days` whole days (of 86400 seconds) before `now` |
| `Retention.Cutoff` | sc_bucket_cleanup/app.py:74-80 | any request of 90 or more gives `now` minus 90 days; any smaller request gives `now` minus the request; the cutoff is never earlier than 90 days back |
| `Retention.CutoffAntitone` | sc_bucket_cleanup/app.py:74-80 | a longer requested window never gives a later cutoff |
| `Text.ContainsIffOccurs` | sc_bucket_cleanup/app.py:89 | the substring test holds exactly when the substring occurs at some position |
| `Text.LowerContainsS3` | sc_bucket_cleanup/app.py:89 | the lowercased description contains "s3" exactly when the description has 's' or 'S' immediately followed by '3' |
| `Seqs.FirstIndex` | sc_bucket_cleanup/app.py:92-96 | the scan stops at the first element that passes the test: every earlier element fails it, and the result is the length of the list when none passes |
| `Matcher.StackSummary.constructor` | sc_bucket_cleanup/app.py:81-84 | a summary as listed carries its record and no associated resource |
| `Matcher.FirstBucket` | sc_bucket_cleanup/app.py:92-96 | there is no result exactly when no resource has type `AWS::S3::Bucket`; otherwise the result is the physical id of a bucket resource that has no bucket resource before it |
| `Matcher.CandidateIff` | sc_bucket_cleanup/app.py:86-89 | a stack is a candidate exactly when it has a deletion time strictly before the cutoff, its name begins with 'S','C','-', and its description has an 's' or 'S' followed by '3' |
| `Matcher.KeepsAtMostOne` | sc_bucket_cleanup/app.py:92-96 | each listed stack contributes at most one entry to the result (the `break`) |
| `Matcher.MatchedStacksSound` | sc_bucket_cleanup/app.py:86-96 | every returned stack meets all four conditions, and its associated resource is the physical id of the first bucket among its resources |
| `Matcher.MatchedStacksPositions` | sc_bucket_cleanup/app.py:79-98 | the result is an order-preserving subsequence of the listing with no stack taken twice; a stack is taken exactly when it is a candidate with a bucket resource, so a candidate with no bucket never appears |
| `Matcher.MatchedStacksSnoc` | sc_bucket_cleanup/app.py:82-96 | listing one more stack appends exactly what the matcher keeps of it |
| `Matcher.NoCandidateNoMatch` | sc_bucket_cleanup/app.py:79-98 | a listing with no candidate, the empty listing included, gives the empty result |
| `Matcher.AttachFirstBucket` | sc_bucket_cleanup/app.py:92-96 | the resource scan reports a find exactly when there is a bucket resource and then writes the first bucket's physical id into the summary; otherwise it leaves the summary as it was |
| `Matcher.ConsiderStack` | sc_bucket_cleanup/app.py:83-96 | one step of the outer loop appends the summary exactly when the matcher keeps that stack, with its associated resource written in; a summary that is not kept is not modified |
| `Matcher.GetDeletedStacks` | sc_bucket_cleanup/app.py:64-98 | the returned summaries are, one for one and in order, the stacks `MatchedStacks` keeps for the clamped cutoff, each carrying its first bucket as associated resource; each returned summary is the listed summary at its position, and the positions increase, so the listing order is kept and no summary is returned twice; every summary not returned is unchanged |
| `Coordinator.ListedIff` | sc_bucket_cleanup/app.py:122-123 | the inventory scan finds a name exactly when some listed bucket carries it |
| `Coordinator.WithoutMembers` | sc_bucket_cleanup/app.py:107-111 | after removing deleted names, a bucket remains exactly when it was listed and was not deleted |
| `Coordinator.CallsAtMostOne` | sc_bucket_cleanup/app.py:122-127 | each matched stack causes at most one delete call (the `break`) |
| `Coordinator.DeletePlanPositions` | sc_bucket_cleanup/app.py:121-127 | the delete calls are the associated resources of the matched stacks, in matched-stack order, one per stack whose resource names a listed bucket, and none for any other stack |
| `Coordinator.DeletePlanMembers` | sc_bucket_cleanup/app.py:121-127 | a name is passed to delete exactly when some matched stack has it as associated resource and the inventory lists it; no name missing from the inventory is ever deleted |
| `Coordinator.NoMatchNoDelete` | sc_bucket_cleanup/app.py:121-127 | when no associated resource names a listed bucket (zero matched stacks included) no delete is issued |
| `Coordinator.DeletePlanSnoc` | sc_bucket_cleanup/app.py:121-127 | handling one more matched stack appends its own calls to the plan |
| `Coordinator.DeletePlanCons` | sc_bucket_cleanup/app.py:121-127 | the calls of the first matched stack come before those of the rest |
| `Coordinator.SecondRunDeletesNothing` | sc_bucket_cleanup/app.py:121-127 | a second run against the inventory a complete first run left behind deletes nothing |
| `Coordinator.FailurePoint` | sc_bucket_cleanup/app.py:112-114 | the index of the first call that fails: every call before it succeeds, and the call at it fails when it exists |
| `Coordinator.ExecuteSucceeding` | sc_bucket_cleanup/app.py:121-127 | calls that all succeed are carried out, and the run continues with the calls that follow them |
| `Coordinator.ExecuteStopsAtFirstFailure` | sc_bucket_cleanup/app.py:107-127 | the recorded deletions are exactly the prefix of the planned calls before the first failing one; the run aborts on that bucket, or completes when no call fails |
| `Coordinator.S3.constructor` | sc_bucket_cleanup/app.py:48-54 | a fresh account view holds the inventory, no deletions yet, and its consistency invariant |
| `Coordinator.S3.ListBuckets` | sc_bucket_cleanup/app.py:48-54 | the listing is the live inventory |
| `Coordinator.S3.DeleteBucket` | sc_bucket_cleanup/app.py:100-114 | a delete succeeds exactly for a deletable bucket, removes that name from the inventory and records it; a failing delete changes nothing; the inventory stays the original one minus the recorded deletions |
| `Coordinator.AssociatedResources` | sc_bucket_cleanup/app.py:123 | one associated resource is read per matched summary |
| `Coordinator.MatchesAssociated` | sc_bucket_cleanup/app.py:94-95 | the summaries the matcher returns all carry an associated resource, and these are the associated resources of `MatchedStacks`, in order |
| `Coordinator.DeleteMatching` | sc_bucket_cleanup/app.py:122-127 | the inner loop deletes the stack's bucket when it is listed, and otherwise does nothing; it reports failure exactly when that bucket is listed and cannot be deleted |
| `Coordinator.PlanAvoidsFailures` | sc_bucket_cleanup/app.py:121-127 | when no stack before position `i` hits an undeletable listed bucket, none of the calls planned for those stacks fails |
| `Coordinator.RunCompletes` | sc_bucket_cleanup/app.py:121-127 | a run in which no matched stack hits an undeletable listed bucket carries out the whole plan and completes |
| `Coordinator.RunAbortsAt` | sc_bucket_cleanup/app.py:112-127 | when stack `i` is the first to hit an undeletable listed bucket, exactly the calls of the stacks before it are carried out, and the run aborts on stack `i`'s bucket |
| `Coordinator.CleanUp` | sc_bucket_cleanup/app.py:121-127 | the loop deletes exactly `Execute` of the planned calls: the deletions before the first failure, in order; the inventory loses exactly those buckets; the outcome is the abort or completion of `Execute` |
| `Coordinator.LambdaHandler` | sc_bucket_cleanup/app.py:116-127 | the handler's deletions, remaining inventory and outcome are those of `Execute` on the delete plan of `MatchedStacks` for the clamped cutoff, joined against the inventory listed before any deletion |
| `Scenarios.KeepsCandidate` | sc_bucket_cleanup/app.py:86-96 | a stack deleted before the cutoff, named "SC-...", with "S3" in its description and a bucket first among its resources, is kept with that bucket |
| `Scenarios.DropsWithoutThree` | sc_bucket_cleanup/app.py:89 | a stack whose description contains no '3' is dropped |
| `Scenarios.DropsRecent` | sc_bucket_cleanup/app.py:87 | a stack deleted at or after the cutoff is dropped |
| `Scenarios.DropsLowerCaseName` | sc_bucket_cleanup/app.py:88 | a stack whose name starts with a lower-case 's' is dropped (the prefix test is case-sensitive) |
| `Scenarios.StorageMentionsS3` | tests/unit/test_app.py:72 | the storage template description has "S3" at positions 8 and 9 |
| `Scenarios.Ec2HasNoThree` | tests/unit/test_app.py:83 | the EC2 template description has no '3' |
| `Scenarios.KeepsQzha` | tests/unit/test_app.py:69-79 | the first test stack is kept with the bucket of the mocked resources |
| `Scenarios.DropsHgcd` | tests/unit/test_app.py:80-90 | the second test stack, an EC2 product, is dropped |
| `Scenarios.DropsSeven` | tests/unit/test_app.py:91-101 | the third test stack, deleted on 2021-09-25, is dropped |
| `Scenarios.DropsAssoc` | tests/unit/test_app.py:102-112 | the fourth test stack, named "sc-..." in lower case, is dropped |
| `Scenarios.MatcherExample` | tests/unit/test_app.py:141-149 | a 30-day window ending 2021-10-12 gives the cutoff 2021-09-12, and the four listed stacks yield exactly the qzha7mc257fbo stack with associated resource `sc-465877038949-pp-qzha7mc257fbo-s3bucket-1m9wbdmmcjukq` |
| `Scenarios.Unlisted` | tests/unit/test_app.py:10-45 | a name different from each of the eight inventory names causes no delete call |
| `Scenarios.ListedAt` | tests/unit/test_app.py:10-45 | a name the inventory holds causes exactly one delete call with that name |
| `Scenarios.PlanOfTwo` | sc_bucket_cleanup/app.py:121-127 | the calls for two matched stacks are those of the first followed by those of the second |
| `Scenarios.HandlerNoStacks` | tests/unit/test_app.py:155-166 | zero matched stacks against the eight-bucket inventory give zero delete calls |
| `Scenarios.HandlerNoMatchingBuckets` | tests/unit/test_app.py:172-212 | two matched stacks whose buckets are not in the inventory give zero delete calls |
| `Scenarios.HandlerMultipleBuckets` | tests/unit/test_app.py:217-257 | two matched stacks whose buckets are both listed give exactly two deletions, qzha7mc257fbo's then con4cmcptfvgm's, and the run completes |
| `Scenarios.HandlerFirstDeleteFails` | sc_bucket_cleanup/app.py:112-127 | in the same setting, when the first bucket cannot be deleted, nothing is deleted and the run aborts on that bucket before the second one is touched |

## Left out

- The provider calls are not modelled as calls: `_get_s3_client`, `_get_cfn_client`, `_get_stack_summaries`, `_get_stack_resources` and `_get_buckets` are network I/O. The stack listing is a parameter, the resource listing is a function from stack id to resources, and the bucket listing is the `S3` object's inventory.
- A failure of those read calls is not modelled. In the source it propagates and ends the run.
- In `_delete_bucket`, the split between emptying the bucket and removing it is not modelled. A failed delete changes nothing in the model; in AWS, the objects may already have been removed when `bucket.delete()` fails.
- Which deletions fail is an input, the set `undeletable`, and is not derived from bucket state. A versioned bucket is one example of a bucket whose deletion fails.
- When two matched stacks name the same listed bucket, the source deletes it on the first stack. For the second stack it calls delete again, because the listing is not refreshed, and in AWS that call would fail. The model treats that second call like any other: it succeeds unless the name is in `undeletable`.
- `_get_env_var_value` and the reading of `ARCHIVED_PERIOD` are left out. The handler takes an integer day count. The source passes a string or `None` to a `>=` comparison with an integer, which Python 3 rejects; the model does not reproduce that.
- `datetime.now` is not modelled: `now` is an integer parameter, so time zones play no part.
- Retention.PurgeDate: does not model the bounded range of Python's `timedelta` and `datetime`. `timedelta(days=d)` raises `OverflowError` when the magnitude of `d` exceeds 999999999, and the subtraction raises it when the result falls outside the years 1 to 9999. The model returns an integer cutoff for every `now` and day count instead.
- Retention.Cutoff: for the same reason, a request far below zero gives a cutoff far in the future. In the source, with `now` in the 2020s, any request below about -2,900,000 days raises `OverflowError` before any stack is listed, and the run deletes nothing. Day counts of 90 or more are clamped first, so only such large negative requests raise.
- Logging is not modelled. The clamp's log message says the count is reset to 30, but the code sets it to 90, and the model follows the code.
- Fields the core never reads are not modelled: `StackStatus`, `CreationTime`, `DriftInformation` and the buckets' `CreationDate`.
- The `__main__` entry point and the `event`/`context` arguments are not modelled.
- A summary without `TemplateDescription` raises `KeyError` in the source. This is not modelled: the description is always a string.
- `Text.Lower` lowercases ASCII letters only. For the "s3" test this agrees with Python's `str.lower`, because only 'S' lowercases to 's' and nothing lowercases to '3'.
- `Coordinator.S3.Valid` is model bookkeeping. It ties the live inventory to the original inventory and the recorded deletions, and has no counterpart in the source.
