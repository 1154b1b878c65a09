# Instance coordination in Raigad (ElasticCar)

This project models how an Elasticsearch node managed by Raigad finds its place in its cluster.

**Retry (`retry.dfy`).** `RetriableCallable` runs an operation until it returns, throws a cancellation, or has failed `retries` times. It sleeps `waitTime` between attempts and calls a hook after every attempt. The pure function `Retry.Run` says what one call does: its result and its trace of observable events. Those events are attempts, "Retry #n" log lines, stack-trace log lines, sleeps and hook calls. The imperative loop `RetriableCallable.Call` is proved equal to `Run`, and lemmas about `Run` count the events. The failure counters are Java `int`s and wrap at 32 bits.

**Identity (`identity.dfy`).** `InstanceManager` starts up in two phases, each retried with the default policy of 15 attempts and a 100 ms wait:
- a sweep that deletes the listed records of this node's autoscaling group and rack whose instance the membership service no longer reports alive;
- a registration that creates this node's own record.

It also answers `getInstance`, `getAllInstances` (one listing per tribe cluster, concatenated) and `isMaster`. The shared directory is a class holding its records in stored order. The membership service is the set of instance ids it reports alive.

**JSON (`esutils.dfy`).** `EsUtils` encodes a list of records as `{"instances": {"instance-0": {...}, ...}}` with eight fields per record. It decodes such an object back, stopping at the first missing index. JSON values are modelled in memory, not as text.

Supporting modules:
- `strings.dfy`: decimal rendering of naturals, ASCII lower-casing and substring search.
- `wrappers.dfy`: `Option` and `Result`.

With `retries <= 0`, a call whose every attempt fails is not rethrown after `retries` attempts. `retry` is a Java `int` that is incremented and then compared for equality (RetriableCallable.java:61-63). The test therefore only succeeds once the counter has wrapped, after 2^32 + `retries` attempts (`Retry.NonPositiveRetriesWrapAround`).

## Model

| member | source | states |
|---|---|---|
| Retry.RetriableCallable.constructor | raigad/src/main/java/com/netflix/raigad/utils/RetriableCallable.java:26-36 | the no-argument constructor installs the default policy: 15 retries, 100 ms wait |
| Retry.RetriableCallable.WithPolicy | raigad/src/main/java/com/netflix/raigad/utils/RetriableCallable.java:38-40 | the two-argument constructor installs exactly the given retries and wait time |
| Retry.RetriableCallable.Set | raigad/src/main/java/com/netflix/raigad/utils/RetriableCallable.java:42-45 | `set` overwrites both policy fields with the arguments and changes nothing else |
| Retry.RunEnds | raigad/src/main/java/com/netflix/raigad/utils/RetriableCallable.java:53-65 | a success returns its value, a cancellation and a terminal failure are rethrown, and a refused sleep throws, each after exactly one attempt and its hook |
| Retry.RunResultOrigin | raigad/src/main/java/com/netflix/raigad/utils/RetriableCallable.java:53-73 | a returned value is some attempt's success, a rethrown cancellation some attempt's cancellation, and the sleep's exception needs a negative wait time |
| Retry.StepFinal | raigad/src/main/java/com/netflix/raigad/utils/RetriableCallable.java:53-65 | the loop step that ends the call appends that attempt's events to those logged so far |
| Retry.StepRetried | raigad/src/main/java/com/netflix/raigad/utils/RetriableCallable.java:60-73 | the loop step after a retried failure appends its attempt, log and sleep events and continues with one retry used |
| Retry.RetriableCallable.Call | raigad/src/main/java/com/netflix/raigad/utils/RetriableCallable.java:49-79 | the loop's result and event trace equal those of `Run` from zero failures; its invariant keeps the log counter equal to the retry counter |
| Retry.RunAfterFailure | raigad/src/main/java/com/netflix/raigad/utils/RetriableCallable.java:60-77 | a retried failure contributes attempt, "Retry #n", the stack trace when n is 1, a sleep and the hook, then the call continues with the counter one higher and strictly less budget |
| Retry.TerminalIffNoneLeft | raigad/src/main/java/com/netflix/raigad/utils/RetriableCallable.java:61-63 | a failure is terminal exactly when the remaining budget is zero |
| Retry.RunUntilFirstNonFailure | raigad/src/main/java/com/netflix/raigad/utils/RetriableCallable.java:53-78 | retried failures followed by a success or a cancellation: that attempt decides the result, after one attempt, hook call, sleep and "Retry" line per failure |
| Retry.RunAlwaysFailing | raigad/src/main/java/com/netflix/raigad/utils/RetriableCallable.java:60-73 | a persistently failing operation is rethrown after exactly budget + 1 attempts and budget sleeps |
| Retry.SucceedsAfterFailures | raigad/src/main/java/com/netflix/raigad/utils/RetriableCallable.java:53-73 | k < retries failures then a success: that value is returned after k+1 attempts and hook calls and k sleeps |
| Retry.CancellationRethrownAtOnce | raigad/src/main/java/com/netflix/raigad/utils/RetriableCallable.java:57-59 | a cancellation is rethrown on the attempt it occurs on, adding no sleep and no counter increment |
| Retry.ExhaustsRetries | raigad/src/main/java/com/netflix/raigad/utils/RetriableCallable.java:60-65 | retries = N >= 1 and every attempt failing: the failure is rethrown after exactly N attempts, N hook calls and N-1 sleeps |
| Retry.NonPositiveRetriesWrapAround | raigad/src/main/java/com/netflix/raigad/utils/RetriableCallable.java:61-63 | retries <= 0 and every attempt failing: the failure is rethrown only after 2^32 + retries attempts, when the counter has wrapped |
| Retry.AttemptsWithinBudget | raigad/src/main/java/com/netflix/raigad/utils/RetriableCallable.java:60-65 | a call never makes more attempts than its budget allows, whatever the outcomes |
| Retry.DefaultPolicyAtMostFifteenAttempts | raigad/src/main/java/com/netflix/raigad/utils/RetriableCallable.java:26-65 | under the default policy a call makes at most 15 attempts |
| Retry.HookRunsOncePerAttempt | raigad/src/main/java/com/netflix/raigad/utils/RetriableCallable.java:75-77 | the `finally` hook runs exactly once per attempt, on success, on terminal failure, on cancellation and on a refused sleep |
| Retry.OneSleepPerRetriedFailure | raigad/src/main/java/com/netflix/raigad/utils/RetriableCallable.java:67-73 | with a valid wait time, every attempt but the last is followed by exactly one "Retry #n" line and one sleep |
| Retry.NoLaterStackTrace | raigad/src/main/java/com/netflix/raigad/utils/RetriableCallable.java:69-71 | once the log counter is past 1 and cannot wrap back to 1 within the budget, no further stack trace is logged |
| Retry.StackTraceLoggedOnce | raigad/src/main/java/com/netflix/raigad/utils/RetriableCallable.java:69-71 | the full stack trace is logged at most once per call: once exactly when the first attempt fails without being terminal |
| Retry.NegativeWaitTimeThrows | raigad/src/main/java/com/netflix/raigad/utils/RetriableCallable.java:73 | a negative wait time turns the first retried failure into the sleep's own exception, after one attempt and no sleep |
| Identity.AppRecords | src/main/java/com/netflix/elasticcar/identity/InstanceManager.java:109-112 | a cluster's listing holds exactly the directory's records of that cluster |
| Identity.TribeListing | src/main/java/com/netflix/elasticcar/identity/InstanceManager.java:108-109 | a record is in the tribe listing exactly when it is stored and its cluster is named |
| Identity.Listing | src/main/java/com/netflix/elasticcar/identity/InstanceManager.java:99-113 | a record is listed exactly when it is stored and belongs to the app, or in tribe mode to one of the tribe clusters |
| Identity.TribeListingAppend | src/main/java/com/netflix/elasticcar/identity/InstanceManager.java:108-109 | listing clusters a then b is the listing of a followed by the listing of b |
| Identity.TribeListingKeepsDuplicates | src/main/java/com/netflix/elasticcar/identity/InstanceManager.java:108-109 | a cluster named twice is listed twice: the concatenation does not deduplicate |
| Identity.DeadIn | src/main/java/com/netflix/elasticcar/identity/InstanceManager.java:78-86 | the records the sweep deletes are exactly the listed ones of this group and rack whose instance is not alive |
| Identity.Swept | src/main/java/com/netflix/elasticcar/identity/InstanceManager.java:78-86 | the swept directory is no longer than before and holds no listed record of this group and rack whose instance is dead; unlisted records are kept whatever their group, rack or liveness |
| Identity.KeepNotInIsSwept | src/main/java/com/netflix/elasticcar/identity/InstanceManager.java:78-86 | deleting the doomed records one at a time leaves the directory minus exactly the doomed records, order kept |
| Identity.DeletingDeadListedIsSweep | src/main/java/com/netflix/elasticcar/identity/InstanceManager.java:76-86 | deleting each dead listed record, one `delete` call per record, leaves exactly the swept directory |
| Identity.SweepDeletesExactlyDoomed | src/main/java/com/netflix/elasticcar/identity/InstanceManager.java:76-86 | after the sweep a doomed record has multiplicity 0 and every other record keeps its multiplicity |
| Identity.SweepKeepsOtherAsgsAndRacks | src/main/java/com/netflix/elasticcar/identity/InstanceManager.java:82-83 | the records of other autoscaling groups or racks are untouched, in the same order |
| Identity.SweepWithoutChurnDeletesNothing | src/main/java/com/netflix/elasticcar/identity/InstanceManager.java:82-83 | if every listed instance of the group and rack is alive, nothing is deleted and the directory is unchanged |
| Identity.NothingDeadInListing | src/main/java/com/netflix/elasticcar/identity/InstanceManager.java:82-83 | a listing with no dead record yields no deletion |
| Identity.SelfRecordSweptIffNotAlive | src/main/java/com/netflix/elasticcar/identity/InstanceManager.java:65-83 | when the node's own app is listed (always outside tribe mode, and in tribe mode when the app is one of the tribe clusters), its own record is in scope of its sweep and is deleted exactly when its instance is not reported alive |
| Identity.InstanceFactory.Delete | src/main/java/com/netflix/elasticcar/identity/InstanceManager.java:85 | the directory loses the deleted record and keeps every other record in order; the call is recorded in the log of delete calls |
| Identity.InstanceFactory.Create | src/main/java/com/netflix/elasticcar/identity/InstanceManager.java:67-71 | the directory gains exactly the created record at its end, and it is returned |
| Identity.InstanceManager.constructor | src/main/java/com/netflix/elasticcar/identity/InstanceManager.java:30-36 | the collaborators and configuration are stored and no identity is held yet |
| Identity.InstanceManager.Init | src/main/java/com/netflix/elasticcar/identity/InstanceManager.java:30-63 | sweep before registration: a failed sweep changes nothing and makes no delete call; a failed registration leaves the swept directory, the sweep's delete calls and no identity; otherwise the directory is swept plus the new record and `myInstance` is exactly that record |
| Identity.InstanceManager.RegisterInstance | src/main/java/com/netflix/elasticcar/identity/InstanceManager.java:65-72 | one record is created with id `dc.instanceId`, the app, host, IP, rack, DC and group of the configuration, and no token |
| Identity.InstanceManager.DeregisterInstance | src/main/java/com/netflix/elasticcar/identity/InstanceManager.java:74-87 | the delete calls made are exactly the dead listed records, in listing order, and the directory becomes its swept form |
| Identity.InstanceManager.GetInstance | src/main/java/com/netflix/elasticcar/identity/InstanceManager.java:89-92 | returns the cached own record |
| Identity.InstanceManager.GetAllInstances | src/main/java/com/netflix/elasticcar/identity/InstanceManager.java:94-97 | returns the same listing as `getInstanceList` |
| Identity.InstanceManager.GetInstanceList | src/main/java/com/netflix/elasticcar/identity/InstanceManager.java:99-120 | returns the tribe clusters' listings concatenated in order, or the app's own listing |
| Identity.InstanceManager.IsMaster | src/main/java/com/netflix/elasticcar/identity/InstanceManager.java:122-126 | true iff the deployment is not group-dedicated or the lower-cased group name contains "master" at some position |
| Strings.Contains | src/main/java/com/netflix/elasticcar/identity/InstanceManager.java:125 | substring search is true iff the pattern occurs at some index |
| Strings.NatToStringInjective | src/main/java/com/netflix/elasticcar/utils/EsUtils.java:61 | distinct indices render as distinct decimal strings |
| EsUtils.InstanceKeyInjective | src/main/java/com/netflix/elasticcar/utils/EsUtils.java:61 | distinct indices give distinct "instance-i" keys, so no put overwrites an earlier one |
| EsUtils.KeysBelowSize | src/main/java/com/netflix/elasticcar/utils/EsUtils.java:47-61 | the keys "instance-0" to "instance-(n-1)" are n distinct keys |
| EsUtils.EncodedEntriesKeys | src/main/java/com/netflix/elasticcar/utils/EsUtils.java:47-61 | after n puts the inner object's keys are exactly "instance-0" to "instance-(n-1)" |
| EsUtils.EncodedEntryAt | src/main/java/com/netflix/elasticcar/utils/EsUtils.java:51-61 | entry "instance-i" holds the eight fields of element i and later puts leave it alone |
| EsUtils.EncodedShape | src/main/java/com/netflix/elasticcar/utils/EsUtils.java:43-67 | the output has the single key "instances"; its object has exactly the n index keys, entry i holding the eight named fields of element i |
| EsUtils.Encoded | src/main/java/com/netflix/elasticcar/utils/EsUtils.java:43-67 | the document has the single key "instances", holding an object |
| EsUtils.TransformToJson | src/main/java/com/netflix/elasticcar/utils/EsUtils.java:43-67 | the encoding loop builds exactly the specified document; the per-record array it also builds has no effect |
| EsUtils.DecodeStep | src/main/java/com/netflix/elasticcar/utils/EsUtils.java:75-91 | one turn of the decoding loop appends the decoded entry and moves on to the next index |
| EsUtils.DecodeFrom | src/main/java/com/netflix/elasticcar/utils/EsUtils.java:75-92 | a successful decode from index i has at most as many elements as the document has keys past i |
| EsUtils.DecodeEntryReadsFields | src/main/java/com/netflix/elasticcar/utils/EsUtils.java:79-89 | a non-object entry fails its cast; a decoded entry holds each string field (null when absent or null) and the update time; a failure names the entry or one of its eight fields |
| EsUtils.DecodeEntryFieldOrder | src/main/java/com/netflix/elasticcar/utils/EsUtils.java:82-89 | fields are read in source order: a bad app_name is reported whatever follows, a missing update_time only when every string field reads |
| EsUtils.GetInstancesFromJson | src/main/java/com/netflix/elasticcar/utils/EsUtils.java:69-95 | the decoding loop returns exactly the specified list, or throws the specified exception |
| EsUtils.DecodeFromOk | src/main/java/com/netflix/elasticcar/utils/EsUtils.java:75-92 | a successful decode is the run of present entries from the start index, in index order, ending at the first missing or null index |
| EsUtils.DecodeFromRun | src/main/java/com/netflix/elasticcar/utils/EsUtils.java:75-92 | conversely, a run of decodable entries ended by a gap decodes to exactly that run |
| EsUtils.DecodeFromErr | src/main/java/com/netflix/elasticcar/utils/EsUtils.java:80-89 | a failing decode names an entry before the gap whose decoding throws, every earlier entry decoding |
| EsUtils.DecodedLengthAndOrder | src/main/java/com/netflix/elasticcar/utils/EsUtils.java:75-91 | the result's length is the least missing index and element i is decoded from "instance-i" |
| EsUtils.DecodedFailure | src/main/java/com/netflix/elasticcar/utils/EsUtils.java:73-89 | when the decoder throws, the exception comes from the first failing entry before the gap |
| EsUtils.EntriesAfterGapIgnored | src/main/java/com/netflix/elasticcar/utils/EsUtils.java:77-78 | two documents agreeing up to the first gap decode alike: entries after the gap are never read |
| EsUtils.SameUpToGap | src/main/java/com/netflix/elasticcar/utils/EsUtils.java:75-78 | from any index, decoding depends only on the entries up to the gap |
| EsUtils.DecodeEntryOfEncoded | src/main/java/com/netflix/elasticcar/utils/EsUtils.java:82-89 | decoding the object built for one record gives back its eight carried fields |
| EsUtils.RoundTrip | src/main/java/com/netflix/elasticcar/utils/EsUtils.java:43-95 | decoding an encoded list returns the list projected onto the eight carried fields |

## Left out

- Time: a sleep is an event carrying its duration, and no clock advances.
- `InterruptedException` from a sleep, and exceptions thrown by the `forEachExecution` hook, are not modelled. The default hook does nothing.
- Log message text. Only the presence of the "Retry #n" and stack-trace lines is modelled.
- The retried operation is a function from the attempt index to its outcome: success with a value, failure, or cancellation. Java's exception hierarchy beyond those three and the sleep's `IllegalArgumentException` is not modelled.
- `RetryableCallable`, which `InstanceManager` uses, is not part of this model. It is taken to behave as `RetriableCallable` with the same defaults.
- The directory (`IElasticCarInstanceFactory`) and the membership service (`IMembership`) are not part of this model beyond the state above.
  - `getAllIds(name)` returns the stored records whose app is `name`, in stored order.
  - `delete` removes the records equal to its argument.
  - `create` appends the new record. Its update time is a parameter standing for the directory's clock.
- Identity.InstanceManager.constructor: the Java constructor stores its collaborators and then calls `init()` (src/main/java/com/netflix/elasticcar/identity/InstanceManager.java:37). The model splits this into the constructor and `Init`; an `Err` from `Init` stands for the constructor throwing.
- Identity.InstanceManager.Init: a retried phase's effect happens once, on the attempt that gets through. A sweep attempt that fails after some deletions and is then retried is not modelled. The set of live instances is the one reported on that attempt.
- Concurrent sweeps by peer nodes and any race between nodes are not modelled. The model is sequential.
- Dependency injection, the logger and the debug-logging loop in `getInstanceList` (src/main/java/com/netflix/elasticcar/identity/InstanceManager.java:114-118) are not modelled. The loop only logs.
- The `instanceList` field is never used by the source and is not modelled.
- `StringUtils.split` of the comma-separated cluster setting: the tribe clusters are given as a sequence. The JVM assertion that it is non-empty becomes the precondition `ConfigOk`.
- `toLowerCase` is modelled for ASCII letters only.
- `getS3RepositoryName` and `formatDate` read the wall clock through Joda-Time. They are not modelled.
- The commented-out HTTP and snapshot helpers in `EsUtils` are dead code and are not modelled.
- Null strings: every record field, every listed record and every configuration value is assumed non-null. Only the token is optional. The model therefore does not capture these source behaviours:
  - the NullPointerException of `dead.getAsg().equals(...)` for a listed record with a null group, or with a null availability zone when the group matches (src/main/java/com/netflix/elasticcar/identity/InstanceManager.java:82). Such an exception fails every sweep attempt and so `init`.
  - the NullPointerException of `config.getASGName().toLowerCase()` for a null group name (src/main/java/com/netflix/elasticcar/identity/InstanceManager.java:125).
  - the round trip of records with null fields, which the encoder stores as JSON null and the decoder reads back as null (src/main/java/com/netflix/elasticcar/utils/EsUtils.java:52-58). `EsUtils.RoundTrip` covers non-null records only, although the decoded records hold each string field as optional.
- `ElasticCarInstance` is not part of this model. Its eight carried fields are taken as strings and its update time as a `long`. An absent or null update time therefore fails when unboxed, and an absent string field decodes to null (`None`).
- JSON text, parsing and floating-point numbers are not modelled. A document is an in-memory value whose numbers are integers.
