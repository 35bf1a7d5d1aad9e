# Verified model of the mobile test kit

The test kit drives Couchbase Mobile products from the outside. Most of it sends requests, but a
few parts are algorithms and protocols of their own. This project models those parts in Dafny and
proves what they are for:

- `ValueCodec`, `Json`: the tagged text format in which test values travel to the test servers. A
  nested value is JSON made of texts that are themselves encoded, so escaping nests. A value comes
  back exactly if all of its parts are supported.
- `PoolProtocol`, `NodePool`: booking and releasing shared nodes. The first models any number of
  jobs whose get and replace calls interleave, the second one job that nobody disturbs.
- `ChangesTracker`, `ChangesVerifier`: following a changes feed by longpoll, polling the collected
  revisions from another thread, and crossing expected documents off a list.
- `RevisionUpdates`: chained revision updates by a pool of two workers.
- `ReplicatorWait`: the two-counter loop that waits for a replicator to settle.
- `Versions`, `DeepCompare`: version comparison by padded digit strings, and deep comparison.
- `Inventory`, `Ec2Builder`, `InventoryFields`: Ansible groups that change from a list to a dict in
  place, and the groups that instances join and nest.
- `SyncStripper`, `Multipart`, `BucketRam`: replacing sync functions in a configuration, reading a
  multipart answer, dividing memory among buckets.
- `Python`, `OrderedDict`: the built-ins that the code relies on (splitting, decimal text,
  exceptions, insertion-ordered dicts).

Code that changes state is modelled by classes and methods with loops, proved against functions;
the properties are lemmas about those functions. Servers, replicators and clocks are parameters:
functions from a round (and what is asked) to an answer, about which nothing is assumed unless a
`requires` clause or a guard says so.

Where the code and its documentation disagree, the model follows the code, and a theorem says
exactly when the two agree:

- `compare_versions` is documented for versions such as 1.4.2. With wider components its order can
  differ from the usual one: 1.10 counts as older than 1.9 (`ComparesByComponents`,
  `WideComponentsDisagree`).
- `deep_list_compare` is documented to return true if the lists are equal. It returns true whenever
  the first list is a prefix of the second (`SameIsEqual`, `ListsCompareAsPrefixes`).
- `deep_dict_compare` deletes keys from the stub that it compares, so the same call can answer True
  and then False (`CompareTwice`, `SecondAnswerDiffers`).
- `verify_docs_in_changes` is documented to find expected revisions in the changes. If the expected
  revision is not the last change of its entry, it ends in a KeyError instead (`CrossOff`).
- `parse_multipart_response` splits at every double dash, not only at boundaries, so it loses
  documents that contain one (`ParseRender`, `AllComeBack`).
- `is_replicator_in_connection_retry` lists three codes for C, but the expression
  `("111" or "61" or "5003") in error_msg` tests only the first (`LostCodes`).
- `reserve_node` is meant for available nodes, but does not look at the state that it reads, so it
  takes over a node that is booked (`GuardsAreExact`).
- `update_docs` takes any list of documents, but one that is listed twice can conflict with itself
  (`ConflictIffListedTwice`).
- An instance id that is the name of a group which the inventory needs destroys that group
  (`FreeIdIsExact`).

Check the project with `dafny verify dfyconfig.toml`.

## Model

| member | source | states |
|---|---|---|
| Json.CharRoundTrip | CBLClient/ValueSerializer.py:47 | Every character, control characters and surrogate pairs included, survives JSON escaping whatever text follows it |
| Json.StringRoundTrip | CBLClient/ValueSerializer.py:47 | A quoted string is read back exactly and the reader stops at its own closing quote |
| Json.ArrayRoundTrip | CBLClient/ValueSerializer.py:54-94 | `json.loads` inverts `json.dumps` on every list of strings |
| Json.ObjectRoundTrip | CBLClient/ValueSerializer.py:47-82 | `json.loads` inverts `json.dumps` on every string dict, order included |
| Json.EscapeIsAscii | CBLClient/ValueSerializer.py:47-54 | Quoted text is printable ASCII whatever the string holds |
| Json.DumpArrayForm | CBLClient/ValueSerializer.py:54 | The text of a list, element by element: brackets, and a comma and a space between quoted elements |
| Json.DumpObjectForm | CBLClient/ValueSerializer.py:47 | The text of a dict, entry by entry |
| Json.BrokenString | CBLClient/ValueSerializer.py:81-92 | The reader refuses raw control characters, a lone backslash and a string without its closing quote |
| ValueCodec.Serialize | CBLClient/ValueSerializer.py:7-56 | The recursive printer with its loops computes `Encode`, including where it raises |
| ValueCodec.SerializeDict | CBLClient/ValueSerializer.py:36-47 | The loop that fills `string_map`, which decodes bytes values, computes `Encode` of the dict |
| ValueCodec.SerializeList | CBLClient/ValueSerializer.py:48-54 | The loop that fills `string_list` computes `Encode` of the list |
| ValueCodec.Deserialize | CBLClient/ValueSerializer.py:59-102 | The reader's dispatch with its loops computes `Decode` for every text |
| ValueCodec.DeserializeDict | CBLClient/ValueSerializer.py:80-90 | The loop over the JSON object fills the dict in order, stopping at the first entry that raises |
| ValueCodec.DeserializeList | CBLClient/ValueSerializer.py:91-100 | The loop over the JSON array fills the list, stopping at the first text that raises |
| ValueCodec.StrRoundTrip | CBLClient/ValueSerializer.py:9-19 | A string comes back if and only if it is not "None", does not end in ",LONGTYPE" and does not start with "@" |
| ValueCodec.PointerRoundTrip | CBLClient/ValueSerializer.py:11-12 | A pointer comes back if and only if its address starts with `@` or `"@` |
| ValueCodec.IntRoundTrip | CBLClient/ValueSerializer.py:28-32 | Every integer comes back, on both sides of the switch from I to L |
| ValueCodec.SetLongRoundTrip | CBLClient/Args.py:16-17 | A value passed through `setLong` comes back as the same integer |
| ValueCodec.RoundTrip | CBLClient/ValueSerializer.py:7-102 | Any nested value comes back, through all levels of escaping, if and only if all of its parts are supported |
| ValueCodec.TextTags | CBLClient/ValueSerializer.py:7-54 | The first character of a text tells the kind of value, if and only if: I for ints strictly between -1000000 and 1000000, L for other ints and for strings ending in ",LONGTYPE", F for floats, a quote, brace or bracket for the rest; null, true and false for their values |
| ValueCodec.TextBodies | CBLClient/ValueSerializer.py:11-35 | What stands behind the tag: the number, the float text, the string itself, or what a long string has in front of its first comma |
| ValueCodec.EncodesSendable | CBLClient/ValueSerializer.py:36-56 | Encoding raises, with a RuntimeError, if and only if bytes stand anywhere but as the value of a dict key |
| ValueCodec.BytesComeBackAsText | CBLClient/ValueSerializer.py:39-44 | Bytes in a dict come back as their text, exactly if the value with that text is supported |
| ValueCodec.DecodesTo | CBLClient/ValueSerializer.py:60-79 | The texts that decode to a value, if and only if, for every kind that is not nested |
| ValueCodec.UnknownTagRaises | CBLClient/ValueSerializer.py:102 | Any other text raises |
| ValueCodec.MalformedRaises | CBLClient/ValueSerializer.py:80-92 | Text tagged as an object or an array that is no JSON is a ValueError |
| PoolProtocol.CasUsedOnce | utilities/mobile_server_pool.py:141-151 | In every interleaving, and without any guard, at most one replace succeeds per version of a document |
| PoolProtocol.InvStep | utilities/mobile_server_pool.py:133-189 | Every step of every booking or releasing call keeps holders and documents in agreement |
| PoolProtocol.NoDoubleBooking | utilities/mobile_server_pool.py:133-189 | In every state of every guarded run the holders of a node are exactly what its document says, so no node is held by two jobs |
| PoolProtocol.GuardsAreExact | utilities/mobile_server_pool.py:133-189 | No run from any initial state ever books a node twice, if and only if all three guards hold: no booking of a document read as booked, no release without a job name, no two releases of a node in flight |
| PoolProtocol.WritesMean | utilities/mobile_server_pool.py:143-186 | A booking writes its job on a document that names nobody; a release keeps the name of the job that held the node |
| PoolProtocol.RefetchMeans | utilities/mobile_server_pool.py:152-162 | After an error a call goes on if and only if the node is not booked and it has retried less than five times |
| NodePool.Pool.ReserveNode | utilities/mobile_server_pool.py:133-165 | Reservation succeeds exactly if some attempt is taken after refusals by the server alone; only a node that is not booked is retried, and any other exception ends it; the whole new bucket is given |
| NodePool.Pool.ReleaseNode | utilities/mobile_server_pool.py:168-189 | Frees the nodes in order up to the first that is missing or names another job, and touches nothing else |
| NodePool.Pool.BookRows | utilities/mobile_server_pool.py:83-104 | The scan stops at the first row at which enough usable nodes are booked and has booked exactly the reservable rows before it |
| NodePool.Pool.GetNodesFromPoolServer | utilities/mobile_server_pool.py:62-108 | Success returns exactly the requested number of distinct nodes; failure frees the usable ones; what stays booked is the result plus booked nodes that fail the probe |
| ChangesTracker.NoRepeatsMeans | keywords/ChangesTracker.py:37-45 | The duplicate check, which looks at what is collected, means that no document lists a revision in two entries |
| ChangesTracker.CollectMeans | keywords/ChangesTracker.py:24-50 | Processing raises exactly at the first repeated revision and leaves the entries before it grouped by document in order |
| ChangesTracker.CollectGrows | keywords/ChangesTracker.py:30-50 | Processing a response only adds to the collection, even when it raises |
| ChangesTracker.Tracker.ProcessDoc | keywords/ChangesTracker.py:31-50 | One entry extends the list of its document unless it repeats a revision |
| ChangesTracker.Tracker.ProcessChanges | keywords/ChangesTracker.py:24-50 | The loop over a response computes `Collect`, leaving a partial result when it raises |
| ChangesTracker.Tracker.Start | keywords/ChangesTracker.py:52-121 | The longpoll loop computes `Follow`, asking each time for what comes after the last answer |
| ChangesTracker.FollowPolls | keywords/ChangesTracker.py:64-121 | Whatever the server, the loop asks along a chain of answers, each naming the next cursor, until the rounds are over or a request ends it; it takes every entry of every answer, and an exception leaves out entries of the last answer only |
| ChangesTracker.AllAnswersCollected | keywords/ChangesTracker.py:64-121 | A loop that does not raise leaves the entries of all answers along the chain, grouped by document |
| ChangesTracker.FollowsLog | keywords/ChangesTracker.py:64-121 | From any round on, the collection stays what was served of the log, grouped by document, or what was served before the first repeated revision |
| ChangesTracker.TrackerFollowsLog | keywords/ChangesTracker.py:64-121 | Against a server that serves each log entry once, after any number of rounds the collection is what was served, grouped; the loop raises exactly if that repeats a revision, and then holds what comes before the repetition |
| ChangesTracker.TakenIsServed | keywords/ChangesTracker.py:24-121 | The entries that the tracking thread takes one by one are those served of the log, up to the first that repeats a revision, and lead to what the loop leaves behind |
| ChangesTracker.TrackerFeedGrows | keywords/ChangesTracker.py:30-50 | However the threads interleave, what the poller reads of the tracker's collection only grows |
| ChangesTracker.ScanRevs | keywords/ChangesTracker.py:156-165 | The scan of a list that grows meanwhile finds what was there at its start and nothing that is not there at its end |
| ChangesTracker.WaitUntil | keywords/ChangesTracker.py:132-177 | The collection may change between any two reads: a True answer holds at its return and ever after; after False something was missing when the last pass began; whatever arrives before the last pass is found |
| ChangesTracker.WaitWhileTracking | keywords/ChangesTracker.py:24-177 | Both threads together, under any schedule: True means that the served log lists every expected revision, and if the entries taken before the last pass list them the answer is True |
| RevisionUpdates.DocServer.UpdateDoc | keywords/MobileRestClient.py:1377-1451 | Undisturbed, counter and generation advance by exactly the number of updates; no update at all fails on the unset result |
| RevisionUpdates.RunsAreBounded | keywords/MobileRestClient.py:1331-1349 | Every interleaving of the workers has at most a known number of steps, and at most two calls are running |
| RevisionUpdates.Progress | keywords/MobileRestClient.py:1331-1349 | Until every call is over some step can be taken, so every interleaving finishes |
| RevisionUpdates.InvRun | keywords/MobileRestClient.py:1403-1445 | In every state each task's revision and counter agree with its document |
| RevisionUpdates.UpdatesAreExact | keywords/MobileRestClient.py:1323-1451 | If no document is listed twice no interleaving conflicts, each document ends advanced by exactly the number of updates, and calls for missing documents fail without effect |
| RevisionUpdates.FinishedRunsAreExact | keywords/MobileRestClient.py:1323-1451 | A run of the pool that cannot go on has finished every call: existing documents have advanced by exactly the number of updates, the others have failed |
| RevisionUpdates.ConflictIffListedTwice | keywords/MobileRestClient.py:1331-1445 | Some interleaving of the two workers ends a call in a conflict, if and only if an existing document is listed twice and there is an update at all |
| RevisionUpdates.StartedInOrder | keywords/MobileRestClient.py:1333-1345 | In every state the calls that have begun are the first ones of the list |
| RevisionUpdates.WithoutUpdates | keywords/MobileRestClient.py:1403-1451 | Asked for no update, every call fails and no document changes |
| ChangesVerifier.CrossOff | keywords/MobileRestClient.py:2275-2282 | Crosses the document off if its revision is the last change; a match before that ends in a KeyError |
| ChangesVerifier.OutstandingStep | keywords/MobileRestClient.py:2262-2284 | The outstanding map is always the original minus the documents that some entry crossed off |
| ChangesVerifier.SeqsStep | keywords/MobileRestClient.py:2267-2268 | The recorded sequence numbers are those of the matched entries, so a repeated one is detected |
| ChangesVerifier.ScanResponse | keywords/MobileRestClient.py:2261-2284 | One response raises exactly the first fault among its entries; without one it keeps both dictionaries in agreement with the entries and lists unexpected entries exactly |
| ChangesVerifier.VerifyDocsInChanges | keywords/MobileRestClient.py:2225-2301 | The polling ends at the first answer that does not let it go on, in the one way that the entries read so far determine, and times out exactly if no answer ends it in time |
| ChangesVerifier.EndIsDetermined | keywords/MobileRestClient.py:2247-2298 | Expected documents and answers determine how the polling ends and after how many answers |
| ChangesVerifier.NormalReturnMeans | keywords/MobileRestClient.py:2225-2301 | A normal return means every expected document was seen as expected, no matched entry at fault, no matched sequence number twice and, if strict, nothing else |
| ChangesVerifier.MapOfKeys | keywords/MobileRestClient.py:2239 | Expected are exactly the listed ids |
| ChangesVerifier.MapOfLast | keywords/MobileRestClient.py:2239 | The expected revision of an id is that of its last listing |
| ChangesVerifier.NormalReturnOnList | keywords/MobileRestClient.py:2236-2293 | After a normal return every listed id was seen with the revision of its last listing, or as a user document, and in strict mode nothing else |
| ChangesVerifier.ExceptionMeans | keywords/MobileRestClient.py:2266-2288 | Every exception but the timeout has its cause written out on the entries: the first that repeats a sequence number, is no proper user document or has the revision in front of another change; or an unexpected one in strict mode |
| ChangesVerifier.EntriesAreAnswers | keywords/MobileRestClient.py:2250-2296 | The first request asks since 0 and every other since the last sequence number of the answer before; the entries read are those of all answers |
| ReplicatorWait.Observe | CBLClient/Replication.py:354-363 | One observation moves the counters to the number of not-done observations and to the streak of complete-idle ones |
| ReplicatorWait.LostCodes | keywords/utils.py:510-530 | The listed codes and the tested one lead to different answers exactly on messages with 61 or 5003 that have no 111 and meet none of the Java, iOS and refusal tests; the Android and .NET tests never matter |
| ReplicatorWait.LostCode | keywords/utils.py:523-525 | Such a message is "5003" |
| ReplicatorWait.WaitUntilReplicatorIdle | CBLClient/Replication.py:335-386 | Ends within 21*max_times rounds (one more if stopped at first), at the first round that does not let it go on, in the one way that this round determines |
| ReplicatorWait.EndingMeans | CBLClient/Replication.py:354-386 | Each ending by a round, if and only if, on the readings: 21 complete-idle observations since the last active one; else an error not passed over; else a stop with completed at or below total; else progress beyond a total that is not positive |
| ReplicatorWait.ExhaustionMeans | CBLClient/Replication.py:349-362 | The wait is used up after exactly max_times observations that found the replicator not done |
| ReplicatorWait.RetryMeans | keywords/utils.py:510-530 | The messages that count as a connection retry, with the two tests that add nothing left out |
| ReplicatorWait.NormalEndReadNoErrors | CBLClient/Replication.py:367-371 | A normal end of a checked wait for a non-continuous replicator has read only benign errors |
| Versions.CompareVersions | keywords/utils.py:174-215 | Padding and comparing numbers amounts to comparing digit strings from the left, a plus sign counting like a zero, with an error exactly for texts that padding does not make a number |
| Versions.TotalPreorder | keywords/utils.py:174-215 | Sign-antisymmetric, reflexive and transitive although each pair is padded to its own length |
| Versions.BuildIgnored | keywords/utils.py:184-186 | A build number behind a dash changes no comparison |
| Versions.ComparesByComponents | keywords/utils.py:174-215 | Equals the component-wise order with missing components as 0, for all versions of numbers, if and only if a condition on the first components that differ as texts holds: on their widths, leading zeros and the digits behind them |
| Versions.SingleDigitsInOrder | keywords/utils.py:174-215 | Versions of single digits satisfy the condition of `ComparesByComponents` |
| Versions.WideComponentsDisagree | keywords/utils.py:188-206 | The components of 1.10 and 1.9 are ordered one way, the versions the other way |
| Versions.XattrSupportIsMonotone | keywords/utils.py:218-222 | A newer version of either product never loses xattr support |
| Versions.XattrSupportMeans | keywords/utils.py:218-222 | Support asks, digit by digit, for a server from 5.0.0 on and a gateway from 1.5 on |
| DeepCompare.DeepListCompare | keywords/utils.py:397-424 | The loop over a list computes `DeepItems`, raising when the second list is shorter, and leaves `RestItems` of the first |
| DeepCompare.DeepDictCompare | keywords/utils.py:427-467 | The deletion and the loop over a dict compute `DeepDict`, a missing key raising, and leave `RestDict` of the first dict, as far as the deletions came |
| DeepCompare.SameReflexive | keywords/utils.py:347-467 | A value is the same as itself if and only if it holds no NaN |
| DeepCompare.SameTransitive | keywords/utils.py:347-467 | From two True answers a third follows, if and only if at no compared position a float, an int and a float with a fractional part follow each other |
| DeepCompare.SameIsEqual | keywords/utils.py:347-467 | A True answer means equality up to dict order and kind of number, if and only if compared lists are equally long at every level and no int meets a float with a fractional part |
| DeepCompare.SameBothWaysIsEqual | keywords/utils.py:347-467 | True in both directions if and only if the values are equal in that sense |
| DeepCompare.ListsCompareAsPrefixes | keywords/utils.py:405-424 | Every list is the same as every list that it begins, and the other direction raises |
| DeepCompare.FloatsBreakTransitivity | keywords/utils.py:372-378 | A triple that breaks transitivity, because ints are compared with truncated floats |
| DeepCompare.RestWithoutStubs | keywords/utils.py:437-441 | Nothing is deleted from values without attachment stubs |
| DeepCompare.CompareTwice | keywords/utils.py:436-445 | After a True answer the same call answers True again, if and only if every stub that was compared has as many other keys as its counterpart has keys |
| DeepCompare.SecondAnswerDiffers | keywords/utils.py:436-445 | A stub for which the second answer is False |
| DeepCompare.LeafOutcome | keywords/utils.py:355-394 | Leaves raise if and only if an int meets an infinity or NaN; all others answer True or False by what they are, truncation written out |
| DeepCompare.FirstDifference | keywords/utils.py:405-424 | The first elements that are not the same decide, False or exception alike; a second list that is too short raises |
| DeepCompare.FirstDifferentKey | keywords/utils.py:447-465 | The same for the keys of dicts, where a missing key raises |
| DeepCompare.DictOutcome | keywords/utils.py:435-445 | Dicts of different sizes are False unless the first is a stub, which raises without "revpos" and otherwise is compared without three keys |
| DeepCompare.RestAtDifference | keywords/utils.py:405-424 | Up to the deciding element a list is left as the comparison of each element leaves it, behind it as it was |
| DeepCompare.RestOfBrokenStub | keywords/utils.py:437-439 | A stub without "revpos" has lost its "stub" when it raises |
| Ec2Builder.Ec2Inventory.Push | libraries/provision/ec2.py:723-731 | In place, adds a host to a group in either representation |
| Ec2Builder.Ec2Inventory.PushGroup | libraries/provision/ec2.py:733-740 | In place, turns a list into a dict of hosts and adds a child once |
| Inventory.GroupsRefinePairs | libraries/provision/ec2.py:723-740 | After any operations that do not overwrite a group, its hosts are the hosts pushed, its children the children pushed once each; the switch of representation is invisible |
| Ec2Builder.Ec2Inventory.AddInstance | libraries/provision/ec2.py:405-524 | Index, groups and host variables become those of the declared list of groupings, option by option; unreachable host variables raise |
| Ec2Builder.Ec2Inventory.AddRdsInstance | libraries/provision/ec2.py:527-608 | The same for RDS instances |
| Inventory.GroupsAreAsNamed | libraries/provision/ec2.py:435-608 | After any additions a group that is not the own group of an instance holds its old hosts and the addresses of the hosts that join it, in order, and as children the old ones and the groups nested in it, once each |
| Inventory.GroupMembers | libraries/provision/ec2.py:331-608 | An address is in a group if and only if a taken instance with that address joins it, a group is a child if and only if a taken instance nests it, or it was so before |
| InventoryFields.TakenIsWanted | libraries/provision/ec2.py:409-436 | An instance is taken if and only if it is addressable, not filtered out, and running or available unless all are wanted |
| InventoryFields.JoinsByFields | libraries/provision/ec2.py:438-604 | The groups that a wanted instance joins and the places it gives to groups, if and only if, option by option on its fields |
| InventoryFields.GroupsByFields | libraries/provision/ec2.py:331-608 | After any instances, the hosts and the children of a group that is no own group, if and only if, on options and fields alone |
| InventoryFields.GlobalGroups | libraries/provision/ec2.py:409-606 | The groups "ec2" and "rds" gain exactly the addresses of the wanted instances of their kind, as long as no other group has their name |
| InventoryFields.IndexByFields | libraries/provision/ec2.py:436-542 | The index names region and id of the last wanted instance with the address |
| InventoryFields.VarsByFields | libraries/provision/ec2.py:524-608 | The host variables are those of the last wanted instance with the address |
| InventoryFields.ToSafeMeans | libraries/provision/ec2.py:768-772 | Letters, digits and underscores stay, everything else becomes an underscore; a second pass changes nothing |
| Inventory.FreeIdIsExact | libraries/provision/ec2.py:438-524 | Adding an instance keeps every inventory consistent (index, host variables and global groups know the same addresses) and never raises, if and only if its own group is none of "ec2", "rds" and "_meta" |
| Inventory.AdditionsStayConsistent | libraries/provision/ec2.py:331-608 | Any number of instances with free ids keep the inventory consistent |
| Ec2Builder.AddAll | libraries/provision/ec2.py:331-365 | The loops add the taken instances in order up to the first exception, and with free ids end normally in a consistent inventory |
| Inventory.OwnGroupForgets | libraries/provision/ec2.py:439-440 | The group named by an instance id forgets all other hosts, whatever group it was |
| SyncStripper.RenderIsScan | libraries/provision/install_sync_gateway.py:501-509 | Splitting at backticks and joining every second part is a two-state scan, balanced or not |
| SyncStripper.StripTwice | libraries/provision/install_sync_gateway.py:498-509 | The result has no backtick and a second pass changes nothing |
| SyncStripper.SectionReplaced | libraries/provision/install_sync_gateway.py:501-509 | A section between backticks, or behind the last one, becomes the string "function" and what stands in front of it stays |
| SyncStripper.Strip | libraries/provision/install_sync_gateway.py:496-509 | The loop over the parts computes the scan |
| Multipart.ParseMultipartResponse | keywords/MobileRestClient.py:34-66 | The loop over the parts computes `Parse`, skipping parts without a JSON document |
| Multipart.SplitAtBreak | keywords/MobileRestClient.py:49 | Each of the ten line breaks of `splitlines` ends a line |
| Multipart.ParseRender | keywords/MobileRestClient.py:34-66 | Of a rendered answer with one-line documents the parser sees, in order, the text of each document before its first double dash, however many it has |
| Multipart.DashedDocumentsAreLost | keywords/MobileRestClient.py:47-64 | If a document cut at its dashes is no JSON, exactly the documents without a double dash come back, in order |
| Multipart.CutIsNoJson | keywords/MobileRestClient.py:47-61 | JSON text is no JSON in front of its first double dash, because that stands in a string, which is left open |
| Multipart.AllComeBack | keywords/MobileRestClient.py:34-66 | All one-line JSON documents come back, in order, if and only if none has a double dash |
| Multipart.SplitBulkDocs | keywords/MobileRestClient.py:1671-1682 | Splits rows into documents and errors, each in order and none lost, and raises exactly if errors are to be reported |
| BucketRam.GetMemTotalLowest | keywords/couchbaseserver.py:374-394 | The smallest report that is not zero, if there is one |
| BucketRam.ZeroNodesDoNotMatter | keywords/couchbaseserver.py:381-383 | Two servers whose answers differ only in nodes that report zero lead to the same quotas, or to the same failure |
| BucketRam.GetTotalRamMb | keywords/couchbaseserver.py:396-415 | The first of at most five answers with a node that reports memory decides; otherwise provisioning fails |
| BucketRam.CreateBuckets | keywords/couchbaseserver.py:435-464 | Creates exactly the missing buckets, each with the quota that the polled answers determine; they leave less than one MB per bucket unused and, with enough memory, keep to 80% of every reporting node minus 512 MB; fails only if a bucket is missing and no poll reports memory |

## Left out

- Lone surrogates in strings: a Dafny character is a Unicode scalar value, so such Python strings are not modelled, and the JSON reader rejects their escapes.
- JSON arrays and objects with elements other than strings: the codec never writes them, and the model's reader treats them as an error. Numeric dict keys, which `json.dumps` turns into strings, are not modelled either.
- `int()` on texts with spaces, underscores or digits outside ASCII: the model accepts an optional sign and plain digits.
- Float text: `str` and `float` are parameters, and a float counts as supported if reading inverts printing for it.
- UTF-8 decoding of bytes values: a bytes value holds its decoded text.
- `cleanup_for_blocked_nodes` and the `update ... set state` queries of the node pool: they depend on Jenkins and on the query engine, and are other writers that the protocol model does not have. The check for a missing `slave_ip` is left out too.
- A replace that reports an error although it was stored: a failed call leaves the bucket as it was.
- ChangesTracker.WaitUntil: the feed is finite, because the loop over a list that grows faster than it is read would not end.
- HTTP errors raised inside the longpoll loop, attachments, expiry, channels and property updaters of `update_doc`: the model keeps the revision, the counter and the requests in between.
- Replicator levels other than the five named ones: the loop neither counts nor ends on them.
- DeepCompare.DeepDictCompare: values are trees, so a dict that occurs twice in the first argument, and loses its keys in both places, is not modelled. The tolerance for predictive results is left out.
- Rounding by `float()`: an int that meets a float is taken as exactly representable, so ints beyond 2^53, which round, and those beyond the range of floats, which raise, are not modelled.
- Choice of the destination address from instance attributes and tags: the address is a field of the instance.
- Binary rounding of `total_ram_mb * 0.80` and of the divisions: the model computes with exact rationals, which agree below 2^50.
- Sessions, authentication, URL building, remote wrapper classes, provisioning scripts and logging: they have no logic of their own.
- The failure counters of merged test reports: repeated entries decrement them whatever the earlier outcome was, so no counting invariant holds.
