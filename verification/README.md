# Verification of the host list library and the statistics server

The repository collects Lustre server statistics: `server/hostlist.py` folds and unfolds host lists, `server/stats.c`
turns reports of counters into rates grouped by client, job and user, `server/shmmap.c` publishes the result in shared
memory, `server/pq.c` writes it to a database, and `deploy/update_inventory.py` maintains the hosts files of a
deployment. This project models these five programs in Dafny and proves what they are for. `dafny verify dfyconfig.toml`
checks everything.

## What is modelled

**Host lists** (`server/hostlist.py`). `Decimal` has Python's reading and printing of numerals. `Expansion` has the
character scanner, `expand_part` and the range parser: loops as methods, each proved against a function. `Meaning`
gives the notation an independent meaning: a part denotes the product of its bracket groups in lexicographic order, a
host list the names of its parts. Expansion is proved to accept exactly the joined parts whose meaning is defined and
small enough, and to return that meaning; `Notation` reads ranges and bracket errors off the text. `Collection` has a
collecting pass and the loop of passes as functions; `CollectHostlist` has them as the source's loops over a shrinking
set of hosts. `RunStructure` proves the fact everything rests on: with the number of digit runs behind it fixed, the
place where a host splits into prefix, numeral and suffix is a function of its text. From it `Cover` shows that a
range scan never takes a host of another group and that a pass takes every host exactly once; `NameAlgebra` and
`RoundTrip` conclude that expanding the collected text gives back the hosts; `Brackets` that the text has no bracket
it does not need; `Canonical` that it depends only on the set of hosts and is a normal form. `LargeNumerals` and
`ConsecutiveHosts` deal with the lists whose text cannot be expanded. `Order` has the facts about the sort that
grouping relies on, `Distinctness` the ones about lists without repetition.

**Statistics** (`server/stats.c`, `server/qhost.py`). On values: `Grouping` (accumulation by tags), `Load` (derived
events), `Rates` (the counter join and client counts), `HostMap` (reports and ticks as a state machine),
`Conservation` (traffic over whole runs), `History` (which report an export's tags come from), `JobBatch` (from the
scheduler's listings, through their lines and words, to an array of reports and its effect), `Attribution` (which
group is charged for which traffic), `Apportionment` (load from publication to display), `GroupMembers` (a group as
the sum of its rows in order). On the heap: `StatObjects`, `DerivedEvents`, `RateObjects` and `ServerObjects` have the
JSON objects as Dafny objects, with the sharing the source has: an alias in `nids` is the object stored in `hosts`;
accumulation stores the caller's object and later adds into it, so regrouping overwrites its own input and its
contract is about the old contents. Every heap method is proved to refine the function on values, up to a whole tick
(`ServerObjects.Server.TickAll`) and the consumer's regrouping of all servers
(`DerivedEvents.Consumer.GroupRatesByTags`). `ServerRuns` composes the server's methods over whole runs;
`SecondShowing` and `RepeatedShowing` say what a consumer shows that draws the same map twice, under the published
tags and under any, and `ShownRuns` says it of what a run publishes.

**Shared memory** (`server/shmmap.c`). `SharedMap` is a step system: initialisation, one writer copying a text
character by character, any number of readers scanning the region character by character, and the exit of a failed
read, which keeps the semaphore. A text that is a JSON object (section 4 of RFC 8259) ends where its first bracket
closes, so what a longer earlier text left behind it does not matter. `SharedProgress` proves that writer and readers
get on: every text can be published, and is installed by the readers that come.

**Hosts files** (`deploy/update_inventory.py`). `Inventory` has the line loop with its inner loop and both increments,
and the builder of the block; `Lines` has the lines and the text of a file.

**Rows for the database** (`server/pq.c`). `QueryBuffer` has the two character buffers as arrays with cursors,
`snprintf` with truncation, and the flush; `Insertion` the loop's result over all servers; `ShownRows` goes from what a
consumer shows of a server to the rows its statements carry.

## What the code does that its comments do not say

- The index join of `calc_rates` confuses sources when a client or type contains an underscore
  (`Rates.UnderscoresCollide`); without underscores it is the nested search (`Rates.JoinIsSearch`), and
  `Rates.JoinExactly` says when it is in general.
- `collect_hostlist` can return a text that `expand_hostlist` refuses; this happens exactly when a part denotes more
  than `MAX_SIZE` names, or has a range that ends beyond a C long, which `xrange` cannot count to
  (`RoundTrip.CollectThenExpand`, with a list for each in `ConsecutiveHosts.TooManyToExpand` and
  `ConsecutiveHosts.TooLargeToCount`).
- A reader that gets into the shared memory before the first publication fails and never returns the semaphore; then
  nothing is ever published (`SharedMap.EarlyReadFails`, `SharedMap.PermitCanBeLost`, `SharedMap.LostPermitStopsAll`).
  After a publication no read fails.
- `qhost.py` sends nothing at all when no job runs: the empty listing has one empty line, which cannot be unpacked, so
  every host keeps the tags of a job that has ended (`JobBatch.NoJobsNoBatch`). A blank in a job's name puts the name's
  second word in the place of the host list (`JobBatch.LineIsRead`); `JobBatch.JobsAreRead` says exactly when the jobs
  are read as they are.
- The screen is drawn again at every key press from the map it was drawn from before, although that map was
  overwritten (`DerivedEvents.Consumer.ShowAgain`): loads and bytes are scaled down once more, and rows already added
  to a group are added again (`RepeatedShowing.LoadIsScaledAgain`, `RepeatedShowing.RequestsAreAddedAgain`).
  `RepeatedShowing.ShownTwice` says exactly when nothing changes, whatever the tags; under the tags the rows were
  published under, it is when no row has a load or moved bytes (`SecondShowing.SecondShowingIsFirst`).
- Updating a hosts file passes over the line that follows the end marker, and from a begin marker without an end
  marker everything is lost (`Inventory.LineAfterBlockIsLost`, `Inventory.UnclosedBlockIsLost`).
  `Inventory.PutPutExactly` says exactly for which files a second update replaces the first.
- `pq_insert` sends a group without positive values as a repetition of the record before it, and cuts a record that
  ends exactly at the end of the query buffer (`Insertion.RepeatedRecord`, `ShownRows.CutRecord`).
  `QueryBuffer.InsertsExactly` and, over all servers, `Insertion.InsertConservesRows` say that, when records fit their
  buffer, these are the only ways for a row to be lost, repeated or broken.

## Model

| member | source | states |
|---|---|---|
| Decimal.ReadPadded | server/hostlist.py:153-159 | Reading what `%0*d` printed gives the number back, and the text is at least as long as the width |
| Decimal.PrintValue | server/hostlist.py:249-294 | Printing a numeral's value at the numeral's own width gives the numeral back, leading zeros included |
| Decimal.ValueOfBoth | server/hostlist.py:149-150 | Numerals are positional, in tens |
| Expansion.ExpandRange | server/hostlist.py:134-160 | The loop computes the names of a range or the error the range raises, the overflow of `xrange` beyond a C long among them |
| Expansion.ExpandRangelist | server/hostlist.py:125-132 | The loop collects the ranges' names in order; the first bad range decides the error |
| Expansion.SegmentConsumes | server/hostlist.py:102-106 | On every part the scanner lets through, one step of the recursion consumes text and leaves such a part: the recursion ends |
| Expansion.ExpandPart | server/hostlist.py:90-123 | Never more than `MAX_SIZE` names |
| Expansion.PurgedInOrder | server/hostlist.py:162-170 | Purging keeps each name once, in the order of first positions, and leaves a list without repetition as it is |
| Expansion.RemoveDuplicates | server/hostlist.py:162-170 | The loop lists each name once, in the order of first positions, and a list without repetition as it is |
| Expansion.ExpandHostlist | server/hostlist.py:50-88 | The character loop with its bracket level computes the scanner's function, errors included |
| Meaning.RangeNamesMeaning | server/hostlist.py:134-160 | A range is expanded iff it is well formed, spans at most `MAX_SIZE + 1` names and does not end beyond a C long; a well-formed range fails for its size if it is too large, and otherwise for the overflow |
| Meaning.ProductAt | server/hostlist.py:121-123 | The product has as many names as its sizes multiply to, and each choice stands at its rank |
| Meaning.Unrank | server/hostlist.py:121-123 | Every position of the product is the rank of a choice |
| Meaning.RankMonotone | server/hostlist.py:121-123 | The product is in the lexicographic order of the choices |
| Meaning.ExpandPartMeaning | server/hostlist.py:90-160 | A part is expanded iff every range in it is well formed, it denotes at most `MAX_SIZE` names and no range ends beyond a C long, and then to exactly the names it denotes, in order; a well-formed part is refused only for a reason it has |
| Meaning.ExpandMeaning | server/hostlist.py:64-88 | Joined parts are expanded iff each fits, to the names of all parts in order, or, without duplicates, to these names each once in the order of their first positions; if all are well formed and some does not fit, the error is that of a part it is true of |
| Meaning.AcceptedIsJoin | server/hostlist.py:64-88 | Whatever is accepted is a join of parts that fit: nothing else passes the scanner |
| NameAlgebra.NamesUnmarked | server/hostlist.py:90-123 | Text without special characters in front of a part goes in front of each of its names |
| NameAlgebra.NamesGroup | server/hostlist.py:90-132 | A bracket group in front of a part: each of its numbers with each of the part's names |
| Notation.RangeIs | server/hostlist.py:134-160 | A number stands for itself; two numbers with a dash for those between them, at the width of the first, with the error for each way it can fail; everything else is a bad range |
| Notation.BracketErrors | server/hostlist.py:74-82 | Nested brackets are two open at once; unbalanced ones are one closed that was not open, or one open at the end |
| Notation.DocumentedExample | server/hostlist.py:50-58 | The documented example: n[9-11],d[01-02] |
| Collection.SplitLeft | server/hostlist.py:230-231 | The split is a prefix, a numeral and a suffix that make up the text; there is none iff the text has no digit |
| Collection.SplitShape | server/hostlist.py:230-231 | The prefix does not end in a digit and the suffix has none: the run is the last one, and whole |
| Collection.SplitIsLazy | server/hostlist.py:230-231 | No shorter prefix leaves digits followed by text without digits, as the lazy group of the expression requires |
| Collection.SplitRuns | server/hostlist.py:230-231 | Taking the split's prefix removes exactly one digit run |
| Collection.PassRuns | server/hostlist.py:211-325 | A pass removes one run from the largest number of runs, and asks for another pass iff there was one |
| Collection.Passes | server/hostlist.py:205-208 | The loop ends after one pass more than the largest number of runs |
| Order.SortSorted | server/hostlist.py:257 | The sort list is sorted |
| Order.BetweenKeys | server/hostlist.py:270-271 | In sorted order an item between two of one key has that key, so consecutive grouping finds whole groups |
| RunStructure.SplitUnique | server/hostlist.py:229-251 | With equally many runs behind it, a text splits into prefix, numeral and suffix in only one way |
| Cover.OnlyInGroup | server/hostlist.py:283-302 | A text with a numeral in a group's place is a host of no other group |
| Cover.ScanCovers | server/hostlist.py:291-302 | A scan takes exactly a run of consecutive hosts, each once |
| Cover.GroupCovers | server/hostlist.py:281-302 | The ranges of a group take all its hosts, each once, and no others |
| Cover.GroupsCover | server/hostlist.py:270-324 | All groups together take every host once, nothing remains, and the new entries denote the hosts taken |
| Canonical.StripIs | server/hostlist.py:191 | Stripping takes all white space from both ends and nothing else |
| RoundTrip.UnmarkedIs | server/hostlist.py:196 | A host is bad iff it has a bracket or a comma |
| RoundTrip.PrepareHosts | server/hostlist.py:189-203 | Hosts are refused iff one has a bracket or comma and bad ones are not discarded; the entries are exactly the stripped non-empty hosts that take part |
| RoundTrip.PassCovers | server/hostlist.py:211-325 | In every reachable pass each host is taken once, nothing remains, the new entries denote exactly the hosts' names and are fit for the next pass |
| RoundTrip.PassesCover | server/hostlist.py:205-208 | All further passes keep the names denoted |
| RoundTrip.CollectedNames | server/hostlist.py:174-209 | The parts of the collected text denote exactly the hosts that take part, each once |
| RoundTrip.CollectThenExpand | server/hostlist.py:50-325 | Round trip: expanding the collected text gives exactly the stripped non-empty hosts, each once, part by part, whether or not duplicates are removed, iff no part denotes more than `MAX_SIZE` names or has a range that ends beyond a C long; otherwise the error is that of such a part |
| RoundTrip.FewHostsFit | server/hostlist.py:118-160 | With at most `MAX_SIZE` different hosts the expansion fails iff a range ends beyond a C long, and it never fails if no host has a numeral that large |
| RoundTrip.PassCount | server/hostlist.py:205-208 | The number of passes is one more than the largest number of digit runs in any host, and some host has that many |
| LargeNumerals.OverflowShows | server/hostlist.py:153-159 | A part with a range that ends beyond a C long denotes a name with a numeral that large |
| Brackets.CollectedShape | server/hostlist.py:211-325 | In a collected text each bracket group denotes at least two numbers and its ranges start in ascending order, a part that denotes one host is that host, and the parts are in string order |
| Brackets.SingleHost | server/hostlist.py:309-313 | One host, however often it is given, is collected to itself |
| ConsecutiveHosts.CollectRun | server/hostlist.py:174-325 | Consecutive hosts are collected to their name and the first and last number in brackets, a single host to itself |
| ConsecutiveHosts.RunComesBack | server/hostlist.py:50-325 | Two or more consecutive hosts come back iff there are at most `MAX_SIZE` of them and the last number plus one is within a C long |
| ConsecutiveHosts.JustEnoughToExpand | server/hostlist.py:118-119 | n1 to n100000 come back |
| ConsecutiveHosts.TooManyToExpand | server/hostlist.py:118-119 | n0 to n100000 are collected to a text that is refused for its size |
| ConsecutiveHosts.TooLargeToCount | server/hostlist.py:157-158 | n9223372036854775807 and the next host are collected to a text on which `xrange` overflows |
| CollectHostlist.EnumerateRange | server/hostlist.py:291-302 | The inner loop finds the scan's end and removes what it covers |
| CollectHostlist.CollectRanges | server/hostlist.py:281-302 | The loop over a group finds its ranges; the assertion on low and high holds |
| CollectHostlist.CollectGroup | server/hostlist.py:270-318 | One turn of the group loop; removing a host without a number never misses |
| CollectHostlist.MakeSortlist | server/hostlist.py:223-257 | The loop builds the sorted list and the set of all hosts |
| CollectHostlist.CollectHostlist1 | server/hostlist.py:211-325 | The pass computes the pass function, and its last assertion holds: nothing remains |
| CollectHostlist.CollectAll | server/hostlist.py:205-208 | The loop of passes ends and computes the passes' result |
| CollectHostlist.CollectHostlist | server/hostlist.py:174-209 | The whole collection computes its function, errors included |
| Canonical.PassIsCanonical | server/hostlist.py:223-322 | The first pass is a function of the set of hosts |
| Canonical.SameHostsSameText | server/hostlist.py:189-209 | Two lists with the same stripped non-empty hosts give the same text, whatever the order or repetition |
| Canonical.NormalForm | server/hostlist.py:50-325 | Whenever the collected text can be expanded, collecting the expanded hosts gives the same text again |
| Grouping.KeysOfGroup | server/stats.c:103-119 | Group keys are distinct and are the keys that occur |
| Grouping.KeysInOrder | server/stats.c:103-119 | Groups stand in the order of their first rows |
| Grouping.GroupSums | server/stats.c:103-119 | Every event of a group but the load is the sum over the group's rows |
| Grouping.GroupOccurs | server/stats.c:226-232 | There is a group for a tag set iff some row has it |
| Grouping.GroupEvents | server/stats.c:108-113 | A group records exactly the events its rows record |
| Grouping.GroupRowsAdd | server/stats.c:103-119 | Adding rows one by one makes the groups, in the order in which they first occur |
| Grouping.RollUp | server/stats.c:122-197 | Grouping by some tags and regrouping by others is grouping the raw rows by the tags in both, on every event but the load |
| GroupMembers.GroupIsFold | server/stats.c:103-119 | A group is its rows added into the first of them, in order |
| GroupMembers.FoldIs | server/stats.c:103-119 | A group's events are the sums over its rows, its load that of the last row that has one |
| GroupMembers.FoldAdds | server/stats.c:59-79 | The requests and the bytes of a group are the sums over its rows |
| Grouping.GroupingConserves | server/stats.c:103-119 | The sum of an event over the groups is the sum over the rows |
| Grouping.GroupNonNegative | server/stats.c:103-119 | Groups of rows without negative values have none |
| Grouping.GroupLoad | server/stats.c:109-112 | A load shared by all rows is the load of every group |
| Load.SumPick | server/stats.c:59-71 | The order of the events of a JSON object does not matter to the sums |
| Load.EventCounts | server/stats.c:59-71 | What one event contributes to requests and bytes, by its name |
| Load.EffectiveLoadIsMean | server/stats.c:80-100 | The effective load is the scaled load times the mean of the group's shares of requests and bytes, as far as there are any |
| Load.LoadIsSharedOut | server/stats.c:80-100 | The effective loads of a server's groups sum to exactly its load as soon as there is any traffic |
| Load.ShareIsBounded | server/stats.c:80-100 | Each effective load is between nothing and the whole load |
| Load.NoShareExactly | server/stats.c:80-100 | A group is given nothing of the load iff it carries none or has no traffic |
| Rates.JoinKeyInjective | server/stats.c:276-301 | Join keys are injective without underscores in client and type, whatever the target |
| Rates.NeverCpu | server/stats.c:267-279 | A client's key is never the key of the cpu |
| Rates.JoinIsSearch | server/stats.c:256-303 | The index join finds what the nested search for the last old entry of the same client, target and type finds |
| Rates.JoinExactly | server/stats.c:256-303 | For any names at all: the join takes the entry the search takes iff the last old entry under the key is of the same source |
| Rates.JoinWithoutCollision | server/stats.c:256-303 | The join is the nested search whenever no old entry of another source has the entry's key |
| Rates.UnderscoresCollide | server/stats.c:276-301 | With underscores the join can take another client's counters: a concrete pair |
| Conservation.RateIs | server/stats.c:283-318 | An entry has a rate iff it has counters and an old entry is there; its events are those of the new counters, an event the old entry lacks has rate 0, every other its clipped increase, scaled |
| Conservation.RatesInOrder | server/stats.c:283-346 | Rates keep the order of the entries |
| Rates.CountedFirst | server/stats.c:234-241 | A client is counted in the first row of its type and only there |
| Rates.RatesNonNegative | server/stats.c:308-318 | Clipping makes every rate non-negative |
| Rates.ClientsCounted | server/stats.c:217-246 | The client counts of a server's rows add up to the number of different clients |
| Rates.ClientsConserved | server/stats.c:217-246 | So do those of its groups, and of any regrouping of them |
| HostMap.SameEntry | server/stats.c:500-514 | Two names share an entry iff they are equal or agree on 63 characters |
| HostMap.FidOf | server/stats.c:483-488 | A target that is a name and eight more characters has that name as its file system; a long one is cut |
| HostMap.ClaimersExist | server/stats.c:544-545 | In every reachable state a claimed client belongs to a host that has an entry |
| HostMap.SnapshotsFollow | server/stats.c:369-406 | Over every run: old time and old data are both present or both absent and are those of the last accepted snapshot, whose times strictly increase |
| HostMap.OldDataIsThere | server/stats.c:389-392 | The branch for a missing old data array is never taken |
| HostMap.TimeAndDataTogether | server/stats.c:524-543 | If reports to a host carry time and data together, every accepted snapshot comes from one report |
| Conservation.RatesAreGains | server/stats.c:249-349 | The aggregated rates times the time between two snapshots are the clipped increases of the joined counters |
| Conservation.TickConserves | server/stats.c:394-432 | What a tick publishes, times its interval, is the increase since the old data, however the exports are tagged |
| Conservation.EmittedIsIncrease | server/stats.c:352-436 | Over any interleaving of reports and ticks, everything emitted is the total increase over the accepted snapshots |
| Conservation.StepGains | server/stats.c:256-318 | The increase of a step is at least the exports' clipped differences, and exactly that if they are all there is |
| Conservation.TrafficConserved | server/stats.c:249-436 | Over whole runs, what is emitted of an event is at least the last accepted counters minus the first, summed over exports present in every accepted snapshot, and exactly that when counters never fall |
| History.EntriesRecord | server/stats.c:498-547 | Over every run a host has an entry iff some report named it, and the entry holds the tags, time, data and class last reported |
| History.EmitsExactly | server/stats.c:367-432 | Over every run, from the reports alone: what a tick takes over, when it publishes, and the time and interval published |
| History.OtherClassesPublishNothing | server/stats.c:408-415 | A server that last reported another class than mds or oss publishes no group |
| History.ClaimsRecord | server/stats.c:542-545 | Over every run a client belongs to the host that last claimed it in a report without data |
| History.TagsAgreeWithHistory | server/stats.c:447-477 | Over every run an export gets the jid, uid and system last reported for the host that last claimed its client, or `*` |
| Lines.WordsAreWords | server/qhost.py:51 | No word of a line is empty or has white space in it |
| Lines.WordsConcat | server/qhost.py:51 | What stands on both sides of a blank has words of its own |
| JobBatch.HostRpcsRefine | server/qhost.py:52-53 | One job's reports give exactly its hosts its tags, under the last name its list has for each |
| JobBatch.BuildBatch | server/qhost.py:40-53 | The two loops over lines and hosts build the batch, or raise |
| JobBatch.NoJobsNoBatch | server/qhost.py:50-51 | When no job runs nothing is sent, whatever hosts are listed |
| JobBatch.BatchRefines | server/qhost.py:40-53 | A batch is sent iff there is a scheduler, every host list expands and every job line has four words, whose fourth expands; then every listed host has the tags of the last running job that lists it, or `-`, and the last name it is listed under there; no other host changes |
| JobBatch.LineIsRead | server/qhost.py:37-51 | A job whose name is one word is read as it is; of a name of several words the second is taken for the host list; an empty name raises |
| JobBatch.JobsAreRead | server/qhost.py:37-51 | The printed jobs are read as they are iff there is one and in each line the fourth word is the host list |
| JobBatch.ScheduledBatchRefines | server/qhost.py:37-56 | If no name hides a host list: from the scheduler's jobs to the tags of every host, and a batch is sent iff there is a job and all lists expand |
| Attribution.PublishedIsTotal | server/stats.c:208-247 | A published group is found under its tags and holds the sum over its rows |
| Attribution.TickCharges | server/stats.c:394-432 | In a tick each published group, times the interval, is exactly the increase of the exports that carry its tags |
| Attribution.ChargedToHistory | server/stats.c:249-492 | Over every run, what is published under a tag set, times the interval, is exactly the increase of those exports whose client was last claimed by a host that last reported that job, user and system, on that file system |
| Apportionment.PublishedLoaded | server/stats.c:417-428 | Every published group carries the one kernel load if there are cpu rates, and nothing published is negative |
| Apportionment.ShownLoadsAddUp | server/stats.c:122-205 | Whatever tags and filters a consumer uses, the effective loads shown for a server sum to its load as soon as there is traffic among them, each between nothing and that load |
| Apportionment.ShownLoadsOfRun | server/stats.c:49-436 | Over every run: if cpu rates are there when a server publishes, then whatever tags and filters a consumer uses, all shown rows carry one load and their effective loads sum to it as soon as there is traffic among them |
| StatObjects.AddEvents | server/stats.c:108-113 | One object is added into another in place: loads are replaced, all else is summed |
| StatObjects.AddStats | server/stats.c:103-119 | The caller's object is stored if the tags are new, otherwise added into the one stored first; no other object changes |
| StatObjects.KeptGroups | server/stats.c:167-190 | Filters keep or drop whole groups, never part of one |
| StatObjects.AddKept | server/stats.c:146-197 | One turn of the tag loop: restrict, filter, accumulate |
| StatObjects.RegroupServer | server/stats.c:140-197 | The new map stores the source's own objects and sums into them, and its groups are those of the source's old contents; each group is in the object of the row that opens it, and no other object changes |
| DerivedEvents.Summarise | server/stats.c:53-79 | The event loop of one group, in place |
| DerivedEvents.SummariseAll | server/stats.c:50-79 | The first loop over a server's groups and its totals |
| DerivedEvents.Apportion | server/stats.c:83-100 | The second loop's work on one group |
| DerivedEvents.AddDerivedEvents | server/stats.c:49-101 | Both loops give every group its derived events from the old contents |
| DerivedEvents.RegroupAndDerive | server/stats.c:140-204 | One server as shown: filtered, regrouped and derived from its old contents; and what its own rows are afterwards |
| DerivedEvents.Consumer.ShowServer | server/stats.c:140-204 | One server's turn disturbs neither the rates nor the shown maps of the others |
| DerivedEvents.Consumer.GroupRatesByTags | server/stats.c:122-205 | Every server with a time is shown, regrouped from its old rates, and its own rows are what that leaves; the others keep what they showed |
| DerivedEvents.Consumer.ShowAgain | server/screen.c:182-217 | Drawn again without reading, a server shows what is shown of the rows that the first time left |
| SecondShowing.ShownAgain | server/screen.c:182-217 | Under the tags the rows were published under, the second showing is derived from the first |
| SecondShowing.DerivingTwice | server/stats.c:49-101 | Adding derived events twice is adding them once iff no row has a load or moved bytes |
| SecondShowing.SecondShowingIsFirst | server/screen.c:182-217 | The second showing equals the first iff no row that is shown has a load or moved bytes |
| RepeatedShowing.ShownTwice | server/screen.c:182-217 | Under any tags the second showing equals the first iff in every group that is shown the rows behind the first have none of any event kept as it is, their bytes make up for the first row's second scaling, no load was shared out to it, and its load comes from a row behind the first or is nothing |
| RepeatedShowing.ShownAnyTimes | server/screen.c:182-217 | However often the same map is drawn, every showing is the first iff every group survives one drawing in this way |
| RepeatedShowing.LoadIsScaledAgain | server/stats.c:75 | A server with a load of 100 is shown differently the second time |
| RepeatedShowing.RequestsAreAddedAgain | server/stats.c:103-119 | Two jobs of one server without load or bytes, shown by server, are shown differently the second time |
| ShownRuns.ShownRollUp | server/stats.c:49-205 | Whatever coarser tags and filters a consumer uses: there is a row iff raw rows have its tags and the filters let them through, and its iops and bytes are the sums over these raw rows |
| ShownRuns.ShownFiltered | server/stats.c:167-190 | Under a user filter every shown row with a user has that user, under a job filter likewise, under a server filter no other server shows anything; and exactly the groups of rows that meet this are shown |
| ShownRuns.EmissionIsSeparate | server/stats.c:352-436 | Over every run, what a server publishes has tags of its own among the five it groups by, and no effective load unless a counter is called that |
| ShownRuns.DrawnTwice | server/screen.c:182-217 | Over every run, what a server published is shown the same twice iff every group survives; under the published tags or more, iff no row has a load or moved bytes |
| RepeatedShowing.DerivedIs | server/stats.c:53-100 | The events of a shown group: bytes scaled, load scaled, iops and bytes added, all others as they were |
| RateObjects.IndexOld | server/stats.c:256-281 | The loop builds the index of old counters |
| RateObjects.ScaleDeltas | server/stats.c:308-318 | The event loop gives the clipped and scaled increases |
| RateObjects.RateEntryOf | server/stats.c:283-346 | One new entry against the index: skipped, or a rate with its tags |
| RateObjects.ComputeRates | server/stats.c:249-349 | The rate array holds the rates in new objects of their own |
| RateObjects.CountAndAdd | server/stats.c:226-244 | A matching row is marked with its client count, then stored or added |
| RateObjects.AggregateStat | server/stats.c:208-247 | The map holds the groups of the matching rows; only objects of matching rows are touched |
| ServerObjects.HostEntry.Update | server/stats.c:524-543 | Fields present in a report replace those of the entry |
| ServerObjects.Server.InitEntry | server/stats.c:502-514 | A host gets a new entry only if it has none |
| ServerObjects.Server.UpdateFields | server/stats.c:520-543 | The report's fields are put into the very entry, and the alias invariant is kept |
| ServerObjects.Server.Claim | server/stats.c:544-545 | The client becomes an alias of the host's entry object |
| ServerObjects.Server.UpdateHostEntry | server/stats.c:498-552 | Refines the report step; entries are never replaced; every alias is the object stored for the host that claimed |
| ServerObjects.Server.UpdateHostMap | server/stats.c:555-589 | An array of reports refines the steps in order; entries are the old ones or new, and only the reports' exports come into use |
| ServerObjects.Server.LookUp | server/stats.c:468-476 | What the alias says is what the entry of the claiming host says |
| ServerObjects.PutTags | server/stats.c:458-488 | Tags left by an earlier tick are all replaced |
| ServerObjects.Server.TagExport | server/stats.c:454-490 | One export gets the tags of the current state |
| ServerObjects.Server.TagHost | server/stats.c:447-492 | So does every export of one host, and no other changes |
| ServerObjects.Server.TagStats | server/stats.c:439-496 | So does every export of every host |
| ServerObjects.GroupByClass | server/stats.c:408-415 | Only the traffic of the server's own class is aggregated |
| ServerObjects.SetLoad | server/stats.c:425-427 | The load of every group is set |
| ServerObjects.CopyLoad | server/stats.c:421-428 | The cpu group's system time becomes the load of every group |
| ServerObjects.BuildGroups | server/stats.c:408-429 | The groups published for a server |
| ServerObjects.TickEntry | server/stats.c:367-432 | One entry's tick: its old time and data, and a map iff something is published |
| ServerObjects.Server.TickHost | server/stats.c:367-432 | The tick of one entry as a step of the whole state |
| ServerObjects.Server.GroupHost | server/stats.c:367-435 | The same with publication |
| ServerObjects.Server.GroupStatsByTags | server/stats.c:352-436 | The host loop refines the tick host by host |
| ServerObjects.Server.TickAll | server/shmmap.c:98-100 | Tagging and grouping refine the tick of the state machine and publish exactly its emissions |
| ServerRuns.TakeReports | server/stats.c:555-589 | From any point of a run an array of reports leads to the next, and what is published stays |
| ServerRuns.TakeTick | server/shmmap.c:98-100 | From any point of a run a tick leads to the next, and publishes |
| ServerRuns.Serve | server/stats.c:352-589 | Over whole runs from a new server, whatever arrives in whatever order: the shared objects are those of the state machine, aliases included, and each host's published map is that of its last emission |
| SharedMap.SelfDelimiting | server/shmmap.c:124 | Whatever follows an object in the region, the scan of the region ends with the object |
| SharedMap.AtMostOneInside | server/shmmap.c:104-134 | Mutual exclusion follows from the count of permits |
| SharedMap.StepKeepsPermits | server/shmmap.c:29-52 | Every step keeps semaphore, holders and lost permits at one after initialisation |
| SharedMap.StepKeepsReaders | server/shmmap.c:113-143 | Every step keeps what readers inside have scanned and all have installed |
| SharedMap.StepKeepsRegion | server/shmmap.c:104-107 | Every step keeps the last published text in front of the region, or the copied part of the next one |
| SharedMap.Reachable | server/shmmap.c:93-143 | Every reachable state satisfies the invariant |
| SharedMap.ProtocolIsSafe | server/shmmap.c:93-143 | Over every interleaving permits are conserved, at most one process is inside, and every installed map is one complete published text, the latest at that time, in publication order |
| SharedMap.ReadsLastText | server/shmmap.c:123-131 | After a publication a reader parses exactly the last published text in as many characters as it has, whatever longer text was there before |
| SharedMap.NoFailureAfterPublishing | server/shmmap.c:124-129 | Once something is published no read fails and no permit is lost |
| SharedMap.EarlyReadFails | server/shmmap.c:125-143 | A read before the first publication fails and its permit is lost |
| SharedMap.PermitCanBeLost | server/shmmap.c:113-143 | A run of five steps in which a reader comes before the writer and the permit is lost |
| SharedMap.LostPermitStopsAll | server/shmmap.c:125-143 | After that nothing is ever published or installed |
| SharedProgress.WriterPublishes | server/shmmap.c:93-110 | With the semaphore free and the writer idle, its steps for a text append exactly that text to what is published and free the semaphore |
| SharedProgress.ReaderInstalls | server/shmmap.c:113-143 | With the semaphore free, a resting reader's steps install exactly the last published text and free the semaphore |
| SharedProgress.ServesAll | server/shmmap.c:93-143 | From the start any texts are published one after the other, and a reader installs each of them |
| SharedProgress.CanAlwaysPublish | server/shmmap.c:93-143 | No dead end: from every state reachable after a publication, whoever is inside, the processes can go on so that any text is published and the semaphore is free |
| SharedProgress.StringsHideBrackets | server/shmmap.c:124 | Brackets inside strings do not end an object |
| Lines.SplitOfText | deploy/update_inventory.py:50 | Splitting joined lines gives the lines and one empty line for the last newline |
| Lines.TextOfSplit | deploy/update_inventory.py:50-60 | Joining split lines gives the text and one more newline |
| Inventory.PassBlock | deploy/update_inventory.py:63-68 | The inner loop stops after the end marker, or at the end without one |
| Inventory.UpdateFile | deploy/update_inventory.py:49-79 | The two loops write the update's plan |
| Inventory.CreateHostsFileStr | deploy/update_inventory.py:145-151 | The loop builds the lines of the block |
| Inventory.UpdateEtcHostsFile | deploy/update_inventory.py:49-79 | The file after a deployment |
| Inventory.HostLineWords | deploy/update_inventory.py:148 | A line of the block is the address and then the name |
| Inventory.HostsBlockIsBlock | deploy/update_inventory.py:145-151 | Host lines without newlines and markers make a well-formed block |
| Inventory.BlockIsAppended | deploy/update_inventory.py:58-72 | A text without a begin marker is kept as it is, and the block follows |
| Inventory.PutPut | deploy/update_inventory.py:56-72 | For any text without a begin marker, updating with one block and then another is updating once with the second, the text staying in front |
| Inventory.PutPutExactly | deploy/update_inventory.py:56-72 | For any text at all, this holds iff it has no begin marker, or its first block is closed and from the second line after it on there are only empty lines, up to the end or to a begin marker that is never closed |
| Inventory.ReplaceableIsSettled | deploy/update_inventory.py:58-72 | That condition on the lines is the one on what an update writes: a block, and nothing but empty lines after it |
| Inventory.LineAfterBlockIsLost | deploy/update_inventory.py:62-69 | The line after a replaced block is not written, whatever it says |
| Inventory.BlockIsReplaced | deploy/update_inventory.py:58-72 | The file as it is written when its one block is replaced |
| Inventory.UnclosedBlockIsLost | deploy/update_inventory.py:61-72 | From a begin marker without an end marker on nothing is kept, and no block is written |
| QueryBuffer.HeadNamesColumns | server/pq.c:55 | The columns a statement names, in order |
| QueryBuffer.RowHasColumns | server/pq.c:74-102 | The k-th value of a row belongs to the k-th column |
| QueryBuffer.Strlen | server/pq.c:108-109 | The length of the C string in a buffer |
| QueryBuffer.Snprintf | server/pq.c:119 | What fits is written with its NUL, nothing before it changes, and the full length is returned |
| QueryBuffer.PrintRecord | server/pq.c:99-104 | The record buffer holds the group's rows, or what an earlier group left if there are none |
| QueryBuffer.Execute | server/pq.c:109-115 | What has been gathered is executed as one statement; the head stays in the buffer |
| QueryBuffer.AppendRecord | server/pq.c:108-119 | Flush if the record does not fit, then append it, cut off at the end of the buffer |
| QueryBuffer.InsertServer | server/pq.c:54-139 | The loop over a server's groups executes the specified statements |
| QueryBuffer.PqInsert | server/pq.c:54-140 | So does the loop over servers, with the record buffer carried along |
| QueryBuffer.FillBatches | server/pq.c:61-124 | As long as no record ends at the end of the buffer, every row is in an executed statement or still in the buffer, in order |
| QueryBuffer.StatementText | server/pq.c:109-115 | A statement is the head and its rows, the comma after the last being a semicolon |
| QueryBuffer.StaleRecords | server/pq.c:99-119 | A group without rows finds the record buffer empty iff only such groups come before it |
| QueryBuffer.InsertsExactly | server/pq.c:54-139 | The executed statements carry exactly the positive rows, each once and in order, iff no group without rows comes behind one that has some and no record ends exactly at the end of the buffer |
| Insertion.ClearUntilRows | server/pq.c:54-119 | The record buffer is clear from server to server until one of them has a row |
| Insertion.InsertConservesRows | server/pq.c:54-140 | The same iff over all servers, the record buffer being carried from one to the next |
| Insertion.RepeatedRecord | server/pq.c:99-119 | A group without positive values repeats the record of the group before it, whatever the groups |
| ShownRows.ShownRowsInserted | server/pq.c:51-139 | From the screen to the database: one row for each event of a shown group with a positive value, under the group's tags, and when exactly these rows arrive |
| ShownRows.LoadedServerInserted | server/pq.c:51-139 | Over every run: if the kernel had any load when a server published, its rows arrive iff no record ends at the end of the buffer |
| ShownRows.CutRecord | server/pq.c:51-139 | Published rows of sixteen jobs, as they are shown, whose records all fit the record buffer: the last one ends at the end of the query buffer and is cut |

## Left out

- Sockets, `/proc` readers, daemon start, signals, timers, configuration files and the terminal interface: input and output
  with no invariant of their own.
- json-c and libpq: parsed JSON is given as values and objects, a printed tag set is the tag set itself (an injective
  printing), and a statement handed to the database is recorded. Reference counts and the 256 byte buffers for printed tags
  are not modelled; the tokener appears only as a scanner for the first balanced object.
- Newlines inside host names: callers split on newlines first, and the regular expressions of `server/hostlist.py` treat
  them differently from other characters.
- `numerically_sorted` (so `sort=True`) and `parse_slurm_tasks_per_node`: nothing else depends on them.
- Python's recursion limit in `expand_part`, and its sort algorithm: an insertion sort with the tuple order stands for it.
- Floating-point rounding and 64 bit overflow: rates are `real`, counters unbounded.
- Names of servers' classes with `%` in them, which `is_class` would treat as a format.
- Targets shorter than 8 characters, for which `tag_stats` writes in front of its buffer; the model cuts them to nothing.
- The order in which a JSON object lists its events: the sums are proved independent of it.
- C longs of less than 64 bits, for which `xrange` overflows earlier.
- SecondShowing.ShownAgain: for rows each of which is a group of its own; `RepeatedShowing.ShownTwice` has no such
  condition.
- SecondShowing.SecondShowingIsFirst: likewise.
- RepeatedShowing.ShownTwice: for rows without an event called `load_eff`, which only `derived_events` writes.
- ServerRuns.Serve: for entries without a client that arrive with no tags but the server's; the source would leave other
  tags on them, and never reads these.
- The shell's `grep` in `server/qhost.py`: the listings are its output.
- Rates.JoinIsSearch: stated for clients and types without underscores, as Lustre forms them; `Rates.JoinExactly` covers
  the others.
- SharedMap.ProtocolIsSafe: assumes that printed objects fit the region and are well formed, so that reading one never
  fails; a crash of a process inside the region is not a step.
- `update_known_hosts_file` and the sections of the Ansible inventory; `update_ansible_inventory_file` has the same loop as
  `update_etc_hosts_file`, so the laws of `Inventory` hold for it with its own block.
- QueryBuffer.InsertsExactly: for records that fit the 8192 byte record buffer, as the loop that fills it takes for granted.
- ShownRows.CutRecord: for a format that prints 1.0 as `%f` does.
- The format of `%f` values and times in database rows is a parameter, and tag columns are taken to fit their 1024 byte
  buffer. C leaves the record buffer indeterminate at the start of each group; the model keeps its contents, as the one
  stack slot does.
