# A verified model of the log store

simple-logging collects Kubernetes container logs into segment files, one per
container and UTC day, keeps secondary indexes over them, and serves pages,
searches and downloads from them.  This project models that store and
everything that has to agree with it, and proves the agreement.

Text is bytes, time is an integer number of nanoseconds, and a file is its bytes
together with how many of them a completed fsync covers.  Code that updates
fields or loops is written as classes and methods proved against specification
functions; protocols whose steps interleave (index building, the search pool,
retention) are state machines over all their runs.

| file | models |
|---|---|
| bytes, seqs, ordering | machine integers and big-endian text; filtering and unions; stable sorting and the bounded page heap |
| lines, collector | the line cap and its UTF-8 boundary, the bounded line reader, how bytes split into lines; partial-line reassembly |
| writer, linesink, migration | the segment writer with torn writes, backoff and drop accounting; storing a line and telling the indexes; the legacy migration |
| shardcodec, indexshards, indexpages, indexvalues, indexmanager | the binary shard files, append, compaction, reference pages, value listings, and the manager over them |
| indexagreement, indexrebuild, indexreaders | the index against a plain scan: any interleaving, and write-and-observe as one step; what its readers are shown |
| mergedpaging, chunkpaging | timestamp-cursor pages over all pods; byte-offset pages and the backward scan over one container |
| download, downloadpages | the streaming merge, and its agreement with the merged pages |
| searchjobs, searchpool, searchresults | day pruning and job order, the worker pool, and what a whole search returns |
| retention, diskguard | deletion by age and by disk pressure |

`dafny verify dfyconfig.toml` checks the whole project.

A specification function is only as good as its body.  Where a theorem is stated
through one (which lines are in range, in what order, how large a page is), a
lemma named `…SpelledOut`, `…Counts`, `…Shows` or `…Exactly` says what it comes to
without it, in literal comparisons, literal constants and the bytes of the files.

What the model takes from libraries is a function parameter, and every theorem
holds for all of them: the time a line begins with (`stampOf`), the value of a
JSON key in a line (`valueOf`), the first byte of a value's hash (`shardOf`), the
date in a segment's name (`dateOf`, `formatDate`), the compiled search query
(`matches`).  The answers of the operating system (a failing write and how much
of it reached the file, a failing sync, close or removal, disk usage readings)
are method parameters, so each contract speaks of every combination of them.

## Where the code and its own words differ

* The backward scan does not count the line that begins at offset 0 of a file it
  crosses, so a page start is `n + k` lines back, with `k` the non-empty chunks
  fully crossed, not the "exactly n" of the comment
  (`server/internal/api/log_service.go:519-551`).  A last page starts at the last
  `n` lines, or at all there are, if and only if there are no more than `n` or the
  last chunk with anything in it has more than `n` by itself
  (`ChunkPaging.LastPageIsLastExactly`); two chunks of one line each and a page of
  one show the older line (`ChunkPaging.NewestLineLeftOut`).  The same holds of the
  start found for a prev token, with the part of the store before the position
  (`ChunkPaging.PageStartIsExactly`): under that condition and no other the prev page
  runs up to the page it precedes (`ChunkPaging.PrevPageJoinsExactly`), and else lines
  are skipped going back (`ChunkPaging.ThirdLineSkipped`).
* The migration removes the legacy file once every line is on disk, but a segment
  that an earlier run left with an unfinished line makes the first migrated line run
  on from it (`server/internal/storage/migration.go:82-99`).  Readers find every
  copy as a line of its own if and only if no segment the run wrote to had been left
  so (`Migration.MigrateLegacyPodFile`, `Migration.CopyRunsOn`).
* Day pruning drops a match if and only if a pruned segment has a matching line
  without a time of its own and there is no start bound to keep such lines out
  (`server/internal/api/search_service.go:108-113`, `SearchJobs.PrunedHasNoHitsExactly`,
  `SearchJobs.UntimedLineMissed`).
* A page-boundary timestamp that is not positive as 64-bit nanoseconds makes a
  token the server ignores, and the client gets the first page again, whether the
  token was a next or a prev one (`server/internal/api/workload_service.go:255-262`);
  `MergedPaging.TokenAnswer` says what any boundary time gets.  A line without a
  time of its own, such as a migrated restart separator, has the zero time.  Next
  tokens cover the lines if and only if these are one page or the first page ends
  in a positive time (`MergedPaging.NextTokensCoverExactly`); prev tokens if and
  only if the walk back goes well (`MergedPaging.PrevTokensCoverExactly`).
  `MergedPaging.NextTokensStuck` and `MergedPaging.PrevTokensRepeat` are stores on
  which they do not.
* The live index sees the uncapped line and a rebuild the capped one
  (`server/internal/collector/collector.go:945-955`), so they disagree on a line over
  the cap that carries the key, and on no other (`IndexAgreement.ObservedRightWithinCap`,
  with `IndexAgreement.OverCapLineDisagrees` for such a line).
* A failed write may leave an unfinished line (`server/internal/storage/writer.go:134-147`),
  and the next line runs on from it.  The live index points at the new line's own
  bytes; a rebuild reads the two as one.  Every reference still reads back its value
  (`IndexAgreement.IndexAgrees`); index and rebuild stay equal if and only if the
  scan gains just the reference the index is given
  (`IndexRebuild.NextWriteAgreesExactly`), which on an unfinished line means that
  none of it, the new line and the two together carries the key
  (`IndexRebuild.EvenAfterTorn`).  `IndexRebuild.TornThenWritten` is a run after
  which they differ.
* Readers treat a line without a time of its own differently: a pod's pages show it
  whatever the bounds (`server/internal/api/log_service.go:715-733`), a download and
  the merged pages only if the zero time is in range
  (`server/internal/api/download.go:196-201`).  They select the same lines if and only
  if there is no such line or the zero time is in range (`Download.FiltersAgreeExactly`).
* A search reports truncation if and only if there are at least as many matches as
  the limit, even when those were all the matches
  (`server/internal/api/search_service.go:269-274`): `SearchPool.TruncatedExactly`
  and `SearchPool.TruncatedWithNothingMissing`.
* `CapLine` looks back for a byte that is not a UTF-8 continuation byte, without a
  bound.  For valid UTF-8 at most three bytes are lost (`Lines.CappedKeepsUtf8`); for
  any line, if and only if a character starts in the last four places of the room
  (`Lines.CutLosesLittleExactly`); and a long line of continuation bytes alone keeps
  nothing but the marker (`Lines.OnlyMarkerExactly`, `Lines.StrayTailsLost`).

## Model

| member | source | states |
|---|---|---|
| Bytes.BigEndianRoundTrip | server/internal/indexes/manager.go:638-672 | decoding a fixed-width big-endian number gives the number back |
| Bytes.BigEndianInverse | server/internal/api/merge.go:78-94 | encoding a decoded big-endian text gives the text back |
| Bytes.BigEndianSpelledOut | server/internal/api/merge.go:58-76 | byte `i` of an encoded number is its digit to the base 256, the most significant first |
| Bytes.TextLessSpelledOut | server/internal/indexes/manager.go:84-89 | a text comes first if at the first byte that differs it has the smaller one, or ends there |
| Ordering.SortByMultiset | server/internal/api/workload_service.go:278-280 | sorting is a permutation |
| Ordering.SortBySorted | server/internal/api/workload_service.go:278-280 | for a strict weak order the result is in order |
| Ordering.SortedUnique | server/internal/api/workload_service.go:278-280 | entries without ties have one sorted arrangement only, so any correct sort gives it |
| Ordering.SortFilter | server/internal/api/workload_service.go:226-280 | filtering before or after a stable sort is the same |
| Ordering.PageHeap.Pop | server/internal/indexes/manager.go:98-118 | takes out one entry that no other is more extreme than, and leaves the others in place |
| Ordering.PageHeap.Offer | server/internal/indexes/manager.go:775-781 | after each push and bounded pop the heap holds exactly the page-size best of all entries seen |
| Ordering.HeldPage | server/internal/indexes/manager.go:787-800 | sorting what the heap holds gives the first or last page of the whole sorted sequence |
| Lines.CapLine | server/internal/storage/lines.go:20-29 | the loop finds the last character start that leaves room for the marker |
| Lines.Capped | server/internal/storage/lines.go:20-29 | never longer than the cap, for any bytes |
| Lines.CappedKeepsUtf8 | server/internal/storage/lines.go:12-29 | capping is idempotent, keeps valid UTF-8 valid, and of a valid line keeps all but three bytes of what fits |
| Lines.CutLosesLittleExactly | server/internal/storage/lines.go:20-29 | a line over the cap keeps all but three bytes of the room if and only if a character starts in its last four places |
| Lines.OnlyMarkerExactly | server/internal/storage/lines.go:24-28 | nothing but the marker is kept exactly when no character starts in the room past its first byte |
| Lines.StrayTailsLost | server/internal/storage/lines.go:24-28 | a line of continuation bytes alone of which nothing is kept |
| Lines.CappedByPrefix | server/internal/storage/lines.go:20-29 | lines over the cap that agree up to the cap are stored alike |
| Lines.ReadCappedLine | server/internal/storage/lines.go:39-68 | whatever the buffer size, consumes exactly one raw line and returns its first maxBytes bytes, newline trimmed |
| Lines.TrimEolSpelledOut | server/internal/indexes/manager.go:568-609 | the end of a line that readers drop is newlines and carriage returns, all of them and nothing else |
| Lines.TrimNewlineSpelledOut | server/internal/storage/lines.go:70-78 | of every possible ending at most one newline goes, and then at most one carriage return |
| Lines.ReadSlice | server/internal/storage/lines.go:45-53 | stops at the newline, at the end, or at a full buffer with the line unfinished |
| Lines.LineStarts | server/internal/indexes/manager.go:568-609 | every line read starts after a newline, and its text is the bytes at its own offset |
| Lines.LineAtBoundary | server/internal/indexes/manager.go:568-609 | what is read at any line boundary is one of the file's lines |
| Lines.HeldIsLine | server/internal/indexes/manager.go:568-609 | a stored line is one that readers find if and only if it starts one |
| Lines.AppendLine | server/internal/storage/writer.go:136-149 | writing a line adds exactly that line at the end of what readers see and moves no other |
| Lines.AppendPiece | server/internal/storage/writer.go:134-147 | whatever piece of a line reaches the end of a file changes only the unfinished line there, or starts one |
| Collector.StoredAlike | server/internal/collector/collector.go:936-956 | contents that agree up to the cap give the same stored line, whatever the prefix |
| Collector.LogicalSpelledOut | server/internal/collector/collector.go:607-639 | a run of partial pieces and the full one that ends it are one line: their contents in order, at the time of the first piece with any content, or of the last |
| Collector.UnendedRun | server/internal/collector/collector.go:607-639 | a run of partial pieces that is not ended gives no line |
| Collector.Reassemble | server/internal/collector/collector.go:607-639 | stopping the partial buffer at the cap is invisible: each logical line comes out with its time and is stored as its full concatenation would be |
| Writer.SegmentWriter.constructor | server/internal/storage/writer.go:76-95 | a new writer has no open file and its history is empty; it has content if the container has a segment |
| Writer.SegmentWriter.WriteWithLocation | server/internal/storage/writer.go:115-155 | keeps `Valid`: every location ever handed out still reads back its capped line from the segment of the line's own date, apart from all others; the line is accepted if and only if the call is outside the window and the operations it attempts succeed, and inside the window no file is touched; only this container's files change, by growing |
| Writer.SegmentWriter.MarkUnhealthy | server/internal/storage/writer.go:159-172 | a failed write starts or extends the backoff and counts the line, as the books for the call history require |
| Writer.SegmentWriter.MarkHealthy | server/internal/storage/writer.go:147-154 | the first success ends the outage and reports the lines dropped since it began |
| Writer.SegmentWriter.CountRefused | server/internal/storage/writer.go:118-124 | a line inside the window is dropped and counted, nothing else |
| Writer.SegmentWriter.RollTo | server/internal/storage/writer.go:177-214 | succeeds exactly when the sync and close of an open segment and the making and opening of the new one do; then the earlier segment is fully synced and the new one open, else none is open |
| Writer.SegmentWriter.OpenSegment | server/internal/storage/writer.go:190-214 | opens the date's segment, creating it if absent, and changes no existing file |
| Writer.SegmentWriter.Append | server/internal/storage/writer.go:134-147 | the file gets exactly the line at the end as it was found, or, of a failing write, the part that reached it, and no other file changes |
| Writer.SegmentWriter.Attempt | server/internal/storage/writer.go:125-149 | the whole write: succeeds exactly when the rollover, if one is due, the seek and the write do; the date's segment gets exactly the line, or what a failing write left, at its old end, no other segment's bytes change, and a segment that was left is synced |
| Writer.SegmentWriter.Close | server/internal/storage/writer.go:227-246 | succeeds exactly when nothing is open or its sync and close do; a clean Close of a writer that never left a segment unsynced has every accepted line on disk |
| Writer.SegmentWriter.CloseFile | server/internal/storage/writer.go:241-246 | the segment is no longer open, whether or not closing succeeds |
| Writer.StillPlaced | server/internal/storage/writer.go:105-155 | locations survive anything that only grows files; leaving a synced file keeps every line safe |
| Writer.SegmentWriter.UntouchedBy | server/internal/storage/writer.go:62-71 | whatever another container's writer does on the same store keeps `Valid` |
| Writer.OutageAccounting | server/internal/storage/writer.go:115-172 | over any run: accepted plus reported plus still-open drops are the lines offered, and start and recovery hooks alternate |
| Writer.WindowStep | server/internal/storage/writer.go:159-172 | the k-th consecutive failure opens a window of min doubled k-1 times, capped |
| Writer.WindowSpelledOut | server/internal/storage/writer.go:159-172 | the windows are 1, 2, 4, 8 and 16 seconds, and 30 from the sixth consecutive failure on |
| Writer.FailedBooks | server/internal/storage/writer.go:159-172 | the field updates of a failure match the history's failure count, window and hook trace |
| Writer.AcceptedBooks | server/internal/storage/writer.go:147-154 | the field updates of a success match the history |
| LineSink.Sink.WriteLogLine | server/internal/collector/collector.go:945-956 | a stored line reaches every index with the place it reads back from; a dropped line is counted and no index hears of it |
| Migration.MigrateLegacyPodFile | server/internal/storage/migration.go:60-114 | any run, whatever fails and wherever it dies, leaves the legacy file alone or removes it after every non-blank line has its own synced copy, in the segment of the day that line begins with (or, having no time, was read on); readers find every copy as a line if and only if no segment that got more bytes had been left with an unfinished line; the file is removed exactly when the run reports success, a run in which nothing fails does, and each other ending has its failure |
| Migration.CopyLines | server/internal/storage/migration.go:76-98 | the writer has accepted exactly the non-blank lines, in order, each filed by its own time, unless a file operation failed or the process died before the last of them |
| Migration.LegacyLinesSpelledOut | server/internal/storage/migration.go:79-87 | the lines migrated are those of the file that are not empty, in order |
| Migration.FiledByStamp | server/internal/storage/writer.go:115-155 | each accepted line lies in the segment of the day of the time it was accepted with |
| Migration.WriteOrAbort | server/internal/storage/migration.go:88-97 | a migrated line is accepted with no segment left unsynced, or the file is given up |
| Migration.AcceptedKept | server/internal/storage/migration.go:99-114 | after a clean Close every accepted line has its own synced copy |
| Migration.CopiesAreLinesExactly | server/internal/storage/migration.go:80-99 | accepted lines lie one after the other, so readers find each as a line if and only if no segment written to had been left with an unfinished one |
| Migration.CopyRunsOn | server/internal/storage/migration.go:80-114 | a removal after which no reader finds the line, as its copy runs on from one byte that an earlier run left |
| Migration.NeverLost | server/internal/storage/migration.go:60-114 | over any sequence of runs and crashes, each line is in the legacy file or in a synced copy of its own, where readers find it as a line if no segment the removing run wrote to had been left with an unfinished one |
| ShardCodec.DecodeBody | server/internal/indexes/manager.go:638-741 | an encoded body decodes to its reference, its time as a 64-bit number |
| ShardCodec.RecordLayout | server/internal/indexes/manager.go:638-672 | which bytes of a record are its length, whether the time is valid, the time, the line's offset and length, the five lengths and the five texts |
| ShardCodec.ScanShard | server/internal/indexes/manager.go:674-741 | the reading loop visits what the scan function of the file says, and fails when it does |
| ShardCodec.ScanRoundTrip | server/internal/indexes/manager.go:638-741 | scanning the magic and any list of encoded references visits exactly that list |
| ShardCodec.ScanShardPrefix | server/internal/indexes/manager.go:690-741 | scanning any prefix that has the magic visits, without an error, exactly the records wholly inside it |
| ShardCodec.WhollyInsideExact | server/internal/indexes/manager.go:700-741 | "wholly inside" is the most records that fit in the prefix |
| IndexShards.AppendAdds | server/internal/indexes/manager.go:611-636 | appending adds the reference at the end of its value's shard and nowhere else, and keeps every shard well formed |
| IndexShards.WrittenShard | server/internal/indexes/manager.go:611-672 | a file of encoded references scans back to them and is well formed |
| IndexShards.GoodIsSharded | server/internal/indexes/manager.go:830-840 | in well-formed shards every reference is in the shard of its value |
| IndexShards.CompactEffect | server/internal/indexes/manager.go:237-294 | each shard keeps exactly its available references, in order, or is untouched; the pass succeeds if and only if every shard scans |
| IndexShards.CompactTidies | server/internal/indexes/manager.go:255-290 | after a whole pass every shard left is well formed and not empty, so a torn tail is gone |
| IndexShards.CompactTwice | server/internal/indexes/manager.go:237-294 | compacting again changes nothing |
| IndexShards.CompactKeepsSharded | server/internal/indexes/manager.go:237-294 | references stay in the shard of their value, even when the pass stops early |
| IndexShards.CompactKeepsGood | server/internal/indexes/manager.go:237-294 | well-formed shards are compacted without an error and stay so |
| IndexShards.CompactChangesNothing | server/internal/indexes/manager.go:237-294 | no shard's available references change |
| IndexPages.ReadReferencePage | server/internal/indexes/manager.go:743-800 | the bounded heap finds the same entries and total as sorting all available references by validity, time and position, and slicing |
| IndexPages.ScanReferences | server/internal/indexes/manager.go:752-783 | the scan of one shard leaves the best page of all available references of the value in the heap, and counts them |
| IndexPages.EntryOrder | server/internal/indexes/manager.go:120-128 | the order of entries is a strict weak order |
| IndexPages.GetPage | server/internal/indexes/manager.go:324-386 | the page and its tokens are the requested slice of the sorted references, which `IndexPages.PageShows` spells out |
| IndexPages.WalkIndex | server/internal/indexes/manager.go:324-386 | following next tokens shows every available reference of the value exactly once, valid times first and ascending |
| IndexPages.TokensShowAll | server/internal/indexes/manager.go:324-386 | following the answers' next tokens from the first request shows exactly the lines of those references, in order, for every page size, which `IndexPages.TokensShowLines` spells out |
| IndexPages.TokensShowLines | server/internal/indexes/manager.go:324-386 | they show one line for each reference of the value whose bytes are there, as often as it is stored, and the line is the bytes at that path, offset and length |
| IndexPages.ReadLinesExact | server/internal/indexes/manager.go:802-813 | if the bytes of every reference are there, there is one line for each, and it is those bytes |
| IndexPages.MatchingSpelledOut | server/internal/indexes/manager.go:752-783 | the references a page can show are those of the value whose file is there and long enough, in the order they were indexed |
| IndexPages.OrderedSpelledOut | server/internal/indexes/manager.go:120-128 | their order: each once, valid times first and by time, equal or invalid ones as they were indexed |
| IndexPages.PageShows | server/internal/indexes/manager.go:324-386 | a page from `start` has the next lines, at most the size asked for (200 if none, 1000 at most), each the bytes at its reference; its next token is where it ends, if anything is left, and its prev token a page back, but not before the first |
| IndexPages.TokenRefusedExactly | server/internal/indexes/manager.go:340-360 | a token is refused if and only if it is no number, negative, or past the last reference |
| IndexPages.WalkCovers | server/internal/indexes/manager.go:361-386 | slices by next offset concatenate to the whole, ties included, from any start |
| IndexPages.LastPageIsAPage | server/internal/indexes/manager.go:340-386 | the last page is the page at the total minus its own length |
| IndexPages.CompactKeepsPages | server/internal/indexes/manager.go:237-386 | for a fixed log store compaction changes no page, token or error |
| IndexValues.InfoMeaning | server/internal/indexes/manager.go:421-434 | a value's figures are its number of references and its latest valid time |
| IndexValues.ListingSpelledOut | server/internal/indexes/manager.go:84-89 | a listing has each value once, with how many references it has and the latest of their valid times (or January 1 of year 1); the latest first, and equal ones by value |
| IndexValues.AvailableSpelledOut | server/internal/indexes/manager.go:815-828 | the references it counts are those whose file is there and long enough, each as often as it is stored |
| IndexValues.GroupShard | server/internal/indexes/manager.go:421-434 | the map built from one shard has each available value once, with its figures |
| IndexValues.OfferShard | server/internal/indexes/manager.go:438-444 | offering a shard's values in any order leaves the first page of everything listed so far in the heap |
| IndexValues.CollectValues | server/internal/indexes/manager.go:415-455 | grouping shard by shard yields the one global listing: its length and its first entries, latest first |
| IndexValues.ListPage | server/internal/indexes/manager.go:388-471 | a page of values is the requested slice of the one sorted listing, with its tokens and errors |
| IndexValues.PageShows | server/internal/indexes/manager.go:446-471 | a page of a listing is 50 values if no size is asked for, 200 at most; its tokens are where it ends and a page back |
| IndexValues.OwnShard | server/internal/indexes/manager.go:830-840 | a value's global figures are those of its own shard |
| IndexValues.ListingUnique | server/internal/indexes/manager.go:84-89 | references have one listing only |
| IndexValues.CountsAddUp | server/internal/indexes/manager.go:388-471 | the counts of a listing add up to the available references |
| IndexValues.WalkValues | server/internal/indexes/manager.go:446-471 | following next tokens shows every value once, in order |
| IndexValues.TokensShowAll | server/internal/indexes/manager.go:446-471 | following the answers' next tokens from any start shows exactly the rest of the listing |
| IndexValues.CompactKeepsValues | server/internal/indexes/manager.go:237-471 | compaction changes neither the available references nor whether shards scan |
| IndexValues.CompactKeepsListings | server/internal/indexes/manager.go:237-471 | every ListValues answer is the same before and after compaction, errors included |
| IndexManager.Manager.BackfillFile | server/internal/indexes/manager.go:568-609 | the loop adds, line by line, the reference of every line carrying the key |
| IndexManager.Manager.Rebuild | server/internal/indexes/manager.go:525-566 | starts from nothing and backfills the listed segments in turn, up to the first that cannot be read; other keys are untouched |
| IndexManager.Manager.Create | server/internal/indexes/manager.go:186-212 | an invalid or existing key changes nothing; a new one is registered and rebuilt, or taken back if the saving or the rebuild fails; well-formed shards stay so |
| IndexManager.Manager.Delete | server/internal/indexes/manager.go:214-232 | the key is gone exactly if the list was saved, and its shards if the removal succeeded; errors say which |
| IndexManager.Manager.AppendReference | server/internal/indexes/manager.go:611-636 | the reference goes, as stored, to the end of its value's shard, no other reference moves, and the shards of every key stay well formed |
| IndexManager.Manager.ObserveLineAt | server/internal/indexes/manager.go:298-322 | in any order of keys, every index gets the line's reference if the line has its key, nothing else changes, and well-formed shards stay so |
| IndexManager.CompactRecords | server/internal/indexes/manager.go:253-290 | the rewritten file is the magic and the records of the available references, or none |
| IndexManager.Manager.CompactKey | server/internal/indexes/manager.go:248-294 | one key's shards are compacted up to the first that does not scan |
| IndexManager.Manager.Compact | server/internal/indexes/manager.go:237-294 | succeeds if and only if every shard of every key scans, as well-formed shards do; each key is compacted or untouched |
| IndexManager.Manager.GetLogs | server/internal/indexes/manager.go:324-386 | errors for an invalid or missing key, else the page that the sorted references give |
| IndexManager.Manager.ListValues | server/internal/indexes/manager.go:388-471 | errors for an invalid or missing key, else the page of the listing |
| IndexAgreement.StepKeeps | server/internal/indexes/manager.go:186-294 | writes, failing writes, observations, deleted segments, compaction, and every step of Create and Delete keep the agreement invariant |
| IndexAgreement.IndexAgrees | server/internal/indexes/manager.go:298-322 | whatever the interleaving and whatever failed writes leave, every reference to a segment that is there reads back a text with exactly its value and the time that text begins with, or is marked as having none; the others are to segments deleted since the last compaction; once built and with no observation due, every line without bytes of a failed write that carries the key has a reference with its value and time |
| IndexAgreement.AcceptedLinesAreIndexed | server/internal/collector/collector.go:945-956 | so every accepted line carrying the key has its reference in the end, unless a failed write had left its file in the middle of a line or its segment has been deleted |
| IndexAgreement.NothingTorn | server/internal/storage/writer.go:134-147 | in a run without failed writes no line is torn |
| IndexAgreement.PieceKeeps | server/internal/storage/writer.go:134-147 | a step that only appends keeps the invariant if the line it starts or goes on with is torn or waits for its observation |
| IndexAgreement.CompactRefs | server/internal/indexes/manager.go:237-294 | of an index that agrees, compaction drops just the references to segments that are gone |
| IndexAgreement.RewrittenSegmentMisleads | server/internal/indexes/manager.go:815-828 | a deleted segment that is written again before compaction makes an old reference available that reads another line |
| IndexAgreement.AddedRef | server/internal/indexes/manager.go:568-636 | the reference made for a stored line is in its value's shard, reads back its value and its time, and disturbs no other |
| IndexAgreement.ObservedRightExactly | server/internal/collector/collector.go:945-956 | observing a stored line leaves the index in agreement if and only if capping changed neither the value the line carries nor the time that goes with it |
| IndexAgreement.ObservedRightWithinCap | server/internal/collector/collector.go:945-956 | which means that the line is within the cap, or does not carry the key |
| IndexAgreement.FaithfulExactly | server/internal/collector/collector.go:945-955 | the value and time indexed live are those the stored line carries if and only if the line is within the cap or does not carry the key, as no line carrying a JSON key ends in the marker's bracket |
| IndexAgreement.OverCapLineDisagrees | server/internal/collector/collector.go:945-955 | a line over the cap on which index and store disagree |
| IndexReaders.ReadersSee | server/internal/indexes/manager.go:324-386 | of an index that agrees with the store, next tokens show lines that carry the value asked for, each from where its reference says, those with a time of their own first and in the order of these times |
| IndexReaders.IndexServes | server/internal/indexes/manager.go:298-386 | so over any run, once built and with no observation due; and among them is every intact line of the store that carries the value, at a place of its own |
| IndexRebuild.AtomicRunExact | server/internal/collector/collector.go:945-956 | when write and observe are one step, over any run, failed writes included, the shards stay well formed; and if every step is even the references are, with multiplicity, those a scan of the store gives |
| IndexRebuild.LiveEqualsRebuild | server/internal/indexes/manager.go:525-566 | after a run of even steps they equal a rebuild's, in whatever order it lists the segments |
| IndexRebuild.NextWriteAgreesExactly | server/internal/indexes/manager.go:525-566 | after such a run the next write, failed or not, leaves index and rebuild equal if and only if it is even |
| IndexRebuild.StaysExactExactly | server/internal/storage/writer.go:134-147 | even means that the scan's reference for the last line changes by just the reference the live index is given |
| IndexRebuild.EvenAfterWhole | server/internal/collector/collector.go:945-956 | after a finished line, a write is even if and only if the line gives the reference its stored form gives |
| IndexRebuild.EvenAfterTorn | server/internal/storage/writer.go:134-147 | after an unfinished line, if and only if none of it, the new line and the two together carries the key |
| IndexRebuild.EvenTear | server/internal/storage/writer.go:134-147 | a failed write after a finished line is even if and only if what it leaves carries no key |
| IndexRebuild.CleanRunIsEven | server/internal/collector/collector.go:945-956 | without failed writes, and with lines that give the reference their stored form gives, every step is even |
| IndexRebuild.TornThenWritten | server/internal/storage/writer.go:134-147 | a run with one failed write after which index and rebuild differ |
| IndexRebuild.RebuildAdds | server/internal/indexes/manager.go:525-609 | a rebuild adds each listed segment's references once |
| MergedPaging.MergedLogsPage | server/internal/api/workload_service.go:182-304 | memory for one page, over any files, answers as sorting all lines by time, filtering and slicing would, tokens included |
| MergedPaging.TimelineCounts | server/internal/api/workload_service.go:208-248 | the lines selected, with multiplicity: those whose time (January 1 of year 1 if a line begins with none) is neither before the start nor after the end in seconds, a zero bound being none |
| MergedPaging.TimelineSpelledOut | server/internal/api/workload_service.go:208-280 | they are in time order, and those of the same time are in scan order |
| MergedPaging.PageSpelledOut | server/internal/api/workload_service.go:276-304 | a page is the first of them past its token, or the last before it, as many as asked for (200 if no number is, 1000 at most); which tokens it has, and what they decode to |
| MergedPaging.ScanChunk | server/internal/api/workload_service.go:238-275 | one file's lines leave in the heap the best page of all lines scanned so far, and count every match |
| MergedPaging.ScanAll | server/internal/api/workload_service.go:218-276 | all files leave in the heap the best page of all lines, and count every match |
| MergedPaging.StripSorted | server/internal/api/merge.go:51-56 | ordering by time and scan order is a stable sort by time |
| MergedPaging.TokenRoundTrip | server/internal/api/merge.go:58-94 | a token decodes to a cursor if and only if it is that cursor's encoding |
| MergedPaging.NextTokensCover | server/internal/api/workload_service.go:276-304 | if the first page is all or ends in a positive time, next tokens end, repeat nothing and omit only lines tied with a page's last time; with distinct times they give exactly the sorted, filtered lines |
| MergedPaging.NextTokensCoverExactly | server/internal/api/workload_service.go:255-304 | for all times Go gives in 64-bit nanoseconds and the zero time, they cover if and only if the first page is all or ends in a positive time |
| MergedPaging.NextTokensStuck | server/internal/api/workload_service.go:255-262 | two lines, one without a time, on which pages of one do not cover |
| MergedPaging.PrevTokensCoverExactly | server/internal/api/workload_service.go:255-304 | prev tokens from the last page cover if and only if every boundary time met is positive, or the first page, the answer to one that is not, is all that is left but for ties; with distinct times they then give exactly the lines |
| MergedPaging.PositiveGoesWell | server/internal/api/workload_service.go:287-304 | as it always is with positive times, but for a first line perhaps |
| MergedPaging.PrevTokensRepeat | server/internal/api/workload_service.go:255-262 | three lines, two without a time, on which pages of two going back do not cover |
| MergedPaging.ForwardCovers | server/internal/api/workload_service.go:255-262 | coverage with ties from any position of the timeline |
| MergedPaging.CollectBackward | server/internal/api/workload_service.go:287-304 | the same condition from any position of the walk back |
| MergedPaging.PrevThenNext | server/internal/api/workload_service.go:282-304 | from a page reached by a next token, the prev page is empty exactly at the start; otherwise its next token returns the same page with the same tokens if and only if it ends in a positive time |
| MergedPaging.TokenAnswer | server/internal/api/workload_service.go:193-262 | the token of any boundary time, next or prev, is answered from past the number it decodes to if that is positive, else with the first page |
| ChunkPaging.ChunkReader.ReadLine | server/internal/api/log_service.go:476-497 | returns the next line of the concatenated chunks, and fails exactly when none is left |
| ChunkPaging.ChunkReader.HasMoreAfterCurrent | server/internal/api/log_service.go:501-506 | yes exactly when lines are left or there is a later chunk |
| ChunkPaging.ReadPage | server/internal/api/log_service.go:643-694 | the lines shown and what is left are all matching lines from the position; a short page means none are left |
| ChunkPaging.RemainingSpelledOut | server/internal/api/log_service.go:715-733 | a matching line is one without a time of its own, or with one between the bounds |
| ChunkPaging.RestSpelledOut | server/internal/api/log_service.go:426-497 | the lines from a position are those of its file from there on, and then those of the later files in turn |
| ChunkPaging.ScanBlock | server/internal/api/log_service.go:526-549 | one block, scanned from its end, counts its newlines and finds the one that completes the count |
| ChunkPaging.ScanBackward | server/internal/api/log_service.go:508-552 | for any block size: the line start exactly `need` lines before the end if more than `need` lines are there, else offset 0 and a count short by the line that begins there |
| ChunkPaging.FindPageStartBefore | server/internal/api/log_service.go:554-584 | lands on a line start `n` plus the crossed chunks back, or at the start of the first chunk when there are fewer |
| ChunkPaging.FindChunk | server/internal/api/log_service.go:377-384 | the first chunk of that container and segment, or none has them |
| ChunkPaging.GetLogs | server/internal/api/log_service.go:589-710 | page plus all its next token can reach are all that the requested position reaches; the page is the first lines from there, up to the size asked for, that do not begin with a time before the start or after the end; which requests are answered, from where, with which tokens, and which get which error |
| ChunkPaging.ShowAll | server/internal/api/log_service.go:643-694 | following next tokens from the first request ends, and shows in order exactly the lines of all segments that do not begin with a time before the start or after the end, on full pages but for the last |
| ChunkPaging.RestCount | server/internal/api/log_service.go:426-506 | the forward reader sees as many lines as the backward count says |
| ChunkPaging.LastPageMissesCrossed | server/internal/api/log_service.go:519-551 | a last page starts `n + k` lines before the end, or at the very start when fewer are there |
| ChunkPaging.LastPageIsLastExactly | server/internal/api/log_service.go:519-584 | it starts at the last `n` lines, or at all there are, if and only if there are no more than `n` or the last chunk with anything in it has more than `n` by itself |
| ChunkPaging.NewestLineLeftOut | server/internal/api/log_service.go:519-584 | two chunks of one line each, and a page of one that starts at the older line |
| ChunkPaging.PageStartIsExactly | server/internal/api/log_service.go:519-584 | from any position, the start found is exactly `n` lines back, or the first when there are fewer, if and only if there are no more than `n` before the position or the last filled part before it has more than `n` by itself |
| ChunkPaging.PrevPageJoinsExactly | server/internal/api/log_service.go:696-706 | a prev page runs up to the page it precedes under that condition and no other; else lines are on neither |
| ChunkPaging.ThirdLineSkipped | server/internal/api/log_service.go:696-706 | two chunks of two lines each, and pages of one, going back over which the third line is never shown |
| ChunkPaging.NextPage | server/internal/api/log_service.go:643-694 | a client's request for its next page is one of the run's steps, and it goes on only after a full page |
| ChunkPaging.EventKeepsTotal | server/internal/api/log_service.go:643-694 | pages, appended lines, new segments and deleted earlier segments repeat and skip nothing |
| ChunkPaging.RunShowsAll | server/internal/api/log_service.go:426-506 | over any run a client that reaches the end was shown, in order, every line that was ahead of it and every line appended meanwhile, each once |
| ChunkPaging.PagesMakeProgress | server/internal/api/log_service.go:687-694 | every page but a last one shows something, so a client not yet done has seen at least a line a page |
| ChunkPaging.FirstClient | server/internal/api/log_service.go:643-660 | the first request has all matching lines of all segments ahead of it |
| Download.PodLineIterator.Next | server/internal/api/download.go:188-203 | yields the container's next line in range with its time; none means none is left |
| Download.InRangeSpelledOut | server/internal/api/download.go:188-203 | the lines in range are those whose time, or the zero time, is between the bounds, in order |
| Download.FiltersAgreeExactly | server/internal/api/download.go:196-201 | the filter of a pod's pages selects the same lines, in order, if and only if every line has a time of its own or the zero time is in range |
| Download.MergeLinesByTime | server/internal/api/download.go:231-271 | the output is an interleaving of the sources, each whole and in its own order, in time order if every source is, lines of the same time in the order they were read ahead, with at most one line a source held |
| Download.Peek | server/internal/api/download.go:236-244 | refilling takes the first line ahead of one source and touches no other |
| Download.PopStep | server/internal/api/download.go:253-260 | one round writes a least held line and keeps every source accounted for |
| DownloadPages.DownloadSelectsTimeline | server/internal/api/download.go:231-271 | the download has exactly the lines the merged pages select from the same segments, however listed |
| DownloadPages.DownloadIsAllPages | server/internal/api/workload_service.go:226-304 | with distinct times and a first page that ends in a positive one, the download equals the pages got by following next tokens |
| SearchJobs.SearchJobsFor | server/internal/api/search_service.go:96-124 | the jobs are the listed segments whose date is in the window, in listing order |
| SearchJobs.PrunedHasNoHitsExactly | server/internal/api/search_service.go:91-112 | a pruned segment whose timed lines lie in their own day has no match if and only if it has no matching line without a time of its own that the bounds let through |
| SearchJobs.UntimedLineMissed | server/internal/api/search_service.go:111-113 | a search bounded at the end only, and a pruned segment with such a line |
| SearchJobs.WindowTouchesFewDays | server/internal/api/search_service.go:91-95 | at most one segment a container for each day the bounds touch: two for any 24 hours |
| SearchJobs.SortedWindowIsQueued | server/internal/api/search_service.go:198-209 | the job comparison is a strict weak order, so the sorted jobs are a queue by date, pod and container |
| SearchJobs.QueuedSpelledOut | server/internal/api/search_service.go:96-209 | the queue is each listed segment, as often as listed, whose date is from the day of the start bound to the end bound; newest or oldest first as asked, then by pod and container |
| SearchJobs.HitSpelledOut | server/internal/api/search_service.go:304-330 | a hit is a line whose time, or January 1 of year 1, is between the bounds and whose message matches |
| SearchJobs.MessageSpelledOut | server/internal/api/search_service.go:346-353 | the message is what follows the first mark, or the whole line if there is none |
| SearchJobs.StoredLineMessage | server/internal/api/search_service.go:346-353 | the message of a line the collector stored is the content it was given, as there is no bracket in names and times |
| SearchJobs.MessageFound | server/internal/api/search_service.go:346-353 | the message of a stored line is found again whatever it contains |
| SearchPool.StepKeeps | server/internal/api/search_service.go:227-286 | every step of the feeder, the workers, the consumer and cancellation keeps the pool's invariant |
| SearchPool.SentIsSafe | server/internal/api/search_service.go:259-275 | on every schedule at most the limit is sent, and of each segment a first part of its matches, in line order |
| SearchPool.EndedIsComplete | server/internal/api/search_service.go:219-287 | ending untruncated and not cancelled means all matches of every file opened were sent; truncation is reported if and only if the limit was sent |
| SearchPool.TruncatedExactly | server/internal/api/search_service.go:219-287 | a search that ran to its end over readable files reports truncation if and only if there are at least as many matches as the limit, and has left something out exactly when there are more |
| SearchPool.TruncatedWithNothingMissing | server/internal/api/search_service.go:269-274 | a run that reports truncation with every match sent |
| SearchPool.StepsRunOut | server/internal/api/search_service.go:211-286 | every step brings the end nearer |
| SearchPool.RunsAreBounded | server/internal/api/search_service.go:211-286 | so no schedule runs longer than the measure of its start |
| SearchPool.NeverStuck | server/internal/api/search_service.go:276-282 | no deadlock: until everything has ended a step other than cancelling is possible |
| SearchResults.PruningLosesNothingExactly | server/internal/api/search_service.go:91-124 | the matches of the queued segments are those of all listed segments if and only if no pruned one has such a line |
| SearchResults.SearchIsComplete | server/internal/api/search_service.go:148-288 | an untruncated, uncancelled search streams exactly the matches a scan of every listed segment finds, whatever the schedule, if and only if no pruned segment has such a line |
| SearchResults.EarlierSegmentsStarted | server/internal/api/search_service.go:152-155 | when a match has been streamed, every segment before its own in scan order has been handed out |
| Retention.NextDailySweep | server/internal/storage/retention.go:96-105 | a midnight plus the delay, after now |
| Retention.NextDailySweepIsFirst | server/internal/storage/retention.go:96-105 | and the first such |
| Retention.SweepContainer | server/internal/storage/retention.go:191-212 | deletes exactly the listed, expired and removable files, and counts them |
| Retention.SweepSegments | server/internal/storage/retention.go:125-163 | the same over all containers |
| Retention.SweepSides | server/internal/storage/retention.go:109-114 | a deleted segment's lines are all older than the retention; a line a day older than that is deleted |
| Retention.StepKeeps | server/internal/storage/retention.go:69-123 | waiting, arrivals and sweeps, daily or not, keep the age bound |
| Retention.StoredLinesAreYoung | server/internal/storage/retention.go:63-105 | over any run a stored line is at most the retention, a day, five minutes and the timer's lateness old, and exactly so only when a sweep is due |
| Retention.YoungLinesStay | server/internal/storage/retention.go:107-123 | over any run a line no older than the retention is still stored |
| DiskGuard.ByAgeIsRanked | server/internal/storage/diskguard.go:159-207 | every segment once, oldest first, and nothing else |
| DiskGuard.DeleteOldest | server/internal/storage/diskguard.go:116-142 | deletes the removable closed segments of an oldest-first prefix, each after a reading at or above the low mark, and stops early only on a reading below it or a failed one |
| DiskGuard.Check | server/internal/storage/diskguard.go:86-152 | nothing below the high mark or without a listing; otherwise that deletion, with the deleted and skipped counts |
| DiskGuard.OldestGoFirst | server/internal/storage/diskguard.go:83-152 | open segments stay; no survivor that could have gone is older than a deleted one; if the last reading is still at or above the low mark every removable closed segment is gone |

## Left out

- IndexAgreement.IndexAgrees: asks of each line written that it has no newline in it and no carriage return at its end, that capping changes neither the value it carries nor the time that goes with it, and of each line readers then find that it is shorter than 4 GiB and its record within 64 MiB; a write, failed or not, reaches readers in one piece; a segment is deleted with none of its lines waiting for its observation and no running Create still to read it, and is not written again before the index is compacted (`IndexAgreement.RewrittenSegmentMisleads`).
- IndexRebuild.AtomicRunExact: asks the same of lines and records, but not that capping keeps the value and its time; its runs have no deleted segments and no compaction.
- IndexValues.ListPage: asks that every reference is in the shard of its value; the manager's `Valid` implies it (`IndexShards.GoodIsSharded`), holds of a new manager, and is kept by every operation whose records are within the size limit.
- IndexManager.Manager.ListValues: asks the same of the key's shards.
- ChunkPaging.RunShowsAll: a line is appended to a segment without an unfinished one, at the cursor's segment or a later one, and a new segment is the last, as one writer per container and a forward clock give; without such changes `ChunkPaging.ShowAll` asks nothing of the segments.
- SearchResults.SearchIsComplete: asks of the pruned segments that a line with a time of its own lies in the segment of that UTC day, which it does if it begins with the time it was filed by, as collected lines do; and that no file vanished between listing and opening.
- IndexManager.Manager.Create: does not model a removal of old shards that fails, nor a rebuild that fails inside a segment.
- Index files: I/O errors while reading or writing shard files, loading the saved list of keys, and the migration of old index files; a shard write is whole.
- DownloadPages.DownloadSelectsTimeline: takes the two readers to give the same lines; for a line that ends in two carriage returns or more they do not, as the pages' scanner drops one and the download's reader all, but no stored line of the premises ends in one.
- bufio.Scanner: its error for a line over the buffer, which would end a file early in the merged pages and the search.
- Directory clean-up, meta.json, and the sweep of legacy files by modification time: single-branch facts about empty directories.
- Files opened by a reader stay as they are during one request; chunks that vanish between being listed and being opened are modelled in the search only.
- Segments deleted while a writer has them open: the retention and disk-guard models delete files no open writer is about to append to, and the disk guard's set of open segments is fixed during one check.
- Two writers on one container path, and index appends after a torn record, are outside the store's own premises.
- fsync of directory entries: a created file is taken to be found again after a crash.
- container/heap and sort.Slice: specified by their contracts; `PageHeap` picks the extreme entry by a linear pass.
- Ordering.PageHeap.Pop: does not say which of several equally extreme entries comes out, because container/heap leaves it open; every order used with the heap breaks ties by position or value.
- Writer.SegmentWriter.WriteWithLocation: does not model a drop-state hook that is replaced while the writer is in use; whether there is one is fixed at construction.
- ChunkPaging.GetLogs: does not model a chunk that fails to open during a request, nor 64-bit limits of offsets; sums of page sizes are unbounded integers.
- MergedPaging.NextTokensCoverExactly: speaks of times that have a 64-bit nanosecond, and the zero time; for others Go leaves the token's number undefined, and `MergedPaging.TokenAnswer` takes it to wrap.
- Download.MergeLinesByTime: does not model a failing write to the client or a failing read, at which the original stops, nor flushing.
- SearchPool.TruncatedExactly: asks that no file vanished between listing and opening; `SearchPool.EndedIsComplete` says what holds for the others when one did.
- Retention.StoredLinesAreYoung: speaks of files whose removal did not fail at the last sweep; a stuck file is retried by every later sweep but may stay for ever.
- Migration.MigrateLegacyPodFile: takes the container a legacy file goes to as given; the original reads it from the file's first bracketed tag (`server/internal/storage/migration.go:118-139`).
- IndexPages.TokensShowLines: asks that no reference to a file that is there has an offset and length that add up to 2^63 or more, for which the original's sum wraps; of an index that agrees with the store none has (`IndexReaders.ReadersSee`).
- Base64 and JSON, regular expressions, RFC 3339 parsing and SHA-256: function parameters, or left to the transport.
- Live tail, fsnotify waiting, the Kubernetes informer, HTTP handlers, metrics and the web front end.
