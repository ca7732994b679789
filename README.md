# Support-chat aggregation, modelled in Dafny

This project models the core of a small support-analysis tool. The tool imports a
tab-separated transcript of support chats. Each line is one message, an *entry*.
Entries are folded into one aggregate record per chat, a *chat*. A CSV report
then prints one row of metrics per chat.

The model has six modules, one file each:

- `wrappers.dfy` (`Wrappers`): the `Option` type.
- `text.dfy` (`Text`): the Go string operations the parser and the entry predicates use, as explicit scanners:
  - `strings.Split`, `strings.Join` and `strings.TrimSpace`, with Unicode white space;
  - `strings.Contains`;
  - the `\w+` token count, where `\w` is ASCII `[A-Za-z0-9_]`;
  - the link pattern `http[s]://\w+`, which matches only `https://` followed by a word character.
- `entries.dfy` (`Entries`):
  - the entry record and its predicates;
  - the chat id: the text inside the first `[...]` of the title, the lazy match of `\[(.*?)\]`;
  - the channel: `community` when the chat id contains `C`, otherwise `zendesk`;
  - the line parser of `addEntry`.
- `chats.dfy` (`Chats`):
  - the chat state as a value, and the fold of one entry as a function of the old state;
  - the chat invariant;
  - order-independence of the fold;
  - the mutable `Chat` record, whose methods `AddAuthor` and `UpdateEntry` update its fields in place and are proved against the fold.
- `ingestion.dfy` (`Ingestion`):
  - `getChat`'s decision: found, newly opened, or skipped;
  - one line of `addEntry` applied to an abstract store (chats keyed by chat id, plus the entries in insertion order);
  - the import loop, which stops at the first failing line;
  - a `Database` class holding the two collections.
- `report.dfy` (`Report`):
  - Go's truncating integer division;
  - UTC weekday and midnight, and `HoursLapseWorkingDays`;
  - the elapsed and time-to-first columns;
  - the support level, `BoolFormat`, the person column;
  - the 18-cell row in header order, and the loop over all chats.

Main results:

- One fold sets start and end to the minimum and maximum timestamp.
- The last-responder flag moves only on a strictly later entry.
- Exactly one interaction counter grows.
- The author list stays free of duplicates and grows only at its end.
- Over a whole sequence of entries, the first response is the earliest support reply, or 0 when no support reply came. This needs support replies to have non-zero timestamps (`Chats.FirstResponseIsEarliest`).
- The link flags never reset.
- Folding any permutation of the same entries gives the same chat, up to the order of the author list.
  - This needs support replies to have non-zero timestamps. 0 is the "no response yet" value, and a lemma shows the order dependence it causes.
  - The last-responder flag is included only when all timestamps differ.
- The store invariant: every stored chat was opened by its first entry, which is the customer's, and equals the fold of exactly its own entries, in insertion order. Every line and every import run keeps this invariant.
- A weekend start rolls forward to the next Monday's midnight.
- The time-to-first column is characterised exactly, including when it shows `-1`.

Behaviour of the code worth noting:

- **Which entry opens a chat.** A chat is opened by a *customer* entry for an unknown chat id. A *support* entry for an unknown id is dropped (thread.go:177-196).
- **Line format errors.** A line with fewer than five fields, or with a bad timestamp, makes `addEntry` return an error. `import_data` then stops the run (main.go:72-74).
- **Storage writes.** The error of the chat write-back `chat.Update()` is ignored (thread.go:166).
- **Time-to-first `-1`.** The column shows `-1` when the first response precedes the start. It also shows `-1` for a weekend start answered between two hours (exclusive) and one hour (inclusive) before the following Monday's midnight, because the latency truncates to `-1`. `Report.TimeToFirstSentinel` states both cases. `Report.AnsweredChatCanShowSentinel` gives a concrete one.

Parameters and abstractions:

- `time.Parse` with the input layout is a parameter `parseTime: string -> Option<int>` (Unix seconds).
- Time-zone-dependent computations use UTC: weekday `(t / 86400 + 4) % 7` with 0 = Sunday, and midnight `(t / 86400) * 86400`. Both use floor division, which is what Go's calendar computation does for negative times too.
- `log.Fatalln` and returned errors become result values: `ParseResult`, `LineOutcome` and `ImportOutcome`.

## Model

| member | source | states |
|---|---|---|
| `Text.ContainsSpec` | thread.go:31-33 | `Contains(s, pat)` holds exactly when `pat` occurs in `s` at some index |
| `Text.ContainsChar` | thread.go:152 | containing the one-character string `[c]` is the same as `c` being in the string |
| `Text.Split` | thread.go:123 | splitting gives at least one field, and no field contains the separator |
| `Text.JoinSplit` | thread.go:123 | joining the split fields back with the separator gives the original text, so Split loses nothing |
| `Text.SplitLength` | thread.go:123-124 | the number of fields is the number of separators plus one |
| `Text.JoinSplitReplace` | thread.go:150 | joining the tab-split fields with a space turns every tab into a space |
| `Text.TrimSpace` | thread.go:133-134 | the result is a slice of the input with only white space cut before and after it, has no leading or trailing white space, and is the input itself when that was already trimmed |
| `Text.TrimSpaceIdempotent` | thread.go:133-134 | trimming twice equals trimming once |
| `Text.WordsFromAreWords` | thread.go:23-26 | every `\w+` token found is a non-empty run of ASCII word characters |
| `Text.WordCountIsRunStarts` | thread.go:23-26 | the token count equals the number of positions where a run of word characters begins |
| `Text.WordCountZero` | thread.go:23-26 | the count is 0 exactly when the text has no word character (empty, white-space-only and punctuation-only replies) |
| `Text.WordCountExamples` | thread.go:23-26 | `""` and `"   "` count 0; `"hello, world!!"` counts 2 |
| `Text.MatchesLinkSpec` | thread.go:34-37 | the link test holds exactly when `https://` followed by a word character occurs somewhere |
| `Text.LinkExamples` | thread.go:34-37 | `"see https://x.example/y"` matches; `"see http//bad"` and `"http://x"` do not |
| `Text.NoLinkWithoutColon` | thread.go:34-37 | a reply without `:` never matches the link pattern |
| `Entries.IsCustomer` | thread.go:27-29 | an entry is the customer's exactly when its author is `customer`; the fold lemmas below state what each side changes |
| `Entries.WordCount` | thread.go:23-26 | the `\w+` token count of the reply; its properties are `Text.WordCountIsRunStarts` and `Text.WordCountZero` |
| `Entries.HasLink` | thread.go:34-37 | the link test on the reply; its meaning is `Text.MatchesLinkSpec` |
| `Entries.HasDocLink` | thread.go:31-33 | the reply contains `docs.bitnami.com`; its meaning is `Text.ContainsSpec` |
| `Entries.ChannelOf` | thread.go:152-156 | the channel is community exactly when the chat id contains `C` |
| `Entries.FindBracketFrom` | thread.go:137-138 | finds the leftmost `[` whose lazy group closes at the first `]` with no newline before it, or reports that there is none |
| `Entries.ChatIdOf` | thread.go:137-142 | a chat id exists exactly when the title has a `[...]` match; it is the text inside the leftmost match |
| `Entries.ChatIdOfBracketed` | thread.go:137-142 | a title made of a prefix without `[`, then `[id]` with no `]` or newline in `id`, then anything, yields `id` |
| `Entries.ParseLine` | thread.go:123-156 | too few fields exactly when the line has fewer than four tabs; a parsed entry has the channel of its chat id, the chat id of its title, and trimmed URL and author; `Entries.ParseFormatted` pins every field |
| `Entries.ParseFormatted` | thread.go:123-156 | a line laid out from tab-free fields parses back to those fields, with URL and author trimmed, the parsed time, the title's chat id, its channel, and the reply's tabs turned into spaces |
| `Entries.ParseMissingChatId` | thread.go:137-141 | the fatal missing-id case happens exactly for a line with enough fields and no bracketed id in its title |
| `Entries.ParseBadTimestamp` | thread.go:144-149 | the timestamp error happens exactly when there are enough fields, the chat id was found, and the time field does not parse |
| `Chats.Step` | thread.go:77-113 | the fold on what it reads from an entry; `Chats.FoldSpan` to `Chats.FoldValid` and `Chats.StepCommutes` state its properties |
| `Chats.Fold` | thread.go:77-113 | UpdateEntry as a function of the old state; `Chats.Chat.UpdateEntry` is proved equal to it, and the lemmas below state what it does |
| `Chats.FoldSpan` | thread.go:83-88 | start becomes the minimum and end the maximum of the old value and the entry's timestamp, so start <= end is kept |
| `Chats.FoldLastResponder` | thread.go:86-89 | the last-responder flag changes only for a strictly later entry, and then says whether the customer wrote it |
| `Chats.FoldCounters` | thread.go:91-96 | exactly one interaction counter grows by one; only its word counter grows, by the reply's word count |
| `Chats.FoldAuthors` | thread.go:68-75 | a customer entry leaves the authors alone; a new support author is appended at the end; a known one changes nothing; no duplicates appear |
| `Chats.FoldFirstResponse` | thread.go:98-104 | a support reply sets the first response when it was 0, else lowers it to the minimum; a customer entry leaves it |
| `Chats.FoldStickyFlags` | thread.go:105-110 | the link and doc flags never reset, and turn on exactly through a support reply with such a link |
| `Chats.FoldKeepsIdentity` | thread.go:77-113 | the fold never changes chat id, title, URL or channel |
| `Chats.FoldValid` | thread.go:77-113 | the fold keeps the chat invariant (span order, distinct non-customer authors, counter relations, first response inside the span, flags only after a support reply) |
| `Chats.FoldCongruent` | thread.go:77-113 | chats equal up to author order stay so after folding the same entry |
| `Chats.StepCommutes` | thread.go:77-113 | when no support reading is stamped 0, two readings in either order give chats equal up to author order (and up to the last-responder flag unless the timestamps differ) |
| `Chats.FoldCommutes` | thread.go:77-113 | two entries in either order give equivalent chats when no support reply is stamped 0 |
| `Chats.SpanCommutes` | thread.go:83-89 | start and end do not depend on arrival order; neither does the last-responder flag when the timestamps differ |
| `Chats.ZeroStampBreaksOrder` | thread.go:98-104 | a support reply stamped 0 makes the first response depend on order (0 in one order, 5 in the other) |
| `Chats.FoldAllCongruent` | thread.go:77-113 | equivalence survives folding any common sequence of entries |
| `Chats.FoldAllMoveToFront` | thread.go:77-113 | when p, x, q are orderless (no support reply stamped 0, and, when the last-responder flag is compared, all timestamps distinct), folding p, x, q is equivalent to folding x first, then p and q |
| `Chats.FoldAllPermutation` | thread.go:77-113 | when no support reply is stamped 0, folding any rearrangement of the same entries gives an equivalent chat: equal in every field but the author order, and also in the last-responder flag when all timestamps differ |
| `Chats.FirstResponseIsEarliest` | thread.go:98-104 | when no support reply is stamped 0, the first response after folding a sequence is the least of the starting value (when set) and every support timestamp, and 0 exactly when it started unset and no support reply came |
| `Chats.Chat.AddAuthor` | thread.go:68-75 | the author list is unchanged when the author is listed, and otherwise has the author appended |
| `Chats.Chat.MoveSpan` | thread.go:83-89 | start and end move out to the timestamp, and a strictly later entry sets the last-responder flag |
| `Chats.Chat.CountSupport` | thread.go:94-111 | the support half of the update: words, count, author, first response and link flags |
| `Chats.Chat.UpdateEntry` | thread.go:77-113 | the record's new fields are the fold of its old fields with the entry |
| `Ingestion.Resolve` | thread.go:173-200 | found exactly when the id is stored; skipped exactly when it is unknown and the author is support; otherwise a new chat for a customer entry, with the entry's id, title, URL and channel, start = end = timestamp, all counters and the first response 0, no authors and every flag false |
| `Ingestion.NewChat` | thread.go:188-196 | the chat getChat opens; `Ingestion.Resolve` states its fields |
| `Ingestion.Ingest` | thread.go:115-170 | addEntry on the store; `Ingestion.IngestFailure`, `IngestOrphan`, `IngestSeeds`, `IngestUpdates` and `IngestPreservesStoreValid` state what it does |
| `Ingestion.IngestFailure` | thread.go:123-149 | a line fails exactly when it does not parse, with the parser's reason, and the store is left unchanged |
| `Ingestion.IngestOrphan` | thread.go:161-164 | a support line for an unknown chat is skipped and changes nothing |
| `Ingestion.IngestSeeds` | thread.go:177-196 | a customer line for an unknown chat opens exactly that chat, with title/URL/id/channel from the entry, start = end = timestamp, one customer interaction, no last-responder flag, no first response; other chats stay |
| `Ingestion.IngestUpdates` | thread.go:161-168 | a line for a known chat folds its entry into that chat only and appends the entry |
| `Ingestion.EntriesForMembers` | thread.go:168 | the entries kept for a chat id are exactly the stored entries with that id |
| `Ingestion.FoldAllValid` | thread.go:77-113 | folding a sequence of entries keeps the chat invariant |
| `Ingestion.EmptyStoreValid` | main.go:13-14 | an empty database satisfies the store invariant |
| `Ingestion.StoreChatsValid` | thread.go:203-231 | in a valid store every chat satisfies the chat invariant and carries its key as its id |
| `Ingestion.NoEntriesForUnknownId` | thread.go:161-168 | no stored entry belongs to a chat id with no stored chat |
| `Ingestion.AppendPreservesStoreValid` | thread.go:161-168 | storing a folded chat and its entry keeps each chat equal to the fold of its own entries |
| `Ingestion.IngestPreservesStoreValid` | thread.go:115-170 | adding a line keeps the store invariant |
| `Ingestion.IngestOnlyAdds` | thread.go:161-168 | a line keeps earlier entries first, adds at most one entry and removes no chat |
| `Ingestion.ImportPreservesStoreValid` | main.go:63-81 | an import run, complete or stopped, keeps the store invariant |
| `Ingestion.ImportRun` | main.go:63-81 | the import loop as a function; `Ingestion.ImportCompletes`, `ImportStopsAtFirstBadLine`, `ImportOnlyAdds` and `ImportPreservesStoreValid` state what it does |
| `Ingestion.ImportRunStep` | main.go:71-75 | a first line that does not parse stops the run at line 0 with that line's reason and leaves the store unchanged; otherwise the rest of the lines run on the updated store, one line later |
| `Ingestion.ImportCompletes` | main.go:71-75 | the run completes exactly when every line parses |
| `Ingestion.ImportStopsAtFirstBadLine` | main.go:71-75 | a stopped run names the first line that does not parse, with its reason |
| `Ingestion.ImportOnlyAdds` | main.go:71-75 | a run only adds: earlier entries stay first, no chat disappears, at most one entry per line |
| `Ingestion.Database.AddEntry` | thread.go:115-170 | the database after one line, and the reported outcome, are those of one ingested line (the chat is loaded into a fresh record, updated in place and written back) |
| `Ingestion.Database.Import` | main.go:63-81 | the database after the loop, and the outcome, are those of the import run |
| `Report.TruncDiv` | report.go:133 | Go's int64 `/`, truncating toward zero; `Report.TruncDivRemainder` and `Report.TruncDivNegate` characterise it |
| `Report.TruncDivRemainder` | report.go:133 | truncating division leaves a remainder with the dividend's sign, smaller than the divisor |
| `Report.TruncDivNegate` | report.go:133 | truncating division is symmetric about zero |
| `Report.Weekday` | report.go:124-128 | the UTC weekday is in 0..6 |
| `Report.WeekdayCalendar` | report.go:124-128 | 1970-01-01 is a Thursday, a day later is the next weekday, and a week later is the same weekday |
| `Report.Midnight` | report.go:126-131 | midnight is a multiple of a day, at or before the time and less than a day before it |
| `Report.EffectiveStart` | report.go:121-132 | the start the latency is measured from; `Report.WeekendStartRollsToMonday` states it for weekend starts |
| `Report.HoursLapseWorkingDays` | report.go:121-134 | whole hours from the effective start, truncated toward zero; `Report.WeekdayStartLatency` and `Report.WeekendLatencyExamples` state it |
| `Report.WeekdayStartLatency` | report.go:121-133 | a Monday-to-Friday start measures whole hours from the start itself, truncated toward zero |
| `Report.WeekendStartRollsToMonday` | report.go:124-132 | a Saturday or Sunday start moves to a Monday midnight later than it and at most two days on, with no Monday midnight in between |
| `Report.WeekendLatencyExamples` | report.go:121-133 | Saturday 10:00 answered on Monday 10:00 gives 10; answered on Sunday 20:00 gives -4 |
| `Report.ElapsedHours` | report.go:46-49 | when start <= end, the elapsed hours are non-negative and the whole hours in end - start |
| `Report.TimeToFirstHours` | report.go:52-60 | the time-to-first column; `Report.TimeToFirstSentinel` and `Report.TimeToFirstBounds` characterise it |
| `Report.NoResponseShowsSentinel` | report.go:52-60 | a chat with no support reply and a positive start shows -1 |
| `Report.TimeToFirstSentinel` | report.go:52-60 | the column is -1 exactly when the response precedes the start, or a weekend start was answered within (-2h, -1h] of the next Monday midnight |
| `Report.TimeToFirstBounds` | report.go:52-60 | with the response at or after the start the column is the weekend-adjusted latency, at least -48, and non-negative for a weekday start |
| `Report.AnsweredChatCanShowSentinel` | report.go:52-60 | a Saturday chat answered on Sunday 22:30 shows -1 |
| `Report.SupportLevel` | report.go:98-107 | level1 exactly when words < 200 or interactions < 3; level3 exactly when not level1 and words > 1000 or interactions > 10; level2 exactly in between |
| `Report.ChatLevel` | report.go:98-107 | the support level of a chat from its total words and interactions, as `Report.SupportLevel` states |
| `Report.ShortRuleWins` | report.go:99-105 | the level1 rule overrides the level3 rule (5000 words with 2 interactions, or 150 words with 40) |
| `Report.OneReplyChatIsLevel1` | report.go:98-107 | a chat opened by a customer line and answered once has one interaction each way and is level1 |
| `Report.LevelMonotone` | report.go:98-107 | more words and interactions never bring a chat back to level1, and keep level3 |
| `Report.BoolFormat` | report.go:114-119 | "1" exactly for true, "0" exactly for false |
| `Report.LastAuthor` | report.go:81-87 | the person column is the last author of the list, or "none" for an empty list |
| `Report.PersonAfterFold` | report.go:81-87 | the person column names the newest first-time support author; returning authors and customers leave it |
| `Report.PersonNone` | report.go:81-87 | for a valid chat with no support author literally named "none", the column is "none" exactly when no support reply came, and it is never the customer |
| `Report.HeaderNamesColumns` | report.go:29-30 | the report has 18 columns, and their names are the header fields in order |
| `Report.CellOf` | report.go:32-107 | the value of one column for a chat; `Report.CellsInOrderFollowColumns` and `Report.ReportRows` place it under its header |
| `Report.CellsInOrderFollowColumns` | report.go:29-107 | a chat's cells, in the order the report writes them, are each the value for the header column above them |
| `Report.BuildTimeCells` | report.go:32-60 | the id, url, date, month, elapsed-hours and time-to-first cells are the first six column values |
| `Report.BuildCountCells` | report.go:62-77 | the three interaction counts and the two ratios are the next five column values |
| `Report.BuildPeopleCells` | report.go:79-89 | the last-responder flag, the person and the channel are the next three column values |
| `Report.BuildFlagCells` | report.go:90-105 | the two link flags, the total words and the support level are the last four column values |
| `Report.BuildRow` | report.go:32-107 | the appended line is the chat's cells in column order |
| `Report.ReportRows` | report.go:25-110 | one row per chat, in order, each with 18 cells, each cell the value for its column |

## Left out

- MongoDB storage is an abstract map of chats and a sequence of entries. This covers sessions, `Find`/`Count`/`One`/`Insert`/`Update`, storage errors and the fatal "more than one chat for an id" check; a map cannot hold two chats for one id. The storage id of entries and chats, `Count_Entries` and `Count_Chats` are not modelled.
- The command-line dispatch, opening `support.tsv`, the line scanner and `print_chat` are I/O wiring. `Ingestion.Database.Import` takes the lines as a sequence.
- `time.Parse` with the input layout is a parameter. The layout itself is not modelled.
- Local time zones are not modelled: weekdays and midnights are computed in UTC.
- The date and month display columns are carried as the timestamp (`DayOf`, `MonthOf`), not as formatted calendar text.
- The ratio columns are carried as numerator and denominator (`Ratio`). Float division, infinities, NaN and `FormatFloat` are left out.
- Rendering cells to decimal text, the comma join and printing are left out. The header fields are modelled as a sequence of names, not as the printed string.
- Integers are unbounded. int64 and int overflow of timestamps and counters is not modelled; it would need values far beyond any transcript.
- Log output and process exit are left out. Fatal exits and returned errors are modelled as result values that stop the import.
- The regular-expression engine is replaced by explicit scanners for the three patterns used.
- Chats.FoldAllPermutation: does not state order independence of the author order itself, which does depend on arrival order (it fixes the person column); it equates author sets, it needs support replies to have non-zero timestamps, and it compares the last-responder flag only when all timestamps differ, since with equal timestamps the flag depends on arrival order.
