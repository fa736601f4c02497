# Models and proofs for TUM-Live (gocast)

A Dafny project that models the parts of TUM-Live where state, text formats and interleavings meet,
and proves what they are for. Objects that change state are classes whose methods are proved against
specification functions; the main results are lemmas about those functions over every input, every
run or every interleaving. `dafny verify dfyconfig.toml` checks all of it.

| files | what they cover |
|---|---|
| `Basics.dfy` | options, filtering, decimal numerals |
| `FilterLanguage.dfy` | the filter language of the search index: syntax, printer, reader (AND tighter than OR), evaluation |
| `Access.dfy`, `SearchFilter.dfy`, `SearchFilterProperties.dfy` | access checks, the filters printed from them, and what those filters accept |
| `SearchResults.dfy`, `SearchEndToEnd.dfy` | the second check of the hits, and how it fits the filters |
| `Truncate.dfy`, `TruncateSyntax.dfy`, `TruncateProperties.dfy` | the HTML scanner, what it recognises, its tag stack and its cut |
| `RunnerJobs.dfy` | concurrent jobs, the counter channel, retry loops, cancellation |
| `StreamCache.dfy`, `CourseCacheKeys.dfy` | the read-through cache with expiry and clear; concatenated cache keys |
| `Workloads.dfy`, `IngestSlots.dfy`, `StreamRequests.dfy` | least-load choice, the slot pool, one stream request |
| `Base64.dfy`, `PasswordHash.dfy` | the stored form of a password and the global parameters that reading it overwrites |
| `ProgressBuffer.dfy` | batched progress writes against writes one at a time |
| `ChatStore.dfy` | posting rules, rate limit, reply forest, views |
| `MailQueue.dfy` | passes of the mailer, retries, pace |
| `CsvExport.dfy` | quoting of exported tables (section 2 of RFC 4180) |

## Results worth knowing

* **Search filters.** Read back as the index reads them, the printed texts accept a row exactly when
  the access checks allow it, with two exceptions stated as exact conditions. A course that the user
  owns, whose admin list does not name the owner, and that is hidden or restricted to enrolled users
  (or, for streams, a private stream of it) is not found. A subtitle filter for no course is empty and
  accepts every row. Apart from that nothing is found that is not allowed.
* **HTML truncation** meets its promise exactly as far as the text before the first `<` that starts no
  tag reaches: if that text reaches the limit or is the whole buffer, the output is balanced and holds
  the promised number of visible characters, except that below the limit a last rune of more than one
  byte makes the scanner fail. For every other buffer the outcome at that `<` is stated case by case;
  two short inputs show that it can fail there, or read one tag twice.
* **Runner.** The comment at `runner/pkg/actions/actions.go:16` says an aborting error skips the
  later actions. The code only leaves the retry loop of the one action (`runner/runner.go:188-191`),
  and the model follows the code: every action is attempted.
* **Runner reservation.** The comment at `model/runner.go:17-18` gives five seconds until a runner is
  no longer assigned jobs; the query at `dao/runner.go:51` uses twenty. The model follows the query.
* **Cache.** After a clearing write, later reads are current exactly if no reader stands with an old
  row between its database read and its fill. A site admin's course list is filled under a key that
  no query reads. Course keys run slug, term and year together, and terms come from requests unchecked
  (`tools/middlewares.go:139-146`, `api/courses.go:209-215`). A slug hit is right if and only if its
  term is a letter. As long as no list is filled for a term that starts in a digit, a list hit is right
  if and only if its term starts in none; a short run shows such a fill being served to another query.
* **Progress.** Flags agree with writes one at a time always; a whole row agrees exactly if, in the
  last flush with a report for the key, the last watched report and the last report carry the same
  progress, because a flush writes all unwatched reports first.
* **Chat.** The limit of five messages in two minutes holds for live messages in every run; counting
  deleted ones it does not, and a run with one deletion shows it.
* **Mail.** The pause between two mails is a number of nanoseconds (`tools/email.go:53`), so the pace
  rests on the minute between passes: a one-minute window can hold twice the configured number, never
  more, and an example meets the bound.
* **Passwords.** Comparisons do not depend on the shared parameters. Setting a password does: no run of
  calls panics if and only if no stored text leaves iterations, parallelism or the key length at zero
  when it is read. A text without a hash is one that does.

## Model

| member | source | states |
|---|---|---|
| Decimal.FormatNatRoundTrip | api/search.go:562 | a printed number is a digit string without leading zero that reads back as the number |
| FilterLanguage.ReadText | api/search.go:325-326 | reading the printed form of any filter, with AND tighter than OR, gives back the filter |
| FilterLanguage.VerdictOfText | api/search.go:325-326 | a printed filter accepts a row exactly when the filter it was printed from does |
| Access.SemesterOrder | model/semester.go:19-34 | on terms W and S, "greater or equal" is the order of 2 * year + (term = W), and "between" is the range of that order |
| Access.SearchSemesters | model/semester.go:9-16 | the scan answers membership in the list |
| Access.AdministeredCourses | model/user.go:310-333 | the loop keeps exactly the administered courses of the request, in order |
| Access.CoursesWithoutAdministered | model/user.go:336-359 | the loop keeps exactly the enrolled courses of the request that the user does not administer, in order |
| SearchFilter.SemesterFilterSpells | api/search.go:440-475 | each case of the semester text is the printed form of one condition on year and term |
| SearchFilter.ShortcutExactly | api/search.go:441-443 | there is no semester text exactly for a range that starts before 1900 and ends after 2800, where no semesters are listed |
| SearchFilter.CoursePermissionSpells | api/search.go:404-427 | the three permission texts for courses are printed forms of conditions on visibility and id lists |
| SearchFilter.CourseFilterSpells | api/search.go:398-433 | the whole course text is the printed form of permission and semester, when it is not empty |
| SearchFilter.SemesterStreamsSpell | api/search.go:367-390 | the stream text of a semester is a printed form, including the unparenthesised AND beside OR |
| SearchFilter.NamedStreamsSpell | api/search.go:351-365 | the stream text of named courses is a printed form, also where it has no parentheses |
| SearchFilter.MeiliStreamFilter | api/search.go:350-391 | the partition loop and the branches print the text that the stream theorems are about |
| SearchFilter.MeiliSubtitleFilter | api/search.go:330-345 | the nested loops collect the ids that the subtitle theorem is about; no named course gives the empty text |
| SearchFilterProperties.SemesterFilterMeaning | api/search.go:440-475 | the semester condition accepts a row exactly when its semester is one asked for, for ranges that run forward and for lists |
| SearchFilterProperties.CourseFilterExact | api/search.go:398-433 | for visitors, users and site admins the course text accepts a row exactly when the course was asked for and may be searched and is not overlooked; it agrees with the access checks if and only if the course is not an overlooked one |
| SearchFilterProperties.OwnHiddenCourseIsOverlooked | api/search.go:414-416 | a concrete course that its owner may search and does not find |
| SearchFilterProperties.SiteAdminFindsAll | api/search.go:400-402 | a site admin finds that course |
| SearchFilterProperties.StreamFilterExact | api/search.go:367-391 | the same for the streams of a semester, with private streams only for admins |
| SearchFilterProperties.NamedStreamFilterExact | api/search.go:351-365 | for named courses the text accepts exactly the streams of those courses that are public or of a course the user administers |
| SearchFilterProperties.SubtitleFilterExact | api/search.go:330-345 | with courses named, the subtitle text accepts exactly the streams of these courses that are public or of a course the user administers; with none named there is no filter and every row is accepted, so the text agrees with the check if and only if a course is named |
| SearchResults.CheckHits | api/search.go:228-273 | with a positive limit the loop keeps exactly the first allowed hits up to the limit; with limit 0 exactly the first hit not passed over, if allowed |
| SearchResults.LimitZeroExactly | api/search.go:228-246 | with limit 0, streams that cannot be looked up are passed over and only the first other hit may be kept |
| SearchResults.CheckAndFillResponse | api/search.go:201-323 | every index is checked and cut in place, indexes of other kinds stay as they are |
| SearchResults.OnlyAllowedHits | api/search.go:195-201 | however stale the index, a kept hit is one the database allows, and below the limit no allowed hit is lost |
| SearchEndToEnd.SemesterStreamIsAllowed | api/search.go:367-391 | a stream row of a semester is accepted exactly when the second check allows the hit, overlooked streams aside |
| SearchEndToEnd.NamedStreamIsAllowed | api/search.go:351-365 | in named courses that the user may see, a stream row is accepted exactly when the second check allows the hit |
| SearchEndToEnd.CourseIsAllowed | api/search.go:398-433 | a course row is accepted exactly when it was asked for and the second check allows the hit, overlooked courses aside |
| SearchEndToEnd.SubtitleIsAllowed | api/search.go:330-345 | a subtitle row of named courses that the user may see is accepted only if the second check allows the hit |
| SearchEndToEnd.FreshStreamsAreKept | api/search.go:201-247 | with an index that agrees with the database, the second check keeps every stream the filter lets through, up to the limit |
| SearchEndToEnd.FreshNamedStreamsAreKept | api/search.go:201-247 | the same for the streams of named courses that the user may see |
| SearchEndToEnd.FreshCoursesAreKept | api/search.go:248-275 | the same for courses, for both forms of the semester request |
| SearchEndToEnd.HiddenCoursesWhereNamed | api/search.go:202-207 | hits in hidden courses are kept for every visitor and user, up to the limit, where the request names the courses, and otherwise only for who administers them |
| Truncate.DecodedExactly | tools/truncate.go:145 | a character is decoded exactly when its octets (section 3 of RFC 3629) stand at the start of the buffer, with their number as width; anything else is an error one byte wide |
| Truncate.FindTagIsLeftmost | tools/truncate.go:107 | the match found is that of the first position where a tag matches, and there is none exactly if a tag matches nowhere |
| Truncate.ScanText | tools/truncate.go:52-88 | the inner loop stops at the first of tag, entity, limit and end, with the visible characters counted so far, and the outcome of the whole scan is the one from there |
| Truncate.AfterText | tools/truncate.go:90-108 | what the outer loop does after the text: cut, go on behind an entity, go on at a tag, or fail |
| Truncate.ApplyTag | tools/truncate.go:113-139 | void elements leave the stack, start tags push, a matching end tag pops, any other end tag is an error |
| Truncate.CloseTags | tools/truncate.go:154-157 | the loop appends the closing tags, innermost first |
| Truncate.TruncateHtml | tools/truncate.go:21-160 | the nested loops terminate and give what the one-token-at-a-time reading of the scan gives, including errors and a limit below zero |
| TruncateSyntax.EntityExactly | tools/truncate.go:14 | an entity is matched with one length exactly when "&name;" or "&#name;" of that length stands at the start, for a name of letters and digits |
| TruncateSyntax.TagExactly | tools/truncate.go:13 | a tag is matched exactly when its text stands at the start: an optional slash, a name that ends where letters and digits end, and no '>' and no line break before its own '>' |
| TruncateSyntax.TextExactly | tools/truncate.go:58-77 | an entity counts as one visible character, a '&' of no entity is visible, any other character is as visible as it prints and as wide as its octets |
| TruncateSyntax.NoEntityIsCut | tools/truncate.go:65-72 | on every buffer, from any place the scan comes to, the cut never falls inside an entity that starts one of the tokens there |
| TruncateSyntax.StepExactly | tools/truncate.go:35-39 | tags of the fifteen void names leave the open tags alone, any other start tag is opened innermost, any other end tag closes the innermost of its name or is an error |
| TruncateSyntax.SmallLimits | tools/truncate.go:41-44 | nothing is kept of no text or with limit 0; with a limit below 0 the first character and the ellipsis are |
| TruncateProperties.NeededIsShortest | tools/truncate.go:17-19 | the kept tokens are the shortest prefix with min(limit, all) visible characters |
| TruncateProperties.WalkByTokens | tools/truncate.go:50-140 | on every buffer, from any position, the scan does what its tokens say, and behind them what the '<' that starts no tag says |
| TruncateProperties.EndOfTokens | tools/truncate.go:50-108 | the tokens end at the end of the buffer or at a '<' that starts no tag |
| TruncateProperties.TruncationExact | tools/truncate.go:21-160 | where the tokens before the first '<' that starts no tag reach the limit or are the whole buffer: the output is a prefix cut at a token boundary with exactly min(limit, all) visible characters, the ellipsis and the closers; unbalanced tags are reported exactly when a kept end tag does not fit; the scanner fails exactly when the limit is not reached and the last rune is wide |
| TruncateProperties.StrayBracketExact | tools/truncate.go:90-111 | for every other buffer: unless a tag before it is unbalanced, that '<' is kept with the whole buffer if it is the last byte, fails if no tag follows, and else moves the scan on by the length of the tag that follows, which is read |
| TruncateProperties.TagOrNone | tools/truncate.go:107 | from every position a first tag follows, or none does: one of the cases applies |
| TruncateProperties.OutputIsBalanced | tools/truncate.go:17-19 | under the same condition every output is balanced: all tags, void elements aside, are opened and closed in order |
| TruncateProperties.StrayOutputIsUnbalanced | tools/truncate.go:17-19 | for every other buffer: the output keeps the '<', its balance is settled from there with the tags then open, and it is unbalanced if that '<' starts no tag in the output either, so always if the byte behind it can begin no tag name |
| TruncateProperties.ReadClosers | tools/truncate.go:154-157 | the appended closing tags close exactly the open ones |
| TruncateProperties.WideLastRuneFails | tools/truncate.go:95-108 | a concrete input: a short text that ends in a two-byte rune runs into the index error |
| TruncateProperties.StrayBracketFails | tools/truncate.go:107-108 | a concrete input: a '<' with no tag behind it runs into the index error |
| TruncateProperties.StrayBracketUnbalances | tools/truncate.go:107-111 | a concrete input: the pointer moves by the length of a later match, so one tag is closed twice and the output is unbalanced |
| RunnerJobs.CounterTracksTable | runner/runner.go:167-198 | in every interleaving the received sum exceeds the job table by exactly the jobs between their two start or two end steps; it is never below the table, and zero exactly when no job is announced and not withdrawn |
| RunnerJobs.EveryActionIsAttempted | runner/runner.go:179-196 | each job's attempts are, action after action, retryable errors closed by one success or aborting error; a job that left its loops closed every action, with one attempt per action and per retryable error |
| RunnerJobs.GivenActionsAreAttempted | runner/runner.go:167-199 | in every interleaving a finished job has attempted and closed each of the actions it was given, in order, with one attempt for each and one for each retryable error, and its context is released |
| RunnerJobs.TableUntilLastAttempt | runner/runner.go:174-178 | a job leaves the table only by its own removal, after its last action is closed, whatever is cancelled |
| RunnerJobs.JobCanGoOn | runner/runner.go:167-198 | until a job is done, some step of its own can be taken, cancelled or not |
| RunnerJobs.AbortingMovesOn | runner/runner.go:186-194 | an aborting error moves on to the next action as a success does; only a retryable error repeats one |
| RunnerJobs.Runner.RunAction | runner/runner.go:167-172 | announcing and registering a job are the three steps of the protocol in this order; the job then works on exactly the actions given |
| RunnerJobs.Runner.RunActions | runner/runner.go:179-196 | the nested loops over any outcomes are a run of the protocol that closes every action |
| RunnerJobs.Runner.Finish | runner/runner.go:174-178 | the deferred function is cancel, removal, withdrawal, in this order |
| RunnerJobs.Runner.RequestStreamEnd | runner/handlers.go:40-47 | cancels a job of the table and nothing else, or reports it missing |
| RunnerJobs.Runner.Cleanup | runner/runner.go:255-258 | cancels every job of the table and no other |
| StreamCache.AnswersAreRecent | dao/streams.go:180-199 | in every interleaving an answer is content the database held no longer ago than 10 s plus the longest gap between a reader's database read and its fill |
| StreamCache.FillIsServed | dao/streams.go:181-183 | for 10 seconds after a fill, unless the entry is cleared or dropped, a lookup is answered without a database read, with the content filled if nothing is filled in between |
| StreamCache.GoneIsMissed | dao/streams.go:181-199 | an entry that is dropped, cleared or over 10 seconds old is looked for in the database |
| StreamCache.ClearedCacheIsCurrent | dao/streams.go:476-486 | after a clear every later answer until the next write is the current row, if and only if no reader holds another row between its read and its fill |
| StreamCache.OldRowOutlivesClear | dao/streams.go:193-198 | a concrete run from the start: a row read before a write and filled after its clear is served afterwards |
| StreamCache.StaleFillIsServed | dao/streams.go:193-198 | such a reader's fill is served to readers that start after the clear |
| StreamCache.UnclearedHitIsStale | dao/streams.go:467-469 | a writer that does not clear leaves a live old entry in service |
| StreamCache.StreamsDao.GetStreamByID | dao/streams.go:180-199 | a hit answers the entry and changes nothing; a miss answers the row and is the steps look, fetch, fill |
| StreamCache.StreamsDao.UpdateStream | dao/streams.go:476-486 | the write and the clear are two steps in this order; afterwards reads are current exactly if no stale reader stands in the gap |
| StreamCache.StreamsDao.SetLectureHall | dao/streams.go:467-469 | one write, no clear; an old live entry stays in service |
| CourseCacheKeys.KeysAreInjective | dao/courses.go:106-227 | with letter terms and any years no two queries, of the same or different kinds, share a key |
| CourseCacheKeys.HitAnswersTheQuery | dao/courses.go:105-230 | over any run in which slug queries are filled for letter terms and list queries for terms that start in no digit, a hit of any query holds the answer to exactly this query if and only if its own term is of that sort; administered courses need no condition |
| CourseCacheKeys.StepExactly | dao/courses.go:105-230 | what a fill, a site admin's fill, a drop and a clear leave under every key |
| CourseCacheKeys.AdministeredHitIsRight | dao/courses.go:105-147 | over any run, whatever terms are filled, a hit of a query for administered courses is right |
| CourseCacheKeys.SlugHitIsRight | dao/courses.go:215-230 | over any run, whatever terms the list queries are filled for, a hit of a slug query is right if and only if its term is a letter |
| CourseCacheKeys.ListHitIsRight | dao/courses.go:157-190 | over any run, a hit of a list query answers a filled query of its kind, and another one only if one of the two terms starts in a digit; with fills whose terms do not, it is right if and only if its own does not |
| CourseCacheKeys.ListKeysExact | dao/courses.go:158-187 | when two list queries share a key, for any terms: exactly when the terms are equal behind the digits they start in, and year and these digits run together to the same text; without such digits exactly for the same query |
| CourseCacheKeys.AdministeredKeys | dao/courses.go:106 | queries for administered courses share no key, whatever their terms |
| CourseCacheKeys.SlugKeysExact | dao/courses.go:216 | when two slug queries share a key, for terms of any length and any years: exactly when slug, term and sign run together to the same text up to the digits at its end, and these with the year to the same year |
| CourseCacheKeys.SlugHitExact | dao/courses.go:216-219 | what a slug query whose slug and term end in no digit hits, and that this is the course asked for if and only if the term is a letter |
| CourseCacheKeys.LongTermHitsAnotherCourse | dao/courses.go:216-219 | a concrete run in which a slug query with a two-letter term is answered with another course |
| CourseCacheKeys.DigitTermFillsAnotherList | dao/courses.go:157-172 | a concrete run in which a list filled for a term that starts in a digit is served for a letter term and another year |
| CourseCacheKeys.AdminFillIsNeverRead | dao/courses.go:106-122 | the key of the site admin's fill is the key of no query |
| Workloads.GetWorkerWithLeastWorkload | api/worker_grpc.go:1068-1076 | the loop finds the first worker with the least workload |
| Workloads.AssignWorker | api/worker_grpc.go:697-717 | a least loaded worker gains 3, or 2 if the dial or the request fails; no other changes |
| Workloads.GreedyStaysBalanced | api/worker_grpc.go:697-717 | over any run the spread is at most max(initial spread, 3), the top at most max(initial top, average + 3), and the total grows by exactly the gains |
| Workloads.RunnerTable.ReserveRunner | dao/runner.go:43-72 | the runner answered is not draining, was seen less than 20 seconds ago, is least loaded among these and gains one job; without one nothing changes |
| Workloads.ReservationsAreChoices | dao/runner.go:43-72 | any run of reservations over a fixed eligible set is a run of least-load choices of weight 1, and no other runner changes |
| Workloads.ReservationsStayBalanced | dao/runner.go:43-72 | after any number of such reservations job counts differ by at most max(initial spread, 1), none is above max(initial top, average + 1), and the total has grown by their number |
| IngestSlots.PickIsEarliest | dao/ingest_server.go:56-64 | the pick is the free slot freed earliest, by primary key among equals, and there is none exactly if no slot is free |
| IngestSlots.HolderKeepsSlot | dao/ingest_server.go:56-74 | over any run an occupied slot stays with its holder until the holder finishes |
| IngestSlots.AssignTakesOneFreeSlot | api/worker_grpc.go:669-681 | a request takes at most one slot, which was free; only COMB takes a transcoding slot, and a plain one only if no transcoding slot is free |
| IngestSlots.AssignExactly | api/worker_grpc.go:669-681 | from the rows alone: COMB takes the earliest freed transcoding slot if there is one; else, and for any other source, the earliest freed plain slot is taken; the table is left alone if and only if there is none of these |
| IngestSlots.HeldExactly | api/worker_grpc.go:680-717 | after any run a slot is held by a stream exactly when it was handed to it, also by a request that failed later, and the stream has not finished since |
| IngestSlots.FinishFreesExactly | api/worker_grpc.go:229 | after any run a finish frees exactly the slots handed to the stream since its last finish, with the time of the finish, and touches no other |
| IngestSlots.PickTakesHead | dao/ingest_server.go:56-64 | a pick takes the head of the queue of freed slots, up to equal freed times |
| IngestSlots.FinishAppends | dao/ingest_server.go:66-74 | a finish appends the freed slots to the queue |
| IngestSlots.RunIsFifo | api/worker_grpc.go:660-681 | over any run one FIFO queue for each server and kind follows the table step by step |
| IngestSlots.IngestServerDao.GetSlot | dao/ingest_server.go:56-64 | the ordered query finds the pick |
| IngestSlots.IngestServerDao.RemoveStreamFromSlot | dao/ingest_server.go:66-74 | the update is the finish step of the protocol |
| IngestSlots.IngestServerDao.TakeSlot | api/worker_grpc.go:669-681 | the choice of slot and its save are the assignment step; which slot is taken, and that none is exactly if none is free for the source |
| StreamRequests.CreateStreamRequest | api/worker_grpc.go:660-718 | a request is sent if and only if it has a source, a server and a free slot for it; it takes the earliest freed slot of its kind and raises a least loaded worker by 3, or by 2 on failure; else nothing changes |
| StreamRequests.RequestAllViews | api/worker_grpc.go:759-762 | each of the three requests in order is handled in this way with the slots and loads that the one before it left; together they are a run of least-load choices of weight at most 3 |
| Base64.RoundTrip | model/user.go:438-468 | unpadded Base64 (sections 3.2 and 4 of RFC 4648) decodes to the bytes encoded, and its text holds no '$' |
| Base64.DecodeExactly | model/user.go:438-446 | which texts decode: line breaks aside, those of alphabet characters whose number is not one more than a multiple of four; encoding the bytes again gives the text, but for the spare bits of its last character |
| Base64.LineBreaksAreIgnored | model/user.go:438-446 | line breaks anywhere in a text change nothing |
| Base64.TestVectors | model/user.go:465-466 | the test vectors of section 10 of RFC 4648 |
| PasswordHash.EncodedParts | model/user.go:418-422 | the stored text splits at '$' into exactly its six parts |
| PasswordHash.DecodeUndoesEncode | model/user.go:418-471 | reading a stored text gives back salt and hash, and sets all five global parameters whatever they were |
| PasswordHash.ScanTolerates | model/user.go:424-432 | blanks before a number, a sign before the version and anything behind the version pass |
| PasswordHash.ScanOverwritesAsItReads | model/user.go:432-435 | a parameter text that breaks off leaves the fields read so far overwritten |
| PasswordHash.BrokenPartsOverwrite | model/user.go:432-449 | parts that are no Base64 leave the three parameters, and behind a good salt the salt length, overwritten |
| PasswordHash.UnreadableExactly | model/user.go:395-431 | no match for a user without a password, and errors for texts of other than six parts or with another version, all of which leave the parameters |
| PasswordHash.CompareIgnoresGlobals | model/user.go:395-416 | a comparison's answer is the same for any global parameters |
| PasswordHash.SetThenCompare | model/user.go:383-416 | what was set reads back as the salt and the key derived with the parameters in force; it compares equal under any parameters, and another password does exactly if it derives the same key |
| PasswordHash.SetExactly | model/user.go:383-393 | setting fails exactly for passwords under 8 bytes, without a salt, and with parameters the key derivation does not take |
| PasswordHash.RunKeepsSound | model/user.go:371-471 | from stored texts the program wrote, which hold a hash, no step of any run panics or fails to read, and the parameters stay usable |
| PasswordHash.LastPasswordCompares | model/user.go:371-471 | over any run of any users sharing the parameters, the password a user last set compares equal |
| PasswordHash.NeverPanicsExactly | model/user.go:383-471 | for stored texts of any origin and usable parameters: no run panics if and only if reading none of the texts leaves iterations, parallelism or the key length at zero |
| PasswordHash.EncodedIsHarmless | model/user.go:418-471 | which texts of the stored form are harmless in this sense: exactly those with iterations, parallelism and a hash |
| PasswordHash.ZeroIterationsAreHarmful | model/user.go:432-435 | a concrete text whose reading leaves zero iterations |
| PasswordHash.EmptyHashIsHarmful | model/user.go:445-449 | a concrete text without a hash, whose reading leaves key length zero |
| PasswordHash.Argon.SetPassword | model/user.go:383-393 | writes the encoded hash on success and leaves the user alone on every error |
| PasswordHash.Argon.DecodeInPlace | model/user.go:418-451 | the writes to the global fields happen as far as reading comes |
| PasswordHash.Argon.ComparePasswordAndHash | model/user.go:395-416 | overwrites only the globals, and its answer is the one any globals give |
| ProgressBuffer.FlushedRow | dao/progress.go:46-69 | a flush raises a flag exactly for keys with a watched report, and stores the progress of the last watched report, else of the last report |
| ProgressBuffer.OneByOneRow | dao/progress.go:46-69 | saving one at a time gives the same flags and the progress of the last report |
| ProgressBuffer.FlushMatchesOneByOne | dao/progress.go:44-69 | one flush stores a key's row as one-at-a-time saves do, if and only if the last watched report agrees with the last report |
| ProgressBuffer.LateUnwatchedReportIsLost | dao/progress.go:46-69 | a concrete batch, an unwatched report behind a watched one, whose flush stores the earlier progress |
| ProgressBuffer.EveryReportInOneFlush | api/progress.go:39-55 | over any run, failed writes included, every report lands in exactly one flush, in order, or still waits |
| ProgressBuffer.RunMatchesOneByOne | api/progress.go:39-66 | over any interleaving of adds and flushes keys and flags are those of one-at-a-time saves, and a row is, if and only if the last flush with a report for its key is harmless |
| ProgressBuffer.FlagsAreKept | dao/progress.go:50-63 | no report ever clears a watched flag, whichever statements fail |
| ProgressBuffer.ProgressDao.Select | dao/progress.go:34-42 | the loop keeps the reports with the flag, in order |
| ProgressBuffer.ProgressDao.SaveProgresses | dao/progress.go:46-69 | both statements are tried, unwatched first; an error is reported exactly if a statement with rows failed |
| ProgressBuffer.Buffer.Add | api/progress.go:39-43 | keeps that every report given is in exactly one batch or waits; the new one waits behind all others, and no batch changes |
| ProgressBuffer.Buffer.Flush | api/progress.go:46-55 | all reports given are then in batches and none waits, also when a write fails; table, buffer and batches are those after a flush of the run |
| ChatStore.TakenExactly | model/chat.go:84-129 | for every outcome, when it occurs: a message is taken exactly if its trimmed text has 1 to 1000 bytes, its author is an admin or has fewer than 5 messages of the last two minutes, and what it answers is a live top-level message of its stream; and each error for its own reason |
| ChatStore.RecentCounts | model/chat.go:93-99 | the limiter counts the author's messages since a time, in any stream, also as admin, but no deleted ones |
| ChatStore.ByteLengthIsUtf8 | model/chat.go:86 | the length checked is that of the UTF-8 form, character by character |
| ChatStore.SpacesExactly | model/chat.go:85 | spaces are the 25 white space characters of Unicode |
| ChatStore.TrimmedExactly | model/chat.go:85 | trimming removes spaces at both ends and leaves none there |
| ChatStore.RateLimit | model/chat.go:39-43 | in every run, with any deletions, a user has at most 5 live non-admin messages in a window (a, a + 2 min] |
| ChatStore.SentRate | model/chat.go:92-103 | counting deleted messages too, at most 5 more than the deleted ones; at most 5 in a run without deletions |
| ChatStore.DeletionMakesRoom | model/chat.go:92-103 | a concrete run: after five messages and one deletion a sixth is taken in the same window |
| ChatStore.RunKeepsForest | model/chat.go:114-128 | in every reachable store a live reply points to a live top-level message of its own stream |
| ChatStore.VisibleIsFilteredAll | dao/chat.go:89-126 | the visible view is the full view filtered at both levels by "visible or own" |
| ChatStore.ViewShowsDueOnce | dao/chat.go:89-126 | in every reachable store a view shows each live message due to its reader exactly once, and nothing else |
| ChatStore.PostInViews | dao/chat.go:111-126 | the full view of the stream gains a new message as a thread of its own or as the last reply below its parent, and other streams' views stay |
| ChatStore.PostSeenBy | dao/chat.go:91-107 | a new message is seen by its author and, if visible, by everybody, a reply only where its parent is seen |
| ChatStore.DeletionInViews | dao/chat.go:176-178 | a deletion takes the message and its thread out of every view, and nothing else |
| ChatStore.VisibilityInViews | dao/chat.go:166-173 | approving or retracting changes the flag of one message in the full view, and the view of any user is what that leaves to see |
| ChatStore.ChatDao.BeforeCreate | model/chat.go:84-129 | the checks, in the order they are made |
| ChatStore.ChatDao.AddMessage | dao/chat.go:57-61 | a refused message changes nothing; a taken one is stored with its trimmed text and all else as drafted, the full view of its stream gains just this message, and a user sees it exactly if it is visible or their own and so is its parent |
| ChatStore.ChatDao.DeleteChat | dao/chat.go:176-178 | every view of every reader loses the message and its thread and nothing else; the reply forest stays |
| ChatStore.ChatDao.ApproveChat | dao/chat.go:166-168 | the full view of every stream shows this message visible and is otherwise the same; the reply forest stays |
| ChatStore.ChatDao.RetractChat | dao/chat.go:171-173 | the full view shows this message hidden and is otherwise the same; of the users only its author sees it; the reply forest stays |
| ChatStore.ChatDao.GetAllChats | dao/chat.go:111-126 | shows every live message of the stream exactly once, and nothing else |
| ChatStore.ChatDao.GetVisibleChats | dao/chat.go:91-107 | the full view filtered at both levels: every message due to the user exactly once, and nothing else |
| MailQueue.PaceBound | tools/email.go:27-57 | whatever is delayed or not saved, a window (a, a + 1 min] holds at most twice the configured number of attempts |
| MailQueue.PromptPace | tools/email.go:27-57 | if every attempt starts within a delay of its pass, a window shorter than a minute by that delay holds at most the configured number |
| MailQueue.SlowPassDoublesPace | tools/email.go:28-33 | a concrete run that meets the doubled bound |
| MailQueue.RetriesAreBooked | tools/email.go:39-51 | with rows saved, every row counts its attempts, at most 11; none follows a success; a retry starts over a minute after every earlier failure was recorded |
| MailQueue.TryIsRecorded | tools/email.go:41-47 | one attempt of a due mail keeps the row in step with the attempts |
| MailQueue.DueAfterTry | dao/email.go:58-71 | after a saved success a mail is never due again; after a saved failure it is due exactly from when the failure is over a minute old, and never after the eleventh |
| MailQueue.FreshMailIsDue | dao/email.go:67 | a mail never tried is due at once |
| MailQueue.StartExactly | tools/email.go:30-33 | a pass starts at once if the last one is a minute old, else exactly when it is |
| MailQueue.PausesAreShort | tools/email.go:53-54 | the pauses of a whole pass add up to 60 microseconds at most |
| MailQueue.Mailer.constructor | tools/email.go:20-28 | a configured number of 0 becomes 10, any other is kept; the first pass may start at once |
| MailQueue.Mailer.RunOnce | tools/email.go:29-56 | one turn of the loop is one pass of the protocol: start at the larger of now and a minute after the last start, rows and attempts |
| CsvExport.LinesRoundTrip | tools/stats_export.dart.go:24-32 | quoted cells, separators and the record end used here read back as the rows written, whatever the cells hold |
| CsvExport.RowsOfEntries | tools/stats_export.dart.go:41-46 | the rows of an entry: a header with the axis names, then for each value the entry's name, its own and the number; entries follow one another |
| CsvExport.OneRowText | tools/stats_export.dart.go:19-27 | one row as it is written, with its quotes, separator and record end |
| CsvExport.ExportStatsContainer.ExportCsv | tools/stats_export.dart.go:39-48 | the nested loops write the header and the rows of every entry, and the text reads back as exactly these |

## Left out

- Handlers of HTTP and gRPC, JSON, templates, files, FFmpeg, LDAP, SMTP: input and output around the modelled logic.
- The database, the cache library, the search index, the key derivation and the random source: tables are maps or sequences, the cache a map with expiry that may drop entries, the key derivation a function. A transaction is one step.
- Truncate.TruncateHtml: does not model that the result may share memory with the caller's buffer; whether a rune is printable and no space is a parameter.
- TruncateProperties.OutputIsBalanced: the ellipsis is taken to hold no '<'.
- SearchFilterProperties.CourseFilterExact: takes ranges that run forward between terms W and S, or one semester; for inverted ranges the text and the check disagree. An empty, non-nil semester list and the years outside an open range are also left out. It assumes index, database and the user's course lists agree, and one of the four known visibilities.
- SearchResults.CheckHits: models the check and the limit, not the fields filled in for display, nor hits that cannot be converted.
- StreamCache.AnswersAreRecent: the stream key stands for itself and the content for the whole record; clears by writers other than UpdateStream look the same.
- RunnerJobs.EveryActionIsAttempted: actions that panic are left out, and so are data races on the job table, whose accesses are single steps here. That retryable failures end is the assumption of a finished job.
- Workloads.ReservationsStayBalanced: the eligible set stays the same between heartbeats; the job counts that heartbeats write between reservations are not modelled, nor are failed transactions.
- NotifyWorkers: which due streams a tick reaches is left out; its single-source branches return after the first stream.
- IngestSlots.RunIsFifo: a pick and its save are one step; two requests that pick before either saves are left out. The choice of the ingest server is a parameter, and so is a finish for an unknown stream, which frees nothing.
- CourseCacheKeys.SlugHitIsRight: slug queries are filled for letter terms, as course rows have, since a query that finds no row fills nothing; that a database may compare terms without regard to trailing spaces is left out. Expiry is a drop that may happen at any time.
- PasswordHash.NeverPanicsExactly: that the key derivation panics for zero iterations, zero parallelism and key length 0, and else returns a key of the length asked for, is taken over; its code (golang.org/x/crypto/argon2) is not part of this model.
- PasswordHash.LastPasswordCompares: calls are single steps, so a comparison that changes the parameters while another call uses them is left out; numbers are scanned over blanks and tabs only; passwords are strings of bytes.
- ProgressBuffer.RunMatchesOneByOne: the flag that a user sets by hand (dao/progress.go:71-77) is left out, and progress values are reals.
- ChatStore.RateLimit: the check and the insert are one step; two messages checked before either is stored are left out. Colours, sanitised text, addressed users, reactions and polls are left out.
- ChatStore.TrimmedExactly: text is a sequence of Unicode scalar values, so invalid UTF-8 is left out.
- MailQueue.RetriesAreBooked: takes saves that succeed; a row that cannot be saved is due again. A negative configured number, which lifts the limit of the query, is left out, as are mails deleted during a pass.
- MailQueue.Mailer.RunOnce: one turn of the endless loop; the clock, the query result and the outcome of sending are parameters.
- CsvExport.LinesRoundTrip: the reader takes the record end "\n\r" that the code writes, where RFC 4180 has "\r\n".
- Course ordering, chronological gap filling in statistics, and simple data access (bookmarks, tokens, notifications, audits): not a strict order, not kept by the code, or only easy members.
