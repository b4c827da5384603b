# Verified model of safe-imsg

This project models the parts of safe-imsg whose correctness depends on several functions, a loop or a
state machine, and proves properties of that model in Dafny 4.11. `dafny verify dfyconfig.toml` checks it.

The system is a broker that lets one restricted client read part of the owner's Messages database. A
Swift producer reads bounded pages of the message table and prints them as event lines. A Go adapter
runs the producer as a child process, reads the lines and validates the page. The broker filters each
page by the owner's policy and hands the client a sealed cursor for the next one. Direct conversations
may also be allowed through the owner's contact lists, which a Contacts helper reads.

| file | what it models |
|---|---|
| `MessageStore.dfy` | the producer: boundary, both paging modes, row decoding, the chat cache |
| `Collection.dfy` | the event lines of a page with their lengths, the adapter that reads them, page validation |
| `PageSizes.dfy` | which pages are short enough for the stream |
| `Cursor.dfy` | sealed and legacy cursors, with the length of their text form |
| `Broker.dfy` | exposure of one message, one collection request |
| `Requests.dfy` | chat listing, history and message lookup |
| `Answers.dfy`, `LongAnswers.dfy` | the length of every answer, and what is sent of one that is too long or too late |
| `CollectionRun.dfy`, `CollectionDelivery.dfy`, `CollectionProgress.dfy` | whole runs of collection: client, broker, adapter, producer, table, clock, policy; what they examine, what they deliver, and how far they get |
| `Stream.dfy`, `CollectStream.dfy` | the child-process stream as a protocol of reader, consumer, process and cancellation; the adapter's line handler inside it |
| `SecurePath.dfy` | the trusted-path walk against a recursive pathname resolver |
| `Identity.dfy`, `Policy.dfy` | normal forms of identities; authorization, derived grants, policy loading |
| `Contacts.dfy`, `ContactsSnapshot.dfy`, `GrantManager.dfy` | telephone numbers under a region, identities of a snapshot, the helper's snapshot, refresh and expiry |
| `Framing.dfy` | length-prefixed frames over partial reads and writes, on both sides |
| `Shortfalls.dfy` | concrete inputs on which the code does less than it promises |
| `Lists.dfy`, `Text.dfy`, `Clock.dfy`, `Lengths.dfy`, `Wrappers.dfy` | shared vocabulary |

Loops that update variables are methods with invariants, proved equal to a function of their input; the
properties are then lemmas about those functions. Objects with fields are classes (`PageReader`,
`Manager`, `Writer`, `Reader`).

## Hypotheses

Whole runs of collection (`CollectionRun`) assume, in `Enabled` and `Settled`, that

- a new row's id exceeds every id ever used;
- the join table does not hold the same pair of chat and message twice (its chat ids are non-null by type);
- the clock does not go back, and row and chat ids fit 64 bits;
- sealing is ideal: a token opens to what was sealed, under the same key and instance, and otherwise not;
- the cursor key survives a restart (`NewKeyStrandsIff` says what happens otherwise), and account id and generation together take at most 1354 bytes of
  JSON. `AllCursorsDecodeIff` shows that this is exactly what cursors need, and
  `ShortNamesMakeShortTokens` that 128 bytes for the one and 30 for the other are enough; 30 is what
  internal/backend/backend.go:91-92 makes.

Rows, chats and join rows may change at any moment of a run. The results that need one row to stay as it
is, with the chats it is joined to, say so by `UndisturbedThroughout`: `SelectedRowsAreExamined`,
`EligibleRowsAreDelivered` and `LongRowBlocksCollection`. The others do not need it.

Around a request, `Host` says what the machine does: whether the files keep their identity before and
after the stream, whether the process runs to its end, and whether the whole request keeps its deadline.

The length of an answer is that of the compact JSON that Go's encoder prints, with its HTML escapes.
The length of a printed line assumes the encoder of JSONLines, which is not part of this model, to print
compact JSON that escapes quotation marks, backslashes, solidi and control characters and nothing else,
and times in their shortest form. A line is what the scanner returns: without a newline, and without a
carriage return at its end.

The path walk is over a file system that does not change. Closing a stream assumes that a read ends after
its pipe is closed and that waiting ends after the process is killed. A reader of frames delivers at
least one byte per call until the stream ends.

## Where the code falls short of its promise

- A message joined twice to its chat is listed twice by the bootstrap query, which does not remove
  duplicates. `BootstrapPagesAcceptedIff` gives the exact condition under which every bootstrap page is
  accepted; `DoubleJoinIsRefused` builds the query whose page is refused, `DoublyJoinedIsRefused` a table.
- The adapter refuses a line of 2 MiB or more and an output of more than 64 MiB, and the producer bounds
  neither: members are printed twice in every row, and the names of a chat are not bounded at all.
  `FitsIff` is the condition on a page, `SmallPagesFit` and `ModestPagesFit` are bounds on limit and chats
  under which every page fits. `CrowdedPageIsRefused` is a page within every bound of the producer that
  the adapter never takes, `LongNamedIsRefused` one that no limit can help, and `LongRowBlocksCollection`
  says that such a row stops a collection for as long as it exists.
- The broker replaces an answer of more than 8 MiB by a failure, and the client gets no cursor with it.
  `CollectSucceedsIff` has the condition. Twenty rows always fit (`SmallAnswersFit`), and a request that
  fails in this way succeeds when it asks for no more (`AskingForLessSucceeds`). `LongTextsFail` is such a
  request for 140 long messages; `TwentyIsTheMost` is one for 21.
- A backend of release 0.13.1 passes configuration validation, and every collection request then fails
  (`PlainReleaseNeverCollects`).
- A row that the date query selects is skipped exactly when its chat id is not positive
  (`SelectedRowIsSkippedIff`); `ZeroChatIsSkipped` is an instance.
- A legacy cursor that carries a timestamp decodes, but every request made with it fails
  (`DatedLegacyCursorNeverSucceeds`), and a timestamp that leaves the four-digit years when written in UTC
  fails too. `PlannedCallIsGoodIff` is the condition; `DatedLegacyIsPlannedAndFails` and
  `LateStartIsPlannedAndFails` are instances.
- Configuration validation trims the account id before it measures it. `AllCursorsDecodeIff` is the
  condition under which all cursors of a configuration can be used; `PaddedSampleIsAccepted` is an accepted
  configuration under which none can.
- A phone field may grant an email address that begins with a plus sign. `PhoneGrantIsNumberIff` is the
  condition, `PhoneFieldMayGrantAnEmail` an instance.
- A hard failure of the Contacts helper ends current grants exactly when the refresh has not run out of
  time (`HardFailureRevokesIff`); `LateDenialKeepsGrants` is an instance of both sides.

## Model

| member | source | states |
|---|---|---|
| MessageStore.SafeCollectionRow | backend/imsg/MessageStore+SafeCollection.swift:163-228 | decoding a row through the page-local chat cache gives the same row or error as an uncached lookup, and keeps every cache entry what a fresh lookup would return |
| MessageStore.DecodePage | backend/imsg/MessageStore+SafeCollection.swift:107-111 | the row loop returns every row in order, or the error of the first row that cannot be decoded |
| MessageStore.SafeCollection | backend/imsg/MessageStore+SafeCollection.swift:33-143 | both paging modes, one probing for a row above the last and one asking for a row too many, produce the page cut from the full listing of the query, with the same errors; without a boundary of its own, a page reaches the newest row there is |
| MessageStore.ProbeAfterLast | backend/imsg/MessageStore+SafeCollection.swift:129-133 | asking whether a row exists above the last one listed tells exactly whether the limit cut the listing |
| MessageStore.UniqueLinksJoinOnce | backend/imsg/MessageStore+SafeCollection.swift:73-98 | with a duplicate-free join table, every row of a bootstrap page came through the join once |
| MessageStore.PageIsExact | backend/imsg/MessageStore+SafeCollection.swift:97-134 | a page holds exactly the eligible rows from its position to the position it claims to have scanned, in order and none twice; it is complete exactly when no eligible row remains up to the boundary, and then claims the boundary |
| MessageStore.BoundaryIsNewest | backend/imsg/MessageStore+SafeCollection.swift:59 | a boundary that is not given is the newest row, or the position when that is past it |
| MessageStore.PageHoldsIff | backend/imsg/MessageStore+SafeCollection.swift:61-134 | a row is on a page if and only if it lies between position and scanned position and is in the table and, under a date query, meets that query's every clause |
| MessageStore.PageIsRefusedIff | backend/imsg/MessageStore+SafeCollection.swift:38-50 | which queries are out of bounds and which the schema cannot serve; any other returns a page when the rows decode |
| MessageStore.SkippedRowIff | backend/imsg/MessageStore+SafeCollection.swift:163-228 | a row keeps only its position if and only if it is no plain or link message, has no chat under a positive id, or has one readable chat of another account |
| MessageStore.ShownRowIff | backend/imsg/MessageStore+SafeCollection.swift:163-228 | a row decodes to a message if and only if it is a plain or link message with exactly one positive chat of the account and fields within bounds; the sender falls back to the destination, the text to the attributed body |
| MessageStore.BootstrapMessagesAreRecent | backend/imsg/MessageStore+SafeCollection.swift:66-96 | every message on a bootstrap page lies in the date window, belongs to the account and comes from an iMessage chat |
| MessageStore.SelectedRowIsSkippedIff | backend/imsg/MessageStore+SafeCollection.swift:80-95 | a row the date query selects decodes to a message or stops the page, except exactly when its chat id is not positive |
| Collection.PrintPage | backend/imsg/CollectCommand.swift:42-60 | one row envelope per row, in order, with its length, then one checkpoint |
| Collection.PageReader.Handle | internal/backend/collection.go:63-89 | a line is accepted exactly when it is a well-formed row before the checkpoint, or the checkpoint; the captured page grows accordingly and is untouched otherwise |
| Collection.FeedAllIff | internal/backend/collection.go:63-89 | the handler takes an output if and only if its objects are one for each row, in order and with nothing else in them, and at most one checkpoint after them; it is left with what they tell |
| Collection.ReadOutput | internal/backend/backend.go:199-231 | over a finished output, run succeeds exactly when both identity checks pass, the process exits cleanly, the lines are within both bounds and at most limit + 1 are not blank, and the handler takes them all; the captured page is then that of the whole output |
| Collection.Collect | internal/backend/collection.go:41-97 | in source order, over a finished output: unsupported without the collect command; otherwise a page exactly when the arguments are good, both identity checks pass, every line is below 2 MiB, all lines and newlines are at most 64 MiB, every non-blank line was accepted, at most limit + 1 of them, the process exited cleanly, a checkpoint came and the page is valid |
| Collection.AnsweredIff | internal/backend/collection.go:41-122 | Collect answers with a page if and only if the release has the command, the arguments, the machine and the output's bounds are good, the output is a transcript of that page, and the page is good; and unsupported exactly without the command |
| Collection.ValidateCollectionPage | internal/backend/collection.go:100-122 | accepts exactly the pages whose rows ascend strictly within (after, through], whose messages and chats agree with their rows, and whose checkpoint is the boundary or the last of exactly limit rows |
| Collection.ValidPageIff | internal/backend/collection.go:100-122 | the same in steps: each row above the one before it, the first above the start |
| Collection.PrintedPageIsRead | backend/imsg/CollectCommand.swift:42-60 | reading back the printed lines of any page gives that page with its checkpoint |
| Collection.ProducerAndReaderAgree | internal/backend/collection.go:61-122 | every page the producer returns for valid arguments is printed in at most limit + 1 lines and, provided its rows came through the join once, parsed to itself and accepted by the validator if and only if its lines fit the stream |
| Collection.DoubleJoinIsRefused | backend/imsg/MessageStore+SafeCollection.swift:75-97 | for any selectable message joined more than once to its chat there is a bootstrap query whose page the adapter refuses |
| Collection.BootstrapPagesAcceptedIff | backend/imsg/MessageStore+SafeCollection.swift:75-97 | all bootstrap pages of a table are accepted if and only if no selectable, decodable message is joined to its chat more than once and the lines of every page fit the stream |
| Collection.PositionsOutrunRows | internal/backend/collection.go:104-113 | the i-th row of a valid page lies at least i + 1 above the page's start |
| Collection.CycleIsShort | internal/backend/collection.go:100-122 | against any backend, the boundary is the same on all validated pages of a cycle, and a cycle of more than one page with limits of at least L has (pages - 1) * L < boundary - start |
| Collection.GoodCallsHaveGoodBounds | backend/imsg/CollectCommand.swift:20-26 | whatever arguments the adapter lets through, the producer's argument rules accept |
| Collection.ProcessCollectIff | internal/backend/collection.go:41-97 | Collect against the real producer succeeds if and only if the release has the command, the files keep their identity, the process ends, the arguments are good, and the lines of the producer's page amount to a page |
| Collection.ProcessCollectIsThePage | internal/backend/collection.go:41-97 | a successful Collect against the real producer delivers exactly the producer's page; it is valid and its lines fit the stream |
| PageSizes.FitsIff | internal/backend/stream.go:55-66 | a page fits the stream if and only if every row line and the checkpoint are below 2 MiB and all with their newlines at most 64 MiB |
| PageSizes.RowLenAtMost | backend/imsg/CollectCommand.swift:42-56 | a decoded row is printed in at most a constant plus twelve times the bytes of its chat's texts |
| PageSizes.ModestPagesFit | internal/backend/stream.go:55-66 | every page fits whose limit and chats' texts satisfy two inequalities, whatever its messages |
| PageSizes.SmallPagesFit | internal/broker/server.go:369-372 | with chats the broker could show, every page of up to 48 rows fits, whatever its messages and members |
| PageSizes.SmallerPagesFit | backend/imsg/MessageStore+SafeCollection.swift:97-134 | when the page of a query fits the stream, so does its page for every lower limit |
| PageSizes.LargePageIsRefused | backend/imsg/CollectCommand.swift:46-54 | a page whose rows' members, printed twice, exceed the output bound is refused |
| PageSizes.LongRowIsRefused | internal/backend/stream.go:56-60 | a row whose line reaches the line bound spoils every page it is on |
| Cursor.DecodeOfEncode | internal/broker/cursor.go:66-106 | a sealed cursor decodes to itself exactly when it is well formed and its text is at most 2048 bytes |
| Cursor.OpensIff | internal/broker/cursor.go:73-106 | what a token opens to: a cursor sealed under the same key and instance whose parts go together, or a legacy position above zero with nothing pending |
| Cursor.AllCursorsDecodeIff | internal/broker/cursor.go:66-106 | all well-formed cursors of an account and generation over 64-bit positions decode to themselves if and only if the two names take at most 1354 bytes of JSON |
| Cursor.ShortNamesMakeShortTokens | internal/broker/cursor.go:66-82 | account ids of at most 128 bytes and generations of at most 30 are within that bound |
| Broker.ConfigIff | internal/config/config.go:98-145 | which configurations pass validation, as far as the requests rely on it: the names trimmed before they are measured |
| Broker.JoinedMembersAgreeIff | internal/broker/server.go:456-462 | comparing the sorted members joined by NUL is comparing the two sets of normalized members |
| Broker.SameConversationIff | internal/broker/server.go:447-464 | the conversation check succeeds exactly for metadata that agree field by field and as sets of members, whatever the policy, and both sides are then decided alike |
| Broker.ExposeMessage | internal/broker/server.go:466-508 | in source order, a message is shown in exactly the admissible form, and refused if and only if its metadata are contradictory |
| Broker.CompareConversations | internal/broker/server.go:447-464 | the comparison in source order succeeds if and only if message and chat agree field by field and as sets of members |
| Broker.ExposeInConversation | internal/broker/server.go:478-507 | the search loop over the members and the checks around it decide a message of an agreed conversation |
| Broker.ShownIffAdmissible | internal/broker/server.go:466-508 | a message is shown, each field equal to the field read, if and only if it belongs to the configured account, agrees with its chat, the policy allows the chat, its time parses, it is not suppressed and, if inbound, its normalized sender is a member and the sender shown |
| Broker.RefusedIffContradictory | internal/broker/server.go:466-508 | a message fails its answer if and only if its fields are malformed, it contradicts its chat, or, in an allowed chat, its time does not parse or its unsuppressed inbound sender is not a member |
| Broker.Collect | internal/broker/server.go:649-735 | one collection request in source order equals its specification, for any backend |
| Broker.PlanIff | internal/broker/server.go:649-698 | which cursor a request starts from, which call it makes of it, and when it is stale |
| Broker.AdmitRows | internal/broker/server.go:712-729 | the row loop keeps exactly the messages the exposure function shows, in order, and drops the others without failing |
| Broker.AdmitConcat | internal/broker/server.go:712-729 | filtering distributes over pages, so how rows are cut into pages cannot matter |
| Broker.CollectedIsAdmissible | internal/broker/server.go:706-729 | each collected message is admissible under the policy loaded after the read and keeps its row's position |
| Broker.AdmissibleIsCollected | internal/broker/server.go:712-729 | no admissible row of a page is dropped |
| Broker.EmittedCursorIsWellFormed | internal/broker/server.go:730-734 | every emitted cursor is well formed: pending ones have 0 < row < through, complete ones row = through and no timestamp |
| Broker.EmittedCursorDecodesIff | internal/broker/cursor.go:66-106 | the cursor of a successful response decodes to itself if and only if its text is at most 2048 bytes |
| Broker.PlannedCallIsGoodIff | internal/broker/server.go:658-699 | the backend call of a request meets the adapter's argument rules if and only if its timestamp parses in UTC and, on a cursor, the cursor is sealed with a positive row |
| Broker.BadCallsAlwaysFail | internal/backend/collection.go:45-53 | a request whose call does not meet the adapter's argument rules fails, whatever the table, the clock and the policies |
| Broker.PlainReleaseNeverCollects | internal/backend/collection.go:42-44 | with the release that has no collect command every request fails, as unsupported once it is planned and the policy loads |
| Broker.DatedLegacyCursorNeverSucceeds | internal/broker/server.go:629-699 | every request made with a legacy cursor that carries a timestamp fails against the real producer |
| Broker.NextCallContinues | internal/broker/server.go:673-699 | the request made with an emitted cursor continues at the page's end, pinned to its boundary and timestamp while pending, free of both once complete, with arguments the adapter accepts |
| Broker.PaddedAccountBreaksCursors | internal/config/config.go:98-109 | an account id that validation accepts because it trims first, under which no emitted cursor ever decodes |
| Requests.Filter | internal/broker/server.go:374-391 | the listing loop shows the first limit rows that may be shown and is complete only when the scan was not cut and nothing was held back; one refused row fails the answer |
| Requests.FilterIsExact | internal/broker/server.go:542-562 | a filtered answer is the rows that may be shown, in order, up to the limit and none left out, and complete exactly when the scan was not cut and all of them are there |
| Requests.ListChats | internal/broker/server.go:385-418 | a listing is given exactly when limit, chats and policy are there and every chat is within its bounds; it is then the chats the policy loaded after the read permits to the account, in order, up to the limit and none left out |
| Requests.ListingIff | internal/broker/server.go:385-418 | when a listing is given and what it shows: each permitted chat with its fields, its members normalized, each once and in the order of their first mention; complete exactly when the scan was not cut and all are there |
| Requests.History | internal/broker/server.go:510-563 | step by step in source order, a history is answered if and only if the generation is current, the limit admitted, the chat found, good, the account's and permitted before and after the read, the rows read and none of them contradictory; not visible means exactly a chat found and not the account's or not permitted |
| Requests.ReadConversation | internal/broker/server.go:421-445 | policy, chat, rows and policy again, in source order: the rows come exactly of a chat that both policies permit to the account |
| Requests.ReadRowsFailsIff | internal/broker/server.go:421-445 | each other failure of a reading has exactly its own cause |
| Requests.HistoryFailsIff | internal/broker/server.go:510-563 | each other failure of a history request has exactly its own cause |
| Requests.HistoryIff | internal/broker/server.go:510-562 | the same of the specification, with what is shown: the rows admissible under the policy loaded after the read, in order, up to the limit and none left out; complete exactly when the backend had no more and all are there |
| Requests.GetMessage | internal/broker/server.go:565-612 | step by step in source order, each answer has exactly its meaning: a message is the first row with the GUID of an open chat, admissible; not visible is a hidden chat or a withheld row; not found and incomplete are the two kinds of absence |
| Requests.LookUp | internal/broker/server.go:592-611 | the search loop judges the first row with the GUID and tells an exhausted bound from a missing message |
| Requests.LookupIff | internal/broker/server.go:565-611 | the same of the specification, for every request |
| Answers.FewMessagesFit | internal/broker/server.go:259-268 | up to twenty messages within the broker's own bounds, with any cursor that decodes, are never too long an answer to collection |
| Answers.FewRowsAreSent | internal/broker/server.go:259-268 | in time, up to twenty such messages of a history, and any such message looked up, are sent as answered |
| Answers.ShortListingsAreSent | internal/broker/server.go:259-268 | so is a listing whose chats fit together |
| Answers.AdmissibleIsModest | internal/broker/server.go:466-508 | whatever is shown under a chat the broker accepts is within those bounds, since normal forms are no longer than what was read |
| Answers.LongMessagesAreRefused | internal/broker/server.go:259-268 | messages that exceed 8 MiB together are refused as an answer |
| Answers.SentIff | internal/broker/server.go:249-278 | an answer is sent as given if and only if its id is good, it comes in time and it has at most 8 MiB; too large means exactly a good answer in time that has more |
| LongAnswers.LongTextsFail | internal/broker/server.go:259-268 | 140 messages of 65,536 letters, within every other bound: the request for all of them fails on its length, and succeeds for any limit of one to twenty |
| LongAnswers.TwentyIsTheMost | internal/broker/server.go:259-268 | a table of 21 messages within every bound whose answer is too long, so twenty is the largest limit that always works |
| CollectionRun.FirstRequestIsSettled | internal/broker/server.go:667-684 | every valid first request starts a settled run at its very position |
| CollectionRun.LegacyCursorIsSettled | internal/broker/server.go:629-647 | a legacy cursor without a timestamp resumes at its own row |
| CollectionRun.OtherStepsKeepTheClient | internal/broker/server.go:649-735 | rows, chats and join rows that come, change or go, clock and policy changes, restarts, failed requests and lost answers leave the client's position unchanged and the run settled |
| CollectionRun.CollectSucceedsIff | internal/broker/server.go:649-735 | in a settled run a collection request succeeds if and only if its id and limit are admitted, the release has the collect command, the files keep their identity, the process ends and the deadline is kept, both policies load, its arguments are good, the producer returns a page, the lines of that page fit the stream and the answer fits the transport |
| CollectionRun.HandledIff | internal/broker/server.go:649-735 | the part of this before the answer is written, and exactly the answer the handler makes of the page |
| CollectionRun.SuccessAdvances | internal/broker/server.go:691-734 | a success examines exactly the rows in scope between the old and the new position, keeps boundary and timestamp while pending, clears the timestamp on completion at exactly the boundary, and is complete exactly when nothing in scope remains below it |
| CollectionRun.DeliveredIsAdmissible | internal/broker/server.go:706-729 | every message of one success is admissible under the policy loaded after its read and sits on an examined row |
| CollectionRun.RunKeepsSettled | internal/broker/server.go:649-735 | over any interleaving the run stays settled: the position never goes back and the log of examined rows only grows, strictly ascending |
| CollectionRun.ExaminedIffInScopeWhenReached | internal/broker/server.go:649-735 | over every run, a row is examined if and only if some page read past its position while the row was in scope; with the ascending log, exactly once |
| CollectionRun.RetainedRowsAreExamined | internal/broker/server.go:649-735 | without a timestamp, every row between the start and the final position that was not deleted was examined |
| CollectionRun.SelectionPersists | backend/imsg/MessageStore+SafeCollection.swift:66-96 | a row the date query selects stays selected while it and its chats stay as they are, because the clock only widens the window |
| CollectionRun.SelectedRowsAreExamined | backend/imsg/MessageStore+SafeCollection.swift:61-113 | every row eligible at the start of a run, and left as it is with its chats, is examined once it is passed |
| CollectionRun.LaterRowsAreExamined | backend/imsg/MessageStore+SafeCollection.swift:61-65 | every retained row above the boundary of a pending bootstrap is examined by the ordinary cycles that follow |
| CollectionRun.PendingCycleIsPinned | internal/broker/server.go:691-733 | boundary and timestamp are the same at every moment of a pending cycle, and it completes at exactly its boundary |
| CollectionRun.PagingRefinesOneScan | internal/broker/server.go:698-734 | on a fixed table and policy, whatever the limits and whichever pages fail or are lost, the messages delivered between two positions are those of one filtered scan |
| CollectionRun.FullCycleIsOneScan | internal/broker/server.go:691-734 | in both modes, a whole cycle in pages of any limits ends exactly at its boundary and delivers what one filtered scan of all eligible rows in (after, upper] would |
| CollectionRun.LimitsNeverMatter | internal/broker/server.go:696-734 | two ways of paging through a whole cycle deliver the same messages |
| CollectionDelivery.RunDeliversInOrder | internal/broker/server.go:649-735 | over every run, the messages delivered ascend strictly by row, so none is delivered twice |
| CollectionDelivery.DeliveredIffAdmissibleWhenReached | internal/broker/server.go:649-735 | over every run, with policies changing from page to page, a message is delivered if and only if some page read past its row while the row was in scope and the policy loaded after that read admits it in this form |
| CollectionDelivery.DeliveredIffOwed | internal/broker/server.go:649-735 | from table to client, over every run: a message is delivered if and only if some page read past its row while that row was in scope, and the row and its chat as they were then, field by field, make this message and the policy loaded after the read permits their conversation |
| CollectionDelivery.EligibleRowsAreDelivered | backend/imsg/MessageStore+SafeCollection.swift:61-113 | every row eligible at the first page of a bootstrap, under a positive chat id and left as it is, is read as a message by the page that reaches it and delivered exactly if that page's policy admits it |
| CollectionDelivery.PassedRowFits | internal/backend/stream.go:55-66 | every row that a success reads past decodes and is printed in a line below 2 MiB |
| CollectionDelivery.LongRowBlocksCollection | internal/backend/stream.go:55-66 | a row in scope whose line is not below 2 MiB keeps every run's position below it for as long as the row stays as it is |
| CollectionProgress.SmallAnswersFit | internal/broker/server.go:259-268 | an answer to a request for up to twenty rows is never too long, whatever the messages and whatever the table |
| CollectionProgress.SmallRequestsSucceedIff | internal/broker/server.go:649-735 | with chats the broker could show, requests for up to twenty rows never fail on a length: they succeed if and only if id, limit, release, machine, policies and arguments are good and the producer returns a page |
| CollectionProgress.TooLargeAsksForMany | internal/broker/server.go:259-268 | a request whose answer is too long fails on nothing else, and asked for more than twenty rows |
| CollectionProgress.AskingForLessSucceeds | internal/broker/server.go:259-268 | such a request succeeds with any limit of one to twenty |
| CollectionProgress.SuccessIsFull | internal/backend/collection.go:104-122 | a success that does not complete its cycle moves the position by at least the rows it was allowed |
| CollectionProgress.PendingCycleIsShort | internal/broker/server.go:691-733 | over every run, with rows coming and going: a pending cycle from a to U with limits of at least L has n * L < U - a while it is pending after n successes, and (n - 1) * L < U - a when they complete it |
| CollectionProgress.CycleCanComplete | internal/broker/server.go:649-735 | from every settled moment at which the table can be read, requests for up to twenty rows complete the cycle, in at most the pages its distance takes |
| CollectionProgress.FullCycleExaminesAll | internal/broker/server.go:691-734 | a completed cycle has examined every row in scope from its start to its boundary |
| CollectionProgress.FullCycleDeliversWhatIsOwed | internal/broker/server.go:691-734 | and has delivered of them exactly the messages that the table owes the policy |
| CollectionProgress.NewRowsAreReached | internal/broker/server.go:691-734 | with no boundary pending and no timestamp, whenever the table can be read, there are requests after which every row above the position is examined and none is newer |
| CollectionProgress.PagesAreCeiling | internal/backend/collection.go:100-122 | that number of pages is the distance divided by the limit, rounded up |
| CollectionProgress.NewKeyStrandsIff | internal/broker/cursor.go:84-106 | when the broker comes back with another key, a client that holds a sealed cursor gets no further in any run, and every other client goes on from where it was |
| Stream.StepKeepsInv | internal/backend/stream.go:52-87 | every step of reader, process, consumer, timeout and close keeps the protocol's invariant |
| Stream.SuccessMeansWholeOutput | internal/backend/backend.go:199-231 | in every interleaving, success means a clean exit by itself, every non-blank line written handled once and in order, at most maxRows of them, every line below 2 MiB and all of them at most 64 MiB, one wait, and an unchanged database identity |
| Stream.SuccessMeansAllTaken | internal/backend/backend.go:199-231 | success also means that the handler took every line and the last identity check passed |
| Stream.EveryBoundedOutputCanSucceed | internal/backend/backend.go:199-231 | conversely, for every output of lines without newlines within those bounds there is a run that returns success with it |
| Stream.TimeoutNeverLooksLikeSuccess | internal/backend/backend.go:213-228 | once the context has timed out before the context check of the last event, no continuation succeeds |
| Stream.LateTimeoutIsMissed | internal/backend/backend.go:214-221 | after that check a timeout, during the identity check or later, goes unnoticed and success is still returned |
| Stream.OwnStepsRunOut | internal/backend/stream.go:91-95 | after the pipe is shut, every step of the program itself uses up a finite supply |
| Stream.CloseNeverBlocks | internal/backend/stream.go:70-95 | from every reachable state on the way out, some step of the program is enabled |
| Stream.CloseReturns | internal/backend/stream.go:52-95 | close returns once those steps are taken, with the reader gone, both channels closed and the process waited for, each exactly once |
| Stream.GivenUpIsKilled | internal/backend/stream.go:75-81 | at no moment of any run is a process waited for that still runs although its output was given up |
| Stream.StepKillsFirst | internal/backend/stream.go:78-81 | nor does a waiting begin for a process that runs although its stream is cancelled or has timed out |
| Stream.NothingHappensTwice | internal/backend/stream.go:52-87 | at no moment of any run is a channel closed, or the process waited for, more than once |
| CollectStream.CollectReadsTheWholeOutput | internal/backend/collection.go:61-97 | in every interleaving in which run succeeds, Collect returns what the whole output amounts to, though its handler saw the lines one by one |
| CollectStream.CollectReturnsThePrintedPage | internal/backend/collection.go:61-97 | when the process writes the lines of a producer's page, in every interleaving Collect returns exactly that page or fails |
| CollectStream.CollectCanReadIt | internal/backend/collection.go:61-97 | conversely, whatever an output amounts to, some interleaving with the handler in its loop makes Collect return it |
| SecurePath.CheckDirectory | internal/securefile/securefile.go:89-128 | for every finite file system the worklist loop terminates and accepts if and only if a recursive resolver, with at most 40 links and physical dot-dot, reaches a directory and everything it visits is trusted |
| SecurePath.AcceptsIff | internal/securefile/securefile.go:89-128 | what acceptance asks of every entry on the way, by kind |
| SecurePath.ChainIsAcceptedIff | internal/securefile/securefile.go:108-111 | a directory behind a chain of n links is accepted if and only if n is at most 40 |
| SecurePath.JoinedEntry | internal/securefile/securefile.go:97-99 | because the resolved part is free of links, joining by text and asking the system is a plain lookup |
| SecurePath.ResolveAppend | internal/securefile/securefile.go:116-120 | resolving a link's target followed by the rest is resolving the two in turn, links counted throughout |
| SecurePath.AcceptedDirectoryIsGuarded | internal/securefile/securefile.go:76-87 | the directory an accepted path leads to, and every directory above it, is owned by a trusted user and protected or root-sticky |
| Identity.NormalizeIdentity | internal/policy/identity.go:11-40 | the source's branches and character loop compute the normal form |
| Identity.NormalizeIff | internal/policy/identity.go:11-40 | what is accepted, and as what: trimmed of white space, an address of the pattern, meaning itself with its capital letters made small and nothing else changed, or the spelling of a number, meaning its digits |
| Identity.EmailIff | internal/policy/identity.go:9-18 | the address pattern, with its labels of at most 63 characters, as a local part and labels joined by dots |
| Identity.TrimIff | internal/policy/identity.go:12 | trimming leaves what is between the white space at both ends |
| Identity.DigitsFilter | internal/policy/identity.go:22-34 | the digits kept are all digits, in order, and nothing else |
| Identity.NormalFormIsCanonical | internal/policy/identity.go:11-40 | a normal form normalizes to itself, is nonempty and NUL-free, and is a lower-case email or a plus sign with 8 to 15 digits, the first not zero (clause 6 of ITU-T E.164) |
| Identity.CaseNeverMatters | internal/policy/identity.go:16-21 | two texts equal but for the case of letters from a to z normalize alike |
| Identity.PhoneAcceptedIff | internal/policy/identity.go:22-39 | without an at sign, exactly the texts that trim to a plus sign, separators and 8 to 15 digits, the first not zero, are accepted, as the digits alone |
| Identity.SeparatorsNeverMatter | internal/policy/identity.go:29-30 | taking out all separators after the plus sign changes nothing, except that other white space left inside the text is refused |
| Policy.ParticipantsMeaning | internal/policy/policy.go:140-152 | the participant list holds each normal form once and fails exactly when an entry does not normalize |
| Policy.NormalizeParticipants | internal/policy/policy.go:140-152 | the loop computes that list |
| Policy.ParticipantsInOrder | internal/policy/policy.go:140-152 | members are listed in the order in which they first occur |
| Policy.AuthorizeConversation | internal/policy/policy.go:116-179 | the branches in source order: valid if and only if the conversation describes one group or one direct chat, allowed if and only if moreover it is not excluded and a direct counterpart is allowed and not the owner |
| Policy.AuthorizeMeaning | internal/policy/policy.go:116-179 | a conversation is valid if and only if GUID, flag, identifier and members describe one group or one direct chat, and allowed if and only if it is not excluded and is a group or a direct chat with an allowed counterpart who is not the owner |
| Policy.AddDirect | internal/policy/policy.go:30-45 | the loop adds every derived identity that is not the owner's, or fails as a whole |
| Policy.WithDirectKeepsValid | internal/policy/policy.go:30-45 | owners and direct identities stay disjoint sets of normal forms |
| Policy.WithDirectComposes | internal/policy/policy.go:30-45 | two batches of grants are one batch, failures included |
| Policy.WithDirectReadsASet | internal/policy/policy.go:30-45 | neither order nor repetition of derived identities matters |
| Policy.WithDirectFrame | internal/policy/policy.go:28-45 | validity, kind and members of every decision are kept, and a decision changes from denied to allowed exactly for a non-excluded direct chat with a derived identity who is not the owner |
| Policy.Load | internal/policy/policy.go:71-99 | the loops accept exactly the files whose every entry is good, and yield a valid policy that permits exactly the conversations the entries permit |
| Policy.LoadedIff | internal/policy/policy.go:71-99 | a file loads if and only if there is an owner, every identity normalizes, no allowed one to an owner's, and every exclusion is 1 to 512 bytes without the white space around it |
| Policy.LoadedAllowsIff | internal/policy/policy.go:71-179 | from file to decision: a conversation is allowed if and only if no exclusion trims to its GUID and it is a group, or a direct chat whose counterpart some allowed entry means |
| Contacts.NormalizePhoneField | internal/contacts/source.go:52-75 | the digit loop and the region rule compute the normal form |
| Contacts.PhoneFieldIff | internal/contacts/source.go:52-75 | in the United States and Canada, unless it begins with a plus sign, a field is accepted exactly as a national number; in every other case as whatever identity it spells |
| Contacts.NormalizePhoneFixesItsOutput | internal/contacts/source.go:52-75 | in every region, a normalized field normalizes to itself |
| Contacts.NationalAcceptedIff | internal/contacts/source.go:54-73 | in a national region a field without a plus sign is accepted if and only if it spells a ten-digit number, area and exchange codes beginning with 2 to 9, with or without a leading 1, and means +1 and that number |
| Contacts.NationalEqualsInternational | internal/contacts/source.go:50-75 | every accepted national spelling means the same as its +1 spelling, in every region |
| Contacts.DeriveIdentities | internal/contacts/source.go:79-134 | the nested loops accept exactly the acceptable snapshots and compute the sorted identities and the count of skipped fields |
| Contacts.IdentitiesIff | internal/contacts/source.go:79-104 | an answer yields identities if and only if it is complete, of the container and lists asked for, and within every bound |
| Contacts.IdentitiesMeaning | internal/contacts/source.go:98-133 | the result is sorted, free of repetition, made of normal forms, and holds exactly the accepted normal forms of all fields |
| Contacts.AcceptedMeansTheSelection | internal/contacts/source.go:80-94 | an accepted answer to an explicit selection names exactly the selected lists |
| Contacts.FieldsAreAccountedFor | internal/contacts/source.go:99-127 | identities and skipped fields together never exceed the number of fields |
| Contacts.SkippedIsExact | internal/contacts/source.go:105-127 | exactly the fields that grant nothing are counted as skipped, card by card |
| Contacts.OrderNeverMatters | internal/contacts/source.go:79-134 | reordering cards, and fields within cards, changes neither acceptance nor the result |
| Contacts.PhoneGrantIsNumberIff | internal/contacts/source.go:105-114 | what a phone field grants is an E.164 number if and only if the field holds no at sign |
| Contacts.PhoneFieldMayGrantAnEmail | internal/contacts/source.go:109-114 | a phone field that grants an email address |
| ContactsSnapshot.TakeSnapshot | macos/ContactsCore.swift:79-115 | the nested loops return the specified snapshot or the specified failure |
| ContactsSnapshot.SelectionIff | macos/ContactsCore.swift:79-101 | when a selection is made, and of what: the lists asked for, or all lists of the container, sorted |
| ContactsSnapshot.AddAllMeaning | macos/ContactsCore.swift:102-110 | merging members succeeds exactly when all are acceptable, agree wherever ids coincide and fit the limit, and gives their union |
| ContactsSnapshot.TakenIff | macos/ContactsCore.swift:79-115 | a snapshot is taken if and only if the selection is sound, its members are collectable and the store did not change, and it is the id-unique union of the selected lists' members, sorted |
| ContactsSnapshot.TakenIsAccepted | internal/contacts/source.go:79-104 | the broker accepts every snapshot the helper takes for the broker's own configuration |
| ContactsSnapshot.GrantsComeFromTheSelectedLists | internal/contacts/source.go:79-134 | end to end, the granted identities are exactly the accepted normal forms over the members of the selected lists |
| GrantManager.Manager.Refresh | internal/contacts/source.go:176-204 | a refresh extends the history and keeps the fields what the history makes of them |
| GrantManager.Manager.Get | internal/contacts/source.go:217-228 | over any history and clock, grants are returned if and only if the latest publish s is not revoked since and s <= now < s + max age, and they are that snapshot's identities |
| GrantManager.Manager.Report | internal/contacts/source.go:230-248 | ready or degraded if and only if Get would succeed, ready if and only if the latest refresh also published; times and code are those of the history |
| GrantManager.OutcomeIff | internal/contacts/source.go:176-204 | a refresh publishes if and only if its answer came in time and may be used; otherwise it ends with exactly one code, which revokes unless it is unavailable, timeout or store changed |
| GrantManager.RemembersStep | internal/contacts/source.go:192-203 | publish, revocation and transient failure each keep the stored identities equal to those of the publish that stands |
| GrantManager.GrantsAreDetermined | internal/contacts/source.go:217-228 | a moment has at most one list of grants |
| GrantManager.FailuresNeverGrant | internal/contacts/source.go:197-203 | a refresh that publishes nothing never adds or prolongs a grant, and ends it exactly when its code is not transient |
| GrantManager.HardFailureRevokesIff | internal/contacts/source.go:187-203 | a hard failure ends current grants if and only if the refresh had not run out of time |
| GrantManager.DerivedGrantAllowsIff | internal/broker/server.go:336-352 | with grants available the policy always loads and stays valid, and a direct chat the file alone does not allow is allowed if and only if a fresh, unrevoked snapshot grants its counterpart and neither exclusion nor ownership forbids it |
| GrantManager.PolicyLoadsIff | internal/broker/server.go:336-352 | with what the manager gives, a policy file loads if and only if there are current grants, which are added to its direct identities, the owners' left out, and to nothing else |
| Framing.BigEndianRoundTrip | internal/rpc/framing.go:14-33 | the length header reads back as the length |
| Framing.RoundTrip | internal/rpc/framing.go:9-41 | every sequence of nonempty payloads within bounds reads back as itself and leaves the rest of the stream untouched |
| Framing.FramesAreUnambiguous | internal/rpc/framing.go:9-41 | no stream is two sequences of frames at once |
| Framing.TruncationIsNoticed | internal/rpc/framing.go:9-26 | a stream that ends inside a frame is reported as cut, wherever the cut falls |
| Framing.DriveMeaning | internal/rpc/framing.go:43-55 | a writer that makes progress is always driven to the end, with at most one call per byte; a call that takes nothing or claims too much ends it in an error at once |
| Framing.WriteAll | internal/rpc/framing.go:43-55 | for any schedule of short writes, the bytes accepted are a prefix, all of them on success, and a call without progress or with too much ends in an error |
| Framing.WriteFrame | internal/rpc/framing.go:28-41 | nothing is written for a payload without a frame; otherwise a prefix of the frame, all of it on success, and success whenever the writer makes progress |
| Framing.ReadFull | internal/rpc/framing.go:9-13 | for any schedule of short reads the buffer is filled with the next bytes of the stream, or the stream has ended |
| Framing.ReadFrame | internal/rpc/framing.go:9-26 | the reader returns what the bytes say and takes exactly those bytes from the stream |
| Framing.ReadContactFrame | macos/ContactsTransport.swift:52-68 | the helper's reader returns the same payload or its own error, and takes exactly the same bytes |
| Framing.WriteContactFrame | macos/ContactsTransport.swift:70-74 | the helper writes the same frame for every length that fits the header, empty ones included |
| Framing.ReadersAgreeIff | macos/ContactsTransport.swift:63-74 | each side reads the other's frame if and only if it is not empty and within the reader's maximum, where zero means none for Go and is itself the maximum for Swift |
| Shortfalls.DoublyJoinedIsRefused | backend/imsg/MessageStore+SafeCollection.swift:75-97 | a table of one message, joined twice, with a bootstrap page that is refused |
| Shortfalls.ZeroChatIsSkipped | backend/imsg/MessageStore+SafeCollection.swift:180-185 | a table of one message that the date query selects and the page skips |
| Shortfalls.CrowdedPageIsRefused | internal/backend/stream.go:61-66 | a table within every bound of the producer whose first page of 500 rows the adapter never takes |
| Shortfalls.LongNamedIsRefused | internal/backend/stream.go:55-60 | a table of one message whose page the adapter refuses at every limit |
| Shortfalls.DatedLegacyIsPlannedAndFails | internal/broker/server.go:640-646 | a legacy cursor with a timestamp that the broker accepts and every request fails with |
| Shortfalls.LateStartIsPlannedAndFails | internal/broker/server.go:678-683 | an accepted timestamp that no longer parses once written in UTC, so that its request always fails |
| Shortfalls.PaddedSampleIsAccepted | internal/config/config.go:98-109 | a configuration that validation accepts, under which no cursor can be used |
| Shortfalls.LateDenialKeepsGrants | internal/contacts/source.go:187-203 | a denied permission that keeps grants because its refresh ran out of time, and ends them otherwise |

## Left out

- Sockets, peer credentials, file locks, real system calls and process spawning: foreign; the stream keeps its abstract steps and the file system is a finite map.
- The regular expressions of the content filter (internal/filter/content.go): an arbitrary predicate `suppress` on the text.
- JSON, base64, AES-GCM and key storage: encoded values are the values themselves; a JSON line that does not decode is an absent event. Only the lengths of a cursor's text and of a printed line are kept.
- SQLite, schema discovery and typed-stream text: queries are predicates with an ascending, limited listing; whether columns and a date index exist is a flag; decoded body text is a field.
- When a deadline passes during a collection request: `Host.inTime` says whether the whole of it was kept, as `dispatch` asks at the end.
- Failures are taken to be short, with their messages: an id has at most 64 bytes.
- A carriage return at the end of a line, which the scanner drops before it measures the line.
- Dates: instants are whole nanoseconds and read back exactly on both sides; rounding in the producer's conversions and in printed message times is not modelled.
- The limits of 4 MiB per helper response and 64 KiB per request, and permission prompts: a failure of these is a failed fetch.
- `CheckOwnerFile`, `ReadOwnerFile` and the final file's own checks (internal/securefile/securefile.go:13-74): easy branch lists beside the walk.
- Swift's comparison of strings up to canonical equivalence: ids are compared by their characters, and sorted in the order of the model.
- Strings that are not valid UTF-8: a string is a sequence of scalar values.
- `discover` and the discovery checks (macos/ContactsCore.swift:59-77), `Manager.Run`'s ticker, command-line parsing, timestamp formatting in Status: plumbing.
- Concurrent calls of the manager: `Refresh`, `Get` and `Status` hold its lock, so a history of whole calls is every interleaving of them.
- SecurePath.CheckDirectory: takes the absolute, clean directory that `CheckParents` computes; Clean and Abs are not modelled, and the file system does not change during the walk.
- Cursor.DecodeOfEncode: sealing is ideal, so forgery and nonce reuse are outside the statement.
- Collection.BootstrapPagesAcceptedIff: its second condition is asked of each page; PageSizes.ModestPagesFit gives bounds on limit and chats that imply it.
- CollectionRun.SelectedRowsAreExamined: speaks of rows left as they are until the run ends; for rows deleted or changed meanwhile, ExaminedIffInScopeWhenReached says when they were examined.
- CollectionRun.FullCycleIsOneScan: one cycle at a time; across cycles the statement applies to each in turn.
- Stream.CloseReturns: assumes that the program's enabled steps are eventually taken, that a read ends after close, and that waiting ends after kill.
- Framing.ReadFull: a reader that delivers nothing without reaching the end is excluded; io.ReadFull would wait for it without end.
- Framing.WriteContactFrame: a longer length stops the Swift program and is excluded.
- GrantManager.Manager.Report: an absent time is the source's zero time; a clock that itself reads the zero time is not told apart there.
