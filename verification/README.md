# MailWisp: a verified model

MailWisp is a self-hosted receiving mail service. Mail arrives over LMTP, raw bytes go into a
content-addressed file store, rows go into PostgreSQL, a parse queue turns stored bytes into
previews, and a retention job withdraws expired mail and removes what nothing refers to any more.
This project models those protocols and proves what they promise.

The form follows the code. Objects that change step by step (repositories, the session, the DATA
reader, the parser state, the limiter, the reconcile scan) are classes whose methods are proved
against functions on values; protocols with interleaving and crashes are step machines over those
functions, with theorems about every reachable state; codecs and validators are functions with
round-trip lemmas.

| part | modules |
|---|---|
| content lifecycle | `Database`, `Quota`, `QuotaChecks`, `Repositories`, `Retention`, `Lifecycle`, `LifecycleSteps`, `LifecycleSafety`, `LifecycleBytes`, `LifecycleAccounting`, `LifecycleTwoSweeps` |
| parse queue | `ParseQueue`, `ParseRuns`, `ParseSafety`, `ParserWorker`, `RawVerifier` |
| LMTP | `DataReader`, `LineStream`, `DataTransparency`, `DotTransparency`, `Transcript`, `TranscriptFacts`, `TranscriptExample`, `Session` |
| listing, reconcile, archive | `Pagination`, `MessageCursor`, `Reconcile`, `ReconcileExact`, `Archive`, `ArchiveRestore`, `ContentKey` |
| bounds | `Capacity`, `RateLimiter`, `RateLimiterEviction`, `Utf8`, `Utf8Runes`, `Preview`, `MailParser`, `MailMessage` |
| credentials | `Capability`, `Lineage`, `Token`, `Base64Url` |
| shared helpers | `Common` |

What the main results say:

- **Content lifecycle.** In every interleaving of deliveries, deletions, expiry batches, any number
  of sweeps and process crashes, committed content has its object, and acknowledged mail can be read
  back byte for byte until its message is withdrawn. With one sweep at a time no object is ever
  forgotten; two sweeps at once can forget one, whatever the digest and limits, so the service lease
  is exactly what the accounting needs.
- **Parse queue.** The lease token alone is a sufficient fence: one outcome per claim, dead tokens
  stay dead, terminal rows are final, results come only from fully verified bytes, and retries are
  bounded although the attempt counter goes up and down.
- **LMTP.** The decoder reads the octet stream and nothing else, whatever the buffers and however the
  connection cuts it into fragments, and always resynchronises. For
  every input, grammar and outside world the session's transcript belongs to a language in which every
  command line is answered as it must be, every delivery is followed by exactly one final reply per
  listed Inbox, and no body line is a command; it accounts for the whole input.
- **Fast forms refine simple ones.** Keyset pages under concurrent change, batched reconcile, batched
  expiry and archive/restore agree with their set-level meaning.
- **Exact conditions.** The rate limiter's clean-up is invisible if and only if
  `burst <= 10 * perMinute`; the commit-time quota check guards every Inbox if and only if recipients
  are distinct and a key has one size; the disk floor holds up to one byte per oversized put in flight
  or staging file left behind, and that byte is really lost in some run.

The code departs from two standards, and it is proved exactly where:

- `lmtp/data_reader.go` removes a leading dot only from a line starting with two. A body is decoded as
  section 4.5.2 of RFC 5321 asks if and only if no line of it is a dot followed by something other
  than a dot (`DotTransparency.DecodesByRfcIff`; the body `.a` is such an input).
- `lmtp/session.go` gives one final reply per distinct Inbox, where section 4.2 of RFC 2033 asks for
  one per accepted RCPT. The two agree for a delivery if and only if no two of its accepted RCPTs
  named one Inbox (`TranscriptFacts.OneReplyPerAcceptedRcptIff`; `TranscriptExample` has the shortest
  session where they do not).

A digest is an arbitrary function throughout; only `AcknowledgedMailKeepsItsBytes` asks that the byte
strings delivered in the run at hand do not collide. Fresh identities (message ids, lease tokens, capability ids) are parameters required to be
unused. Time, lookups, I/O failures, read chunkings and crash points are parameters or free choices
of a step.

## Model

| member | source | states |
|---|---|---|
| ContentKey.AcceptedDigestIsLowerHex | internal/contentstore/store.go:456-471 | length, case folding and hexadecimal decoding together accept exactly the 64-character lower-case hexadecimal digests |
| ContentKey.KeyOfDigest | internal/message/delivery.go:64-72 | keys and digests determine each other |
| Database.Keep | internal/postgres/mailbox_repository.go:75-147 | the surviving message rows are exactly those not dropped |
| Database.WithdrawKeepsIntegrity | internal/postgres/mailbox_repository.go:75-147 | deleting or expiring keeps every message pointing at content and every content row in use |
| Database.WithdrawQueuesExactlyTheOrphans | internal/postgres/mailbox_repository.go:332-463 | a content row leaves exactly with its last message, and exactly then its deletion is queued under the next generation; no other queue row changes |
| Database.QuotaErrorMeaning | internal/postgres/delivery_repository.go:209-277 | the recipient-by-recipient check passes exactly when every recipient has message and byte room |
| Database.CommitKeepsIntegrity | internal/postgres/delivery_repository.go:144-207 | an accepted delivery keeps the tables consistent |
| Database.CommitWrites | internal/postgres/delivery_repository.go:163-198 | an accepted delivery keeps every earlier row and adds exactly one per recipient with its key, sender, receive time and own id, records the content at its size, and changes nothing else |
| Quota.CommitCharges | internal/postgres/delivery_repository.go:144-277 | a commit charges each recipient one message and the content size, nobody else anything, shared content or not |
| Quota.CommitAccepts | internal/postgres/delivery_repository.go:144-277 | a delivery is accepted exactly when well formed, all recipients are live with room, and the key is not stored under another size |
| Quota.CommitKeepsQuota | internal/postgres/delivery_repository.go:209-277 | no commit takes an Inbox over its message or byte quota |
| Quota.WithdrawKeepsQuota | internal/postgres/mailbox_repository.go:75-147 | withdrawing keeps every Inbox within its limits |
| QuotaChecks.BothChecksAreCommit | internal/postgres/delivery_repository.go:144-207 | the commit with both of its other checks is the commit of the code |
| QuotaChecks.RepeatedRecipientExceeds | internal/message/delivery.go:94-113 | without the check for repeated recipients one delivery puts two messages into a quota of one |
| QuotaChecks.ChangedSizeExceeds | internal/postgres/delivery_repository.go:163-183 | without the size check a run of three deliveries ends with fifteen bytes in a quota of ten |
| QuotaChecks.GuardsIffBothChecks | internal/postgres/delivery_repository.go:144-277 | commits keep every Inbox within quota if and only if recipients are distinct and a key has one size |
| Repositories.MailRepository.WithdrawRows | internal/postgres/mailbox_repository.go:95-147 | cascade, per-key orphan loop and enqueue together are exactly the set-level withdrawal |
| Repositories.MailRepository.DeleteInbox | internal/postgres/mailbox_repository.go:75-147 | removes one Inbox with its messages and orphaned content, or reports it missing and changes nothing |
| Repositories.MailRepository.DeleteMessage | internal/postgres/mailbox_repository.go:415-463 | removes one message of that Inbox and its content if orphaned, or changes nothing |
| Repositories.LiveUntilExpired | internal/postgres/mailbox_repository.go:350-356 | an active Inbox is live or expired, never both, and expired exactly from its time on |
| Repositories.MailRepository.SelectExpired | internal/postgres/mailbox_repository.go:350-360 | the earliest expired Inboxes, as many as limit and supply allow |
| Repositories.EarlierIsAnOrder | internal/postgres/mailbox_repository.go:350-360 | earlier expiry comes first, and ties are broken one way |
| Repositories.MailRepository.CleanupExpiredInboxes | internal/postgres/mailbox_repository.go:332-412 | withdraws exactly those, or nothing while another cleanup holds the lock |
| Repositories.MailRepository.AcknowledgeContentDeletion | internal/postgres/mailbox_repository.go:507-519 | removes the queue row of exactly that generation and nothing else |
| Repositories.MailRepository.CheckQuotas | internal/postgres/delivery_repository.go:263-276 | the usage loop finds the first broken quota, or none |
| Repositories.MailRepository.Usage | internal/postgres/delivery_repository.go:242-262 | counts messages and joined bytes of one Inbox |
| Repositories.MailRepository.LockRecipients | internal/postgres/delivery_repository.go:209-237 | the number of locked rows equals the number of recipients exactly when every recipient is live |
| Repositories.MailRepository.CommitDelivery | internal/postgres/delivery_repository.go:144-207 | all or nothing: the rows of the value-level transaction (see CommitWrites), or an error and unchanged tables |
| Retention.OrphansTwice | internal/postgres/mailbox_repository.go:332-412 | content orphaned by two batches in turn is what one combined batch orphans, each key once |
| Retention.WithdrawTwice | internal/jobs/retention.go:101-116 | expiring in batches reaches the same tables, generations included, as one transaction |
| Retention.ContentStore.DeleteUnreferenced | internal/contentstore/store.go:377-411 | removes the object exactly when the re-check finds no reference and removal succeeds |
| Retention.ExpireAll | internal/jobs/retention.go:101-116 | the batch loop ends with every expired Inbox withdrawn, counted exactly, for any batch size |
| Retention.ListContentDeletions | internal/postgres/mailbox_repository.go:466-492 | any page of the queue within the limit, full if it can be |
| Retention.ProcessTask | internal/jobs/retention.go:117-136 | deletes if unreferenced, then acknowledges the listed generation |
| Retention.ProcessPage | internal/jobs/retention.go:117-136 | clears its page except for objects that cannot be removed |
| Retention.Sweep | internal/jobs/retention.go:101-144 | an undisturbed sweep leaves no expired Inbox, clears its page and never removes referenced content |
| LifecycleSafety.StepKeepsSafe | internal/message/receiver.go:67-97 | every step of every delivery, deletion, expiry, sweep and crash keeps the safety invariant |
| LifecycleSafety.SweepKeepsSafe | internal/contentstore/store.go:377-394 | the fenced re-check keeps a sweep from removing content in use or in delivery |
| LifecycleSafety.CrashKeepsSafe | internal/contentstore/store.go:124-133 | a process crash releases leases and loses no committed content |
| LifecycleSafety.RunsAreSafe | internal/contentstore/store.go:124-133 | the invariant holds in every reachable state |
| LifecycleSafety.CommittedContentIsStored | internal/contentstore/store.go:377-394 | in every run, with any number of sweeps and crashes, each content row has its object under its digest and size |
| LifecycleBytes.RunsAreSourced | internal/message/receiver.go:67-97 | everything in flight, stored or remembered came in with a delivery |
| LifecycleBytes.AcknowledgedMailKeepsItsBytes | internal/lmtp/session.go:222-264 | mail answered with 250 reads back byte for byte until its message is withdrawn, in every run whose deliveries do not collide |
| LifecycleSafety.OnlyWithdrawingWithdraws | internal/postgres/mailbox_repository.go:75-147 | a message goes only by being deleted, with its Inbox, or by expiry |
| LifecycleSteps.DeliveriesProceed | internal/message/receiver.go:67-97 | a delivery keeps its lease and bytes from start to end; only installing writes a file, only committing writes rows, and the messages committed are the ones acknowledged |
| LifecycleSteps.CommittedIsFinished | internal/message/receiver.go:80-96 | a committed delivery ends by acknowledging or in a crash |
| LifecycleSteps.CommitsRecord | internal/message/receiver.go:80-96 | a commit stores the content under its digest and size with the envelope as given |
| LifecycleSteps.SweepsProceed | internal/jobs/retention.go:117-136 | a sweep works through its listing; only unlinking removes a file, only acknowledging touches the queue |
| LifecycleSteps.ExpiryIsDue | internal/postgres/mailbox_repository.go:350-356 | an expiry batch may run exactly when none of its Inboxes is live |
| LifecycleSteps.CrashesLoseOnlyTheProcess | internal/contentstore/store.go:124-133 | a crash can come at any time and leaves tables and files alone |
| LifecycleSteps.LeftoversAreFailedPuts | internal/message/receiver.go:76-96 | leftovers come from deliveries that end between installing and committing, and go by being committed or removed |
| LifecycleSafety.StepKeepsQuota | internal/postgres/delivery_repository.go:209-277 | no step takes an Inbox over its limits |
| LifecycleSafety.RunsStayWithinQuota | internal/postgres/delivery_repository.go:144-277 | from an empty database, every reachable state is within quota |
| LifecycleAccounting.StepKeepsTidy | internal/jobs/retention.go:117-136 | with one sweep, every step keeps the ownership accounting |
| LifecycleAccounting.RunsAreTidy | internal/jobs/retention.go:84-96 | the accounting holds in every reachable state |
| LifecycleAccounting.NoObjectIsForgotten | internal/postgres/maintenance_lease.go:30-49 | every object is referenced, leased, queued, or left by a failed or crashed delivery |
| LifecycleAccounting.AcknowledgementIsExact | internal/postgres/mailbox_repository.go:505-540 | an acknowledgement removes the task exactly when the content was not orphaned again since it was listed |
| LifecycleTwoSweeps.TwoSweepsCanForget | internal/jobs/retention.go:101-144 | two concurrent sweeps have a run that ends with an unowned, unqueued object, for every digest and limits |
| LifecycleTwoSweeps.ExclusiveIffNothingForgotten | internal/postgres/maintenance_lease.go:30-49 | exclusion of sweeps is necessary and sufficient for nothing to be forgotten |
| ParseQueue.ParseRepository.ClaimContent | internal/postgres/content_parse_repository.go:32-74 | leases one claimable row under a fresh token, or none exactly when none is claimable |
| ParseQueue.ParseRepository.CompleteContent | internal/postgres/content_parse_repository.go:77-188 | stores the result and marks the row parsed together, exactly if claim, revision and time are valid and the token holds it |
| ParseQueue.ParseRepository.FinishClaim | internal/postgres/content_parse_repository.go:214-258 | retry, fail and release change exactly the row held by the token (see OutcomesWait for what they make of it) |
| ParseQueue.RetryDelay | internal/jobs/parser.go:281-293 | the doubling loop equals the capped exponential |
| ParseQueue.ErrorCodeCharacters | internal/postgres/content_parse_repository.go:260-271 | a stored error code is one to 64 characters, a lower-case letter first, then such letters, digits and underscores |
| ParseSafety.StepKeepsSound | internal/postgres/content_parse_repository.go:42-66 | every step keeps the queue invariant |
| ParseSafety.RunsAreSound | internal/postgres/content_parse_repository.go:32-258 | it holds in every reachable state |
| ParseSafety.OneOutcomePerClaim | internal/postgres/content_parse_repository.go:238-256 | no claim has two successful outcomes |
| ParseSafety.SupersededTokensStayDead | internal/postgres/content_parse_repository.go:42-66 | a superseded token never changes anything again |
| ParseSafety.TerminalRowsAreFinal | internal/postgres/content_parse_repository.go:124-140 | parsed and failed are left only by deletion, and the result stays |
| ParseSafety.ResultsAreVerified | internal/jobs/parser.go:253-271 | a result exists exactly while its row is parsed, and only for bytes of full size and matching digest |
| ParseSafety.ProcessingRowsAreReclaimable | internal/postgres/content_parse_repository.go:42-66 | a processing row carries a lease from whose deadline anybody can take it over |
| ParseSafety.RowsComeAndGo | internal/postgres/delivery_repository.go:163-167 | new content waits to be claimed from its insertion on, as a new incarnation; deleted content takes its result along |
| ParseSafety.TakenUntilTheDeadline | internal/postgres/content_parse_repository.go:42-66 | a claim keeps its row from others exactly until its lease ends, one attempt further |
| ParseSafety.OutcomesWait | internal/postgres/content_parse_repository.go:238-256 | a retried or released row can be claimed exactly from the time named, with the claim's attempt or one less; a failed row never |
| ParseSafety.CompletingIsFinal | internal/postgres/content_parse_repository.go:124-140 | a parsed row is never claimed again and has the result of the verified bytes |
| ParseSafety.ReleaseUndoesTheAttempt | internal/postgres/content_parse_repository.go:207-212 | claiming and releasing leaves the attempt count as it was |
| ParseSafety.RetriesBounded | internal/postgres/content_parse_repository.go:52-60 | strictly increasing attempt numbers bound how many retries succeed |
| ParseSafety.AtMostMaxAttemptsRetries | internal/jobs/parser.go:221-239 | at most MaxAttempts - 1 retries succeed over the life of a row |
| ParserWorker.ClassifiedCodesAreStorable | internal/jobs/parser.go:295-324 | every classified error code passes the repository's code check |
| ParserWorker.CodesTellErrorsApart | internal/jobs/parser.go:295-324 | the stored code tells the failures apart |
| ParserWorker.Decide | internal/jobs/parser.go:221-239 | released exactly on cancellation, retried exactly on a deadline or an unavailable source before the last attempt |
| ParserWorker.TakeClaim | internal/jobs/parser.go:187-191 | taking a claim is a step of the queue's runs |
| ParserWorker.Attempt | internal/jobs/parser.go:199-222 | completion is decided only for bytes of full size and matching digest, and on a smooth source for all such bytes the parser accepts; which failure is retried or final, and under which code |
| ParserWorker.Report | internal/jobs/parser.go:204-239 | reporting the decision is a step of the queue's runs |
| ParserWorker.Conclude | internal/jobs/parser.go:199-239 | the attempt and its report are one step of the queue's runs, or none if it cannot be stored |
| ParserWorker.ProcessNext | internal/jobs/parser.go:187-239 | whatever the outside does, the effect is a claim followed by the one outcome the attempt calls for, or the claim alone if that cannot be stored; and when the row can be claimed again |
| ParserWorker.DelayBounds | internal/jobs/parser.go:281-293 | delays stay between the base and the cap |
| RawVerifier.Verifier.Verify | internal/jobs/parser.go:406-419 | accepts exactly full size and digest |
| RawVerifier.Verifier.Read | internal/jobs/parser.go:369-385 | passes data through and turns the end into a verdict on all bytes |
| RawVerifier.Verifier.Finish | internal/jobs/parser.go:387-404 | drains what is left and verifies the whole object |
| RawVerifier.OneChunk | internal/jobs/parser.go:369-385 | a single read contributes exactly its own bytes |
| RawVerifier.ContentConcat | internal/jobs/parser.go:369-385 | the object is the bytes in the order read, wherever the reads fall |
| RawVerifier.ParseClaim | internal/jobs/parser.go:253-271 | a parse stands only if the whole object matched its reference, however little the parser read; on a smooth source exactly if nothing else failed |
| LineStream.LinesAreTheStream | internal/lmtp/data_reader.go:103-125 | the lines, each with its CRLF, and what follows the last are the fragments in the order they came: no octet is lost, added or moved |
| LineStream.WholeIsLines | internal/lmtp/data_reader.go:103-125 | input ending with a complete line is nothing but its lines |
| LineStream.FragmentationIsInvisible | internal/lmtp/data_reader.go:36-125 | two fragmentations of one stream have the same lines and the same decoding under every limit |
| DataReader.ReadLimitedLine | internal/lmtp/data_reader.go:103-125 | reads exactly the first line of the stream, all of it even when it is over the limit |
| DataReader.Reader.Read | internal/lmtp/data_reader.go:36-82 | hands out the next stretch of the line-by-line decoding |
| DataReader.Reader.Drain | internal/lmtp/data_reader.go:84-101 | leaves the input just past the terminator, or fails exactly when there is none |
| DataTransparency.DecodeTerminatesIff | internal/lmtp/data_reader.go:36-82 | decoding reaches the terminator exactly when there is one and all lines and totals before it fit, and yields the unstuffed body then and a beginning of it otherwise |
| DotTransparency.JoinedVersusRfc | internal/lmtp/data_reader.go:61-67 | every line with one leading dot leaves one octet more than section 4.5.2 of RFC 5321, and no other line differs |
| DotTransparency.DecodesByRfcIff | internal/lmtp/data_reader.go:36-82 | a body decoded to its end is decoded as the RFC asks if and only if no line is a dot followed by something other than a dot |
| DotTransparency.DepartingInput | internal/lmtp/data_reader.go:61-67 | the body ".a" is decoded with its dot |
| DataTransparency.DotStuffingRoundTrip | internal/lmtp/data_reader.go:36-82 | decoding any fragmentation of a dot-stuffed message returns its lines |
| DataTransparency.ReadMessage | internal/lmtp/data_reader.go:36-82 | for every fragmentation and buffer sizes the output is a prefix of the decoding within maxBytes, and all of it at the end |
| DataTransparency.ReadToEnd | internal/lmtp/data_reader.go:36-82 | reading with any non-empty buffer yields the whole decoding |
| DataTransparency.ConsumeBody | internal/lmtp/session.go:222-240 | however little was read, the input ends just past the first line equal to "." |
| DataTransparency.AfterDotSplitsLines | internal/lmtp/data_reader.go:84-101 | exactly the body and its terminator are consumed |
| Transcript.AcceptOne | internal/lmtp/session.go:141-157 | accepting lookups one by one keeps the first MaxRecipients distinct Inboxes |
| TranscriptFacts.ReceiveIsClean | internal/lmtp/session.go:58-194 | each Receive carries the current MAIL's sender and a non-empty duplicate-free bounded list of Inboxes resolved in that transaction, which nothing cleared in between |
| TranscriptFacts.FinalRepliesFollow | internal/lmtp/session.go:222-259 | unless the session is cut off inside a body: the body is drained, exactly one final reply per listed Inbox follows in order of first acceptance with the outcome's code, and the transaction is cleared |
| TranscriptFacts.ListedAreFirstAccepted | internal/lmtp/session.go:141-157 | the listed recipients are the first accepted RCPT of each Inbox |
| TranscriptFacts.OneReplyPerAcceptedRcptIff | internal/lmtp/session.go:141-157 | there are as many final replies as accepted RCPTs if and only if no two of these named one Inbox (section 4.2 of RFC 2033) |
| TranscriptExample.SharedInboxIsAnsweredOnce | internal/lmtp/session.go:141-146 | two RCPTs of one Inbox are both answered 250 and get one final reply |
| TranscriptFacts.DeliveredMeansWholeBody | internal/lmtp/session.go:222-259 | with a receiver that succeeds only at the terminator, a 250 after DATA follows only when the whole unstuffed body was handed over |
| Session.AcknowledgedBodiesAreWhole | internal/lmtp/session.go:222-264 | the same for every session with such a receiver |
| Session.Session.constructor | internal/lmtp/session.go:35-38 | the session starts greeted by 220 with nothing open |
| Session.Session.ResetTransaction | internal/lmtp/session.go:328-334 | clears sender and recipients |
| Session.Session.DoLhlo | internal/lmtp/session.go:58-69 | a named LHLO clears the transaction; an unnamed one changes nothing |
| Session.Session.DoRset | internal/lmtp/session.go:195-199 | RSET clears the transaction |
| Session.Session.DoMail | internal/lmtp/session.go:70-102 | opens a transaction with the sender and declared size given exactly when greeted, none is open and the argument is acceptable, and which refusal otherwise |
| Session.Session.DoRcpt | internal/lmtp/session.go:103-157 | looks the address up with the size MAIL declared; 250 exactly when the resolved Inbox is among the recipients from then on, and which refusal otherwise |
| Session.Session.Accept | internal/lmtp/session.go:141-157 | a known Inbox is accepted again without being listed twice; a full list answers 452 |
| Session.Session.DoData | internal/lmtp/session.go:158-194 | a refused DATA reads nothing; an accepted one ends past the terminator with the transaction cleared |
| Session.Session.ReceiveData | internal/lmtp/session.go:222-259 | one Receive of what the body yields, whose outcome is logged and answered; the input resynchronises, and only an unterminated body aborts |
| Session.Session.SendFinals | internal/lmtp/session.go:252-256 | one final reply per recipient, in order |
| Session.Session.Answer | internal/lmtp/session.go:252-258 | the final replies, then a clean state |
| Session.Session.ReadCommand | internal/lmtp/session.go:39-56 | one whole line is accounted for, over the limit or not, and the input is exhausted when there is none |
| Session.Session.Dispatch | internal/lmtp/session.go:57-219 | every command appends the answer it calls for where the session stands, one event unless it is DATA; only QUIT ends the session |
| Session.Session.Run | internal/lmtp/session.go:35-220 | the transcript is legal; it ends with QUIT, or with the whole input accounted for as answered commands and reported bodies, or inside an unterminated body |
| Pagination.TopIsNewest | internal/postgres/mailbox_repository.go:183-191 | the query returns the newest rows in strictly descending order and omits only older ones |
| Pagination.TopIsFull | internal/postgres/mailbox_repository.go:183-191 | as many rows as asked for if there are as many |
| Pagination.PageIsExact | internal/mailbox/service.go:197-219 | a page lists exactly the messages between its cursor and its next cursor; it is full if it has a next cursor, and has one exactly if more messages remain |
| Pagination.TraversalSoFar | internal/mailbox/service.go:197-219 | after any number of pages the listing is complete down to the cursor |
| Pagination.TraversalIsComplete | internal/mailbox/service.go:197-219 | under any insertions and deletions between pages, strictly descending, nothing twice, everything present throughout exactly once |
| Pagination.NextCursorEncodes | internal/httpapi/message_cursor.go:26-40 | the next cursor of encodable messages can be handed out and comes back the same |
| Pagination.EncodedTraversalIsTraversal | internal/httpapi/message_cursor.go:26-63 | going through the cursor codec never moves a traversal |
| MessageCursor.BigEndianRoundTrip | internal/httpapi/message_cursor.go:26-40 | bytes and number determine each other |
| MessageCursor.FillPayload | internal/httpapi/message_cursor.go:26-40 | the buffer filled in place equals the payload |
| MessageCursor.CursorRoundTrip | internal/httpapi/message_cursor.go:26-63 | decoding an encoded cursor returns its microsecond, negative ones included, and id |
| MessageCursor.DecodedCursorsEncode | internal/httpapi/message_cursor.go:42-63 | the decoder accepts nothing outside the encoder's domain |
| MessageCursor.TimesAreYears | internal/httpapi/message_cursor.go:21-34 | the encodable times are those after the zero time and before year 10000 |
| MessageCursor.VersionIsItsNibble | internal/httpapi/message_cursor.go:27-30 | the accepted ids have 7 in bits 76 to 79 |
| Reconcile.PageResumes | internal/postgres/content_catalog.go:26-33 | the keyset query resumes exactly after the last key |
| Reconcile.NextPage | internal/postgres/content_catalog.go:24-60 | a page is the next stretch of rows and a short page is the last |
| Reconcile.LessIsTotal | internal/postgres/content_catalog.go:26-33 | the key order is a strict total order |
| Reconcile.JudgeMeans | internal/contentstore/store.go:343-366 | intact exactly when stored at the row's size with the digest its key names, missing exactly when not stored, corrupt in every other case that can be judged |
| Reconcile.Scan.Verify | internal/contentstore/store.go:343-366 | reaches that verdict |
| Reconcile.Scan.VisitRef | internal/contentstore/reconcile.go:94-111 | one row is counted, and reported missing or corrupt exactly if its object is not stored or not the one it describes |
| Reconcile.Scan.ReadPage | internal/postgres/content_catalog.go:24-60 | one page query visits the next rows |
| Reconcile.Scan.WalkContentRefs | internal/postgres/content_catalog.go:13-62 | for every batch size each row is visited once in key order |
| Reconcile.ExistingKeys | internal/postgres/content_catalog.go:66-95 | exactly the batch's keys present in the catalog |
| Reconcile.Scan.Settle | internal/contentstore/reconcile.go:126-142 | an unknown object is counted, emitted and removed under repair |
| Reconcile.Scan.Flush | internal/contentstore/reconcile.go:114-145 | a batch does what its objects one by one would |
| Reconcile.Scan.WalkObjects | internal/contentstore/reconcile.go:147-160 | full batches and the rest together are the pass over all objects |
| Reconcile.Scan.Reconcile | internal/contentstore/reconcile.go:77-161 | completes exactly under the stated conditions, equals the unbatched comparison, and removes only unreferenced objects even when it fails |
| ReconcileExact.FindingsAreExact | internal/contentstore/reconcile.go:77-161 | the findings are exactly the rows without an object, the rows whose object has another size or digest, and the objects without a row |
| ReconcileExact.FindingsAreDistinct | internal/contentstore/reconcile.go:77-161 | nothing is reported twice |
| ReconcileExact.RepairKeepsExactlyTheKnown | internal/contentstore/reconcile.go:132-138 | repair leaves exactly the objects the catalog knows |
| ReconcileExact.RepairKeepsReports | internal/contentstore/reconcile.go:132-138 | repair changes nothing there is to say about a catalog row |
| ReconcileExact.ZeroUnresolvedIffAgree | internal/contentstore/reconcile.go:70-72 | without repair, zero unresolved exactly when every row's object is stored with its size and digest and every object has a row |
| ReconcileExact.ZeroUnresolvedAfterRepair | internal/contentstore/reconcile.go:70-72 | with repair, zero unresolved exactly when the repaired store agrees |
| Archive.CanonicalNameAccepted | internal/contentstore/archive.go:249-268 | the canonical name of a key is accepted and stands for it |
| Archive.AcceptedNamesAreCanonical | internal/contentstore/archive.go:249-268 | accepted names are exactly the canonical names of keys |
| Archive.CleaningTidies | internal/contentstore/archive.go:253-257 | a cleaned path has no empty, "." or avoidable ".." component |
| Archive.DotDotCancels | internal/contentstore/archive.go:253-257 | a name and the ".." after it cancel, and nothing goes above the root |
| Archive.PathLayout | internal/contentstore/store.go:456-471 | an object lies below two levels of digest prefix |
| ArchiveRestore.FilesHold | internal/contentstore/archive.go:161-214 | with distinct names no entry hides another |
| ArchiveRestore.Root.Extract | internal/contentstore/archive.go:170-213 | an entry is installed exactly when regular, canonical, new, complete, digest-matching and within the manifest |
| ArchiveRestore.Root.Restore | internal/contentstore/archive.go:98-235 | succeeds exactly when all entries are sound and distinct with exactly the expected totals and nothing trailing; otherwise leaves the root as found |
| ArchiveRestore.WalkAcceptsCanonicalPaths | internal/contentstore/reconcile.go:167-208 | the object walk accepts exactly the canonical paths |
| ArchiveRestore.WriteEntry | internal/contentstore/archive.go:42-84 | a walked file is archived exactly when it is at the canonical path of its own digest |
| ArchiveRestore.WriteArchive | internal/contentstore/archive.go:29-92 | fails exactly on a store with a misplaced or damaged object; otherwise the archive is restorable and holds exactly its files |
| ArchiveRestore.BackupAndRestore | internal/contentstore/archive.go:29-235 | writing then restoring rebuilds the same files |
| Capacity.Reservations.Check | internal/contentstore/store.go:279-298 | admits exactly when the free space exceeds the floor, the reservations and the request, without int64 overflow |
| Capacity.Reservations.Reserve | internal/contentstore/store.go:256-277 | reserved bytes grow by one maximum per reservation, without overflow |
| Capacity.Reservations.Release | internal/contentstore/store.go:268-276 | and shrink by the same, never below zero |
| Capacity.StepConserves | internal/contentstore/store.go:141-241 | what a step takes from one place on disk it puts in another, and which steps begin and end a put |
| Capacity.RunsConserve | internal/contentstore/store.go:141-241 | free, stored, staged and abandoned bytes add up to the same total in every run |
| Capacity.RunsAreGuarded | internal/contentstore/store.go:141-241 | every reachable state keeps enough free space for every put in flight |
| Capacity.FloorHolds | internal/contentstore/store.go:148-181 | if only admitted puts consume disk, free space never falls below the floor (or where it started, if lower) by more than one byte per oversized put in flight and per oversized staging file left behind |
| Capacity.FloorIsTight | internal/contentstore/store.go:148-181 | a run where that byte is lost, for the copy reads one byte past the maximum, and stays lost when the staging file is not removed |
| RateLimiter.Limiter.Evict | internal/httpapi/server.go:827-834 | exactly the entries untouched for ten minutes go |
| RateLimiter.Limiter.Allow | internal/httpapi/server.go:822-848 | one call of the token bucket |
| RateLimiter.Potential | internal/httpapi/server.go:835-848 | admissions plus tokens plus what time may bring never exceed a full bucket plus the refill |
| RateLimiter.BucketBound | internal/httpapi/server.go:822-848 | at most burst + rate x elapsed admissions per key, even with timestamps out of order |
| RateLimiter.EvictionIsInvisible | internal/httpapi/server.go:827-834 | with ordered timestamps and burst <= 10 x perMinute every answer equals that of a limiter that never evicts |
| RateLimiter.ConfiguredRetentionSuffices | internal/config/config.go:270-275 | accepted configurations meet that condition |
| RateLimiterEviction.Drain | internal/httpapi/server.go:835-848 | a full or absent bucket admits a whole burst at one instant |
| RateLimiterEviction.LargeBurstShows | internal/httpapi/server.go:827-834 | a larger burst has a run where eviction lets requests through |
| RateLimiterEviction.EvictionIsInvisibleIff | internal/httpapi/server.go:822-848 | eviction is invisible on all ordered runs if and only if burst <= 10 x perMinute |
| Utf8.ToValid | internal/mail/normalize.go:22-26 | dropping invalid bytes leaves valid UTF-8, no longer than before |
| Utf8.ToValidKeepsValid | internal/mail/normalize.go:22-26 | and changes nothing that was valid |
| Utf8.ToValidKeepsCharacters | internal/mail/normalize.go:22-26 | every valid character survives in place, and only a byte that starts none goes |
| Utf8Runes.ValidIffEncoded | internal/mail/normalize.go:49-58 | valid UTF-8 is exactly what encodes a sequence of scalar values (section 3 of RFC 3629) |
| Utf8Runes.SpaceIsWhiteSpace | internal/mail/normalize.go:22-26 | what is trimmed are exactly the encoded white-space characters |
| Utf8.DropNul | internal/mail/normalize.go:22-26 | removes every NUL byte |
| Utf8.DropNulKeepsValid | internal/mail/normalize.go:22-26 | removing NUL bytes keeps validity |
| Utf8.TrimKeepsValid | internal/mail/normalize.go:22-26 | trimming keeps validity and leaves white space at neither end |
| Utf8.TrimRemovesExactlySpace | internal/mail/normalize.go:22-26 | white-space characters, and only those, are removed until neither end is one |
| Utf8.LongestValid | internal/mail/normalize.go:49-58 | the longest valid prefix |
| Utf8.TruncateUtf8 | internal/mail/normalize.go:49-58 | the shrinking loop returns the value if it fits, else the longest valid prefix within the limit |
| Utf8.TruncatesIffTooLong | internal/mail/normalize.go:49-58 | text changes exactly when there is a limit and it does not fit |
| Utf8.TruncationUsesTheRoom | internal/mail/normalize.go:49-58 | truncating valid text gives up at most three bytes of the limit |
| Preview.RemainingPreviewBytes | internal/mail/normalize.go:60-69 | existing text and remaining bytes fit the limit |
| Preview.NormalizeIsClean | internal/mail/normalize.go:22-26 | normalised text is valid, NUL-free, trimmed and no longer than the capture |
| Preview.NormalizeFixpoints | internal/mail/normalize.go:22-26 | exactly the clean strings are unchanged, so normalising twice is normalising once |
| Preview.AppendNeverCuts | internal/mail/normalize.go:60-83 | a capture within the remaining bytes is joined whole and the limit kept |
| Preview.PreviewIsJoinedLines | internal/mail/parser.go:221-252 | the accumulated preview is the newline-joined non-empty normalised captures, valid UTF-8 within the limit |
| Preview.FittingBodiesAreWhole | internal/mail/parser.go:221-252 | bodies that fit are previewed whole |
| MailParser.Capped | internal/mail/parser.go:314-329 | the warning list never exceeds its limit |
| MailParser.CappedTellsOmissions | internal/mail/parser.go:314-329 | the list is complete exactly when everything raised fits; otherwise its last entry is the notice |
| MailParser.FlatConcat | internal/mail/parser.go:274-312 | a body is its bytes in the order read, wherever the reads fall |
| MailParser.RolesMean | internal/mail/parser.go:193-252 | a part is a container, an unnamed inline text previewed as what it is, or an attachment |
| MailParser.WarnedIffCut | internal/mail/parser.go:193-272 | a body is reported as truncated exactly when its preview leaves some of it out |
| MailParser.AttachmentsDescribe | internal/mail/parser.go:230-272 | an attachment has its part's path and type, its whole size and its stated disposition, by default attachment |
| MailParser.ParseState.Warn | internal/mail/parser.go:314-329 | the stored list is everything raised, or its first entries and a closing notice |
| MailParser.ParseState.InspectHeader | internal/mail/parser.go:153-175 | passes exactly when field count, part bytes and total bytes are within limits |
| MailParser.ParseState.RecoverDecodeError | internal/mail/parser.go:177-191 | unknown charset and encoding become warnings, other errors stop |
| MailParser.ParseState.ConsumeLeaf | internal/mail/parser.go:274-312 | however the body is chunked, the preview is its prefix, the size its length, and the limits decide on the whole |
| MailParser.ParseState.ConsumeEntity | internal/mail/parser.go:193-272 | one body into its preview or one attachment, with its warnings |
| MailParser.ParseState.Admit | internal/mail/parser.go:65-81 | depth, part count, headers and decoding admit a part exactly within limits |
| MailParser.ParseState.Visit | internal/mail/parser.go:65-81 | a part passes exactly if it fits, and then changes the accounting as specified |
| MailMessage.AtStep | internal/mail/parser.go:193-272 | visiting a part leads from one closed form of the accounting to the next |
| MailMessage.FitsIffWithin | internal/mail/limits.go:64-106 | the step-by-step checks amount to the limits on totals |
| MailMessage.EveryLeafHasItsPlace | internal/mail/parser.go:193-272 | every leaf is in the text, in the HTML, or an attachment, once |
| MailMessage.Walk | internal/mail/parser.go:65-81 | the walk succeeds exactly when every part and total is within limits |
| MailMessage.Parse | internal/mail/parser.go:31-92 | parses exactly the messages within every limit, with bounded valid previews, one sized attachment per other leaf and a bounded warning list |
| Capability.IssuingIssues | internal/postgres/inbox_capability_repository.go:33-81 | issuing succeeds exactly for a live Inbox, a lifetime within its own and a free KID; the credential then authenticates exactly until it expires |
| Capability.InboxEndsCredentials | internal/auth/capability.go:236-242 | a credential stops authenticating when its Inbox expires, is deactivated or goes |
| Capability.RotationAccepts | internal/postgres/inbox_capability_repository.go:188-239 | rotation succeeds exactly for a credential that would authenticate then and has no successor, under a free KID |
| Capability.RevokingRevokes | internal/postgres/inbox_capability_repository.go:253-272 | revoking succeeds exactly for a record not revoked before its creation; nothing authenticates it afterwards, every other credential does as before, and no lineage link changes |
| Capability.RevokedKeepsKeys | internal/postgres/inbox_capability_repository.go:201-207 | revoking changes no KID and no lineage link |
| Capability.Repository.RevokeCapability | internal/postgres/inbox_capability_repository.go:253-272 | revokes, keeps an earlier revocation, or reports why not and changes nothing |
| Capability.Repository.MarkRevoked | internal/postgres/inbox_capability_repository.go:201-207 | revokes unless that would precede the creation |
| Capability.Repository.Insert | internal/postgres/inbox_capability_repository.go:209-239 | inserts under the unique KID and the unique predecessor |
| Capability.Repository.RotateCapability | internal/postgres/inbox_capability_repository.go:134-250 | check, revoke, insert and roll back reach exactly the atomic rotation: all of it, or the old credential live and unchanged with the reason |
| Capability.Repository.Resolve | internal/auth/capability.go:216-243 | finds the credential that authenticates, or there is none |
| Capability.Repository.Rotate3 | internal/auth/capability.go:143-174 | rotates the authenticated credential to the first candidate whose KID is free, each tried at its own time, or leaves the table unchanged |
| Lineage.StepKeepsSound | internal/postgres/inbox_capability_repository.go:134-272 | every transaction keeps every lineage a path with one live end |
| Lineage.RunsAreSound | internal/postgres/inbox_capability_repository.go:33-272 | it holds in every reachable table |
| Lineage.DescentIsLinear | internal/postgres/inbox_capability_repository.go:134-250 | of two descendants of a credential, one descends from the other |
| Lineage.OneLiveDescendant | internal/postgres/inbox_capability_repository.go:134-250 | at most one descendant is unrevoked and all share Inbox, scopes and expiry |
| Lineage.LiveHasNoSuccessor | internal/postgres/inbox_capability_repository.go:374-385 | the unique predecessor never refuses the rotation of a live credential |
| Lineage.RevokedStaysRevoked | internal/auth/capability.go:216-243 | a revoked credential never authenticates again |
| Lineage.RotationHandsOver | internal/auth/capability.go:143-174 | after rotation the old credential fails and the new one authenticates alike |
| Base64Url.DecodeEncode | internal/auth/token.go:126-135 | every byte string is recovered from its encoding (section 5 of RFC 4648) |
| Base64Url.EncodeDecode | internal/auth/token.go:103-109 | strictly decodable strings are encodings, so trailing bits are zero (section 3.5 of RFC 4648) |
| Base64Url.AlphabetIsTable2 | internal/auth/token.go:126-135 | the alphabet is table 2 of RFC 4648 |
| Base64Url.EncodingKeepsBitOrder | internal/auth/token.go:126-135 | the characters spell the bits of the bytes in order, filled up with zero bits |
| Token.ParseEncode | internal/auth/token.go:76-135 | encoding succeeds exactly on valid tokens and parses back to the token |
| Token.EncodeParse | internal/auth/token.go:76-135 | every accepted string is the encoding of what it parses to |
| Token.OneSpelling | internal/auth/token.go:159-193 | each token has exactly one accepted spelling |
| Token.TokenLayout | internal/auth/token.go:126-135 | the parts of a token, their order and separators |
| Token.KidsAreHexDigits | internal/auth/token.go:168-178 | a KID is 24 lower-case hexadecimal digits |

## Left out

- Power-loss durability and directory syncing: only process crashes are modelled.
- PostgreSQL internals: each transaction is one atomic step; ambiguous commits, lock timeouts and foreign-key mechanics are not modelled. Queue generations and attempt counters are unbounded integers.
- SHA-256, HMAC, random sources and the encodings of tar, gzip and PostgreSQL values: digests are functions, archives are entry sequences, identities are fresh parameters.
- Retention.ListContentDeletions: leaves the order of the page open, since the model keeps no enqueue times; what is proved holds for every order, and progress beyond one page is not claimed.
- ParseQueue.ParseRepository.ClaimContent: leaves open which claimable row is taken, since rows locked by other workers are skipped; what is proved holds for every choice.
- The delivery repository without limits (`NewDeliveryRepository`) and the early quota answer of `ResolveInboxForDelivery`: limits are always enforced at commit, the lookup is a parameter of the session.
- The LMTP argument grammar (`splitCommand`, `parseMailFrom`, `parseRecipient`, `canonicalAddress`): the session is proved for every grammar.
- Session.Session.Run: errors while writing replies and session deadlines are not modelled; a connection can only fail on reading.
- MIME parsing itself, header text decoding, address lists, filename normalisation and attachment extraction: a message is the sequence of parts the MIME library visits, with media types and dispositions already classified.
- MailMessage.Parse: does not tell the error kinds apart, because which limit is reported first depends on how bodies are chunked; it states exactly when parsing succeeds.
- Capability.Repository.Rotate3: other transactions between two tries are the subject of the lineage runs, where every try is a step of its own; generating and encoding the token is not modelled.
- Reconcile.Scan.Reconcile: an emit callback that fails, and cancellation, are not modelled.
- ArchiveRestore.Root.Restore: I/O errors and cancellation are not modelled, and cleaning up always succeeds.
- RateLimiter.Limiter.Allow: tokens are exact reals, not floating-point numbers.
- Retention.Sweep: deals with one undisturbed sweep; interference is the subject of the lifecycle modules.
- An upper bound on claim attempts: a crashing worker can be reclaimed without limit, only retries are bounded.
- HTTP handlers, presenters, provider adapters, configuration loading, metrics, logging, backup orchestration and the web console.
