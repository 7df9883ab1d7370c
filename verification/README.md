# bdsmail: a verified model

bdsmail is a mail server: it takes mail in over SMTP, resolves aliases, catch-alls and mailing
lists, runs each user's filters, stores messages and attachments, serves them over IMAP and POP3,
relays mail outward under MTA-STS, and guards logins with lockouts, a second factor and OAuth.
This project models the parts of it that carry real logic and proves what they are for.

The database and the attachment bucket are maps, the clock is an integer. Which calls to them and to
the network fail is an input - for each message drawn, each blob, each removal, each attempt at a
host - and the contracts say for every such input what exactly happens. Objects the server updates in
place are classes here; their methods are proved against specification functions, and the main
results are lemmas about those.

| file | models |
|---|---|
| `Basics.dfy`, `Strings.dfy` | options, supplies of random values; the string operations the server leans on |
| `Aliases.dfy` | alias and catch-all resolution over an arbitrary graph, de-duplication |
| `Filters.dfy`, `ParsedMail.dfy` | the per-user filter engine; parsed mail |
| `MailStore.dfy` | message rows, attachment rows, the bucket; saving, loading, deleting |
| `Delivery.dfy`, `SmtpSession.dfy` | inbound and outbound delivery; the SMTP session |
| `Base64.dfy`, `MimeHeader.dfy`, `Multipart.dfy`, `Mime.dfy` | the MIME printer and parser |
| `RateLimit.dfy` | brute-force lockout |
| `LineReader.dfy`, `ImapSyntax.dfy`, `ImapSession.dfy` | the IMAP line reader, parsers and mailbox session |
| `Pop3.dfy` | POP3 sessions |
| `MtaSts.dfy`, `Relay.dfy`, `TlsRpt.dfy` | MTA-STS policies, outbound relay as network traces, TLS reporting |
| `OAuth.dfy` | authorization codes and tokens |
| `BackupCodes.dfy`, `LoginBooks.dfy`, `TwoFactor.dfy` | second factors, what is remembered of logins, the login machine |
| `AutoReply.dfy`, `Escape.dfy` | automatic replies; XML and IMAP escaping |

`dafny verify dfyconfig.toml` checks everything (Dafny 4.11).

## Where the code does less than one might expect

These are properties that fail, each with the exact condition under which the code does meet it.

- A resolution cut off at the depth limit returns the address it stands at, user or not
  (`Aliases.NonUserReturned`), and a catch-all hides the users of its own domain, unless a chain of
  exactly eleven steps leads back to them (`Aliases.CatchAllHidesUser`, `Aliases.OwnAddress`).
- `DeleteMessageFull` can leave attachment rows that point at nothing: exactly when some blob could be
  deleted and the rows could not (`MailStore.DamageIsReal`).
- The IMAP line reader drops the bytes a failing read delivers along with its error: something is lost
  exactly when there are such bytes (`LineReader.Reader.ReadLines`, `LineReader.BytesLost`).
- A built message parses back to what went in exactly if its content type is text/plain or text/html and
  no file name holds a control byte (`Mime.BuildThenParse`); with attachments the body itself is lost
  exactly if the type starts like neither or holds a control byte (`Mime.BodyKept`, `Mime.CsvLost`).
- POP3 keeps marks over a second PASS; as long as the messages both listings hold come in the same order,
  the marks mean the same messages exactly if every marked position still holds its message
  (`Pop3.Relisted`, `Pop3.DatedOrder`, `Pop3.Reordered`): after new mail or for another account if there
  are none, after removals if none was at or before the last mark (`Pop3.SecondLogin`,
  `Pop3.OtherAccount`, `Pop3.AfterRemovals`). RETR does not double leading dots: a client gets the message's lines exactly
  when none starts with a dot (`Pop3.RetrievedIntact`). The number LIST announces is the number of lines
  it sends exactly if nothing is marked (`Pop3.ListHeader`).
- A text printed as a quoted string in an IMAP reply can be read back exactly if it holds only seven-bit
  characters and no NUL or line break (`Escape.ImapRoundTrip`, `Escape.BrokenSubject`).
- IMAP STORE ignores its action, so flags are only raised; when that is what was asked for is
  `ImapSession.SignIgnored`. BODY.PEEK marks messages seen like BODY: the table stays unchanged
  exactly when every message whose body could be marked was seen (`ImapSession.FetchUnchanged`).
  EXAMINE opens the mailbox read-write: a command keeps its promise exactly when it writes no missing
  flag and deletes nothing (`ImapSession.ExamineKept`). CLOSE does not remove what was deleted before
  the SELECT: when deletions work, no deleted message is left exactly if there was none at the SELECT
  (`ImapSession.CloseLeaves`).
- An MX pattern's `*` also matches an empty label, which is the one difference from RFC 8461
  (`MtaSts.EmptyLabelOnly`); a policy is refused exactly if a version line names another version or no
  mode is given, so one without a version line is accepted (`MtaSts.ParsePolicy`); a policy that cannot
  be fetched counts as none, also right after a cached one ran out (`MtaSts.Checker.GetPolicy`).
- A relay attempt is repeated when its QUIT fails after the message was accepted, and when the host
  keeps the message but its reply is lost: copies beyond the successes are exactly those two kinds
  together, and exactly the failed goodbyes if and only if no host kept what it did not confirm
  (`Relay.SendToDomain`, `Relay.CopiesBounded`). A success of Send covers every address given exactly if
  each has an @ (`Relay.Send`, `Relay.LeftOut`).
- An authorization code can be redeemed again until the first time its mark-used write works, and
  never after (`OAuth.Server.Redeem`, `OAuth.SingleUse`). A backup code is accepted again exactly when
  striking it off failed or another hash accepts it (`BackupCodes.AcceptedAgain`), a login token
  exactly when its row could not be deleted (`TwoFactor.Machine.ConsumeLoginToken`). The token endpoint
  checks the redirect URI as RFC 6749 asks exactly if the request names one or the code was issued
  without one (`OAuth.RedirectOptional`).
- `Setup2FA` is documented as pending until it is confirmed; the code turns the second factor on at
  once (`BackupCodes.Accounts.Setup`).
- TLS report groups merge for two different pairs exactly when a result type holds a bar
  (`TlsRpt.KeyCollides`); the result types the relay uses hold none.

## Model

| member | source | states |
|---|---|---|
| Aliases.ResolveRecipient | internal/store/store.go:262-295 | the recursion returns the resolution its specification function gives at that depth |
| Aliases.ResolveTargets | internal/store/store.go:269-290 | the loop over the targets of one rule concatenates their resolutions, one level deeper, in order |
| Aliases.RuleMeaning | internal/store/store.go:262-290 | an address's own alias is consulted first; the catch-all of its domain, stored as @domain, only when the alias has no targets; a user is looked up by the parts before and after the @ |
| Aliases.ResolveMeaning | internal/store/store.go:262-295 | one level of resolution: the targets of the alias, else those of the catch-all, else the user, else nobody; from the eleventh level on the address itself |
| Aliases.ResolveAllFirst | internal/store/store.go:269-290 | what the first of several addresses resolves to comes first |
| Aliases.ResolveExact | internal/store/store.go:262-295 | over any tables and any, possibly cyclic, rules: an address is returned if and only if some chain of rules leads to it that either ends at an existing user within the steps left, or has just spent all of them |
| Aliases.ResolveSound | internal/store/store.go:262-295 | every returned address comes with the chain that leads to it |
| Aliases.ResolveComplete | internal/store/store.go:262-295 | every such chain is found |
| Aliases.ResolveIsClosure | internal/store/store.go:262-295 | when no chain exceeds ten steps the result is exactly the existing-user terminals of the reachability closure |
| Aliases.NearTerminalsFound | internal/store/store.go:262-295 | a user at the end of a chain of at most ten steps is always found, cycles or not |
| Aliases.NonUserReturned | internal/store/store.go:263-265 | an address that is no existing terminal is returned if and only if a chain of exactly eleven steps ends there |
| Aliases.SelfRule | internal/store/store.go:262-295 | an alias that only points to itself resolves to itself although no terminal is reachable |
| Aliases.CatchAllHidesUser | internal/store/store.go:277-288 | under a catch-all mail addressed to a user of the domain without an alias reaches that user if and only if a chain of exactly eleven steps leads back to it |
| Aliases.OwnAddress | internal/store/store.go:262-295 | mail addressed to an address reaches that address itself if and only if it is a user without rules, or a chain of exactly eleven steps leads back to it |
| Aliases.ExpansionBound | internal/store/store.go:262-295 | with at most b targets a rule, resolution from depth d returns at most b^(11-d) entries |
| Aliases.CollectLocalRecipients | internal/store/store.go:241-259 | the seen-map loop returns the resolutions of all recipients, duplicates removed, first occurrences in order |
| Aliases.AppendUnseen | internal/store/store.go:247-255 | only targets not seen before are appended, and remembered |
| Aliases.DedupMeaning | internal/store/store.go:241-259 | de-duplication keeps the members and the order of first occurrences |
| Aliases.DedupDistinct | internal/store/store.go:241-259 | and no duplicates |
| Aliases.LocalRecipientsMeaning | internal/store/store.go:241-259 | an address is a local recipient exactly once if some header address resolves to it, else not at all |
| Filters.Apply | internal/filter/engine.go:21-32 | the result object holds the actions of all enabled matching filters, in order, on top of each other |
| Filters.FilterResult.ApplyActions | internal/filter/engine.go:87-103 | the actions of one filter change the result as their effect says |
| Filters.OperatorMeaning | internal/filter/engine.go:46-85 | equals, exists and not_contains compare the text the condition names with its value, case aside; an unknown operator matches nothing |
| Filters.ContainsMeaning | internal/filter/engine.go:72-79 | contains: the text holds one of the alternatives between the bars, trimmed |
| Filters.FieldMeaning | internal/filter/engine.go:46-66 | the size condition compares the bytes of all attachments with its value; an unknown field matches nothing |
| Filters.ParseIntMeaning | internal/filter/engine.go:60-62 | a printed threshold is read back, up to the largest 64-bit number; text that is no number counts as zero |
| Filters.FiresMeaning | internal/filter/engine.go:21-44 | a filter fires if and only if it is enabled, has conditions, and all of them match |
| Filters.OutcomeMeaning | internal/filter/engine.go:21-32 | read, delete and flag are set if and only if a filter that fires lists them; the folder is one that such a filter names, and none only if none does |
| Filters.LastMoveWins | internal/filter/engine.go:87-91 | of several moves the last one counts |
| Filters.FiredMembers | internal/filter/engine.go:21-32 | an action takes effect if and only if an enabled filter whose conditions hold lists it |
| Filters.LastValue | internal/filter/engine.go:87-103 | the last `move` wins |
| MailStore.AttachmentIdInjective | internal/mimeutil/parse.go:133-145 | attachment ids determine message and index |
| MailStore.BucketKeyInjective | internal/mimeutil/parse.go:133-145 | bucket keys determine message, index and file name, for slash-free message ids |
| MailStore.ToAttachmentMeta | internal/mimeutil/parse.go:133-145 | metadata rows in the order of the parsed parts, each with its name, type and size, under the id message_index and the key message/attach_index_name |
| MailStore.Store.SaveAttachments | internal/store/store.go:228-239 | blobs are written in order up to the first one refused; rows are handed back exactly when none was |
| MailStore.Store.SaveAndDeliver | internal/store/store.go:74-95 | one request takes the whole state - messages, rows, blobs - to the one its specification prescribes for what the database and the bucket accept |
| MailStore.Store.SaveMetas | internal/store/store.go:87-93 | exactly the accepted rows are added |
| MailStore.AfterSaveSound | internal/store/store.go:74-95 | under that specification every attachment row points at a blob with exactly the parsed bytes, nothing of another message changes, and all attachments are saved if and only if no write for them is refused |
| MailStore.SavedFilesSound | internal/store/store.go:228-239 | the same of the files alone, whatever is refused |
| MailStore.AddBlob | internal/store/store.go:228-239 | a blob of a message without rows cannot disturb another row |
| MailStore.AddMeta | internal/store/store.go:87-93 | a new row never collides with an existing one |
| MailStore.Store.LoadAttachments | internal/store/store.go:195-208 | exactly the rows whose read works and whose blob is there, in order |
| MailStore.LoadedIsParsed | internal/store/store.go:195-208 | whatever is loaded for a message is a part it was saved with, byte for byte |
| MailStore.SavedComesBack | internal/store/store.go:195-208 | when every write and read works, what is loaded is exactly the set of saved parts |
| MailStore.SaveThenLoad | internal/store/store.go:74-95 | end to end: of a message saved, whatever is saved after it, listing and reading give only parts it was saved with, byte for byte, and all of them if and only if nothing of them was refused |
| MailStore.Store.DeleteMessageFull | internal/store/store.go:211-226 | each step is attempted whatever became of the others: exactly the blobs, rows and message whose deletion works go |
| MailStore.RemovedFilesConsistent | internal/store/store.go:211-226 | the attachment invariant survives every pattern of failures, and nothing of another message goes |
| MailStore.RemoveAllExactly | internal/store/store.go:211-226 | after any series of deletions exactly the messages named are gone, less those whose deletion failed |
| MailStore.DamageIsReal | internal/store/store.go:211-226 | a message is left with a row pointing at nothing if and only if some blob of it could be deleted and its rows could not |
| MailStore.RemovalMeaning | internal/store/store.go:211-226 | a removal takes the message, its attachment rows and the blobs those rows name, each exactly where its call works, and nothing else |
| MailStore.RemovedWhole | internal/store/store.go:211-226 | when every call works nothing of the message is left |
| MailStore.Store.ListMessages | internal/store/postgres.go:33-34 | exactly the undeleted rows whose owner and folder are those asked for, each once, newest first |
| MailStore.SavedIsListed | internal/store/postgres.go:33-34 | end to end: a copy the database took is listed for an owner and a folder, whatever was saved, read or deleted after it, if and only if they are its own and nothing has deleted or removed it since |
| MailStore.ReplayRows | internal/store/store.go:74-95 | after any series of requests the old rows are untouched and the new rows are, copy for copy, the requests the database takes |
| MailStore.ReplayAttachments | internal/store/store.go:74-95 | each request taken leaves its row and, exactly if nothing of them is refused, all its attachments, whatever is requested afterwards |
| MailStore.ReplayOwns | internal/store/store.go:74-95 | the attachment rows of a message stay those of the parts it was saved with, whatever is requested afterwards |
| MailStore.Store.DeliverAll | internal/store/store.go:98-125 | copies are requested in order up to the first row the database refuses; success exactly when it refuses none |
| Delivery.SaveIncomingMail | internal/store/store.go:98-109 | one copy for each local recipient, without the blind recipients, up to the first refused; success exactly when all are taken |
| Delivery.SaveOutgoingMail | internal/store/store.go:111-125 | the Sent copy first, then one INBOX copy for each local recipient |
| Delivery.OutgoingExactlyOnce | internal/store/store.go:111-125 | a successful call adds exactly one Sent row, and one INBOX row for each address some recipient resolves to |
| Delivery.IncomingExactlyOnce | internal/store/store.go:98-109 | a successful call adds exactly one unread row, without the blind recipients, for each address some recipient resolves to |
| Delivery.DistributeToList | internal/store/store.go:298-322 | the requests made are those the plan of the list prescribes, whatever became of each |
| Delivery.ListPlanCount | internal/store/store.go:313-319 | that plan has a copy for each member that is a user and not the author, as often as the list has it, and no other |
| Delivery.ListMailMeaning | internal/store/store.go:303-311 | a list copy is addressed to the list alone and keeps author, body and type; its subject is tagged with the name of the list, once |
| Delivery.ListExactly | internal/store/store.go:298-322 | end to end, for a whole inbound mail: the requests for a member are as many as the list is named and the member listed, none for the author or for a non-user, and the table gains exactly the rows of those the database takes |
| Delivery.RowsTaken | internal/store/store.go:74-95 | over any series of requests, the rows gained for a copy are the requests for it that the database takes |
| Delivery.RemoveAddr | internal/smtp/backend.go:343-351 | the other addresses keep their order |
| Delivery.ExtractLists | internal/smtp/backend.go:266-278 | each list named is distributed to and struck from to, cc and bcc |
| Delivery.DirectHasNoLists | internal/smtp/backend.go:266-278 | after the list pass an address is left if and only if it was there and is no list |
| Delivery.DeliverResolved | internal/smtp/backend.go:301-337 | the delivered map makes each distinct target get one request |
| Delivery.DeliverFiltered | internal/smtp/backend.go:312-332 | the target's own filters decide folder, seen flag, or deletion |
| Delivery.FilteredCopy | internal/smtp/backend.go:312-332 | the copy those filters make, or none when they delete it |
| Delivery.DirectCopyMeaning | internal/smtp/backend.go:312-332 | a direct copy belongs to its target and shows no blind recipients; it is read if and only if a filter of the target that fires says so, in the folder such a filter names, or else in the one given |
| Delivery.DeletedMeaning | internal/smtp/backend.go:319-321 | and it is deleted before it is saved if and only if one of them says so |
| Delivery.ContextMeaning | internal/smtp/backend.go:266-300 | what these filters look at: the mail less the lists it names, the bytes of its attachments, its headers |
| Delivery.MarkedMeaning | internal/smtp/backend.go:245-265 | the security verdict adds its prefix to the subject and nothing else |
| Delivery.HandleInbound | internal/smtp/backend.go:245-340 | the state is the one the list copies followed by the direct copies lead to |
| Delivery.InboundExactlyOnce | internal/smtp/backend.go:245-340 | for each address a non-list recipient resolves to there is exactly one direct request, in the folder and with the seen flag its filters determine, or none if they delete the mail; nobody else gets one; and the table gains that row if and only if the database takes that request |
| Delivery.InboundNothingElse | internal/smtp/backend.go:245-340 | every other copy goes to a member of a list the mail names, addressed to that list |
| Delivery.StoredWhenTaken | internal/store/store.go:98-125 | when the database takes every row, the copies stored are the copies requested, in order |
| SmtpSession.Session.AuthPlain | internal/smtp/backend.go:85-122 | locked out, refused or authenticated; every evaluated attempt is recorded, and only right credentials authenticate the session |
| SmtpSession.Session.Mail | internal/smtp/backend.go:124-130 | sender and REQUIRETLS |
| SmtpSession.Session.Rcpt | internal/smtp/backend.go:132-135 | the envelope grows by one recipient |
| SmtpSession.Session.Reset | internal/smtp/backend.go:369-372 | RSET forgets the envelope but not REQUIRETLS |
| SmtpSession.Session.CollectBCC | internal/smtp/backend.go:383-398 | the envelope recipients no header mentions, in order |
| SmtpSession.EnvelopeCovered | internal/smtp/backend.go:383-398 | every envelope recipient is in to, cc or bcc, and blind exactly when no header mentions it |
| SmtpSession.MailForMeaning | internal/smtp/backend.go:137-186 | the envelope stands in for a missing To line, the header for a missing envelope sender; subject, type and body are those of the message |
| SmtpSession.ExternalMeaning | internal/smtp/backend.go:188-243 | relayed are the addresses whose domain is not served here, as often as they are given, and no others |
| SmtpSession.Session.TooLargeMeaning | internal/smtp/backend.go:168-179 | one attachment over the limit is enough to refuse a message, one at the limit is not |
| SmtpSession.Session.Data | internal/smtp/backend.go:137-186 | each outcome of reading, size check, verdict and authentication, with the requests that lead to the new state, what is relayed and the reply |
| SmtpSession.Session.HandleOutbound | internal/smtp/backend.go:188-243 | local copies first; exactly the recipients of domains not served here are relayed, and only if those were saved |
| SmtpSession.EnvelopeDelivered | internal/smtp/backend.go:137-186 | end to end, from what Data promises: for each non-list envelope recipient and address it resolves to the table gains no row if the filters there delete the mail, else exactly the row of one request if the database takes it, with all attachments exactly if none is refused |
| Base64.WrapLines | internal/mimeutil/build.go:64-73 | the loop writes the 76-column wrapping of the encoding |
| Base64.EncodingMeaning | internal/mimeutil/build.go:64-73 | three bytes are encoded as the four digits of one number in base 64 (section 4 of RFC 4648) |
| Base64.PaddingMeaning | internal/mimeutil/build.go:64-73 | two bytes and one byte are filled up with zero bits and equals signs |
| Base64.DecodeEncode | internal/mimeutil/build.go:64-73 | decoding undoes encoding for every byte string (section 4 of RFC 4648) |
| Base64.UnwrapWrap | internal/mimeutil/build.go:64-73 | removing line breaks restores the encoding, with or without the last one |
| Base64.WrapLineLength | internal/mimeutil/build.go:64-73 | every line has at most 76 characters, ends in CRLF and holds no break (section 6.8 of RFC 2045) |
| Base64.WrappedRoundTrip | internal/mimeutil/parse.go:83-90 | the wrapped text of any bytes decodes to those bytes |
| MimeHeader.ReadPrinted | internal/mimeutil/build.go:23-34 | reading a printed header gives its fields, values trimmed, and the untouched rest |
| MimeHeader.QuotedType | internal/mimeutil/parse.go:38-43 | a printed media type with a quoted parameter parses to that type and parameter |
| Multipart.BodyEnds | internal/mimeutil/parse.go:62-130 | a body that does not contain the boundary ends exactly where the next boundary line was printed (section 5.1.1 of RFC 2046) |
| Multipart.PartStarts | internal/mimeutil/parse.go:62-130 | a printed boundary line and header start a part with that header if and only if no value of it holds a control byte |
| Multipart.FinalStops | internal/mimeutil/parse.go:65-72 | the closing boundary ends the loop |
| Mime.BuildRFC822 | internal/mimeutil/build.go:20-78 | the builder writes the message its layout prescribes; what the layout says is the next row and the round trips |
| Mime.HeaderComesBack | internal/mimeutil/build.go:23-34 | for every printable message, with or without attachments: reading the header of the printed message gives the sender under From, the recipients under To and Cc, subject, message id, date, version and type under their own names, trimmed, and no Cc or Message-ID when there is none |
| Mime.WriteAttachment | internal/mimeutil/build.go:57-73 | one attachment part: header, encoded lines |
| Mime.Parse | internal/mimeutil/parse.go:32-130 | the part loop and the single-part case classify bodies and attachments |
| Mime.PartMeaning | internal/mimeutil/parse.go:74-124 | a part is a file if its disposition says so, or if it has none and is no text: the next in line, named by its disposition or its number, with its bytes decoded; other HTML or plain text becomes a body, anything else is dropped |
| Mime.ParseAllParts | internal/mimeutil/parse.go:62-130 | the loop adds each part in turn until there is none |
| Mime.AddAttachment | internal/mimeutil/parse.go:74-113 | a printed attachment part adds exactly that attachment |
| Mime.SimpleRoundTrip | internal/mimeutil/build.go:36-42 | a message without attachments keeps its body, whatever the body and the content type, unless the type itself announces parts and names their boundary; of the type only html is kept apart |
| Mime.AttachmentsRoundTrip | internal/mimeutil/build.go:44-77 | all attachments before the first with a control byte in its name come back in order, byte for byte, and reading ends there |
| Mime.RoundTrip | internal/mimeutil/build.go:20-78 | for every content of every attachment, every body without the boundary and every one-line content type: parsing the printed message gives back body, type and attachments if and only if the type is text/plain or text/html and no file name holds a control byte |
| Mime.AttachedRoundTrip | internal/mimeutil/build.go:44-77 | with attachments, for every content type: they come back byte for byte, up to the first with a control byte in its name, after what the parser makes of the body; with a control byte in the type nothing comes back |
| Mime.BodyKept | internal/mimeutil/parse.go:92-124 | a body with attachments comes back if and only if its type holds no control byte and starts like text/plain or text/html; nothing is put before the attachments if and only if it starts like any text, else the body becomes one of them |
| Mime.CsvLost | internal/mimeutil/parse.go:118-124 | a text/csv body sent with an attachment is lost |
| Mime.TextRoundTrip | internal/mimeutil/build.go:20-78 | for the two text types the whole result, html body included |
| Mime.ParsedTextType | internal/mimeutil/parse.go:30-130 | whatever is parsed, the type found is text/plain or text/html |
| Mime.BoundaryQuotable | internal/mimeutil/build.go:45-47 | the boundaries the builder makes are of the form the round trip asks for |
| Mime.BuildThenParse | internal/mimeutil/build.go:20-78 | the builder followed by the parser gives body, type and attachments back if and only if the type is text/plain or text/html and no file name holds a control byte |
| RateLimit.RateLimiter.IsLockedOut | internal/security/ratelimit.go:61-83 | locked out exactly while a full counter is younger than the lockout; an expired one is reset |
| RateLimit.RateLimiter.RecordAuthFailure | internal/security/ratelimit.go:86-105 | the counter grows; reaching the maximum starts the lockout |
| RateLimit.RateLimiter.RecordAuthSuccess | internal/security/ratelimit.go:108-118 | a success forgets the address |
| RateLimit.RateLimiter.Cleanup | internal/security/ratelimit.go:121-130 | lockouts older than twice the lockout period are evicted, nothing else |
| RateLimit.CleanedMeaning | internal/security/ratelimit.go:121-130 | evicted are exactly the full counters whose lockout began more than two lockout periods ago |
| RateLimit.RateLimiter.Attempt | internal/smtp/backend.go:85-118 | check, then record: the discipline the logins follow |
| RateLimit.WindowBound | internal/security/ratelimit.go:61-130 | in every run, with other addresses and cleanup interleaved at will, the failures of one address evaluated in any window as long as the lockout are at most maxAuthFail times one plus the successes in it |
| RateLimit.WindowBoundNoSuccess | internal/security/ratelimit.go:61-130 | at most maxAuthFail failures are evaluated in a window without a success |
| RateLimit.WindowBoundReached | internal/security/ratelimit.go:61-130 | and that many can be |
| RateLimit.EvictionUnobservable | internal/security/ratelimit.go:121-130 | cleanup never changes a later answer under that discipline |
| RateLimit.RecordWithoutCheck | internal/security/ratelimit.go:86-105 | without the check, eviction does change an answer |
| LineReader.Reader.ReadLine | internal/imap/server.go:617-640 | the next line of everything pending, across chunks; what follows it stays pending; on failure all that was pending, without the bytes of the failing read |
| LineReader.Reader.ReadLines | internal/imap/server.go:83-90 | the connection loop returns the lines of the whole stream, and of everything the peer sent if and only if the failing read brought no bytes |
| LineReader.BytesLost | internal/imap/server.go:633-636 | dropping the end of a stream always shows: in the lines or in what is left after them |
| LineReader.LinesContinued | internal/imap/server.go:617-640 | more text only continues the last, unfinished line |
| LineReader.LinesAreSplit | internal/imap/server.go:617-640 | those lines are the newline split of the stream, trailing carriage returns trimmed, and the split joins back to it: nothing is lost, duplicated or moved, however the stream was chunked |
| LineReader.LinesClean | internal/imap/server.go:630-634 | no line holds a line feed or ends in a carriage return |
| ImapSyntax.ParseSequenceSet | internal/imap/server.go:521-541 | the indices of all parts, in order |
| ImapSyntax.ParseSeqNum | internal/imap/server.go:543-560 | `*` is the last message, numbers are clamped |
| ImapSyntax.SequenceSetMeaning | internal/imap/server.go:521-560 | a printed set selects a message if and only if one of its ranges, clamped and in either order, covers it |
| ImapSyntax.IndicesInRange | internal/imap/server.go:521-560 | on a non-empty mailbox every index any text parses to is in range |
| ImapSyntax.NumberIdentity | internal/imap/server.go:521-560 | a number in range prints and parses to itself |
| ImapSyntax.NumberClamped | internal/imap/server.go:521-560 | a star is the last message, zero counts as one, and a number beyond the last message as the last |
| ImapSyntax.ParseDataItems | internal/imap/server.go:563-600 | the scanner terminates and returns the items of the text |
| ImapSyntax.PrintedItems | internal/imap/server.go:563-600 | a parenthesised list of well-formed items, sections with spaces included, parses to exactly those items |
| ImapSyntax.PrintedBareItem | internal/imap/server.go:563-600 | a single item needs no parentheses |
| ImapSession.Session.HandleSelect | internal/imap/server.go:190-232 | after SELECT the list is the session user's undeleted rows of that folder (INBOX for an empty name), all of them, each once, oldest first, with the table's flags; a failing query leaves the selection alone |
| ImapSession.SortByDate | internal/imap/server.go:204-206 | the same messages, ordered by date |
| ImapSession.SortedSnapshot | internal/imap/server.go:190-232 | sorting a listing gives a snapshot of the folder |
| ImapSession.Session.HandleFetch | internal/imap/server.go:234-317 | the flags the session holds; the table is the one in which exactly the fetched whole bodies are marked |
| ImapSession.SeenFlagsInRange | internal/imap/server.go:256-281 | for positions in range a FETCH reports, in order, each number with the session's own seen flag |
| ImapSession.SeenFlagsMeaning | internal/imap/server.go:256-281 | and positions outside the list leave no trace |
| ImapSession.Session.HandleStore | internal/imap/server.go:319-370 | flags are raised at exactly the positions given, in the session and, where the write works, in the table; the action is not looked at |
| ImapSession.StoredRowsMeaning | internal/imap/server.go:340-366 | of the table exactly the flags named are raised, on exactly the messages addressed whose write works; every other row and field is unchanged |
| ImapSession.FetchedRowsMeaning | internal/imap/server.go:295-300 | of the table exactly the messages whose whole body is fetched become seen, with PEEK or without; every other row and field is unchanged |
| ImapSession.SignIgnored | internal/imap/server.go:340-366 | ignoring the action gives what section 6.4.6 of RFC 3501 asks for if and only if: always for +FLAGS; no flag or no message for -FLAGS; no other flag set on the messages addressed for FLAGS |
| ImapSession.StoreUnchanged | internal/imap/server.go:340-366 | a STORE leaves the table alone if and only if every flag it can write was there |
| ImapSession.FetchUnchanged | internal/imap/server.go:295-300 | a FETCH, peeking or not, leaves the table alone if and only if every message whose body it can mark was seen |
| ImapSession.ExamineKept | internal/imap/server.go:119-122 | a command keeps the read-only promise of EXAMINE if and only if it writes no flag that is missing and deletes nothing |
| ImapSession.Session.HandleClose | internal/imap/server.go:425-439 | CLOSE removes from the table exactly the messages STOREd \Deleted since the SELECT, less those whose deletion fails |
| ImapSession.FlagOne | internal/imap/server.go:340-366 | a STORE keeps every session flag covered by the table, except where its write failed |
| ImapSession.GoodEvolves | internal/imap/server.go:190-370 | nothing other sessions do breaks the session |
| ImapSession.MarkedSinceSelect | internal/imap/server.go:190-439 | over any run of commands, whatever others do meanwhile, the session holds a message for deletion if and only if a STORE of \Deleted addressed it since the last SELECT |
| ImapSession.Session.Serve | internal/imap/server.go:83-170 | the commands of a connection are such a run |
| ImapSession.CloseRemoves | internal/imap/server.go:425-439 | over any run CLOSE removes a message if and only if a STORE of \Deleted addressed it since the last SELECT and its deletion works |
| ImapSession.CloseLeaves | internal/imap/server.go:190-439 | what CLOSE leaves deleted in the folder is what was deleted before the SELECT and what cannot be deleted; so with deletions that work it leaves none if and only if there was none at the SELECT |
| ImapSession.FindFirstUnseen | internal/imap/server.go:443-450 | the first unseen number, or 1 |
| Pop3.ParseIndex | internal/pop3/server.go:286-296 | zero-based position, or -1 |
| Pop3.ListedNumberParses | internal/pop3/server.go:286-296 | a listed number leads back to its message |
| Pop3.PositionRefuses | internal/pop3/server.go:286-296 | an argument that is empty or holds anything but digits names no message |
| Pop3.CommandRead | internal/pop3/server.go:88-128 | a command word in any case, a space and an argument are read as that command and that argument |
| Pop3.CommandAlone | internal/pop3/server.go:88-128 | and so is a word alone, with an empty argument |
| Pop3.Session.HandlePass | internal/pop3/server.go:140-163 | at a login that works the list becomes the user's undeleted INBOX rows, all of them, newest first, and marks are kept; a login refused or a listing that fails changes what the source changes |
| Pop3.Session.HandleStat | internal/pop3/server.go:165-179 | the number of unmarked messages |
| Pop3.Session.StatCount | internal/pop3/server.go:165-179 | after one login it is messages less marks |
| Pop3.Session.HandleList | internal/pop3/server.go:181-229 | LIST and UIDL: exactly the unmarked messages, ascending, each under its own number with its size or its id |
| Pop3.EntriesMeaning | internal/pop3/server.go:181-229 | an entry for each unmarked message: its own number, counted from one, and its own text |
| Pop3.ListHeader | internal/pop3/server.go:195-201 | the number LIST announces is the number of lines that follow if and only if nothing is marked |
| Pop3.UnmarkedMeaning | internal/pop3/server.go:181-229 | those positions are the unmarked ones, ascending |
| Pop3.Session.HandleDele | internal/pop3/server.go:253-267 | a valid number is marked, anything else refused |
| Pop3.Session.HandleRset | internal/pop3/server.go:269-272 | no marks |
| Pop3.Session.HandleQuit | internal/pop3/server.go:274-284 | exactly the messages at marked positions go, less those whose deletion fails; after one login those are the ones DELEd since the last RSET |
| Pop3.Session.Serve | internal/pop3/server.go:73-128 | over any input the whole store is unchanged before QUIT, QUIT removes exactly the messages marked, less failed deletions, and a dropped connection removes nothing |
| Pop3.MarkedSinceReset | internal/pop3/server.go:253-272 | over any run a position is marked if and only if an honoured DELE named it and no RSET came later |
| Pop3.SecondLogin | internal/pop3/server.go:140-163 | after new mail and a second PASS the kept marks mean the same messages if and only if there are none |
| Pop3.Relisted | internal/pop3/server.go:140-163 | whatever came or went before the second PASS, as long as the messages both listings hold come in the same order: the kept marks mean the same messages if and only if every marked position still holds its message |
| Pop3.DatedOrder | internal/store/postgres.go:33-34 | they come in the same order when no two of them arrived at the same time |
| Pop3.Reordered | internal/store/postgres.go:33-34 | otherwise the marks can mean the same messages at other positions |
| Pop3.AfterRemovals | internal/pop3/server.go:140-163 | after removals alone: if and only if no message at or before the last mark was removed |
| Pop3.OtherAccount | internal/pop3/server.go:140-163 | after a PASS of another account: if and only if there are no marks |
| Pop3.RetrievedIntact | internal/pop3/server.go:231-251 | a client sees the message's lines if and only if none starts with a dot: the server does not double dots (section 3 of RFC 1939) |
| MtaSts.MatchMxLabels | internal/security/mtasts.go:121-135 | a pattern admits a host if and only if their labels agree, case aside, or agree but for a leftmost `*` standing for one label (section 4.1 of RFC 8461) |
| MtaSts.EmptyLabelMatches | internal/security/mtasts.go:128-132 | that label may be empty |
| MtaSts.EmptyLabelOnly | internal/security/mtasts.go:121-135 | matching agrees with the standard, which asks for that label, if and only if the host is not the pattern without its star |
| MtaSts.ValidateMx | internal/security/mtasts.go:108-119 | some pattern admits the host, or there is no policy |
| MtaSts.AdmitsMeaning | internal/security/mtasts.go:108-119 | a policy admits exactly the hosts that one of its patterns matches, a final dot apart |
| MtaSts.ParsePolicy | internal/security/mtasts.go:137-170 | refused exactly when a version line names another version or no mode is given; last mode and age win, hosts accumulate |
| MtaSts.VersionRefused | internal/security/mtasts.go:152-156 | a version line that names another version refuses the policy wherever it stands |
| MtaSts.ModeNeeded | internal/security/mtasts.go:166-168 | without a mode line there is no policy |
| MtaSts.ModeReplaced | internal/security/mtasts.go:157-158 | a mode replaces the mode before it |
| MtaSts.HostJoined | internal/security/mtasts.go:159-160 | a mail host joins those before it |
| MtaSts.AgeReplaced | internal/security/mtasts.go:161-162 | a readable age replaces the age, which is a day at first |
| MtaSts.PolicyRoundTrip | internal/security/mtasts.go:137-170 | reading a printed policy gives it back |
| MtaSts.Checker.GetPolicy | internal/security/mtasts.go:45-105 | a policy handed out was fetched for that domain now or less than its max_age ago; while an entry is young the network is not asked; a failure afterwards loses the policy |
| Relay.Connect | internal/smtp/relay.go:170-225 | the connection up to the TLS decision: when TLS is demanded it goes on only over TLS |
| Relay.TryRelay | internal/smtp/relay.go:170-257 | one attempt: success if and only if every step works, and TLS, where established, passes the DANE check and, where it is not, is not demanded; its trace is the one its outcome prescribes; data only as TLS demands, TLS results recorded one for one |
| Relay.TraceMeaning | internal/smtp/relay.go:227-257 | the trace holds data if and only if the attempt is connected, past the TLS and DANE checks, and sender, all recipients and DATA were accepted; an acceptance, a failed goodbye or a missing reply if and only if that is how it then ends |
| Relay.OpeningMeaning | internal/smtp/relay.go:174-225 | a failed DANE check, and a TLS that is demanded and cannot be had, end the attempt there, with a failure record of its own kind when results are reported |
| Relay.TryHost | internal/smtp/relay.go:153-163 | up to three attempts at a host |
| Relay.SendToDomain | internal/smtp/relay.go:123-166 | success if and only if one of the attempts at a permitted host completes; the hosts dialled are the permitted ones in order, three times each, up to that attempt, or all when there is none; every copy taken beyond it is due to a failed goodbye or to a host that kept it without replying; under an enforced policy or REQUIRETLS data is only written over TLS and only permitted hosts are dialled |
| Relay.ReachesMeaning | internal/smtp/relay.go:142-163 | reaching a domain takes a host of the list that an enforced policy matches, and one of three attempts there in which everything works, with TLS if the message or an enforced policy demands it |
| Relay.DataOverTls | internal/smtp/relay.go:123-257 | in every trace the relay makes, data for a domain that demands TLS follow a STARTTLS that worked on the same connection |
| Relay.DialPermitted | internal/smtp/relay.go:142-148 | and a host dialled under an enforced policy matches one of its patterns |
| Relay.CopiesBounded | internal/smtp/relay.go:243-256 | so copies beyond the successes are at least the failed goodbyes, at most those plus the transfers without a reply, and exactly the failed goodbyes if and only if no host kept what it did not confirm |
| Relay.SecuredAppend | internal/smtp/relay.go:123-257 | policy safety composes over attempts, hosts and domains |
| Relay.CountAppend | internal/smtp/relay.go:123-257 | so do the figures of a trace |
| Relay.NothingAdmitted | internal/smtp/relay.go:145-150 | an enforced policy without hosts lets nothing out |
| Relay.GroupByDomain | internal/smtp/relay.go:74-83 | recipients of each domain, in order |
| Relay.DomainMeaning | internal/smtp/relay.go:74-83 | the domain of an address is what follows its first @; without an @ it has none |
| Relay.GroupedOnce | internal/smtp/relay.go:74-83 | every address with an @ is in the group of its domain, as often as it was given, and in no other |
| Relay.Send | internal/smtp/relay.go:62-93 | success if and only if every domain can be reached; it means every domain took the message for all its recipients, and an address given was covered if and only if it has an @; failure stops at a domain; every trace is safe and its TLS reports accurate |
| Relay.CoveredDomains | internal/smtp/relay.go:74-83 | once every domain is served, exactly the addresses with an @ are covered |
| Relay.LeftOut | internal/smtp/relay.go:76-79 | an address without an @ belongs to no domain, so a call for it alone succeeds with nothing sent |
| TlsRpt.Reporter.RecordSuccess | internal/security/tlsrpt.go:56-65 | one more success pending for the domain |
| TlsRpt.Reporter.RecordFailure | internal/security/tlsrpt.go:68-78 | one more failure pending; count and list in step |
| TlsRpt.Reporter.Swap | internal/security/tlsrpt.go:88-93 | the snapshot holds all that was pending |
| TlsRpt.Reporter.GenerateReports | internal/security/tlsrpt.go:88-124 | one faithful report for each domain with an address; the snapshot is gone either way |
| TlsRpt.Drive | internal/security/tlsrpt.go:56-124 | over any interleaving of records and ticks: one snapshot and one batch of reports for each tick, telling exactly what was recorded since the tick before; the rest is pending; each event is told once, failures in order |
| TlsRpt.PeriodsNext | internal/security/tlsrpt.go:88-93 | a record extends the open period, a tick closes it |
| TlsRpt.ConservedTick | internal/security/tlsrpt.go:88-93 | a tick moves everything pending into the snapshot |
| TlsRpt.BuildReport | internal/security/tlsrpt.go:163-210 | the details are one for each key, with true group sizes that sum to the total (section 4.4 of RFC 8460) |
| TlsRpt.KeyInjective | internal/security/tlsrpt.go:170-171 | keys tell result type and host apart when result types hold no bar |
| TlsRpt.KeyCollides | internal/security/tlsrpt.go:170-171 | a result type with a bar shares its key with another |
| OAuth.Server.IssueCode | internal/oauth/oauth.go:166-180 | a fresh, unused code for ten minutes, bound to client, user, redirect URI and scope, if it can be stored |
| OAuth.Server.HandleToken | internal/oauth/oauth.go:192-266 | a token is issued if and only if the grant type is authorization_code, the client is known and its secret right, the code is stored, unused, not expired and of this client, the redirect URI is absent or the same, and a value can be drawn; what then changes, failing writes included |
| OAuth.Server.Redeem | internal/oauth/oauth.go:218-236 | the same request, repeated at will, is honoured each time it is in order until the first time its code can be marked used, and never after |
| OAuth.Server.HandleUserInfo | internal/oauth/oauth.go:270-293 | the user bound to the code when it was issued, while the token lives |
| OAuth.Server.Serve | internal/oauth/oauth.go:166-293 | over every run the state is the one its requests lead to; from empty tables every token was granted, and two tokens of one code take a redemption that could not mark it used |
| OAuth.TokenGranted | internal/oauth/oauth.go:166-248 | over every run, every token is the value drawn for a redemption in order, by an authenticated client, of a code not yet marked used; before it there was a consent for that client at most ten minutes old, whose user and scope the token carries for an hour |
| OAuth.SecondNeedsMiss | internal/oauth/oauth.go:235-236 | over every run, two tokens of one code take a redemption of it that was in order and could not mark it used |
| OAuth.RedirectOptional | internal/oauth/oauth.go:229-232 | the check of the redirect URI is that of section 4.1.3 of RFC 6749 if and only if the request names one or the code was issued without one |
| OAuth.StepSound | internal/oauth/oauth.go:166-293 | every request keeps the books sound |
| OAuth.SingleUse | internal/oauth/oauth.go:235-236 | two tokens from one code need a failed mark-used write |
| OAuth.RoomForOne | internal/oauth/oauth.go:235-236 | marking leaves room for exactly one token more |
| OAuth.TokenMinted | internal/oauth/oauth.go:238-248 | every token keeps the client, user and scope of its code |
| OAuth.CodeIssued | internal/oauth/oauth.go:166-180 | issuing keeps the books sound |
| OAuth.Server.DeleteExpired | internal/store/postgres.go:171-172 | clean-up drops expired rows only and keeps the books sound |
| BackupCodes.Accounts.Setup | internal/auth/auth.go:38-63 | the second factor is demanded at once: from then on exactly the codes of the new secret and those matching one of the ten hashes are accepted |
| BackupCodes.Accounts.Verify | internal/auth/auth.go:66-75 | over any history of set-ups, removals and spent codes: accepted if and only if the account was last turned on and the code is right for the secret of that set-up |
| BackupCodes.Accounts.Disable | internal/auth/auth.go:78-87 | only with a valid code; from then on no code of either kind is accepted |
| BackupCodes.RowsShown | internal/auth/auth.go:38-87 | every row always shows the last change that reached it |
| BackupCodes.Accounts.VerifyBackup | internal/auth/auth.go:90-110 | accepted if and only if a remaining hash accepts the code; the first such hash is struck off unless the write fails |
| BackupCodes.BackupStruck | internal/auth/auth.go:99-107 | an accepted code takes the first remaining hash that accepts it out of the row, if that can be written, and changes nothing else |
| BackupCodes.AcceptedAgain | internal/auth/auth.go:99-107 | a code just accepted is accepted again if and only if striking it off failed or another remaining hash accepts it |
| BackupCodes.SplitsBack | internal/auth/auth.go:97-105 | the stored string always splits back into the remaining hashes |
| BackupCodes.SpendOne | internal/auth/auth.go:99-106 | what is left and what was spent always make up what was set up |
| BackupCodes.SpentBound | internal/auth/auth.go:90-110 | between set-ups a code is struck off no more often than hashes accept it, and ten codes in all |
| TwoFactor.Machine.HandleLogin | internal/web/handlers.go:130-195 | the reply and the new state: when the last change of the account turned the factor on and no live registered device matches, no session is added and a login token is offered; when it was turned off, or a device matches, a session is added if one can be |
| TwoFactor.OnByRequests | internal/web/handlers.go:173-184 | over every run the second factor is demanded of an account if and only if the last request that changed it turned it on |
| TwoFactor.DemandedInForce | internal/auth/auth.go:38-87 | the row demands the factor exactly if the last change of the account that reached it turned it on |
| TwoFactor.ReplayShown | internal/auth/auth.go:38-87 | every run keeps rows and changes in step |
| TwoFactor.Machine.CreateLoginToken | internal/auth/auth.go:147-161 | a fresh token for five minutes |
| TwoFactor.Machine.ConsumeLoginToken | internal/auth/auth.go:164-184 | a live token is used up, an expired one dropped; a used token stays good until it expires if and only if its row could not be deleted |
| TwoFactor.Machine.CheckSecond | internal/web/auth_2fa_handlers.go:43-47 | TOTP first, and then no backup code is spent; else a backup code |
| TwoFactor.Machine.HandleVerify | internal/web/auth_2fa_handlers.go:23-65 | the reply and the new state: a session exactly after a live token and an accepted second factor; a wrong code earns a new token for the same account; the token presented is gone unless its row cannot be deleted |
| TwoFactor.VerifyMeaning | internal/web/auth_2fa_handlers.go:23-65 | the token must be readable, stored and not expired; the code must be right for the secret in force, or match a backup code that is left; then exactly one session is added, the token's account's, if one can be |
| TwoFactor.Machine.Finish | internal/web/auth_2fa_handlers.go:54-64 | the trusted device, then the session |
| LoginBooks.TracesBack | internal/web/auth_2fa_handlers.go:48-53 | every login token goes back, through a chain of reissues each made when the token before was used at most five minutes after its issue, to an accepted password for the account |
| LoginBooks.LiveTokenTracesBack | internal/auth/auth.go:164-174 | so does every live token, which expires five minutes after its own issue |
| LoginBooks.ConsumedAtMostOnce | internal/auth/auth.go:177-184 | with deletions that work a token is consumed at most once |
| LoginBooks.SessionTracesBack | internal/web/auth_2fa_handlers.go:23-65 | every session goes back to the password it was opened with: one accepted at that very time, and where a second factor was demanded, remembered by a device that registered less than thirty days before; or the one at the head of its chain of login tokens, where a second factor was demanded, and then given |
| LoginBooks.ChainTimes | internal/web/auth_2fa_handlers.go:48-53 | under a clock that does not go back, a token comes at or after the password of its chain, at most five minutes for each reissue |
| TwoFactor.SessionEarned | internal/web/auth_2fa_handlers.go:23-65 | over every run from empty books, whatever the times and failures: each session was opened by a request that is either a login with the account's password - and if the account then demanded a second factor, from a device that an earlier request registered with one less than thirty days before - or a second factor that the account then accepted, given with a live login token that goes back to a login which demanded it |
| TwoFactor.PasswordsOwed | internal/web/handlers.go:130-195 | over every run each accepted password remembered is that of a login request, with its time and whether the account then demanded a second factor |
| TwoFactor.SecondsOwed | internal/web/auth_2fa_handlers.go:23-65 | over every run each accepted second factor remembered is that of a request with a live token of the account and a code it then accepted |
| TwoFactor.SessionsOwed | internal/web/auth_2fa_handlers.go:23-65 | over every run each session was opened by one request, at its time |
| TwoFactor.TokenTrail | internal/web/auth_2fa_handlers.go:48-53 | over every run every live login token goes back, through requests that each presented the token before at most five minutes after its issue with a refused code, to a login of its account that demanded a second factor |
| TwoFactor.DeviceRegistered | internal/web/auth_2fa_handlers.go:54-57 | over every run every trusted device was registered by a request with an accepted second factor of its account, for thirty days |
| TwoFactor.StepSound | internal/web/auth_2fa_handlers.go:23-65 | every request keeps the books sound |
| TwoFactor.ReplayTimely | internal/auth/auth.go:147-184 | every run keeps the times in order |
| TwoFactor.Machine.Serve | internal/web/auth_2fa_handlers.go:108-149 | over any requests the state is the one they lead to, one by one, and every session opened from an empty start is earned |
| AutoReply.Responder.Process | internal/store/store.go:134-168 | a reply goes out if and only if the settings can be read, are enabled and in range, the sender holds none of the five words, no reply to it is less than a day old as far as the log can be read, and sending works; a failed send leaves the cooldown alone |
| AutoReply.Responder.Skips | internal/store/store.go:149-154 | the skip list |
| AutoReply.SentOne | internal/store/store.go:157-168 | replies to the same sender stay a day apart, unless the log failed |
| AutoReply.Responder.Run | internal/store/store.go:134-168 | over every run the replies and the log are those the mails call for; the replies are spaced, in range, never to a skipped sender |
| AutoReply.Answered | internal/store/store.go:134-168 | the replies of a run are those to exactly the mails that find one due and can be answered, each once and in order |
| Escape.XmlOnePass | internal/carddav/server.go:314-319 | chained replacement equals one pass over the characters |
| Escape.XmlRoundTrip | internal/carddav/server.go:314-319 | no angle bracket survives, and unescaping restores the text |
| Escape.ImapOnePass | internal/imap/server.go:483-487 | chained replacement equals one pass over the characters |
| Escape.ImapRoundTrip | internal/imap/server.go:483-487 | a reader of the quoted string (sections 4.3 and 9 of RFC 3501) gets the text back and stops at its closing quote if and only if the text holds nothing but seven-bit characters without NUL, carriage return and line feed; otherwise it rejects the string |
| Escape.BrokenSubject | internal/imap/server.go:282-287 | a subject with a line feed breaks the quoted string of the ENVELOPE |

## Left out

- MtaSts.PolicyRoundTrip: holds for policies whose mode and hosts are non-empty and neither start
  nor end with white space, since the parser trims every value and skips empty modes.
- Mime.RoundTrip: asks for attachments with plain media types and quotable file names, as quotes,
  backslashes and line breaks in a file name are printed unescaped; the body must not contain the boundary.
- Relay.TryRelay: DANE verification is an opaque verdict; DKIM signing and the message text are not
  part of the trace.
- TwoFactor.Machine.Serve: requests are atomic; races inside a handler are not covered.
- OAuth.Server.HandleToken: the client secret check is an uninterpreted predicate, ID tokens are not
  modelled, and whether the authorization request named the redirect URI or left it to the registered
  one is kept neither by the server nor here.
- SmtpSession.Session.Data: reading and parsing the message, the security verdicts and the parsed raw
  headers are inputs; the module for MIME models the parser on its own.
- Pop3.Session.HandleStat: the octet count, which adds up lengths of a storage key, is not modelled.
- ImapSession.Session.HandleFetch: only flags and their effect; the formatting of items, SEARCH, LIST
  and LOGIN are not modelled, nor are attachments in fetched bodies, which the listing never loads.
- TlsRpt.BuildReport: date range, report id and the free-text reason are not modelled.
- MtaSts.ParsePolicy: numbers are unbounded, and the limits on body and line length are not modelled.
- Aliases.ResolveRecipient: GetAlias, GetCatchAll and UserExistsByEmail are constant tables that always
  answer; so are IsMailingList, GetMailingList, GetListMembers and ListFilters in `Delivery`. A failing
  lookup, which the server takes for an empty answer, is not modelled apart from that.
- AutoReply.Responder.Process: runs in its own goroutine in the server; here it is one atomic step. The
  branch without a relay is modelled, though the server always passes one.
- Case mapping is ASCII and strings are sequences of bytes; decimal parsing does not wrap at 64 bits.
- The MIME library's rarer corners: RFC 2231 parameters, header size limits, read errors, the
  quoted-printable decoding of parts.
- `ValidateAuthorize`, consent pages, RegisterClient, ID tokens, discovery and JWKS.
- `AllowConnection` (a token bucket of another library), the external relay path, DANE matching, DKIM,
  ClamAV, Rspamd, Safe Browsing.
- CardDAV request handling, vCard conversion, signup, administration, web templates, configuration.
- The SQL and DynamoDB drivers: tables are maps; a query either fails or answers as its statement
  says.
- Application tokens, e-mail one-time passwords, listing and revoking trusted devices, history logs.
