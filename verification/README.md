# VVS, verified

Dafny models of the parts of the VVS back office whose correctness rests on whole runs rather than on
one branch: the notification wake-up protocol, the request limiter, the invoice aggregate and its VAT
rounding, the subnet splitter, the JavaScript string escaper, the cron jobs with their runner and
scheduler, the chat tables, subject normalisation, the billing run and the Traefik config generator.

Objects that the program updates in place are classes whose methods are proved against functions on
values; the theorems are about those functions, over every input, run or interleaving. Clock readings,
generated ids, library parsers, the calendar and the outcomes of I/O are parameters. Check everything
with `dafny verify dfyconfig.toml`.

## Notifications

`ChanSubscription` is the 16-slot channel that drops events when full. `NotificationStore` holds the
tables, `NotificationWorker` the handler that stores a row and then publishes its wake-up.
`NotificationWakeup` puts them together as a state machine: publishers, the worker with its own channel,
the broker, and any number of browser connections take steps in any order. Dropping a wake-up is safe
because rows are stored before they are published, a connection subscribes before its first query, and
every wake-up makes it query again. The message content is never trusted. The invariant uses the record
of what reached or was lost on each connection; `DeliveredIsShown` and `ScreenShowsLastQueries` say the same
of the steps taken alone.

Marking notifications read publishes nothing, so another tab's badge can stay stale; the model says
exactly when. The program patches the screen with empty values after a failed query; the protocol here
is over successful queries.

## Rate limiter

The package comment speaks of a sliding window (`internal/infrastructure/http/ratelimit.go:11`); the
code is a fixed window that reopens at the first request after it ends. The sliding guarantee it does
give is 2 * limit - 1 admissions in any closed interval one window long, and that is attained. A limit
below one acts as one, because the first request of a fresh window is admitted unconditionally.

## Invoices and VAT

`VatRounding` is rounding half away from zero on integers, with its distance from the exact quotient.
`FloatNetIsExact` closes the gap to the program's float64 division: any quotient
rounded to nearest (section 4.3.1 of IEEE 754-2019), which is off by at most one part in 2^53 and exact on
half-integers, gives the same cents while 200 times the amount stays below 2^53. `Invoice` is the aggregate: edits in draft, recalculation in place, and the lifecycle. Totals
can be stale in draft and in an invoice voided straight from draft, and `FrozenIffSettled` says that this is
the only way what an invoice charges can change after draft. `InvoiceEdits` compares any sequence of edits
with a plain dictionary of wanted lines: a draft holds that dictionary, and finalizing charges it.

## Subnets

`Subnet` follows the code, not its comment, on the DHCP end: 10.100.63.255 for 10.100.0.0/17, where
`internal/modules/docker/domain/subnet.go:14` says 10.100.63.254. On 0.0.0.0/0 the 32-bit shift yields 0
and the ranges overlap; the statements about the two ranges hold exactly for prefixes from 1 on.

## JavaScript strings

`EscapeJS` proves the five replacement passes equal to one left-to-right pass, and reads the literal back
with the grammar of section 12.9.4 of ECMA-262 (14th edition): it returns the original text for every input.
Only the exact text `</script>` is broken up, while HTML ends a script at that tag in any letter case, with
white space, a slash or `>` behind the name; the model says exactly which inputs leave such a tag.

## Cron

`CronJob` is the job with its status machine, `CronRunner` one run over the due jobs, `CronDaemon` the
reconcile loop between the job table and the scheduler, and `DaemonRuns` whole runs of the daemon beside
everybody else who writes the job table. A next-run time is later than the time it was computed from, so
schedules that never match again are excluded. An edited job that is already scheduled keeps the copy
captured at scheduling, and a job paused while its copy can still fire comes back to life once that copy
is saved; `DaemonRuns` says exactly when, reads and reconciliations of a reload being separate steps.

## Chat, subjects, billing, Traefik

`ChatStore` shows that the trimmed table refines an append log and that two independently written unread
queries agree. A stored time is its place in the sort order of its column. `Subject` proves that replies
normalise to the subject they answer, exactly when it has text in it. `Billing` is the run that invoices
due services and `BillingHistory` a sequence of runs; the order in which a map is visited is arbitrary,
and the result is proved not to depend on it. `Traefik` is the config generator and `TraefikReader` a
strict reader of its text. The generator escapes nothing and only its keys are sanitized, so the text
means what it should exactly for plain names with a letter or digit to make a key of, and for distinct
keys that do not mean null. Being closed alone is weaker: it is proved one way, since a name that ends
its quoted value early can leave the config closed but say something else
(`TraefikReader.ClosedIsNotEnough`).

## Model

| member | source | states |
|---|---|---|
| `ChanSubscription.ConsumedThenBuffered` | internal/infrastructure/nats/subscriber.go:49-66 | over every run, consumed events followed by buffered ones are, in order, exactly those delivered while fewer than 16 were pending, and at most 16 are buffered |
| `ChanSubscription.PanicsIffUsedAfterCancel` | internal/infrastructure/nats/subscriber.go:61-64 | the channel is misused exactly when a send or a second cancel follows a cancel |
| `ChanSubscription.ReceivesDrain` | internal/infrastructure/nats/subscriber.go:49-66 | after any run, each receive moves the oldest pending event to the consumer, cancelled or not |
| `ChanSubscription.Subscription.OnMessage` | internal/infrastructure/nats/subscriber.go:51-60 | the callback appends a decoded event to a channel with room, drops it otherwise, and ignores undecodable data |
| `ChanSubscription.Subscription.CancelSubscription` | internal/infrastructure/nats/subscriber.go:61-64 | cancel closes the channel, a second one misuses it, and what is buffered or consumed stays |
| `NotificationStore.Store.Create` | internal/infrastructure/notifications/store.go:41-50 | appends exactly one row, or changes nothing when the id exists |
| `NotificationStore.Store.List` | internal/infrastructure/notifications/store.go:54-85 | the loop builds the specified listing with each user's read flags |
| `NotificationStore.ListIsNewest` | internal/infrastructure/notifications/store.go:59-72 | the listing and what it leaves out are together the table, nothing left out is newer than anything shown, and each entry is its row, flagged read exactly when this user marked it |
| `NotificationStore.UnreadCountsUnmarked` | internal/infrastructure/notifications/store.go:88-100 | the unread count is the number of rows without a mark of this user |
| `NotificationStore.UnreadFallsByNewReads` | internal/infrastructure/notifications/store.go:88-100 | reading more never raises the unread count, and keeps it exactly when no stored row became newly read |
| `NotificationStore.MarkAllZeroesOneUser` | internal/infrastructure/notifications/store.go:104-111 | marking all read zeroes that user's count and changes no other user's |
| `NotificationEvents.TitledKinds` | internal/infrastructure/notifications/worker.go:69-115 | exactly which events are surfaced, and that the worker's own wake-up never is |
| `NotificationEvents.TitlesSay` | internal/infrastructure/notifications/worker.go:69-115 | the title and link of each surfaced kind, with and without its optional field |
| `NotificationWorker.Worker.Handle` | internal/infrastructure/notifications/worker.go:44-65 | exactly one row with the title, link and time of the event is stored, and then published, or nothing changes |
| `NotificationWakeup.WorkerStepsAreTheHandler` | internal/infrastructure/notifications/worker.go:44-65 | the protocol's take, store and publish steps together store the handler's row and put its id on the way to every open connection, or count it as lost there when the publish fails |
| `NotificationWakeup.EveryRunKeepsInv` | internal/infrastructure/http/global_sse.go:45-73 | every interleaving keeps the protocol invariant: each stored row is on screen, has a query or wake-up coming, or its wake-up was lost |
| `NotificationWakeup.NoLostWakeup` | internal/infrastructure/http/global_sse.go:45-73 | in every reachable state, a notification whose wake-up reached a connection's callback is stored, and is shown or has a query still to come |
| `NotificationWakeup.SettledScreenIsFresh` | internal/infrastructure/http/global_sse.go:94-105 | a connection with nothing pending shows the newest 30 of all rows; its badge is current exactly when nothing was marked read since it counted |
| `NotificationWakeup.ClientIsItsConnect` | internal/infrastructure/http/global_sse.go:30-58 | after every run, the i-th connection serves the user of the i-th connect |
| `NotificationWakeup.DeliveredIsShown` | internal/infrastructure/http/global_sse.go:68-73 | told by the steps alone: once a wake-up has been handed to a connection's callback, in whatever run follows its row is stored and, while the connection is open, shown or has a query still to come |
| `NotificationWakeup.ScreenShowsLastQueries` | internal/infrastructure/http/global_sse.go:45-105 | told by the steps alone: on a run without a loss or failed publish, a connection with nothing under way shows the newest 30 of all rows with the flags of its last list query, and the number of all rows unmarked at its last count query |
| `NotificationWakeup.MarkReadLeavesBadgeStale` | internal/infrastructure/http/notifications.go:58-73 | a run in which marking read leaves another screen's badge at 1 while the count is 0 |
| `NotificationWakeup.RowsNeverExceedDomainEvents` | internal/infrastructure/notifications/worker.go:27-65 | rows never outnumber the surfaced events that other components published, though the worker hears its own wake-ups |
| `NotificationWakeup.InternalStepsCost` | internal/infrastructure/notifications/worker.go:27-65 | every step the system takes by itself lowers a cost, the echo of the worker's own wake-up included |
| `NotificationWakeup.LeftAloneItDrains` | internal/infrastructure/notifications/worker.go:27-65 | after any history, the internal steps that can still follow are bounded by that cost |
| `NotificationWakeup.QuietScreensAreFresh` | internal/infrastructure/http/global_sse.go:45-73 | once no internal step is left, every connection that lost no wake-up shows the whole table's newest rows |
| `RateLimiter.IPRateLimiter.Allow` | internal/infrastructure/http/ratelimit.go:37-48 | admits or refuses as one counter would, and touches only that address's entry |
| `RateLimiter.IPRateLimiter.Serve` | internal/infrastructure/http/ratelimit.go:37-48 | a run of requests gets exactly the decisions the theorems below are about |
| `RateLimiter.AddressesAreIsolated` | internal/infrastructure/http/ratelimit.go:37-48 | in any interleaving one address gets the decisions of a limiter that sees it alone |
| `RateLimiter.TwiceLimitSpansAWindow` | internal/infrastructure/http/ratelimit.go:41-47 | any 2 * limit consecutive admissions take longer than a window |
| `RateLimiter.SlidingBound` | internal/infrastructure/http/ratelimit.go:37-48 | any closed interval one window long holds at most 2 * limit - 1 admissions of one address, for every run with a monotone clock and every limit (below one acts as one) |
| `RateLimiter.BoundIsAttained` | internal/infrastructure/http/ratelimit.go:37-48 | a run reaches the bound, for every limit and every positive window |
| `RateLimiter.RefusedOnlyWhenSpent` | internal/infrastructure/http/ratelimit.go:41-47 | a refused request finds exactly its limit of admissions in a window opened no longer than a window ago |
| `VatRounding.RoundsToNearest` | internal/modules/invoice/domain/invoice.go:146-153 | the rounded quotient is a nearest integer, ties going away from zero |
| `VatRounding.NearestIsUnique` | internal/modules/invoice/domain/invoice.go:146-153 | that description determines the rounded value |
| `VatRounding.NetWithinHalfCent` | internal/modules/invoice/domain/invoice.go:146-153 | the net price is within half a cent of gross * 100 / (100 + rate) |
| `VatRounding.NetBetweenZeroAndGross` | internal/modules/invoice/domain/invoice.go:146-153 | the net price lies between zero and the gross price, for either sign |
| `VatRounding.NetMonotone` | internal/modules/invoice/domain/invoice.go:146-153 | a higher gross price never has a lower net price |
| `VatRounding.NetIsRecovered` | internal/modules/invoice/domain/invoice.go:146-153 | adding VAT to a net price, rounding and taking it off again gives the price back |
| `VatRounding.FloatNetIsExact` | internal/modules/invoice/domain/invoice.go:151-152 | any correctly rounded binary64 quotient rounds to the same cents while 200 * gross is below 2^53 |
| `Invoice.Invoice.AddLineItem` | internal/modules/invoice/domain/invoice.go:84-91 | appends in draft, otherwise refuses and changes nothing |
| `Invoice.Invoice.UpdateLineItem` | internal/modules/invoice/domain/invoice.go:94-110 | the loop gives the first line with the id the five new values and keeps its other fields and every other line; it fails without a change out of draft or without such a line |
| `Invoice.Invoice.RemoveLineItem` | internal/modules/invoice/domain/invoice.go:113-125 | the loop removes the first line with the id and keeps the order of the rest |
| `Invoice.Invoice.Recalculate` | internal/modules/invoice/domain/invoice.go:128-144 | the in-place loop keeps what the lines say and prices every one as described, and the totals add up to quantities times gross prices |
| `Invoice.Invoice.Finalize` | internal/modules/invoice/domain/invoice.go:157-168 | needs draft and lines, recalculates, then moves the status |
| `Invoice.Invoice.MarkPaid` | internal/modules/invoice/domain/invoice.go:171-180 | only a finalized invoice becomes paid, at the time of the call |
| `Invoice.Invoice.VoidInvoice` | internal/modules/invoice/domain/invoice.go:183-190 | a draft or finalized invoice becomes void and keeps its lines and totals |
| `Invoice.Invoice.MarkReminderSent` | internal/modules/invoice/domain/invoice.go:193-210 | records the reminder exactly when the invoice is finalized and past its due date |
| `Invoice.StatusMovesForward` | internal/modules/invoice/domain/invoice.go:84-210 | a refused call changes nothing; finalizing, paying and voiding, and no other call, move status, only draft, finalized, paid, or to void from the first two |
| `Invoice.EveryRunIsConsistent` | internal/modules/invoice/domain/invoice.go:84-190 | over every sequence of calls, finalized or paid means non-empty lines, each priced to the nearest cent, with net plus VAT equal to total equal to the sum of quantities times gross prices, and a payment time is set exactly when paid |
| `Invoice.PricingIsUnique` | internal/modules/invoice/domain/invoice.go:128-153 | what a line says and the description of its amounts determine the whole line |
| `InvoiceEdits.DraftHoldsBasket` | internal/modules/invoice/domain/invoice.go:84-144 | after any sequence of additions under fresh ids, updates, removals and recalculations, refused ones included, the lines are those of a dictionary from ids to what was last asked for |
| `InvoiceEdits.FinalizedChargesBasket` | internal/modules/invoice/domain/invoice.go:84-168 | finalizing such a draft succeeds exactly when something is wanted, and charges quantity times gross price of each wanted line as last asked for |
| `InvoiceEdits.EditedLineIsCharged` | internal/modules/invoice/domain/invoice.go:84-168 | a line added to any draft, updated and finalized is charged at the updated quantity times the updated price, on top of what the other lines come to |
| `Invoice.FrozenIffSettled` | internal/modules/invoice/domain/invoice.go:84-190 | out of draft, lines and totals stay the same over all further calls exactly when the totals were up to date |
| `Invoice.VoidedDraftCanBeStale` | internal/modules/invoice/domain/invoice.go:183-190 | an invoice voided from draft after adding a line holds totals that are not those of its lines |
| `Invoice.RemoveUndoesAdd` | internal/modules/invoice/domain/invoice.go:84-125 | removing a line just added, under a fresh id, restores the invoice |
| `Invoice.NetPlusVatIsGross` | internal/modules/invoice/domain/invoice.go:128-144 | for any lines the recalculated net and VAT totals add up to the gross total |
| `Invoice.LineNetError` | internal/modules/invoice/domain/invoice.go:128-153 | a line's net is within half a cent per unit of its exact net, for any quantity and rate |
| `Invoice.SubTotalError` | internal/modules/invoice/domain/invoice.go:128-153 | the invoice's net total is within half a cent per unit sold of the exact rational net |
| `Invoice.NetAndVatWithinGross` | internal/modules/invoice/domain/invoice.go:128-153 | with no negative quantity or price, net and VAT totals lie between zero and the gross total |
| `Invoice.RecalculateFitsInt64` | internal/modules/invoice/domain/invoice.go:128-144 | no line amount and no running total leaves int64 while the volume of the lines fits |
| `Invoice.MachineRecalculationIsExact` | internal/modules/invoice/domain/invoice.go:128-153 | the whole recalculation in float64 and wrapping int64 leaves exactly the exact record, for taxed prices below 2^53 / 200 cents and a volume within int64 |
| `Subnet.SplitPartitionsIff` | internal/modules/docker/domain/subnet.go:30-38 | the two ranges are disjoint and are all addresses but network and broadcast exactly when the prefix is not 0 |
| `Subnet.BlockShape` | internal/modules/docker/domain/subnet.go:30-38 | for prefixes 1 to 30 no 32-bit operation wraps and the four bounds are the intended ones |
| `Subnet.DhcpBlockSeparatesIff` | internal/modules/docker/domain/subnet.go:30-67 | the DHCP range lies inside the block named by DHCPRangeCIDR and the reserved range outside it exactly when the prefix is not 0 |
| `Subnet.IntToIP` | internal/modules/docker/domain/subnet.go:47-51 | the byte buffer prints as the four bytes, most significant first |
| `Subnet.DottedReads` | internal/modules/docker/domain/subnet.go:47-51 | a strict reader of dotted decimal gives back every 32-bit address printed |
| `Subnet.SplitReadsBack` | internal/modules/docker/domain/subnet.go:40-43 | the four strings of a split read back as its four bounds |
| `Subnet.DhcpCidrReadsBack` | internal/modules/docker/domain/subnet.go:56-67 | the CIDR text reads back as the network with one more prefix bit, and is empty exactly when the split fails, each failure with its own error |
| `Subnet.SplitIsOfAddressBlock` | internal/modules/docker/domain/subnet.go:16-45 | for prefixes 1 to 30 the four texts read as the bounds of the halves of the one aligned block that holds the parsed address |
| `Subnet.DhcpCidrIsOfAddressBlock` | internal/modules/docker/domain/subnet.go:56-67 | the CIDR text names the network of the aligned block that holds the parsed address, with one more prefix bit |
| `EscapeJS.EscapeIsOnePass` | internal/shared/jsutil/escape.go:8-15 | the five successive rewrites equal one left-to-right escaper |
| `EscapeJS.EscapedLiteralReadsBack` | internal/shared/jsutil/escape.go:8-15 | the escaped text between single quotes reads back as the original, for every input |
| `EscapeJS.EscapeIsInjective` | internal/shared/jsutil/escape.go:8-15 | different texts never escape to the same literal |
| `EscapeJS.EscapedTextIsClean` | internal/shared/jsutil/escape.go:8-15 | no raw line break, no unescaped quote and no `</script>` is left |
| `EscapeJS.ScriptEndSurvivesIff` | internal/shared/jsutil/escape.go:8-15 | a script end tag in any letter case is left exactly when the input holds `</script` in some letter case with a tab, form feed, space, slash or `>` right behind it that is not the exact text `</script>` |
| `CronJob.Job.AdvanceNextRun` | internal/modules/cron/domain/job.go:79-92 | records the run and its error and moves to the first match after the later of its end and the old next run, or keeps the next run when the schedule does not parse |
| `CronJob.Job.PauseJob` | internal/modules/cron/domain/job.go:94-101 | an active job becomes paused; otherwise nothing changes |
| `CronJob.Job.ResumeJob` | internal/modules/cron/domain/job.go:103-114 | a paused job becomes active, with the first match from now as next run; otherwise nothing changes |
| `CronJob.Job.UpdateJob` | internal/modules/cron/domain/job.go:116-131 | an update with an empty name or a bad schedule changes nothing; any other sets the four fields and the next run, and keeps the status |
| `CronJob.Job.DeleteJob` | internal/modules/cron/domain/job.go:133-140 | a job is deleted afterwards, and deleting twice is refused |
| `CronJob.EveryJobCanAdvance` | internal/modules/cron/domain/job.go:55-131 | over every life of a validly created job, advancing moves its next run past the old one and past the run just finished |
| `CronJob.NewJobWaitsForFirstMatch` | internal/modules/cron/domain/job.go:55-75 | a job is made exactly for a name and a schedule that parses, active, unrun, and due at its first match |
| `CronJob.PausedUntilResumed` | internal/modules/cron/domain/job.go:79-140 | over every sequence of calls without a resume, a job that is not active stays so |
| `CronJob.DeletedStaysDeleted` | internal/modules/cron/domain/job.go:79-140 | no sequence of calls brings a deleted job back |
| `CronRunner.Repository.ListDue` | internal/modules/cron/adapters/persistence/gorm_repository.go:57-72 | every due row exactly once, earliest first, and no other |
| `CronRunner.Runner.RunJob` | cmd/server/cron_runner.go:37-75 | starts the body of an action or RPC, and of a shell command or URL outside demo mode; records the body's error or why it was not run, the end of the run and the next run, and saves |
| `CronRunner.Runner.RunDueJobs` | cmd/server/cron_runner.go:20-35 | one run attempts each listed job once, in order; started are exactly the runnable ones, and every saved row records its own run |
| `CronRunner.DueRowAfter` | cmd/server/cron_runner.go:20-75 | a listed row ends as its advanced copy if saved and untouched otherwise |
| `CronRunner.BodiesRunInOrder` | cmd/server/cron_runner.go:37-60 | the bodies started in a run are those of the runnable jobs among the listed, in their order |
| `CronRunner.RunRecords` | cmd/server/cron_runner.go:20-75 | over a whole run no shell or URL job starts in demo mode and no unknown type ever; a saved row holds exactly its body's error if it was started, and otherwise the non-empty refusal |
| `CronRunner.DueRunMakesProgress` | cmd/server/cron_runner.go:20-75 | after a run a listed job is still due exactly when it was not saved or does not parse; saved ones strictly advance; other rows are untouched |
| `CronRunner.ListingIsDetermined` | internal/modules/cron/adapters/persistence/gorm_repository.go:57-72 | any two due listings of a table name the same jobs |
| `CronDaemon.Daemon.IndexActive` | cmd/server/cron_daemon.go:64-70 | the index holds the last active row of each id |
| `CronDaemon.LastActiveWins` | cmd/server/cron_daemon.go:64-70 | an id is in the index exactly when it has an active row, with the last of them |
| `CronDaemon.Daemon.UnscheduleInactive` | cmd/server/cron_daemon.go:73-79 | exactly the scheduled jobs that are still active keep their entries |
| `CronDaemon.Daemon.ScheduleNew` | cmd/server/cron_daemon.go:82-96 | active jobs without an entry get a fresh one that captures them exactly when their schedule parses; existing entries are kept |
| `CronDaemon.Daemon.Reload` | cmd/server/cron_daemon.go:54-99 | keeps table and scheduler in bijection and relates the states as specified, whatever the map order; a failed read changes nothing |
| `CronDaemon.Daemon.Start` | cmd/server/cron_daemon.go:36-40 | the first reload, and the reload's own entry, which reloads never remove |
| `CronDaemon.ReloadKeepsConsistent` | cmd/server/cron_daemon.go:54-99 | whatever order its loops take, a reload of a consistent daemon leaves no leaked scheduler entry and no dangling id |
| `CronDaemon.ReloadExists` | cmd/server/cron_daemon.go:54-99 | for every state and every listing some reload can be completed, so the relation is not empty |
| `CronDaemon.SecondReloadIsIdle` | cmd/server/cron_daemon.go:54-99 | from a consistent state, a second reload on unchanged data changes nothing |
| `CronDaemon.OneEntryPerJob` | cmd/server/cron_daemon.go:54-99 | the scheduler's job entries are exactly the table's, one per job |
| `DaemonRuns.ScheduledIffActiveSince` | cmd/server/cron_daemon.go:36-99 | over every run from a new daemon, with edits, failed reads, firings and the daemon's own entry in between, table and scheduler stay in bijection, and a job is scheduled exactly when it has been active without interruption since a reload at which its schedule parsed |
| `DaemonRuns.EditPickedUpIffNone` | cmd/server/cron_daemon.go:82-96 | while a job stays scheduled it runs what was captured, however often it fires or is edited: an edit is picked up exactly when it changes nothing about the captured job |
| `DaemonRuns.NewEntryCapturesRow` | cmd/server/cron_daemon.go:82-96 | a job scheduled by a reload is captured exactly as the row that was read; one scheduled before keeps its copy |
| `DaemonRuns.FiringIsRecorded` | cmd/server/cron_runner.go:66-74 | the end of a firing records the run in the captured job of its entry and saves that copy; every other row, copy and firing stays |
| `DaemonRuns.FiringsMoveForward` | internal/modules/cron/domain/job.go:79-92 | over every run the next run of a captured job never goes back, and with a schedule that parses it is past every one of its firings that has ended |
| `DaemonRuns.EditUndoneIffSaved` | cmd/server/cron_runner.go:71-74 | over every run without another edit of a job, its row ends exactly as it was left if no firing of it was saved, and otherwise holds the name, schedule, type, payload and active status captured by the last one saved |
| `DaemonRuns.PauseStandsForGoodIff` | cmd/server/cron_daemon.go:73-96 | a pause or deletion stands over every continuation exactly when the job is not scheduled, no firing of it is running, and no listing already read would schedule it |
| `DaemonRuns.PauseStandsIffNoSave` | cmd/server/cron_daemon.go:54-99 | after the next reload that reads behind a pause, the row is as it was left and stays so for good exactly when no firing of the job was saved on the way, none was still running at the reload, and no older listing still waited to schedule it |
| `DaemonRuns.PauseComesUndone` | cmd/server/cron_daemon.go:87-93 | from every state with a paused job still scheduled, a run in which its entry fires and is saved, and after the next reload the job is active and still scheduled |
| `ChatStore.Store.Save` | internal/infrastructure/chat/store.go:270-293 | inserts and trims the message's thread to its newest 50 in one step; a duplicate id changes nothing; other threads are untouched |
| `ChatStore.Store.Recent` | internal/infrastructure/chat/store.go:296-317 | the newest messages of the thread, oldest first |
| `ChatStore.Store.MarkRead` | internal/infrastructure/chat/store.go:320-329 | sets one user's mark in one thread |
| `ChatStore.Store.TotalUnread` | internal/infrastructure/chat/store.go:332-344 | counts the messages by others, in the user's threads, that are later than the user's mark or in a thread without one |
| `ChatStore.Store.ListThreadsForUser` | internal/infrastructure/chat/store.go:158-228 | one row for each thread the user is a member of, with its unread subquery |
| `ChatStore.UnreadIsOthersSinceMark` | internal/infrastructure/chat/store.go:186-200 | unread in a thread is what others wrote after the user's mark, and everything they wrote when there is none |
| `ChatStore.SaveRaisesUnread` | internal/infrastructure/chat/store.go:270-344 | saving into a thread below 50 messages raises a user's total by one exactly when someone else wrote the message, the user is a member and has not marked the thread read since, and otherwise by none |
| `ChatStore.Store.AddMember` | internal/infrastructure/chat/store.go:116-123 | adds one membership under the foreign key, or none |
| `ChatStore.Store.EnsurePublicMembership` | internal/infrastructure/chat/store.go:242-251 | adds the user to every public channel and nowhere else |
| `ChatStore.TableIsLastFifty` | internal/infrastructure/chat/store.go:270-293 | after any interleaving of saves each thread holds exactly the last 50 messages saved to it |
| `ChatStore.SaveReaches` | internal/infrastructure/chat/store.go:270-293 | each successful save appends its message to the log that the table stands for |
| `ChatStore.RecentIsLogSuffix` | internal/infrastructure/chat/store.go:296-317 | Recent returns the last min(limit, 50, saved) messages of the thread in save order |
| `ChatStore.SaveKeepsOrDrops` | internal/infrastructure/chat/store.go:270-293 | without any assumption on clocks: at most 50 per thread, the new message kept when fewer than 50 are as new and dropped when 50 are newer |
| `ChatStore.TotalIsSumOfThreads` | internal/infrastructure/chat/store.go:173-200 | the total unread count is the sum over the user's thread list, on every store the operations can reach |
| `ChatStore.MarkReadEffect` | internal/infrastructure/chat/store.go:320-344 | marking a thread read lowers the total by exactly that thread's count when its messages are not later than now, and in general by that less the later ones |
| `ChatStore.MarkReadIsPrivate` | internal/infrastructure/chat/store.go:320-344 | no other user's unread messages change |
| `Subject.NormalizeSubject` | internal/modules/email/domain/message.go:59-74 | the loop ends with a trimmed text that starts with no reply or forward prefix |
| `Subject.NormalizeIsIdempotent` | internal/modules/email/domain/message.go:59-74 | the normal form is its own normal form |
| `Subject.NormalIffUnprefixed` | internal/modules/email/domain/message.go:59-74 | the subjects left alone are exactly the trimmed ones that do not start with one of the three prefixes in any case |
| `Subject.OnePrefixIgnoredIff` | internal/modules/email/domain/message.go:59-74 | a prefix in any case makes no difference exactly when there is text behind it |
| `Subject.StackIsIgnored` | internal/modules/email/domain/message.go:59-74 | any stack of prefixes, in any case, in front of a subject with text normalises to that subject's normal form |
| `Subject.PaddingIsIgnored` | internal/modules/email/domain/message.go:59-74 | surrounding white space makes no difference |
| `Billing.BuildInvoice` | internal/modules/invoice/app/commands/generate.go:66-116 | no services give no invoice, otherwise a draft with one line per service in order, each for one unit at its price and 21 percent VAT, with totals that add up |
| `Billing.BillingRun.GroupByCustomer` | cmd/server/billing_actions.go:37-41 | the map holds each customer's due services, in their order, and no other key |
| `Billing.GroupInOrder` | cmd/server/billing_actions.go:37-41 | a customer's services are those that name it, in the order of the due query |
| `Billing.BillingRun.AdvanceAll` | cmd/server/billing_actions.go:76-82 | each given service's row moves one cycle exactly when its save succeeds; all others stay |
| `Billing.BillingRun.BillAll` | cmd/server/billing_actions.go:43-83 | whatever the visiting order, rows and invoices end as functions of the inputs |
| `Billing.BillingRun.GenerateDueInvoices` | cmd/server/billing_actions.go:26-86 | the whole action, failed reads and empty listings included |
| `Billing.AdvancedIffInvoiced` | cmd/server/billing_actions.go:43-83 | a row moves, once, exactly when its service was handed to an invoice that was made and its save succeeded |
| `Billing.StillDueIff` | internal/modules/service/domain/service.go:65-72 | a due service is still due afterwards exactly when its customer was not invoiced, its save failed, or one cycle does not pass now |
| `BillingHistory.InvoicedOncePerCycle` | cmd/server/billing_actions.go:43-83 | over any sequence of runs, a service is invoiced once for every cycle its billing date has passed, plus once for every invoice after which it could not be saved |
| `BillingHistory.InvoicedAtMostOnce` | cmd/server/billing_actions.go:37-70 | one run makes exactly one line for a service, at its price, if it is active, its date has come, its customer is found and the handler makes the invoice, and otherwise none |
| `Billing.OtherCustomersDoNotMatter` | cmd/server/billing_actions.go:43-83 | the tables that `Billing.BillingRun.BillAll` proves the run to leave, whatever the visiting order, give a customer the same invoice and rows however all other customers fare |
| `Billing.InvoicedAmountsAreDueAmounts` | cmd/server/billing_actions.go:50-70 | the totals of the invoices made add up to exactly the due amounts of the customers billed, and so do their net and VAT parts at 21 percent |
| `Traefik.SanitizeLabel` | internal/modules/docker/domain/traefik_config.go:80-90 | the loop and the trim compute the specified label |
| `Traefik.LabelIsClean` | internal/modules/docker/domain/traefik_config.go:80-90 | only letters, digits and inner hyphens; empty exactly when the text has no letter or digit |
| `Traefik.LabelIsIdempotent` | internal/modules/docker/domain/traefik_config.go:80-90 | sanitizing twice is sanitizing once, and changes exactly the texts that are not labels |
| `Traefik.LabelKeepsAlnums` | internal/modules/docker/domain/traefik_config.go:80-90 | every letter and digit is kept, in order |
| `Traefik.LabelsAgreeIff` | internal/modules/docker/domain/traefik_config.go:80-90 | two texts share a label exactly when, between their first and last letter or digit, they differ only in other characters |
| `Traefik.KeysCanCollide` | internal/modules/docker/domain/traefik_config.go:28 | two hostnames of one stack that get the same router key |
| `Traefik.IndexByStack` | internal/modules/docker/domain/traefik_config.go:12-16 | looking up a stack gives its routes in order, none for an unknown one |
| `Traefik.ListedMembers` | internal/modules/docker/domain/traefik_config.go:24-26 | the loops visit exactly the pairs of a listed stack and one of its routes |
| `Traefik.ListedInOrder` | internal/modules/docker/domain/traefik_config.go:24-26 | the visits go stack by stack and within a stack route by route, in the orders given, each pair of positions once |
| `Traefik.EntriesPerRoute` | internal/modules/docker/domain/traefik_config.go:24-26 | each route is visited once per listing of its stack |
| `Traefik.WriteRouters` | internal/modules/docker/domain/traefik_config.go:23-39 | the first nested loop writes the blocks of all entries, or its placeholder when there is none |
| `Traefik.WriteServices` | internal/modules/docker/domain/traefik_config.go:42-56 | likewise the second loop |
| `Traefik.WriteMiddlewares` | internal/modules/docker/domain/traefik_config.go:59-75 | likewise the third, which skips routes without a stripped prefix |
| `Traefik.EmptySections` | internal/modules/docker/domain/traefik_config.go:37-75 | a section is written as an empty mapping exactly when it has no entry, or no stripped one in the middlewares |
| `Traefik.GenerateTraefikConfig` | internal/modules/docker/domain/traefik_config.go:11-78 | the text is exactly the lines of the specification |
| `TraefikReader.TextReadsBackIff` | internal/modules/docker/domain/traefik_config.go:11-78 | the text reads, by a strict reader of its YAML, as one router and one service for each entry and the middlewares of the stripped ones, exactly when every entry has a letter or digit in its stack name or hostname and no key means null, the written names are plain, the network comment stays one, and no key repeats |
| `TraefikReader.ConfigIsClosed` | internal/modules/docker/domain/traefik_config.go:23-75 | on every such input the text reads as a closed config: the same clean keys for routers and services in the same order, each router naming its own service, and the middlewares defined those referenced |
| `TraefikReader.TextLeadsToStacks` | internal/modules/docker/domain/traefik_config.go:23-56 | on every such input the text leads from the hostname of each route, by one key, to an address that splits at its last colon into the name of its stack and a decimal that reads as its port, and through a middleware exactly when the prefix is stripped |
| `TraefikReader.RuleLineReadsIff` | internal/modules/docker/domain/traefik_config.go:30 | the rule written for a hostname reads as that hostname exactly when it holds no line break, quote, backslash or backtick |
| `TraefikReader.UrlLineReadsIff` | internal/modules/docker/domain/traefik_config.go:51 | the URL written for a stack reads as its address exactly when the stack's name holds no line break, quote or backslash |
| `TraefikReader.HostWithBreakIsRejected` | internal/modules/docker/domain/swarm_stack.go:99-111 | one hostname with a line break and no quote in it, which the constructor lets through, makes the whole text unreadable to the strict reader |
| `TraefikReader.NamelessEntryIsRejected` | internal/modules/docker/domain/traefik_config.go:28-31 | a stack name and hostname without a letter or digit between them leave an empty key, and the text is unreadable: the router names no service |
| `TraefikReader.NamelessExample` | internal/modules/docker/domain/swarm_stack.go:44-111 | a stack `!` with a route for `?`, both plain, is such an input |
| `TraefikReader.ClosedIsNotEnough` | internal/modules/docker/domain/traefik_config.go:51 | a stack name that ends its quoted address and goes on as a comment still reads as a closed config, but with another address |

## Left out

- HTTP routing and handlers, UI templates, CLI, wiring, and the clients of MikroTik, Arista, NetBox, Proxmox, Stripe, Ollama, IMAP and SMTP: no unbounded property of their own.
- JSON, UUID, CIDR and cron parsing, and calendar arithmetic: parameters (`Payload`, new ids, `Cidr`, `NextTime`, `Parses`, `Calendar`).
- Delivery by the broker is a step that can also lose a wake-up; a subscription is active from the moment it is requested, as for publishers on the same connection.
- A disconnect ends deliveries at once: the protocol assumes that no callback runs after cancel, which unsubscribing does not wait for; what such a callback does is in ChanSubscription.PanicsIffUsedAfterCancel.
- Failing notification queries: after one the screen shows empty values until the next wake-up.
- SettledScreenIsFresh: does not claim fresh read flags, because marking read publishes nothing; the list is stated with the marks its query saw.
- Chat widget messages and the clock of the event stream: chat messages are appended from the payload, so no freshness holds.
- SQL text: queries are relations or loops over tables, ties left open where SQL leaves them open; the thread list's last message, order and members are not modelled.
- NotificationStore.Store.List: breaks ties between equal times by insertion order, where SQL leaves them open; the freshness statements compare listings of equal tables.
- Invoice.Invoice.Recalculate: amounts are unbounded integers; MachineRecalculationIsExact says when float64 and int64 agree, for rates that float64 holds exactly. Slices are values, so aliasing of line slices by a caller is not captured.
- Invoice identity, customer, code, notes, currency and issue date; overdue listings and reminder intervals.
- EscapeJS.EscapedLiteralReadsBack: the reader has no numeric, hexadecimal or Unicode escapes; the escaper never writes one.
- EscapeJS.ScriptEndSurvivesIff: the states of the HTML tokenizer behind `<!--` and a second script start tag, in which an end tag does not end the script.
- Cron: job bodies, the scheduler's timing, `ListAll` order, and stopping the daemon.
- Billing: services are values and not shared objects, so their in-memory advance after a failed save is not kept; customer lookup, code numbering, invoice saving and event publishing are outcomes of the run.
- BillingHistory: services are not edited between the runs, and a billing cycle moves a date on (`MovesOn`).
- Traefik: the string builder is a list of lines.
- Traefik.GenerateTraefikConfig: nothing is proved about what the comments in the header say beyond the reader's taking them for comments.
- TraefikReader.ConfigIsClosed: one direction, for readable inputs; TraefikReader.ClosedIsNotEnough shows an unreadable one whose config is closed too.
- TraefikReader: YAML beyond the lines this generator writes. Quoted values that go on over several lines and numeric escapes are refused, where YAML folds or decodes them to another value; the types of plain scalars and the characters YAML forbids altogether are not modelled.
- DaemonRuns: a firing advances and saves its job in one step, and its body and the timing of firings are free; the daemon runs in one process.
- FindDirectThread, ReferenceIDs, and the status machines of deals, devices, customers and e-mail accounts: easy members.
- The prepaid balance ledger and the bot session bridge are not part of this model.
- Dashboards, reports and charts: presentation.
