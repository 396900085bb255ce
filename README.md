# nats-consumer-monitor, modelled in Dafny

nats-consumer-monitor is a terminal dashboard for NATS JetStream consumers. On every
tick a poller fetches the `ConsumerInfo` of each configured consumer. It compares
the fields worth highlighting with the last snapshot it stored for the consumer's
`stream/consumer` key, and sends one batch of consumer states to the UI. The UI has
one window panel per configured window. Each panel is a grid of consumer views plus
a status row; a view flashes when its consumer changed. The user can open and close
a throughput measurement window with `t`, clear it with `c`, and switch windows with
`<`/`>` or the arrow keys. An older single-file version (`main.go`) does the same for
one fixed grid, with its own snapshot type.

The Dafny project models:

- **Configuration** (`config.dfy`, module `Config`): the consumer key, loading the
  consumers file, and resolving a NATS CLI context into a server URL and an ordered
  list of connection options.
- **Change detection** (`snapshot.dfy`, `poller.dfy`): the snapshot and its
  equality, and one poll as a class `Poller` whose `Poll` method is proved against
  the specification function `PollAll`, together with lemmas about what a tick reports
  and how the snapshot map evolves.
- **Throughput** (`throughput.dfy`): the measurement's counts, duration and rates,
  and the `ThroughputTracker` class, whose methods are proved against the
  specification functions `Toggled` and `UpdatedUpTo`.
- **Flash debouncer** (`flash.dfy`): the `FlashController` class, whose timer callback
  is an explicit `Expire` call.
- **Formatting** (`format.dfy`): `FormatInt`'s append loop and in-place swap loop,
  proved to produce the reference rendering `Separated(Decimal(n))`, and `Ago`'s
  "never" branch.
- **Views** (`selectable.dfy`): the left-truncated title and the mouse dispatch.
- **Application** (`app.dfy`): grid arithmetic, view placement, the flash plan of
  `updateViews`, the status bar, window switching, key dispatch, per-batch handling,
  and the throughput commands across panels.
- **The single-file loop** (`legacy.dfy`): its eleven-field snapshot and the
  `prev`/`flashNeeded` update of its tick loop.

`main.go` has its own copies of five functions of the packaged code, with the same
branches, messages and results: `loadConsumers` (main.go:204-224),
`loadNATSFromContext` (main.go:226-279), `firstNonEmpty` (main.go:281-288),
`formatInt` (main.go:310-329) and `ago` (main.go:331-336). The last four have the same
text. `loadConsumers` differs in its types: it decodes into the named type
`consumerConfig` rather than an anonymous struct, its `ConsumerRef` has no JSON tags,
and it returns the consumer list itself rather than a `*Config` holding it. The
decoded file is an input to the model, so these differences do not show in it. Each
function is modelled once, by `Config.Load`, `Config.LoadNatsFromContext`,
`Config.FirstNonEmpty`, `UiFormat.FormatInt` and `UiFormat.Ago`.

`Throughput.ToggleCycle` and `UiFlash.FlashTwiceThenExpire` are worked scenarios. Each
is a method that strings together calls of the modelled operations on concrete
values and checks the intermediate states with assertions. They model no function of
the source and carry no contract of their own, so the table below has no row for them.

Fixed-width Go integers are written out in `goint.dfy`:

- `uint64` values are `U64`, and subtraction wraps modulo 2^64.
- `int` values are `I64`, and `int(uint64)` reinterprets the bits.
- Integer division and remainder truncate toward zero.
- `time.Time.Sub` saturates.

Foreign NATS types are plain datatypes in `nats.dfy`. A fetch is an input: one
`FetchResult` per configured consumer and tick. The clock is an input too: an
`Instant` in nanoseconds, passed as `now` or as one `clock` reading per panel.

## Model

| member | source | states |
|---|---|---|
| Config.KeyCollides | internal/monitor/poller.go:65 | two different consumer references can have the same `stream/consumer` key, so the key is not injective |
| Config.Load | internal/config/config.go:24-47 | an unreadable file gives a read error; the object form is preferred over the plain array; a parse error happens only when both forms fail; an empty list is rejected; a successful load is never empty |
| Config.FirstNonEmptyOf | internal/config/config.go:123-130 | the result is empty exactly when every value is empty; otherwise it is the value at the first non-empty position |
| Config.FirstNonEmptyOfPair | internal/config/config.go:123-130 | with two values the result is the first if it is non-empty, else the second |
| Config.FirstNonEmpty | internal/config/config.go:123-130 | the early-return loop computes the first non-empty value, or the empty string when there is none |
| Config.ContextUrl | internal/config/config.go:90-93 | the URL is `url`, else `server_url`, else the first of `servers`, else empty |
| Config.AuthOption | internal/config/config.go:103-110 | creds take precedence over a token and a token over a user; the user's password is `pass`, else `password`; there is no authentication option exactly when all three are empty |
| Config.ContextOptionsOrder | internal/config/config.go:98-118 | the options are strictly in the order servers, authentication, client certificate, CA, so there is at most one of each kind |
| Config.ContextOptionsMembers | internal/config/config.go:98-118 | an option is in the list exactly when the context asks for it |
| Config.ContextOptionsContents | internal/config/config.go:98-118 | the list starts with the servers option exactly when servers are listed, and that option carries the context's list; the authentication option follows the precedence rule; a client certificate appears exactly when both certificate and key are set; a CA option appears exactly when a CA is named |
| Config.BuildOptions | internal/config/config.go:98-118 | appending the options one at a time builds exactly the list `ContextOptions` describes |
| Config.LoadNatsFromContext | internal/config/config.go:68-121 | the error for an unset context name, an unresolved home directory, an unreadable file and a malformed file, tried in that order; a missing server URL is an error; otherwise the result is the URL and options the context describes |
| GoInt.SubU64 | internal/monitor/throughput.go:19-26 | uint64 subtraction: adding the result back to the subtrahend gives the minuend modulo 2^64; without underflow it is the plain difference |
| GoInt.ToI64 | main.go:155 | `int(uint64)` keeps values below 2^63 and is undone by the conversion back to uint64 |
| GoInt.ToI64Injective | main.go:155 | `int(uint64)` maps different values to different values |
| GoInt.GoQuot | internal/ui/app.go:164-165 | Go's integer division truncates toward zero: for any non-zero divisor, what the quotient leaves of the dividend is smaller than the divisor in magnitude and is zero or has the dividend's sign; for a non-negative dividend and a positive divisor it agrees with Dafny's division |
| GoInt.GoRem | internal/ui/app.go:164-165 | Go's remainder completes Go's quotient to the dividend, is smaller than the divisor in magnitude, and is zero or has the dividend's sign; for a non-negative dividend and a positive divisor it agrees with Dafny's remainder |
| GoInt.GoDivisionUnique | internal/ui/app.go:164-165 | these three properties determine the pair: any quotient and remainder that satisfy them are Go's |
| GoInt.TimeSub | internal/monitor/throughput.go:29-34 | the elapsed time is the exact difference when it fits in a time.Duration, and saturates at either bound otherwise |
| MonitorSnapshot.Equal | internal/monitor/snapshot.go:33-41 | Equal is exactly structural equality, so it is reflexive and symmetric and any single differing field makes it false |
| MonitorSnapshot.IsZero | internal/monitor/snapshot.go:44-46 | IsZero holds exactly when all seven fields are zero |
| MonitorSnapshot.FromConsumerInfoFields | internal/monitor/snapshot.go:20-30 | two consumer infos give equal snapshots exactly when they agree on the seven copied fields |
| MonitorSnapshot.StreamDeliveredIgnored | internal/monitor/snapshot.go:9-30 | a change only in the stream-relative delivered sequence is not a change |
| MonitorPoller.PollUpToLength | internal/monitor/poller.go:62-90 | after n consumers the batch has n states |
| MonitorPoller.PollUpToBatch | internal/monitor/poller.go:64-90 | state i of the batch is consumer i's step taken on the map left by the consumers before it |
| MonitorPoller.PollReports | internal/monitor/poller.go:62-90 | the batch is as long as the configuration, state i is about consumer i, and an error is set exactly when its fetch failed (then no info, a zero snapshot and no change); a success carries its info and snapshot and is changed exactly when an entry for its key existed and differs; a change never comes with an error |
| MonitorPoller.PollUpToKeys | internal/monitor/poller.go:78-87 | keys are only added, namely the keys of the successful fetches, and an entry that no success touched keeps its value |
| MonitorPoller.PollUpToLastWrite | internal/monitor/poller.go:85-87 | after a success the map holds its snapshot under its key until a later success for the same key overwrites it |
| MonitorPoller.PollDistinctKeys | internal/monitor/poller.go:64-89 | with pairwise distinct keys, each success is compared with the entry from before the tick and is stored by the end of it |
| MonitorPoller.PollErrorKeepsHistory | internal/monitor/poller.go:68-73 | a failed fetch leaves its key's entry as it was, so the next tick compares with the last success |
| MonitorPoller.TwoTickScenario | internal/monitor/poller.go:61-90 | over two ticks, an error does not stop the other consumers, a first success is no change, a repeated snapshot is no change and a differing one is |
| MonitorPoller.Poller.constructor | internal/monitor/poller.go:33-40 | a new poller has the given consumers and an empty snapshot map |
| MonitorPoller.Poller.Poll | internal/monitor/poller.go:61-93 | the loop produces exactly the batch and map of `PollAll` on the old map; the batch is in configuration order and no key is removed |
| MonitorThroughput.Measurement.DeliveredCount | internal/monitor/throughput.go:19-21 | the delivered count is the current value minus the baseline modulo 2^64, and the plain difference when there is no wrap |
| MonitorThroughput.Measurement.AckedCount | internal/monitor/throughput.go:24-26 | the same for the acknowledged counts |
| MonitorThroughput.Measurement.Duration | internal/monitor/throughput.go:29-34 | an open window runs up to now and a closed one up to its end time |
| MonitorThroughput.Measurement.DeliveredRate | internal/monitor/throughput.go:37-43 | the rate is zero for a window of zero length; otherwise rate times duration equals the count per second |
| MonitorThroughput.Measurement.AckedRate | internal/monitor/throughput.go:46-52 | the same for the acknowledged rate |
| MonitorThroughput.TwoSecondWindow | internal/monitor/throughput.go:19-43 | a baseline of 100 and a current value of 140 over two seconds give 40 messages at 20 per second |
| MonitorThroughput.Stopped | internal/monitor/throughput.go:80-88 | closing a window keeps every key, baseline and live counter and gives every entry the same end time |
| MonitorThroughput.StartedKeys | internal/monitor/throughput.go:90-107 | an opening window has exactly the keys of the error-free states of the batch; earlier entries are gone |
| MonitorThroughput.StartedValues | internal/monitor/throughput.go:97-106 | each entry is the baseline of the last error-free state with its key |
| MonitorThroughput.StartedFresh | internal/monitor/throughput.go:97-106 | every new entry starts now, has no end time, and its live counters equal its baseline |
| MonitorThroughput.UpdatedFrame | internal/monitor/throughput.go:113-131 | an update adds no key and changes no start time, end time or baseline; an entry no error-free state names is unchanged |
| MonitorThroughput.UpdatedLast | internal/monitor/throughput.go:121-130 | an existing entry takes the counters of the last error-free state with its key |
| MonitorThroughput.UpdatedContents | internal/monitor/throughput.go:113-131 | an update changes only the live counters of existing entries, each to the last error-free state for its key |
| MonitorThroughput.ThroughputTracker.constructor | internal/monitor/throughput.go:62-66 | a new tracker is idle with no measurements |
| MonitorThroughput.ThroughputTracker.IsMeasuring | internal/monitor/throughput.go:69-73 | reports whether a window is open, changing nothing |
| MonitorThroughput.ThroughputTracker.Toggle | internal/monitor/throughput.go:76-110 | the mode flips and the result is the new mode; a closing window stamps every entry with now, and an opening one starts afresh from the batch |
| MonitorThroughput.ThroughputTracker.Update | internal/monitor/throughput.go:113-131 | the mode is kept; a closed window leaves the map alone and an open one refreshes live counters as `UpdatedUpTo` says |
| MonitorThroughput.ThroughputTracker.Get | internal/monitor/throughput.go:134-145 | returns the entry for the consumer's key exactly when one exists, changing nothing |
| MonitorThroughput.ThroughputTracker.Clear | internal/monitor/throughput.go:148-153 | from any state, the tracker is idle with no measurements |
| UiFlash.FlashController.constructor | internal/ui/flash.go:19-23 | a new controller has no view flashing |
| UiFlash.FlashController.Flash | internal/ui/flash.go:26-48 | a flashing view is left alone, with no paint and no new clear; otherwise the view joins the flashing views and is painted once in the flash colour, and its one clear will restore the base colour; other views are unaffected |
| UiFlash.FlashController.Expire | internal/ui/flash.go:39-47 | the clear callback paints the captured base colour back and removes only that view from the flashing views |
| UiFlash.FlashController.IsFlashing | internal/ui/flash.go:51-55 | reports whether the view is flashing, changing nothing |
| UiFormat.DigitChar | internal/ui/format.go:11 | a digit's character is a decimal digit |
| UiFormat.Decimal | internal/ui/format.go:11 | `strconv.FormatUint` gives a non-empty string of decimal digits with no leading zero |
| UiFormat.DecimalValue | internal/ui/format.go:11 | the digits denote the number |
| UiFormat.DecimalShort | internal/ui/format.go:12-14 | a decimal has at most three digits exactly when the number is below 1000 |
| UiFormat.EmitBackwards | internal/ui/format.go:16-22 | the append loop emits the digits last to first, with a comma after every third one except the leading digit |
| UiFormat.ReverseInPlace | internal/ui/format.go:24-26 | the two-index swap loop reverses the buffer in place |
| UiFormat.RevRev | internal/ui/format.go:24-26 | reversing twice gives back the original |
| UiFormat.RevChunked | internal/ui/format.go:16-26 | reversing the reversed digits grouped from the left gives the digits grouped from the right |
| UiFormat.ReverseResult | internal/ui/format.go:16-26 | reversing what the append loop emitted gives the reference rendering |
| UiFormat.FormatInt | internal/ui/format.go:10-29 | the result is the decimal digits of n grouped by threes from the right with commas |
| UiFormat.RemoveCommas | internal/ui/format.go:16-22 | removing commas never lengthens a text |
| UiFormat.SeparatedDigits | internal/ui/format.go:16-28 | deleting the commas from the rendering gives back the digits |
| UiFormat.SeparatedLength | internal/ui/format.go:16-22 | a rendering of d digits has d + (d - 1) / 3 characters, never a multiple of four |
| UiFormat.SeparatedCommas | internal/ui/format.go:16-22 | a rendering of d digits has (d - 1) / 3 commas |
| UiFormat.SeparatedAt | internal/ui/format.go:17-22 | a position holds a comma exactly when its distance from the end is a multiple of four |
| UiFormat.SeparatedShape | internal/ui/format.go:17-22 | the rendering neither starts nor ends with a comma; every comma is followed by exactly three digits, and the leading group has one to three |
| UiFormat.FormatSmall | internal/ui/format.go:12-14 | below 1000 the rendering is the plain decimal; from 1000 on it contains a comma |
| UiFormat.FormatValue | internal/ui/format.go:10-29 | the formatted text, with commas removed, is all digits and denotes the number |
| UiFormat.Ago | internal/ui/format.go:32-37 | "never" exactly for a missing or zero time; otherwise the elapsed time since the given time |
| UiSelectable.FitTitle | internal/ui/selectable.go:59-71 | a title that fits is kept whole; a longer one is cut to exactly the available width (none when that is not positive), is a suffix of the full title, and starts with an ellipsis when more than three columns are available |
| UiSelectable.TrimLeft | internal/ui/selectable.go:96 | keeps a suffix that does not start with white space, having dropped only white space |
| UiSelectable.TrimRight | internal/ui/selectable.go:96 | keeps a prefix that does not end with white space, having dropped only white space |
| UiSelectable.TrimSpace | internal/ui/selectable.go:96 | `strings.TrimSpace` returns a slice of the text with only white space removed before and after it, and that neither starts nor ends with white space |
| UiSelectable.Dispatch | internal/ui/selectable.go:79-101 | an event outside the view's rectangle is ignored; inside it, exactly a left click or a double click is consumed; only the click takes focus; a double click copies the trimmed text exactly when the text is non-empty and a copy callback is set |
| UiSelectable.SelectableTextView.constructor | internal/ui/selectable.go:26-32 | a new view has no titles, no text and no copy callback |
| UiSelectable.SelectableTextView.SetFullTitle | internal/ui/selectable.go:35-38 | sets only the full title |
| UiSelectable.SelectableTextView.SetTextCopiedFunc | internal/ui/selectable.go:41-44 | sets only whether a copy callback exists |
| UiSelectable.SelectableTextView.UpdateTitle | internal/ui/selectable.go:52-74 | an empty full title leaves the title untouched; otherwise the title is the fitted text for the width less four, padded with one space on each side |
| UiSelectable.SelectableTextView.HandleMouse | internal/ui/selectable.go:77-103 | for the view's own rectangle, text and callback: an event outside the rectangle is ignored; inside it, exactly a left click or a double click is consumed; only the click takes focus; a double click copies the view's trimmed text exactly when the text is non-empty and the view has a copy callback |
| UiApp.EffectiveColumns | internal/ui/app.go:70-73 | the column count is the configured one when positive and four otherwise, so always at least one |
| UiApp.RowCountIsCeiling | internal/ui/app.go:76 | the row count is the ceiling of views over columns: enough rows for every view and no row more |
| UiApp.GridSizes | internal/ui/app.go:70-86 | there are `rows` rows of size zero plus a status row of size one, and as many columns of size zero as the column count |
| UiApp.RawCell | internal/ui/app.go:148-165 | the placement as written panics exactly when the configured Columns is zero, and is the plain quotient and remainder when Columns is positive |
| UiApp.RawCellZeroColumnsPanics | internal/ui/app.go:148-165 | with Columns = 0 the grid gets four columns, yet placing the first view divides by zero |
| UiApp.RawCellNegativeColumnsOutside | internal/ui/app.go:148-165 | with Columns = -1 and three views the grid has four columns and one row, yet the third view is placed at row -2 |
| UiApp.GridCellPlacement | internal/ui/app.go:164-167 | with the grid's own column count every view gets a cell inside the grid of views and no two views share one; for positive Columns this is the placement as written |
| UiApp.StateMapKeys | internal/ui/app.go:333-337 | the state map's keys are the keys of the batch |
| UiApp.StateMapLast | internal/ui/app.go:333-337 | a key maps to the last state of the batch with that key |
| UiApp.FlashTargetsMembers | internal/ui/app.go:339-365 | a view is asked to flash exactly when some configured consumer has that view and a state that changed without an error |
| UiApp.FlashOverTargets | internal/ui/app.go:339-365 | the loop over the configured consumers amounts to flashing its targets in order |
| UiApp.FlashAllFlashing | internal/ui/flash.go:28-32 | flashing a list of views adds exactly those views to the flashing views |
| UiApp.FlashAllKeeps | internal/ui/flash.go:28-31 | a view that was flashing stays flashing, and its clear still restores the same colour |
| UiApp.FlashAllColours | internal/ui/flash.go:28-47 | a view that starts flashing will be cleared back to the given base colour |
| UiApp.FlashAllPaints | internal/ui/flash.go:28-37 | new paints come after the earlier ones; each is in the flash colour for a listed view that was not flashing before, and no view is painted twice |
| UiApp.FlashAllPaintsEvery | internal/ui/flash.go:32-37 | every listed view that was not already flashing is painted in the flash colour |
| UiApp.WindowIndexLaws | internal/ui/app.go:218-240 | with one window or none, next and previous do nothing; otherwise they move by one modulo the number of windows and stay in range; in both cases they undo each other |
| UiApp.KeyCommand | internal/ui/app.go:177-213 | Ctrl-C, `q` and `Q` quit; `t`/`T` toggle; `c`/`C` clear; `<`, `,` and the left arrow go back; `>`, `.` and the right arrow go forward; a rune command wins over the arrow it comes with; every other key passes on to tview |
| UiApp.WindowPanel.constructor | internal/ui/app.go:68-114 | the panel has the defaulted column count and its row count plus one status row; every consumer row and every column has flexible size 0 and the status row has fixed height 1; the status item spans the last row, no views exist yet, the status bar shows the help text, and the tracker and flash controller are fresh and empty |
| UiApp.WindowPanel.AddView | internal/ui/app.go:150-167 | one pass of the loop: a fresh titled, copyable view in slot i only, registered under the consumer's key and placed in its grid cell |
| UiApp.WindowPanel.SetupViews | internal/ui/app.go:140-169 | every configured consumer gets a fresh view titled with its consumer name and able to copy; the view map registers each under its key, and the grid places each at its cell |
| UiApp.WindowPanel.ToggleMeasurement | internal/ui/app.go:284-291 | the panel's tracker toggles on the batch at now, and the status bar shows measuring or done accordingly |
| UiApp.WindowPanel.UpdateStatusBar | internal/ui/app.go:303-329 | an open window leaves the status bar alone; otherwise it shows "done" when some configured consumer has a measurement and the help text otherwise, behind the window prefix when there are several windows |
| UiApp.WindowPanel.UpdateViews | internal/ui/app.go:331-366 | the paints and the new flashing views are exactly those of flashing, in configuration order, each view whose consumer's state changed without an error |
| UiApp.WindowPanel.ApplyBatch | internal/ui/app.go:270-274 | the tracker takes the batch when measuring, the views flash as `UpdateViews` says, and a closed window's status bar shows done or help |
| UiApp.NewPanels | internal/ui/app.go:46-55 | one fresh, empty panel per window, in order, with no two panels sharing an object |
| UiApp.App.Disjoint | internal/ui/app.go:46-55 | distinct panels share no panel, tracker, flash controller or view slice |
| UiApp.App.constructor | internal/ui/app.go:46-66 | one panel per window, in order, each showing the help text; the first panel is current and shown; no batch has arrived yet |
| UiApp.App.UpdateWindowTitle | internal/ui/app.go:242-249 | with several windows the current panel's status bar names its window and position; nothing else changes |
| UiApp.App.PrevWindow | internal/ui/app.go:218-228 | with several windows the previous panel becomes current and shown, and shows its title; with one window or none nothing changes |
| UiApp.App.NextWindow | internal/ui/app.go:230-240 | with several windows the next panel becomes current and shown, and shows its title; with one window or none nothing changes |
| UiApp.App.SetupPanels | internal/ui/app.go:260-267 | every panel's views are set up, then the window title is shown |
| UiApp.App.ApplyToPanels | internal/ui/app.go:270-274 | every panel takes the batch as `ApplyBatch` says |
| UiApp.App.HandleBatch | internal/ui/app.go:251-277 | the first batch sets up the panels; every batch becomes the last one and, after the first, is applied to every panel |
| UiApp.App.ToggleThroughput | internal/ui/app.go:279-293 | before the first batch nothing changes; afterwards every panel's tracker toggles on the last batch at its own clock reading, and its status bar shows measuring or done |
| UiApp.App.ClearThroughput | internal/ui/app.go:295-301 | every tracker is emptied and idle, and every status bar shows the help text, whether or not a batch has arrived |
| UiApp.App.HandleKey | internal/ui/app.go:177-213 | the key's command is carried out: quitting and passing on change nothing; clear empties every tracker and shows the help text; toggle does nothing before the first batch and afterwards toggles every tracker on the last batch and shows whether it is measuring; the navigation commands move the index and the visible page, retitle the new current panel's status bar and leave the trackers alone; the index and page move for no other command |
| LegacyMain.Equal | main.go:56-68 | the eleven-field comparison is exactly structural equality |
| LegacyMain.SnapOfFields | main.go:147-159 | two requests give equal snapshots exactly when they agree on the ten copied fields, since the pending count's conversion loses nothing |
| LegacyMain.TickOne | main.go:137-162 | a failed request leaves the slot alone and does not flash; a success fills the slot with its initialized snapshot and flashes exactly when the slot was initialized and differs |
| LegacyMain.NewPrev | main.go:112 | every slot starts as the zero value, which is not initialized |
| LegacyMain.Tick | main.go:137-195 | the loop updates each slot and decides each flash as `TickOne` says |
| LegacyMain.RunExtends | main.go:136-196 | a tick extends a consumer's run by one request |
| LegacyMain.RunState | main.go:138-162 | from the zero slot, the slot holds the snapshot of the last successful request, or the zero value when every request failed |
| LegacyMain.RunFlashes | main.go:136-194 | request k flashes exactly when it succeeds, an earlier request succeeded, and the last earlier success gave a different snapshot |
| LegacyMain.FirstSuccessNeverFlashes | main.go:112-161 | a first successful request never flashes, whatever failed before it |
| LegacyMain.NoSuccess | main.go:138-145 | when every request failed there is no last success |
| LegacyMain.WiderComparison | main.go:147-161 | a change only in the stream-relative delivered sequence or the configured limit flashes here but is no change for the packaged snapshot |

## Left out

- NATS network calls (`ConsumerInfo`, connecting, creating the JetStream context) are foreign: a fetch is an input `FetchResult`, and connection options are the datatype `ConnectOption`.
- Reading files and the environment, resolving the home directory, joining paths and decoding JSON are inputs. `ConsumersFile` says what each of the two decodings produced, and `ContextFile` what reading and decoding the context produced.
- Locks, goroutines, tickers, timers, the update channel and context cancellation. Each lock-guarded method is one atomic call, and a flash timer firing is an explicit `Expire` call.
- `Poller.Run` and the loop of `handleUpdates` are left out because they only repeat `Poll` and `HandleBatch` on ticker and channel events. `Poll` returns its batch instead of sending it.
- The tview event loop and the `Stop` call it makes on Ctrl-C or `q` are left out; `HandleKey` only reports `stop`.
- `MonitorThroughput.Measurement.DeliveredRate` and `AckedRate` use exact reals, not float64, so they do not capture rounding.
- Ago: it does not model the `time.Since(...).Round(time.Second)` text of the elapsed branch, because that depends on the wall clock; the result only names the instant.
- Rendering is left out, because it only draws the screen: `SetText`, background and border colours, pages, the theme, `formatConsumerState` and the status-bar strings. The status bars are the datatype `StatusText`, and paints are `Paint` records.
- `stripColorTags` is left out because it is a regular expression; the view's text is taken to be already stripped.
- `copyToClipboard` is left out because it runs an external program; a copy is the text handed to the callback.
- cmd/me-monitor/main.go is not part of this model. It calls `NewApp` with an argument of the wrong type, and `WindowConfig` is missing from internal/config/config.go, so `UiApp.WindowConfig` stands in for it.
- The consumer-to-state map that `SetupViews` builds is never read and is not modelled.
- UiSelectable.FitTitle: lengths count characters (`seq<char>`), while Go's `len` and slicing count bytes, so the model does not capture cuts inside a multi-byte character.
- main.go's rendering (its view texts, grid, colours and `flashView` timing) is left out. Its `prev`/flash decision is modelled in `LegacyMain`.
- UiApp.GridSizes uses unbounded integers, so Go's `int` overflow in the layout arithmetic is not modelled; such a grid could not be allocated anyway.
- UiApp.WindowPanel.SetupViews places views with the defaulted column count (`GridCell`), not the raw `Columns` as written; see Findings.
- UiApp.App.SetupPanels: states only that every view slot is filled and the window title is shown. The full per-view facts are stated by `SetupViews`.
- UiApp.App.HandleBatch: for the first batch it states only that the views are set up, not what applying that batch does to each panel; `ApplyToPanels` states that.

## Findings

| source | as written | input that shows it | evidently intended | confidence | as-written member | corrected member |
|---|---|---|---|---|---|---|
| internal/ui/app.go:148,164-165 | `SetupViews` places view i at `i / Columns`, `i % Columns` with the configured `Columns`, while `newWindowPanel` sizes the grid with `Columns` defaulted to 4 when it is not positive | `Columns = 0`: placing the first view divides by zero and panics. `Columns = -1` with three consumers: the grid has one row of four columns, but the third view goes to row -2 | place views with the same defaulted column count that sized the grid | not executed | UiApp.RawCell (with UiApp.RawCellZeroColumnsPanics and UiApp.RawCellNegativeColumnsOutside) | UiApp.GridCell (proved in UiApp.GridCellPlacement, used by UiApp.WindowPanel.AddView) |
