# Verified model of the Singularity desktop's stateful core

This project models seven C components of the desktop and proves what they promise over
every input, every run or every reachable state. Wayland, D-Bus, the file system and nft
appear only as traces of requests, sets of files or chains of rules; whatever they decide
(an upload that fails, an allocation that fails, PAM's answer, the clock) is a parameter.

| component | source | modules |
|---|---|---|
| Text typing scheduler | `src/wayland/vkbd.c` | `Keyboard`, `TypingSpec`, `TypingTheorems`, `TypingProgress`, `TypingExact`, `TypingHands`, `Typist` |
| Firewall helper | `src/services/firewall-helper/main.c` | `CText`, `FirewallPorts`, `FirewallFile`, `FirewallCommands`, `FirewallHistory`, `FirewallRuleset`, `FirewallTable`, `FirewallNft`, `FirewallText` |
| Input-method keyboard grab | `src/wayland/ime.c` | `ImeSpec`, `ImeTheorems`, `ImeIntent`, `ImeClient` |
| Preview buffers and captures | `src/wayland/wayland_integration.c` | `PreviewSpec`, `PreviewTheorems`, `PreviewOutcome`, `PreviewPool` |
| Crash spool | `src/services/crash-handler/main.c` | `CrashNames`, `CrashSpool`, `CrashHandler` |
| Screenshot pixel paths | `src/tools/screenshot/main.c` | `Pixels`, `Composition`, `Regions` |
| Lock screen and easing | `src/lockscreen/lock_main.c` | `LockSpec`, `LockTheorems`, `LockPassword`, `LockPhases`, `LockUnlock`, `LockScreen`, `Easing` |

`Basics` holds what they share. Each component has up to three layers. A `Spec` module gives
the state as a value and every event as a function on it. A `Theorems` module proves
invariants and whole-run results about those functions. An imperative module holds a class with the program's own fields, arrays and
loops; each of its methods is proved to take the abstract state exactly where the
specification function takes it, so the theorems hold of the code with the loops.

What a component does to others is judged by models of those others that share no definition
with it: the keyboard and the hands behind a request trace (`Keyboard`), a text field under the
input-method protocol (`ImeIntent`), nft with its lines, chains and policies (`FirewallNft`),
colours stored as a pixel format's name lists them (`Pixels`), and histories read off the
events alone (`FirewallHistory`, `PreviewOutcome`, `LockPhases`).

## What the code does differently from what one would expect

For each of these a lemma gives the input or the run, and another says for all inputs exactly
when the expected property holds.

- A failed upload of the layout keymap still presses the keys of the run
  (`TypingExact.FailedLayoutUpload`), and a layout change between upload and presses can lose
  text (`TypingProgress.MidRunLayoutChangeLosesText`, `TypingExact.MidRunChangeArrives`).
  `TypingExact.TextArrivesExactly` decides every run.
- A layout without keymap text makes the timer spin for ever at the first layout character
  (`TypingProgress.StuckForever`, reached by `TypingProgress.StuckReached`); a firing makes
  progress exactly when its pending run is not empty (`TypingProgress.FiringProgress`).
- Keys from 1024 up are forwarded but not tracked and can outlive a grab
  (`ImeTheorems.LargeKeyStaysHeld`, `ImeTheorems.ReleaseLeavesNoKeyHeld`).
- When a cancellable capture finds no memory at all, its request is freed although the
  client still holds the token (`PreviewTheorems.StarvedTokenReached`); a run stays in its own
  memory exactly when it cancels no such token (`PreviewTheorems.SafeExactly`).
- Port numbers with a leading zero pass the checks, and are another port for a reader that
  takes them as octal (`FirewallRuleset.LeadingZeroOpensAnotherPort`,
  `FirewallRuleset.CoversAsMeantExactly`).
- File names stop being in time order at 10^10 seconds (`CrashNames.TimeOrderExactly`), and
  within one second they follow the digits of the process number: a core can be deleted by its
  own prune (`CrashSpool.SameSecondLosesCore`, `CrashSpool.OwnCoreSurvives`).
- The row size checks of the pixel copy are done in 32 bits. Frames whose rows wrap pass them
  and are read outside their mapping (`Pixels.WrappedRowPassesChecks`) or written outside their
  buffer (`Pixels.WrappedBufferPassesChecks`); the copy of a whole accepted frame stays in its
  memory exactly when four bytes for each pixel of a row fit 32 bits
  (`Pixels.WholeCopyIsSafeExactly`). The canvas of all outputs is as wide as they are exactly
  under the same condition (`Composition.CanvasHoldsAllExactly`,
  `Composition.WrappedCanvasPassesChecks`).
- A region is not always cut to the output. One whose corner no output holds is taken from the
  first output and can be moved (`Regions.FallbackMovesRegion`); one whose end passes 2^32 can be
  refused although its corner is held (`Regions.WideRegionIsRefused`); one whose own size passes
  2^32 can be cut short (`Regions.WrappedRegionIsCutShort`). `Regions.CropIsIntersection` and
  `Regions.ChosenRegionIsCut` say exactly when it is cut.
- Nothing keeps a stopped lock screen from sending a second unlock request
  (`LockUnlock.TwoUnlocks`, `LockUnlock.UnlocksAreCounted`).

## Model

| member | source | states |
|---|---|---|
| `Keyboard.ReplayConcat` | src/wayland/vkbd.c:184-223 | what the compositor makes of a request trace can be computed piece by piece |
| `TypingTheorems.LayoutTableExact` | src/wayland/vkbd.c:107-141 | the layout table holds exactly the characters some key and level up to keycode 255 types, and each entry, pressed under that keymap, types its own character |
| `TypingTheorems.BatchIndexSpec` | src/wayland/vkbd.c:171-176 | an index is found exactly for members of the batch, and it is the place of that character |
| `TypingTheorems.GeneratedBatch` | src/wayland/vkbd.c:196-206 | the batch holds at most 240 distinct characters, exactly those of the run; it stops only at the end, at a layout character or at a 241st distinct character; it makes progress exactly when it starts at a character the layout lacks |
| `TypingTheorems.LayoutRunSpec` | src/wayland/vkbd.c:248-252 | a layout run is the longest stretch of layout characters |
| `TypingTheorems.GeneratedKeyTypes` | src/wayland/vkbd.c:91-105 | pressing index + 1 names keycode index + 9, within 9..248, and enters the character at that index, carriage return as newline |
| `TypingTheorems.PressCharsTypes` | src/wayland/vkbd.c:218-237 | pressing a run enters exactly the run's text and leaves no modifier set |
| `TypingTheorems.RunJobKeeps` | src/wayland/vkbd.c:239-277 | one firing keeps the invariant and moves text from the queue to the compositor without loss, except that a failed generated upload gives up exactly the head job |
| `TypingTheorems.StepKeeps` | src/wayland/vkbd.c:107-286 | every event keeps the invariant; delivered plus queued text grows by what was requested minus what was given up |
| `TypingTheorems.RunKeeps` | src/wayland/vkbd.c:107-286 | the invariant and the conservation of characters over every undisturbed run |
| `TypingTheorems.TypingPreservesText` | src/wayland/vkbd.c:107-286 | over every interleaving of type calls, firings and layout changes no key precedes a keymap, and delivered text followed by queued text is the requested text in FIFO order exactly when no generated upload failed; equal to it once the queue is empty |
| `TypingProgress.FiringProgress` | src/wayland/vkbd.c:239-277 | a firing strictly decreases twice the characters left minus one for a pending run, exactly when the pending run is not empty, whether or not uploads succeed |
| `TypingProgress.AlwaysScheduled` | src/wayland/vkbd.c:180-182 | after every sequence of events the queue is non-empty exactly when a timer is pending, and no queued job is finished |
| `TypingProgress.QueueDrains` | src/wayland/vkbd.c:239-286 | the first n queued jobs are finished after at most twice as many firings as they have characters, whatever uploads fail, texts are queued behind them and layouts chosen meanwhile |
| `TypingProgress.StuckSpins` | src/wayland/vkbd.c:248-268 | without keymap text two firings bring the scheduler back to where it was |
| `TypingProgress.StuckForever` | src/wayland/vkbd.c:248-268 | and so on: after any number of such pairs of firings nothing has been typed |
| `TypingProgress.StuckReached` | src/wayland/vkbd.c:107-141 | choosing a layout without keymap text and typing one of its characters reaches that state |
| `TypingExact.FailedLayoutUpload` | src/wayland/vkbd.c:253-258 | after a failed layout upload the trace stays legal exactly when some keymap was sent before, and the run arrives exactly when that keymap gives each key the layout finds the same character |
| `TypingProgress.MidRunLayoutChangeLosesText` | src/wayland/vkbd.c:225-229 | a run in which the condition of `TypingExact.MidRunChangeArrives` fails and the text is lost |
| `TypingExact.MidRunChangeArrives` | src/wayland/vkbd.c:140-146 | after a layout change between upload and presses the run arrives exactly when the new layout finds, for each character, a key that enters it under the old keymap |
| `TypingExact.PressRunExact` | src/wayland/vkbd.c:225-237 | pressing a run delivers its text exactly when every key found now, pressed under the keymap in force, enters its own character; it never adds more than the run has |
| `TypingExact.FiringExact` | src/wayland/vkbd.c:239-277 | what a firing takes from the queue is delivered exactly when no job is given up and every pressed key enters its character |
| `TypingExact.TextArrivesExactly` | src/wayland/vkbd.c:107-286 | after every sequence of events, with layouts changing and uploads failing at any time, delivered text followed by queued text is the requested text exactly when every event met that condition |
| `TypingExact.UndisturbedArrives` | src/wayland/vkbd.c:107-286 | in undisturbed runs that condition is that no job was given up |
| `TypingHands.PressLetsGo` | src/wayland/vkbd.c:218-223 | pressing a key that is up leaves it up again and holds no other key |
| `TypingHands.NoKeyStaysHeld` | src/wayland/vkbd.c:218-277 | after every sequence of events no key is held, and no key was ever pressed while held or let go while up |
| `TypingHands.LayoutIsLast` | src/wayland/vkbd.c:107-146 | the layout in use is the last one that compiled, whatever was typed since |
| `Typist.Scheduler.constructor` | src/wayland/vkbd.c:60-70 | the statics start as the initial state |
| `Typist.Scheduler.SetLayoutNames` | src/wayland/vkbd.c:107-141 | the loops over keycodes and levels build the specified table; a keymap that does not compile changes nothing |
| `Typist.Scheduler.MakeKeymap` | src/wayland/vkbd.c:91-105 | the two loops write the generated keymap of the batch |
| `Typist.Scheduler.FillBatch` | src/wayland/vkbd.c:196-206 | the loop over the fixed array collects the specified batch and run end |
| `Typist.Scheduler.PressPendingRun` | src/wayland/vkbd.c:225-237 | the loop sends the requests of the run and moves the job's position |
| `Typist.Scheduler.LayoutRun` | src/wayland/vkbd.c:248-258 | a firing that starts a layout run |
| `Typist.Scheduler.CustomRun` | src/wayland/vkbd.c:259-268 | a firing that starts a generated run |
| `Typist.Scheduler.RunTimer` | src/wayland/vkbd.c:239-277 | the firing takes the state where the specification does |
| `Typist.Scheduler.Type` | src/wayland/vkbd.c:279-286 | queueing a text, started at once only when nothing is queued or scheduled |
| `FirewallPorts.CheckId` | src/services/firewall-helper/main.c:43-57 | accepts exactly 1 to 32 lower-case letters, digits and dashes |
| `FirewallPorts.CheckLabel` | src/services/firewall-helper/main.c:59-73 | accepts exactly 1 to 64 bytes without control bytes, quotes or backslashes |
| `FirewallPorts.CheckNumber` | src/services/firewall-helper/main.c:75-93 | accepts exactly up to five digits worth 1 to 65535 and returns the value |
| `FirewallPorts.CheckPortItem` | src/services/firewall-helper/main.c:95-115 | decides validity of one item |
| `FirewallPorts.CheckPorts` | src/services/firewall-helper/main.c:117-136 | decides whether every comma-split piece is a valid item |
| `FirewallPorts.ParseWrite` | src/services/firewall-helper/main.c:95-115 | a well-formed item, written out, is valid and reads back as itself |
| `FirewallPorts.PortsGrammar` | src/services/firewall-helper/main.c:117-136 | accepted strings are exactly the comma lists of N/proto and A-B/proto with 1 <= A < B <= 65535 up to 255 bytes, and each has one reading |
| `FirewallFile.LoadIsValid` | src/services/firewall-helper/main.c:138-173 | whatever bytes the file holds, only valid rules are loaded, at most 64 |
| `FirewallHistory.AnyFileIsRead` | src/services/firewall-helper/main.c:138-173 | from any file at all: the last line about each setting decides it, only "1" is on and only "public" is public, and the first 64 rules that can be read, in order, are the table |
| `FirewallHistory.RuleLineIsRead` | src/services/firewall-helper/main.c:154-168 | a rule line is three words and the rest; it is taken exactly when id, ports and label are valid, and is public too exactly when the flag is "1" |
| `FirewallHistory.LongLineIsCut` | src/services/firewall-helper/main.c:145-147 | up to 510 bytes and a newline are read as one line, a longer line is cut after 511 bytes |
| `FirewallFile.ParsesRule` | src/services/firewall-helper/main.c:154-168 | the three-token split of a written rule gives back the rule, leading and inner spaces of the label included |
| `FirewallFile.StateFileRoundTrip` | src/services/firewall-helper/main.c:138-205 | for every valid state, loading what was saved returns exactly that state |
| `FirewallHistory.SettingsPrinted` | src/services/firewall-helper/main.c:196-196 | the file starts with the two settings as the format string has them |
| `FirewallHistory.RulePrinted` | src/services/firewall-helper/main.c:197-200 | a rule is printed as its id, flag, ports and label, a space apart |
| `FirewallCommands.PutIsInsertOrReplace` | src/services/firewall-helper/main.c:394-410 | allow binds its id, keeps every other binding and the order of ids, appends a new id, and is refused exactly when a new id meets a full table |
| `FirewallCommands.WithoutRemoves` | src/services/firewall-helper/main.c:411-418 | revoke's result is the table with that one place cut out |
| `FirewallCommands.WithoutIsRemove` | src/services/firewall-helper/main.c:411-418 | revoke unbinds its id and keeps every other binding |
| `FirewallCommands.HistoriesAreSound` | src/services/firewall-helper/main.c:363-428 | after any sequence of calls from no state file, the file reads back as the table those calls describe; its rules are valid, at most 64, with distinct ids |
| `FirewallHistory.TableIsLastSaid` | src/services/firewall-helper/main.c:381-418 | after any calls, whether the firewall is on, its profile, and the rule of each id with its public flag are what the last saved command about them said |
| `FirewallRuleset.TokensArePieces` | src/services/firewall-helper/main.c:250-258 | for validated ports the strtok_r loop emits one rule per comma-split item, in order |
| `FirewallRuleset.ItemRuleMeansItem` | src/services/firewall-helper/main.c:254-256 | a printed rule matches exactly the packets its item covers, however numbers are read |
| `FirewallRuleset.RulesetMeansPolicy` | src/services/firewall-helper/main.c:222-262 | under first-match semantics with policy drop, and however numbers are read, the chain accepts a packet exactly when a fixed rule does or a rule admitted by the profile has an item covering its protocol and port |
| `FirewallRuleset.HomeAcceptsMore` | src/services/firewall-helper/main.c:242-249 | whatever the public profile accepts the home profile accepts |
| `FirewallRuleset.CoversAsMeantExactly` | src/services/firewall-helper/main.c:95-115 | an item covers the packets of its decimal numbers exactly when each of its numbers is read as decimal |
| `FirewallRuleset.RulesetMeansDecimalPolicy` | src/services/firewall-helper/main.c:222-262 | when every admitted number is, as it is without leading zeros, the chain means the policy as it was checked |
| `FirewallRuleset.LeadingZeroOpensAnotherPort` | src/services/firewall-helper/main.c:75-93 | 010/tcp passes the checks and opens port 8 instead of 10 to an octal reader |
| `FirewallTable.Table.LoadLine` | src/services/firewall-helper/main.c:147-169 | one line of the file edits the table as specified |
| `FirewallTable.Table.LoadState` | src/services/firewall-helper/main.c:138-173 | the read loop over 512-byte chunks loads the specified state |
| `FirewallTable.Table.SaveState` | src/services/firewall-helper/main.c:196-200 | the print loop writes the specified text |
| `FirewallTable.Table.AllowRule` | src/services/firewall-helper/main.c:388-410 | the scan and store in place are insert-or-replace; 2 for an invalid rule, 1 for a full table, nothing changed on failure |
| `FirewallTable.Table.RevokeRule` | src/services/firewall-helper/main.c:411-418 | the compaction loop in place is the order-preserving filter |
| `FirewallTable.ItemLine` | src/services/firewall-helper/main.c:254-257 | a rule line is never cut by its 512-byte buffer |
| `FirewallTable.RuleLines` | src/services/firewall-helper/main.c:250-258 | the token loop prints the lines of exactly the token rules |
| `FirewallTable.BuildChain` | src/services/firewall-helper/main.c:232-259 | the loop over the rules prints exactly the chain whose meaning is proved |
| `FirewallTable.BuildRuleset` | src/services/firewall-helper/main.c:222-262 | the whole text, table header only when disabled |
| `FirewallText.SentenceReads` | src/services/firewall-helper/main.c:232-256 | words a space apart, quoted ones included, read back as those words |
| `FirewallText.StatementMeansRule` | src/services/firewall-helper/main.c:236-256 | a rule tests exactly what its statement in nft's words tests, and both decide alike |
| `FirewallText.RuleReadsBack` | src/services/firewall-helper/main.c:236-256 | each printed rule is one line, which nft reads word by word as that rule with that label, for labels without quotes and newlines |
| `FirewallText.EveryItemIsLabelled` | src/services/firewall-helper/main.c:247-257 | each item of each rule the profile admits is a statement of its own, for its ports and protocol, with the label of the rule |
| `FirewallText.RulesetReadsBack` | src/services/firewall-helper/main.c:222-262 | whatever nft held before, executing the text line by line leaves the helper's table with exactly the chain that was meant, its hook and policy read from the text, or no such table when disabled, and every other table as it was; so no label or port list can inject a rule |
| `FirewallText.PrintedRulesetMeansPolicy` | src/services/firewall-helper/main.c:222-262 | for any tables before: nft takes the text and leaves other tables alone; disabled, the helper has no table; enabled, it has one chain, a filter on the input hook, that passes a packet by its rules and the policy it was given exactly when the policy of the state permits it, however numbers are read |
| `ImeTheorems.ReachableStates` | src/wayland/ime.c:104-260 | in every reachable state each held key below 1024 is marked forwarded, modifiers are zero without a grab, the grab agrees with the stored wish and the active state, commits carry the count of done events modulo 2^32, and the two surrounding strings are distinct live blocks each freed once |
| `ImeTheorems.ReleaseKeeps` | src/wayland/ime.c:110-120 | releasing a grab leaves held exactly the keys from 1024 up, and no modifier |
| `ImeTheorems.ReleaseLeavesNoKeyHeld` | src/wayland/ime.c:396-399 | when set_grab drops the grab nothing stays held exactly when no key from 1024 up was |
| `ImeTheorems.LargeKeyStaysHeld` | src/wayland/ime.c:169-170 | key 1024 pressed under a grab outlives it |
| `ImeTheorems.ReleaseDuringKey` | src/wayland/ime.c:153-182 | a key whose callback drops the grab leaves nothing below 1024 held |
| `ImeTheorems.ReleasedKeyIsUp` | src/wayland/ime.c:153-182 | a key let go under the grab is up afterwards, whatever its callback did or answered |
| `ImeTheorems.ScriptKeeps` | src/wayland/ime.c:205-217 | callbacks that re-enter the interface keep the invariant, and while a key callback runs the grab is neither taken nor dropped |
| `ImeTheorems.StaleGrabIgnored` | src/wayland/ime.c:153-194 | key and modifier events of a released grab change nothing, ever after |
| `ImeTheorems.GrabIsTransparent` | src/wayland/ime.c:153-182 | with a callback that consumes nothing the compositor sees exactly the keys the user holds |
| `ImeTheorems.ConsumedPairIsSilent` | src/wayland/ime.c:171-179 | a consumed press and its release leave the state as it was |
| `ImeTheorems.CurrentIsLastDone` | src/wayland/ime.c:219-260 | the current state is the fold of the events up to the last done, the pending state that of all events |
| `ImeTheorems.StepKeeps` | src/wayland/ime.c:104-260 | every event and call keeps the invariant, and a grab that is over stays over |
| `ImeTheorems.RunKeeps` | src/wayland/ime.c:104-260 | the same over whole runs |
| `ImeIntent.GrabFollowsLastRequest` | src/wayland/ime.c:205-217 | over every run the keyboard is grabbed exactly when the last set_grab, in the order of the calls and callbacks, asked for it and the committed state is active |
| `ImeIntent.OthersSee` | src/wayland/ime.c:396-436 | over every run the text field holds the edits asked for while active and nothing else, the compositor serves exactly the grab the client has, the keyboard has a keymap exactly after a keymap event, and the serial counts the done events |
| `ImeIntent.PreeditSeen` | src/wayland/ime.c:419-426 | a preedit is shown with its cursor, an empty one clears it, and the text around is kept |
| `ImeIntent.ReplaceSeen` | src/wayland/ime.c:428-436 | a replace deletes what it says around the cursor and inserts its text there |
| `ImeIntent.ForwardedKeyIsSeen` | src/wayland/ime.c:401-405 | a forwarded key is held, or let go, at the compositor, and no other key changes |
| `ImeIntent.ModifiersArePassedOn` | src/wayland/ime.c:184-194 | modifiers of the current grab are passed on as they are, those of another grab never |
| `ImeIntent.ModifiersFollowGrab` | src/wayland/ime.c:110-217 | over every run the compositor has the modifiers last passed on, or none once the grab was released |
| `ImeClient.Client.constructor` | src/wayland/ime.c:48-55 | the statics start as the initial state |
| `ImeClient.Client.Forward` | src/wayland/ime.c:401-405 | forward_key as specified |
| `ImeClient.Client.ReleaseKeys` | src/wayland/ime.c:110-120 | the clearing loop over the array releases the marked keys in order |
| `ImeClient.Client.Update` | src/wayland/ime.c:205-217 | update_grab as specified |
| `ImeClient.Client.OnGrabKey` | src/wayland/ime.c:153-182 | grab_key around an arbitrary callback |
| `ImeClient.Client.OnGrabModifiers` | src/wayland/ime.c:184-194 | grab_modifiers as specified |
| `ImeClient.Client.OnActivate` | src/wayland/ime.c:219-223 | the pending string is freed and the pending state reset |
| `ImeClient.Client.OnSurroundingText` | src/wayland/ime.c:230-236 | the pending string is replaced by a copy |
| `ImeClient.Client.OnDone` | src/wayland/ime.c:249-260 | struct copy, then a fresh string, then the grab, then the callback |
| `ImeClient.Client.ShowPreedit` | src/wayland/ime.c:419-426 | an optional preedit and a commit with the current serial, only while active |
| `ImeClient.Client.Replace` | src/wayland/ime.c:428-436 | optional deletion and text and a commit, only while active |
| `PreviewTheorems.AcquireKeeps` | src/wayland/wayland_integration.c:446-481 | acquiring leaves slots in use alone and returns a slot of the wanted geometry that nobody holds; with memory it fails only when all 24 are busy |
| `PreviewTheorems.TrimKeeps` | src/wayland/wayland_integration.c:490-500 | trimming empties every idle slot and touches none in use |
| `PreviewTheorems.StepKeeps` | src/wayland/wayland_integration.c:531-718 | every step but the cancelling of a dead token keeps the ownership and conservation invariant; while tokens are live it leaves a dead one exactly when a cancellable capture is starved |
| `PreviewTheorems.RunsAreGood` | src/wayland/wayland_integration.c:446-718 | the invariant over every run in which no cancellable capture is starved |
| `PreviewTheorems.SafeExactly` | src/wayland/wayland_integration.c:446-718 | a run touches only memory it owns exactly when it cancels no dead token, and then the invariant holds |
| `PreviewTheorems.FedCancelsLive` | src/wayland/wayland_integration.c:551-591 | runs in which no cancellable capture is starved cancel no dead token |
| `PreviewTheorems.OwnershipHolds` | src/wayland/wayland_integration.c:446-718 | over every run that cancels no dead token each slot in use belongs to exactly one request, no two requests share a buffer, nothing freed is touched and no buffer is destroyed twice |
| `PreviewTheorems.BuffersConserved` | src/wayland/wayland_integration.c:446-530 | live buffers number the filled slots, at most 24, plus the one-shot buffers in flight |
| `PreviewTheorems.TrimLeavesNothing` | src/wayland/wayland_integration.c:487-500 | once all captures have ended, a trim leaves no buffer |
| `PreviewTheorems.OverCounts` | src/wayland/wayland_integration.c:597-718 | in the history of a finished capture the notifier, the frame release and the request release each occur exactly as often as they should |
| `PreviewTheorems.OverOrder` | src/wayland/wayland_integration.c:597-718 | the callback comes first in every history, and for a non-cancellable capture it does come |
| `PreviewTheorems.NotifiedExactlyOnce` | src/wayland/wayland_integration.c:531-718 | for every capture of every run that cancels no dead token: notifier exactly once and after any callback, callback at most once and never after cancel, frame and request released exactly once |
| `PreviewOutcome.MadeAsAsked` | src/wayland/wayland_integration.c:635-696 | captures are numbered in order and are what was asked for |
| `PreviewOutcome.CalledBackExactly` | src/wayland/wayland_integration.c:531-696 | over every run that cancels no dead token a callback is told of a picture exactly when a ready event comes for its capture, and of none exactly when that is refused, starved or fails |
| `PreviewOutcome.PictureMeansReady` | src/wayland/wayland_integration.c:597-612 | a capture is answered with a picture exactly when a ready event for it is among the events |
| `PreviewOutcome.AcquireChooses` | src/wayland/wayland_integration.c:446-481 | a matching idle buffer is used again as it is; failing that an idle slot gets a new buffer in place of its old one; when every slot is busy, or there is no memory, there is none |
| `PreviewTheorems.StarvedTokenDangles` | src/wayland/wayland_integration.c:551-591 | cancelling the token of a starved capture touches a freed request |
| `PreviewTheorems.StarvedTokenReached` | src/wayland/wayland_integration.c:551-591 | a run of three events that touches a freed request, for every frame geometry |
| `PreviewPool.Previews.AcquireBuffer` | src/wayland/wayland_integration.c:446-481 | the two scanning loops acquire as specified |
| `PreviewPool.Previews.TrimPool` | src/wayland/wayland_integration.c:490-500 | the trimming loop as specified |
| `PreviewPool.Previews.FreeRequestBuffer` | src/wayland/wayland_integration.c:518-530 | recycle a pooled buffer, destroy a one-shot buffer |
| `PreviewPool.Previews.HandleBuffer` | src/wayland/wayland_integration.c:531-595 | pool first, then one-shot, then failure |
| `PreviewPool.Previews.HandleEnd` | src/wayland/wayland_integration.c:597-628 | both terminal events, in the program's order |
| `PreviewPool.Previews.CapturePreview` | src/wayland/wayland_integration.c:635-696 | both entry points, refusals included |
| `PreviewPool.Previews.CancelCapture` | src/wayland/wayland_integration.c:697-718 | cancel before and after completion, and of a token whose request is gone |
| `CrashNames.PadOrder` | src/services/crash-handler/main.c:482-482 | among numbers printed with equal width, byte order is numeric order, whatever follows |
| `CrashNames.NamesInTimeOrder` | src/services/crash-handler/main.c:481-482 | below 10^10 seconds byte order of file names is time order |
| `CrashNames.TimeOrderEnds` | src/services/crash-handler/main.c:482-482 | at 10^10 seconds the newer name sorts first |
| `CrashNames.TimeOrderExactly` | src/services/crash-handler/main.c:481-482 | all times up to T are in name order exactly when T is below 10^10 |
| `CrashSpool.PrunedIsLast` | src/services/crash-handler/main.c:290-331 | pruning keeps the last names of its kind and every other file |
| `CrashSpool.OwnCoreSurvives` | src/services/crash-handler/main.c:488-490 | a core just written survives its own prune exactly when fewer than MaxCores stored cores have a greater name |
| `CrashSpool.SpoolContents` | src/services/crash-handler/main.c:481-513 | after any history whose names ascend, crashes of one second included, the spool holds the reports held so far and exactly the last MaxCores saved cores |
| `CrashSpool.HeldIsTail` | src/services/crash-handler/main.c:484-513 | the reports held are always the tail of those written, and the last MaxReports when each could be written |
| `CrashSpool.SpoolKeepsNewest` | src/services/crash-handler/main.c:481-513 | from an empty spool, for every history whose names ascend, the directory holds exactly the last MaxReports reports and the last MaxCores saved cores |
| `CrashSpool.NamedCoreExists` | src/services/crash-handler/main.c:485-513 | at every crash of such a history the core its report names exists when the report is written |
| `CrashSpool.CoresAreKeptOnes` | src/services/crash-handler/main.c:485-496 | in whatever order crashes come, a core in the spool belongs to a dumpable process, and there is none while cores are not to be kept |
| `CrashSpool.TimesInOrder` | src/services/crash-handler/main.c:481-482 | strictly increasing times below 10^10 make names ascend |
| `CrashSpool.SameSecondLosesCore` | src/services/crash-handler/main.c:485-513 | processes 999 and 1000 crashing in one second, with one core kept: the second report names a core that its own prune deleted |
| `CrashHandler.SortNames` | src/services/crash-handler/main.c:284-288 | the entries in strict byte order, none lost or added |
| `CrashHandler.Spool.Prune` | src/services/crash-handler/main.c:290-331 | a file survives the collect, sort and delete loops unless it is of the pruned kind and at least keep files of that kind have a greater name |
| `CrashHandler.Spool.DeleteOldest` | src/services/crash-handler/main.c:324-329 | the delete loop removes exactly the first names |
| `CrashHandler.Spool.HandleCrash` | src/services/crash-handler/main.c:481-513 | naming, pruning and writing of one crash |
| `Pixels.PixelInBounds` | src/tools/screenshot/main.c:492-499 | every pixel of an accepted frame lies inside stride times height |
| `Pixels.ColoursAreKept` | src/tools/screenshot/main.c:446-475 | decoding the little-endian bytes of a colour, with the channels in the order of the format's name, gives back red, green and blue, for every format and colour |
| `Pixels.EveryPixelHasItsColour` | src/tools/screenshot/main.c:446-475 | every pixel is the encoding of the colour it decodes to |
| `Pixels.PixelShowsColour` | src/tools/screenshot/main.c:497-499 | where a frame holds the bytes of a colour, its picture shows that colour |
| `Pixels.WrappedRowPassesChecks` | src/tools/screenshot/main.c:484-499 | a frame of 2^30 + 1 pixels in a four-byte mapping passes the checks and is read outside it |
| `Pixels.ReadsFitExactly` | src/tools/screenshot/main.c:484-499 | for accepted whole frames every read is in the mapping exactly when the size of a source row does not wrap |
| `Pixels.WrappedBufferPassesChecks` | src/tools/screenshot/main.c:489-535 | a three-byte frame that is read properly passes the checks and is written outside its four-byte buffer |
| `Pixels.WritesFitExactly` | src/tools/screenshot/main.c:534-538 | every write is in the allocated buffer exactly when the size of a destination row does not wrap |
| `Pixels.WholeCopyIsSafeExactly` | src/tools/screenshot/main.c:477-543 | the copy of a whole accepted frame reads and writes only its own memory exactly when 4 times the width is below 2^32 |
| `Pixels.RegionFitsExactly` | src/tools/screenshot/main.c:493-499 | every pixel a region copy reads is in the mapping exactly when its last one by address is, inverted or not, whether or not rows wrap |
| `Pixels.RegionSafeExactly` | src/tools/screenshot/main.c:477-502 | the copy of a region into its own buffer reads and writes only its own memory exactly when that last pixel is in the mapping and its row size fits 32 bits |
| `Pixels.FrameRowsShow` | src/tools/screenshot/main.c:493-499 | in a frame whose rows do not wrap the rows read are those of its picture |
| `Pixels.ChecksMeanFit` | src/tools/screenshot/main.c:484-490 | what the checks mean: rows and region really fit exactly when the source row, and whenever the destination row, does not wrap |
| `Pixels.ChecksExactly` | src/tools/screenshot/main.c:481-490 | without wrapping the checks ask for exactly this: a mapped frame of a known format whose rows hold their pixels, a region within it, and room for its rows |
| `Pixels.CopyRow` | src/tools/screenshot/main.c:497-499 | the inner loop writes the bytes of the decoded row and nothing else |
| `Pixels.CopiedStep` | src/tools/screenshot/main.c:493-500 | writing the next row keeps earlier rows and every byte outside the rows |
| `Pixels.CopyRows` | src/tools/screenshot/main.c:492-500 | the loops write the decoded rows, or their vertical mirror, one after the other and nothing else, overlapping or not |
| `Pixels.WriteRowsCopies` | src/tools/screenshot/main.c:492-500 | rows that do not overlap are all there afterwards and no other byte has changed |
| `Pixels.CopyRegion` | src/tools/screenshot/main.c:477-502 | accepted exactly when the checks pass; then the copy is exact, otherwise nothing changes; the caller owes the memory |
| `Pixels.CopyOut` | src/tools/screenshot/main.c:533-543 | a region copied into its own buffer: refused exactly by the checks, outside its memory exactly when some read or write is, otherwise the buffer is the decoded region byte for byte |
| `Pixels.WriteFrame` | src/tools/screenshot/main.c:533-543 | every captured frame is refused exactly by the checks, leaves its memory exactly when some read or write does, and otherwise the buffer handed to the PNG writer is the rewritten picture |
| `Pixels.RewrittenShows` | src/tools/screenshot/main.c:446-502 | reading the written buffer back gives the picture, upside down when inverted |
| `Pixels.FlippedMirrors` | src/tools/screenshot/main.c:493-494 | a flipped picture has its rows in reverse order |
| `Pixels.FlipTwice` | src/tools/screenshot/main.c:494-494 | flipping a full frame twice restores it |
| `Composition.SwapKeeps` | src/tools/screenshot/main.c:697-699 | an exchange keeps a stable order and carries the rightmost output along |
| `Composition.BubblePass` | src/tools/screenshot/main.c:696-699 | a pass settles one more place |
| `Composition.SortOutputs` | src/tools/screenshot/main.c:693-699 | the order array is sorted by x and stable on ties |
| `Composition.EveryOutputPlaced` | src/tools/screenshot/main.c:693-699 | every output has a place: the order is a permutation |
| `Composition.ArrangementUnique` | src/tools/screenshot/main.c:693-699 | positions determine the arrangement |
| `Composition.WidthsAddUp` | src/tools/screenshot/main.c:701-705 | in whatever order, the columns taken add up to the total width |
| `Composition.Measure` | src/tools/screenshot/main.c:701-705 | the sum of the widths in 32 bits and the greatest height |
| `Composition.CanvasHoldsAllExactly` | src/tools/screenshot/main.c:707-708 | the canvas has room for all columns exactly when 4 times their number is below 2^32 |
| `Composition.WrappedCanvasPassesChecks` | src/tools/screenshot/main.c:707-721 | otherwise five outputs of 2^28 pixels pass every check and the last is painted outside the canvas |
| `Composition.OutsideColumns` | src/tools/screenshot/main.c:720-721 | a byte outside a frame's columns, or below it, is in none of the copied rows |
| `Composition.PaintStep` | src/tools/screenshot/main.c:716-728 | painting a frame shows it in its columns, keeps columns to the left and leaves the rest blank |
| `Composition.PaintedStep` | src/tools/screenshot/main.c:716-728 | frames painted earlier are still shown |
| `Composition.NextPainted` | src/tools/screenshot/main.c:716-728 | a frame copied to the next free columns is painted, and those before it still are |
| `Composition.PaintFrame` | src/tools/screenshot/main.c:718-726 | one copy into the canvas: refused exactly by the checks, outside exactly when a row leaves the mapping or the canvas, otherwise exact |
| `Composition.PaintAll` | src/tools/screenshot/main.c:715-728 | the loop ends as the first frame decides that fails the checks or leaves its memory; on a canvas with room for all columns every frame is then shown in its own adjacent columns |
| `Composition.FateExactly` | src/tools/screenshot/main.c:715-728 | painting is refused or goes astray exactly when the first frame that does not pass is refused or painted outside at its 32-bit column, and succeeds exactly when there is none |
| `Composition.RoomyFate` | src/tools/screenshot/main.c:707-728 | on a canvas with room for all columns nothing goes astray and painting succeeds exactly when every frame passes the checks |
| `Composition.ComposeAll` | src/tools/screenshot/main.c:693-728 | sort, measure and paint for any frames, ending as the first frame decides that does not pass: when the row size fits 32 bits, refused exactly when some frame fails the checks, otherwise each canvas pixel inside a range is that frame's decoded pixel and everything below a shorter frame is zero |
| `Regions.CropIsIntersection` | src/tools/screenshot/main.c:651-658 | along an axis, for any 32-bit start and frame and any length, the crop is the part of the region on the frame exactly when the region is not moved and its end is seen by the clip test, or what is left of a longer one reaches the end of the frame |
| `Regions.CropFits` | src/tools/screenshot/main.c:657-659 | a crop that is not empty passes the region check exactly when the clip test sees the region's end |
| `Regions.ChooseOutput` | src/tools/screenshot/main.c:612-623 | the first output that holds the corner, or the first of all when none does |
| `Regions.ScaleIsRatio` | src/tools/screenshot/main.c:648-650 | a frame k times as wide as the output is logically has scale k |
| `Regions.ExtentIsLogical` | src/tools/screenshot/main.c:612-623 | the extent of an output is its logical size, also when only the mode and the scale are known |
| `Regions.HoldsWhatItsFrameShows` | src/tools/screenshot/main.c:612-652 | an output holds a corner exactly when the scaled corner lies on a frame k times its logical size |
| `Regions.ChosenRegionIsCut` | src/tools/screenshot/main.c:612-658 | on each axis the region is cut exactly by that condition; when some output holds its corner it is not moved |
| `Regions.FallbackMovesRegion` | src/tools/screenshot/main.c:612-658 | a region ten pixels left of the only output is taken from it and moved |
| `Regions.WideRegionIsRefused` | src/tools/screenshot/main.c:655-658 | a region of 2147483647 columns at scale 2, whose corner the output holds, is left unclipped and fails the region check |
| `Regions.WrappedRegionIsCutShort` | src/tools/screenshot/main.c:655-658 | of 1431655766 columns at scale 3 two are taken |
| `Regions.CropFrame` | src/tools/screenshot/main.c:648-671 | the pixels handed on are those of the crop; refused exactly when it is empty or fails the checks, outside its memory exactly when some read or write is |
| `Easing.AxisUnit` | src/lockscreen/lock_main.c:343-346 | with control points in [0, 1] the curve stays in [0, 1] |
| `Easing.AxisMirror` | src/lockscreen/lock_main.c:343-346 | walking the curve backwards turns it upside down |
| `Easing.AxisLipschitz` | src/lockscreen/lock_main.c:343-346 | the curve changes at most three times as fast as its parameter |
| `Easing.AxisIsBezier` | src/lockscreen/lock_main.c:343-346 | the polynomial is the Bezier curve of its control points, by repeated interpolation |
| `Easing.NarrowBracket` | src/lockscreen/lock_main.c:352-357 | a bracket under 2^-31 pins the curve to within 1e-6 |
| `Easing.Ease` | src/lockscreen/lock_main.c:348-359 | on every exit the y coordinate at a parameter whose x coordinate is within 1e-6 of x, inside [0, 1], 0 and 1 outside the range |
| `Easing.EaseStandard` | src/lockscreen/lock_main.c:361-363 | the same for the curve that is used |
| `LockTheorems.UnlockNeedsAuthentication` | src/lockscreen/lock_main.c:522-581 | in every run each unlock request is preceded by a PAM success or a fingerprint match |
| `LockUnlock.StepCounts` | src/lockscreen/lock_main.c:417-581 | an event sends an unlock request exactly when it is a leaving frame whose time is over, the removal of the last configured output while leaving, or an authentication without a configured output; the program stops exactly then or when the compositor is finished with the lock |
| `LockUnlock.UnlocksAreCounted` | src/lockscreen/lock_main.c:417-742 | a run sends as many unlock requests as it has such events, at most one while the program runs, and goes on exactly until one of them or until the compositor is finished |
| `LockUnlock.TwoUnlocks` | src/lockscreen/lock_main.c:529-536 | typing and a granted Enter, twice, without a configured output sends two |
| `LockTheorems.LeavingIsNotStranded` | src/lockscreen/lock_main.c:388-541 | while leaving and still running some output is configured, and a configured output has a frame callback pending exactly when its last paint found a buffer |
| `LockTheorems.RunFeeds` | src/lockscreen/lock_main.c:431-435 | in a run whose paints all find buffers no output is ever left without one |
| `LockTheorems.LeavingKeepsCallbacks` | src/lockscreen/lock_main.c:388-541 | in such a run, while leaving and still running, some output is configured and every configured output has a frame callback pending, across hotplug, configure and repaint events |
| `LockTheorems.LeavingCompletes` | src/lockscreen/lock_main.c:417-428 | once the time is over at most two frames on an output unlock the session |
| `LockPassword.SubmitsWhatWasTyped` | src/lockscreen/lock_main.c:558-647 | after every sequence of events with any paints between, the field holds the text of the keys since it was last submitted, at most 1022 bytes, and the questions to PAM and the authentications are exactly those the keys and fingerprints give rise to, in order |
| `LockPassword.EnterSubmits` | src/lockscreen/lock_main.c:558-581 | one Enter in any state: the field is submitted as it stands and empty afterwards, and without PAM's consent the session neither leaves nor stops |
| `LockTheorems.StepKeeps` | src/lockscreen/lock_main.c:388-742 | every event, hotplug included, keeps the invariant |
| `LockTheorems.RunKeeps` | src/lockscreen/lock_main.c:388-742 | the invariant over every run |
| `LockPhases.EveryOutputIsLocked` | src/lockscreen/lock_main.c:500-742 | over every run the outputs are those plugged in and not removed, newest first, and each has a lock surface exactly when the lock has been confirmed |
| `LockPhases.MovingKeepsCallbacks` | src/lockscreen/lock_main.c:388-495 | in runs whose paints find buffers, while the screen enters, leaves or shakes every configured output has a frame callback pending |
| `LockPhases.EnterEndsIdle` | src/lockscreen/lock_main.c:393-409 | the enter phase ends idle with the first frame painted after its time, and a screen at rest asks for no more frames |
| `LockPhases.PaintOutcome` | src/lockscreen/lock_main.c:388-485 | the shake ends with the first output painted after it has died down, and the clock of the leave phase starts with the first output painted |
| `LockPhases.RepaintReachesAll` | src/lockscreen/lock_main.c:431-435 | a repaint tries every configured output that waits for no frame, and fails exactly where there is no buffer |
| `LockPhases.LeavingRestartsClock` | src/lockscreen/lock_main.c:529-541 | leaving begins with a new clock, which runs exactly when some output was painted |
| `LockPhases.RefusalShakes` | src/lockscreen/lock_main.c:574-579 | after a refused password the card shakes exactly when motion is not reduced, or it still shook, and no paint has found the shake over |
| `LockPhases.ShakesAfterRefusal` | src/lockscreen/lock_main.c:574-579 | over every run a card that shakes was refused a password, and motion is not reduced |
| `LockScreen.Screen.ApplyMotion` | src/lockscreen/lock_main.c:388-415 | the phase, clock and shake part of apply_motion |
| `LockScreen.Screen.RenderOutput` | src/lockscreen/lock_main.c:431-485 | the frame callback part of render_output |
| `LockScreen.Screen.RenderEvery` | src/lockscreen/lock_main.c:103-106 | the loop over configured outputs |
| `LockScreen.Screen.Leaving` | src/lockscreen/lock_main.c:529-541 | begin_leave: unlock at once without outputs, else start the phase and repaint |
| `LockScreen.Screen.OnFrame` | src/lockscreen/lock_main.c:417-428 | frame_done as specified |
| `LockScreen.Screen.OnConfigure` | src/lockscreen/lock_main.c:489-495 | a configured output is repainted |
| `LockScreen.Screen.OnRemove` | src/lockscreen/lock_main.c:721-742 | removal of an output, unlocking when the last configured one goes while leaving |
| `LockScreen.Screen.SubmitPassword` | src/lockscreen/lock_main.c:558-581 | the whole buffer is zero afterwards whatever PAM answered |
| `LockScreen.Screen.OnKey` | src/lockscreen/lock_main.c:605-647 | editing the fixed buffer in place |

## Left out

- xkbcommon: a keymap is a function from keycode and mask to text, assumed to select a level by that level's own mask; the generated symbol `Uhhhh` is assumed to name its code point, control characters included.
- `TypingExact.TextArrivesExactly`: rests on a key entering at most one character; a level with several symbols, and a mask no level of the key lists, enter nothing in the model.
- Key event times, flushes, round trips, registry binding and proxies of every Wayland client.
- `im_unavailable`, a restart of the input method, the popup and pointer handling of `src/wayland/ime.c`.
- Key text and symbol computed for the input-method callback; the callback is an arbitrary list of interface calls and an arbitrary answer.
- Second buffer events for one preview frame, tokens cancelled twice, and cancelling from a capture's own callback; the notifier and callback bodies.
- Preview requests are entries of a map rather than heap objects, and a wl_buffer stands for itself and its mapping; that the pixels handed to a callback are those of the capture's buffer, still unrecycled, is not modelled.
- A state file that exists but cannot be read, temporary files, option parsing and running nft; how it reads numbers is a parameter.
- `FirewallNft` models the part of nft the helper speaks: tables, chains with one hook, rules of one test and a verdict; a text is taken whole or not at all. Rules of other tables, sets, maps and counters are not modelled.
- Strings of the firewall helper are sequences of characters standing for bytes; growing the output buffer is plain concatenation.
- Negative crash times, config parsing, the chunked copy in `write_core`, report text, permissions, and a failing `realloc` or `unlinkat` in `prune`.
- `CrashHandler.ReadDirectory` and `CrashHandler.SortNames`: directory order is arbitrary and `qsort` is modelled by an insertion sort with the same result.
- `Pixels` takes a mapping to be stride times height bytes long and not empty, as it is mapped; after a copy has left its memory nothing more is said. The frame negotiation, `shm_format_rank` and `ext_session_shm_format` are not modelled.
- `Pixels.CopyRegion`: leaves memory safety to the caller, as the program does; `Pixels.CopyOut`, `Pixels.WriteFrame` and `Composition.PaintFrame` say exactly when it is lost.
- `Composition.ComposeAll`: says nothing of the picture once the row size of the canvas wraps; the cases of no output and one output, which do not compose, and PNG writing are left out.
- `Regions.CropFrame`: takes signed 32-bit products not to overflow.
- `Easing.Ease`: works over real numbers, so rounding of doubles is not covered.
- Outputs of the lock screen are a sequence rather than a linked list; drawing, media, notifications, `shake_offset`, the PAM and fingerprint back ends, and events dispatched inside the round trip of the unlock.
- BackSpace in the password field removes one byte, as in the code; text encoding is not modelled.
- Gamma ramps, colour temperature, head and mode lists, workspaces, the thin protocol wrappers, the parental and power helpers and the Vala components.
