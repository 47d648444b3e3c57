# SCUM shop bot: a Dafny model of its coordination core

The bot runs a coin shop for a SCUM game server from Discord. Players
register a Steam id with `!register`. Administrators credit coins with
`!addcoin`. Pressing a shop button buys an item. The bot then types the
item's spawn commands into the game client's console.

Several pieces share one state:

- the purchase transaction;
- a queue drain that types the queued command batches;
- two scheduled bulk "destroy" runs and their manual buttons, which clean
  up litter items under a destroy lock;
- a maintenance loop that suspends the shop around the server's restarts.

This project models that core as pure state-transition functions over
immutable values and proves what each step promises. The modules follow
the program's files:

| module | file | models |
|---|---|---|
| `Common` | common.dfy | `Option`, substring search (`str::contains`), `Flatten` |
| `Config` | config.dfy | catalogue records, the VIP table, the exempt channel, the destroy lists, the special commands |
| `Utils` | utils.dfy | Steam-id substitution, special-command test, discounted price, `trim`, what typing commands into the game produces |
| `Database` | database.dfy | the `players`, `purchase_logs` and `authorized_users` tables as one `Ledger` value |
| `SharedState` | shared_state.dfy | the active flag, the per-(user, item) cooldowns, the command queue, the destroy lock |
| `Maintenance` | maintenance.dfy | one pass of the restart-suspension loop, as written and corrected |
| `Handlers` | handlers.dfy | catalogue lookup, VIP tier, location rewriting, the purchase transaction, queue drain, bulk destroy, interaction dispatch |
| `MessageCommands` | message_commands.dfy | `!register`, `!addcoin` (mention and amount parsing), button rows of `!updateshop` |

Time is a parameter:

- Cooldown instants are whole milliseconds on a monotonic clock.
- Maintenance times are seconds of the day, in [0, 86400).

The shop, the queue drain and the bulk-destroy runs send through
`send_commands_to_game`. For these sends, whether the game window was
found is a boolean parameter, and the send is modelled as the list of
lines it types. Each line is followed by an Enter press; the key events
and delays themselves are not modelled. The maintenance loop's two
announcements are modelled differently: each is an `Announce` action,
recorded whether or not the window is there.

## Model

| member | source | states |
|---|---|---|
| Common.Contains | utils.rs:76-78 | the scan answers true exactly when the pattern is a contiguous substring (the empty pattern always is) |
| Config.ButtonQuantity | config.rs:18-22 | an absent `quantity` reads as 1, a present one as given |
| Config.DecodeButton | config.rs:14-22 | a decoded button keeps its text, trigger and commands, and its quantity is 1 when absent and as written otherwise |
| Config.DestroyItems | config.rs:88-173 | a destroy entry is as long as the game command, the target and the radius with a space between each |
| Config.DestroyItemsShape | config.rs:88-173 | each destroy entry starts with `#DestroyAllItemsWithinRadius` and ends in the last digit of its radius |
| Config.Load | config.rs:78-177 | the loaded configuration carries the parsed catalogue unchanged, the four VIP roles, exempt channel 1381383699320537209, the two destroy lists and the two special commands as shipped |
| Config.VipTableShape | config.rs:78-82 | four VIP roles whose tiers are exactly 1 to 4, one each |
| Config.VipDiscountsOrdered | config.rs:78-82 | a higher tier never has a smaller discount, and no discount reaches 100% |
| Config.VipDiscountPercents | config.rs:78-82 | the table's discount percents are 0, 30, 50 and 60 for tiers 1 to 4 |
| Config.DestroyListType1WellFormed | config.rs:88-127 | the clothes list is non-empty and every entry is a destroy command |
| Config.DestroyListType2WellFormed | config.rs:128-173 | the materials list is non-empty and every entry is a destroy command |
| Utils.ReplaceAll | utils.rs:72 | replacing by a string as long as the pattern keeps the length |
| Utils.ReplaceWithoutPattern | utils.rs:72 | a string without the pattern comes back unchanged |
| Utils.ReplaceLeftmost | utils.rs:72 | when the leftmost occurrence starts at `k`, the text before it is copied verbatim, the occurrence becomes the replacement, and the scan resumes after it |
| Utils.ReplaceLeavesNoPattern | utils.rs:72 | with a non-empty replacement sharing no character with the pattern, no occurrence of the pattern survives |
| Utils.SubstituteSteamId | utils.rs:70-74 | one output per template, in order, each with every `{steam_id}` replaced; templates without the placeholder pass through unchanged |
| Utils.SubstitutedHasNoPlaceholder | utils.rs:70-74 | with a non-empty Steam id sharing no character with `{steam_id}`, no output still contains the placeholder |
| Utils.IsSpecialCommand | utils.rs:76-78 | true exactly when some special command occurs as a substring of the command |
| Utils.CalculateDiscountedPrice | utils.rs:80-90 | original = price × quantity; the discounted total is the floor of original × (100 − percent) / 100, 0 from 100% on, never above the original |
| Utils.NoDiscountChargesOriginal | utils.rs:85-86 | with no discount the full total is charged |
| Utils.DiscountAntitone | utils.rs:86 | a larger discount never gives a larger price |
| Utils.PriceExample | utils.rs:80-90 | 2 × 100 coins at 30% off cost 140 out of 200 |
| Utils.Trim | utils.rs:50 | the result has no whitespace at either end and is no longer than the input |
| Utils.TrimIsSliceBetweenWhitespace | utils.rs:50 | the trimmed string is a slice of the input with only whitespace before and after it |
| Utils.TrimUnique | utils.rs:50 | any slice with no whitespace at its ends and only whitespace around it is the trimmed string, so trimming removes the end whitespace and nothing else |
| Utils.TrimEmptyIffBlank | utils.rs:50-54 | a command trims to nothing exactly when it is all whitespace (the skip condition) |
| Utils.TrimOfTrimmed | utils.rs:50 | trimming is the identity on a string with no whitespace at its ends |
| Utils.TypedLine | utils.rs:50-54 | a blank command types nothing; any other command types one line, its trimmed text |
| Utils.TypedLines | utils.rs:49-66 | every typed line is non-empty with no whitespace at either end, and there are no more lines than commands |
| Utils.TypedLinesAreTrimmedNonBlank | utils.rs:49-66 | the typed lines are exactly the non-blank commands, each trimmed, in input order |
| Utils.SendCommandsToGame | utils.rs:32-39 | nothing is typed when the window is not found; otherwise the typed lines of the commands |
| Utils.TypedLinesAppend | utils.rs:49-66 | typing two lists is typing their concatenation |
| Utils.TypedLinesOfClean | utils.rs:49-66 | commands that are non-empty and trimmed are typed exactly as given, in order |
| Utils.SendCleanCommands | utils.rs:32-66 | such commands reach the game exactly as written when the window is found, and not at all otherwise |
| Utils.TypedLineSkipsBlank | utils.rs:51-54 | a blank command types nothing |
| Utils.Pacing | utils.rs:41-44 | destroy batches type at 5 ms per character, others at 3 ms; 3 ms after Enter for both |
| Database.GetPlayerByDiscordId | database.rs:62-77 | some row exactly when the Discord id is registered, and that row |
| Database.AddOrUpdatePlayer | database.rs:79-90 | succeeds exactly when no other player holds the Steam id; then an upsert of (Steam id, coin) on the Discord id; otherwise nothing changes |
| Database.AddOrUpdatePreservesUniqueness | database.rs:26-35 | the upsert keeps Steam ids unique across players |
| Database.UpdateCoin | database.rs:92-99 | sets only that player's balance; an unknown id changes nothing; no player appears or disappears |
| Database.RemoveCoin | database.rs:101-112 | succeeds exactly when the player exists and the balance covers the amount; then that balance falls by the amount; a refusal changes nothing |
| Database.RemoveCoinSpec | database.rs:101-112 | succeeds exactly for a registered player whose balance covers the amount; then lowers only that balance by the amount; otherwise nothing changes |
| Database.RemoveCoinPreservesInvariants | database.rs:101-112 | a non-negative debit keeps all balances non-negative and Steam ids unique |
| Database.LogPurchase | database.rs:114-121 | the log grows by exactly the new record at its end; players and authorised users are untouched |
| Database.IsAuthorized | database.rs:123-131 | a user is authorised exactly when adding them again would change nothing |
| Database.AddAuthorizedUser | database.rs:133-140 | the user is authorised afterwards and only the authorised set changes |
| Database.AddAuthorizedUserSpec | database.rs:123-140 | afterwards exactly the added user and the previously authorised users are authorised; adding twice equals adding once |
| SharedState.New | shared_state.rs:18-27 | a new state is active, unlocked, with no cooldowns and an empty queue |
| SharedState.IsBotActive | shared_state.rs:29-31 | the flag reads true exactly when setting it would change nothing |
| SharedState.SetBotActive | shared_state.rs:33-35 | the flag reads back the value written; the ledger, lock, cooldowns and queue are untouched |
| SharedState.SetThenIsActive | shared_state.rs:29-35 | reading the flag gives the last value written; writing the current value changes nothing |
| SharedState.Elapsed | shared_state.rs:40 | elapsed time is `now − since`, and zero for an instant in the future |
| SharedState.CheckCooldown | shared_state.rs:37-46 | some remaining time, in (0, 20 s], exactly when the key was used less than 20 s ago; none for an unknown key |
| SharedState.CooldownAfterSet | shared_state.rs:37-51 | `d` ms after `set_cooldown` the check reports `20 s − d` while `d < 20 s` and nothing from then on |
| SharedState.CooldownStrictlyDecreasing | shared_state.rs:37-46 | the remaining time strictly shrinks as the clock advances |
| SharedState.SetCooldown | shared_state.rs:48-51 | the key's last use becomes now; every other key keeps its entry, or its absence; nothing else changes |
| SharedState.SetCooldownFrame | shared_state.rs:48-51 | setting one key's cooldown leaves every other key's answer unchanged |
| SharedState.PushBatch | handlers.rs:364-367 | the queue grows by that batch at its end; nothing else changes |
| SharedState.DrainQueue | handlers.rs:414-420 | the drain returns the whole queue and leaves it empty |
| SharedState.DrainAfterPushesIsFifo | handlers.rs:364-367 | after a series of pushes, a drain returns the waiting batches followed by the pushed ones in push order |
| SharedState.AcquireDestroyLock | handlers.rs:246 | the lock is unavailable exactly while it is held; acquiring it changes only the lock |
| SharedState.ReleaseDestroyLock | handlers.rs:432-454 | once the guard is dropped the lock can be taken again; nothing else changes |
| SharedState.AcquireReleaseRoundTrip | handlers.rs:434 | taking and dropping a free lock restores the state |
| Maintenance.FirstLaterIndex | maintenance.rs:35-41 | the index of the first entry in list order later than now, or −1 exactly when none is later |
| Maintenance.NextInListOrder | maintenance.rs:35-55 | when some entry is later than now, the first later entry in list order; otherwise the first entry of the table |
| Maintenance.AddOneDay | maintenance.rs:63 | adding a day to a time of day gives back the same time |
| Maintenance.DurationAsWritten | maintenance.rs:60-70 | positive and under a day when the target is later, never positive otherwise |
| Maintenance.AsU64 | maintenance.rs:73 | the cast result is congruent to the count modulo 2^64 and equal to it when non-negative |
| Maintenance.SuspendWritesFalseThenTrue | maintenance.rs:72-101 | a suspending pass clears the flag, announces the stop, sleeps, sets the flag and announces the resume |
| Maintenance.DecideAsWritten | maintenance.rs:35-70 | the stop and the resume are each chosen in list order, and each duration is the plain difference to now |
| Maintenance.IterationAsWritten | maintenance.rs:72-106 | a suspending pass leaves the flag set after writing false then true; a waiting pass writes nothing and only sleeps |
| Maintenance.NextStopIsAlways2358 | maintenance.rs:11-44 | with the restart table as listed, the chosen stop is 23:58 at every time of day |
| Maintenance.ListOrderSkipsNearerStop | maintenance.rs:11-44 | at 10:00 the loop picks 23:58 although 11:58 is nearer |
| Maintenance.NeverSuspends | maintenance.rs:11-106 | with the shipped tables no pass ever suspends the shop; the flag is never written |
| Maintenance.SingleEntryExampleAsWritten | maintenance.rs:60-73 | stop table [23:58], resume table [00:06], now 23:00: the resume duration is −82440 s and the pass sleeps 2^64 − 82440 s |
| Maintenance.WrappedDuration | maintenance.rs:60-70 | the intended duration: in (0, 1 day] and landing exactly on the target time of day |
| Maintenance.NextEarliest | maintenance.rs:35-55 | the intended selection: a table entry whose wrapped distance from now is minimal |
| Maintenance.DecideCorrected | maintenance.rs:35-70 | chosen times come from the tables, both durations in (0, 1 day] and minimal over their tables |
| Maintenance.IterationCorrected | maintenance.rs:72-106 | a corrected pass ends with the flag set after false then true, or waits without writing it; every sleep is in (0, 1 day] |
| Maintenance.CorrectedSuspendsIffStopIsSooner | maintenance.rs:72 | a corrected pass suspends exactly when some stop comes round sooner than every resume |
| Maintenance.CorrectedSuspendsBeforeNoon | maintenance.rs:11-106 | with the shipped tables the corrected loop does suspend at 10:00 for the 11:58 restart |
| Maintenance.SingleEntryExampleCorrected | maintenance.rs:60-101 | the single-entry example corrected: resume in 3960 s, the pass suspends, sleeps 3480 s, then 480 s |
| Handlers.FirstMatch | handlers.rs:289-302 | none exactly when no entry has the trigger; otherwise the first entry that has it |
| Handlers.FirstMatchAppend | handlers.rs:289-302 | a search over `a + b` finds in `a` first and only then in `b` |
| Handlers.FindButton | handlers.rs:289-308 | the nested loops find the first button carrying the trigger in shop, item, button order |
| Handlers.VipTier | handlers.rs:395-407 | none exactly when no role is a VIP role; otherwise a maximal tier among the roles, the first one met on ties |
| Handlers.DiscountPercent | handlers.rs:335-336 | 0 without a VIP role; otherwise the discount of a held VIP role whose tier no other held role exceeds |
| Handlers.ShippedDiscountIsLargestHeld | handlers.rs:335-336 | with the shipped table the discount is the largest among the VIP roles held, and 0 exactly when every VIP role held gives 0% |
| Handlers.Announcement | handlers.rs:254-263 | an announcement line is `#Announce `, the text and `!`, and has no whitespace at its ends |
| Handlers.StartAnnouncement | handlers.rs:254-257 | the line typed before a run is an announcement ending in the notice that the bot is paused (handlers.rs:439 and 468 for the scheduled runs) |
| Handlers.EndAnnouncement | handlers.rs:260-263 | the line typed after a run is an announcement ending in the notice that the bot can be used again (handlers.rs:451 and 480 for the scheduled runs) |
| Handlers.StartIsNeverEnd | handlers.rs:254-263 | no run's start line is any run's end line |
| Handlers.DiamondAlwaysWins | handlers.rs:395-407 | with the shipped table a Diamond member gets 60% whatever other roles they hold, in any order |
| Handlers.NoVipNoDiscount | handlers.rs:335-336 | a member without a VIP role pays full price |
| Handlers.PriceFor | handlers.rs:335-338 | with the member's discount `p` up to 100%, the price is the floor of price × quantity × (100 − p) / 100; 0 from 100% on; the full total without a VIP role |
| Handlers.RewriteCommand | handlers.rs:358-362 | special commands and commands already naming `Location` are kept; others get ` Location <steam id>` appended |
| Handlers.RewrittenIsLocated | handlers.rs:358-362 | a rewritten command is special or names `Location` |
| Handlers.RewriteLocation | handlers.rs:358-362 | the batch is rewritten command by command, same length and order |
| Handlers.RewriteLocationSpec | handlers.rs:358-362 | after rewriting every command is located, and rewriting again changes nothing |
| Handlers.PurchaseBatch | handlers.rs:356-362 | the queued batch is each button command with the Steam id substituted, then located |
| Handlers.ShopInteraction | handlers.rs:277-393 | every rejected purchase leaves the state unchanged; the lock and the active flag are never changed |
| Handlers.PurchaseIffAccepted | handlers.rs:277-354 | a purchase goes through exactly when the lock is free, the button exists, the buyer is registered, no cooldown applies and the balance covers the price; the debit never fails |
| Handlers.RejectionReasons | handlers.rs:277-346 | busy exactly when locked; ignored exactly for an unknown button; not registered exactly for an unknown buyer; the cooldown and balance rejections report the true remaining time and balance |
| Handlers.PurchaseEffects | handlers.rs:340-373 | a purchase lowers only the buyer's balance by the price, queues the batch, logs one record, starts the cooldown outside the exempt channel, and changes nothing else |
| Handlers.PurchaseKeepsBalancesNonNegative | handlers.rs:340-354 | no purchase drives a balance below zero |
| Handlers.RunPurchases | handlers.rs:277-393 | one outcome per request; purchases never change the active flag or the lock; while the lock is held every request is refused as busy and nothing changes |
| Handlers.RunPurchasesBalances | handlers.rs:277-393 | over any series of purchases each balance falls by exactly what that player paid; no player appears or disappears |
| Handlers.RunPurchasesLogAndQueue | handlers.rs:364-369 | over any series of purchases the log and the queue each grow by one entry per purchase and keep their earlier entries |
| Handlers.RunPurchasesKeepsBalancesNonNegative | handlers.rs:340-354 | no series of purchases drives a balance below zero |
| Handlers.FoundBatches | handlers.rs:422-426 | with every window lookup successful, all the batches; with none, no batch |
| Handlers.SendBatches | handlers.rs:422-426 | the batches whose own window lookup succeeded are typed one after another, in queue order; the others are dropped |
| Handlers.DroppedBatchIsLost | handlers.rs:422-426 | of two batches, only the one whose window lookup succeeded is typed |
| Handlers.ProcessQueueTick | handlers.rs:410-428 | one drain tick empties the queue and types the waiting commands in order, skipping the batches whose window lookup failed |
| Handlers.ScheduleInterval | handlers.rs:430-486 | the clothes run repeats every 1800 s and the materials run every 7200 s |
| Handlers.BulkBatch | handlers.rs:248-252 | clothes runs type the type-1 list and materials runs the type-2 list |
| Handlers.BulkLinesSpec | handlers.rs:266-269 | with the window found a run types the start line, the list in order and the end line; without it, nothing |
| Handlers.BulkDestroy | handlers.rs:243-275 | a run waits exactly while the lock is held; otherwise it holds the lock while typing and afterwards restores the state |
| Handlers.DestroyCommandsClean | handlers.rs:266-269 | a list of destroy commands is typed exactly as written |
| Handlers.DestroyListType1Clean | handlers.rs:445-448 | the shipped clothes list is typed exactly as written |
| Handlers.DestroyListType2Clean | handlers.rs:474-477 | the shipped materials list is typed exactly as written |
| Handlers.BulkDestroyTrace | handlers.rs:430-457 | a run over a clean list types the start announcement, the list and the end announcement |
| Handlers.BulkDestroyWithoutWindow | handlers.rs:243-275 | without the game window a run types nothing yet still takes and drops the lock |
| Handlers.PurchaseDuringBulkIsBusy | handlers.rs:278-287 | while a bulk run holds the lock a purchase is refused as busy and changes nothing |
| Handlers.Interaction | handlers.rs:218-239 | a suspended shop refuses every button and changes nothing; no button changes the active flag |
| Handlers.DestroyButtonsNeverPurchase | handlers.rs:232-235 | the two destroy buttons never buy anything and leave the state as it was |
| Handlers.OtherButtonsPurchase | handlers.rs:237 | every other button of an active shop is exactly the purchase transaction |
| MessageCommands.ChunkIntoRows | handlers.rs:121-139 | the rows concatenate back to the buttons in order; every row has 1 to 5 buttons, all but the last exactly 5; ⌈n / 5⌉ rows |
| MessageCommands.ParseMention | handlers.rs:163-164 | an id exactly for `<@…>` of length at least 3; the id never starts with `!` |
| MessageCommands.MentionRoundTrip | handlers.rs:163-164 | `<@id>` and `<@!id>` both parse back to `id` |
| MessageCommands.MentionShape | handlers.rs:163-164 | a parsed mention is `<@`, some `!`s, the id, then `>` |
| MessageCommands.ParseI32 | handlers.rs:165 | a parsed value lies within the 32-bit range, and the empty string does not parse |
| MessageCommands.ParseI32Spec | handlers.rs:165 | a result is the value of an optionally signed, non-empty run of digits; every such numeral in range parses to its value; anything else, such as `abc`, does not parse |
| MessageCommands.ParseNumeral | handlers.rs:165 | an unsigned or negated decimal numeral within range parses to its value |
| MessageCommands.ParseShowRoundTrip | handlers.rs:165 | every 32-bit integer written in decimal parses back to itself |
| MessageCommands.AddCoin | handlers.rs:158-194 | every reply other than "added" leaves the ledger unchanged |
| MessageCommands.AddCoinEffects | handlers.rs:158-174 | an addition needs an authorised caller, a parsed mention and amount and a registered target; it changes only that balance, by the amount |
| MessageCommands.AddCoinParsed | handlers.rs:158-174 | once mention and amount parse, an authorised `!addcoin` on a registered player adds exactly that amount |
| MessageCommands.AddCoinCredits | handlers.rs:158-174 | `!addcoin <@id> n` with `n` in decimal adds exactly `n` to that player |
| MessageCommands.RegisterAsWritten | handlers.rs:61-78 | the reply always says "registered" whatever the upsert did |
| MessageCommands.RegisterAsWrittenReportsRefusalAsSuccess | handlers.rs:67-70 | a Steam id held by alice, claimed by bob: the reply says registered while the ledger did not change |
| MessageCommands.Register | handlers.rs:61-78 | the corrected command changes the ledger exactly as the original does |
| MessageCommands.RegisterReportsOutcome | handlers.rs:61-78 | the corrected reply says registered exactly when no other player holds the Steam id; then the caller holds it with 0 coins; a refusal changes nothing |

## Left out

- Discord itself is not modelled: serenity events, replies, deferrals, embeds, DMs and deleting messages. The model returns outcome values instead of replies.
- The Win32 calls are not modelled: window lookup, `PostMessageW` and the key events. Whether the window was found is a parameter: one flag per batch in the queue drain.
- Sleeps, the tokio tasks and their interleaving are not modelled. Each operation is one atomic step. Concurrent purchases are modelled as a sequence of steps (`Handlers.RunPurchases`).
- The code itself is not atomic in two places, and the model does not claim otherwise. `remove_coin` reads the balance, then writes it (database.rs:102-107). The queue drain never takes the destroy lock, so queued purchases can be typed in between a bulk run's lines.
- The SQLite engine is not modelled: SQL errors, the `unwrap` panic on a database error (handlers.rs:314) and the `unwrap_or(false)` fallbacks. Every database call succeeds.
- The `unwrap` of the interaction's member (handlers.rs:335) is not modelled. Roles are passed in, and a button pressed outside a guild would panic there.
- The columns `id`, `name`, `welcome`, `whitelist`, `registered_at` and the log timestamp's format are left out. The log's `at` is the caller's clock.
- `Config::load` file I/O and JSON decoding are left out. `Config.Load` takes the decoded catalogue.
- The timezone (Asia/Bangkok) and the wall clock are left out. Maintenance times are given as seconds of the day.
- `!coin`, `!help` and the `!destroy` message (commands.rs) only send messages. commands.rs is not part of this model.
- `!updateshop` is modelled only as its cutting of buttons into rows (`MessageCommands.ChunkIntoRows`).
- `split_whitespace` is not modelled. Commands take their already-split arguments.
- Utils.CalculateDiscountedPrice: the discount is an integer percent, not an `f32` fraction. The `f32` product and its truncating cast are modelled as exact rational arithmetic rounded down. The shipped discounts (0, 30, 50, 60%) are whole percents. The `f32` result can differ in either direction: 5 coins at 60% off is 2 here, while the `f32` product falls just below 2 and truncates to 1. Above 2^24 the `f32` total is itself rounded, so the difference can exceed one: a total of 16777219 at 0% gives 16777220.
- Config.DestroyItems: its own contract gives only the length of the entry. How the entry begins and ends is stated by `Config.DestroyItemsShape`.
- Utils.Trim: its own contract gives only the shape of the result. That it removes the end whitespace and nothing else is stated by `Utils.TrimIsSliceBetweenWhitespace` and `Utils.TrimUnique`.
- Utils.TypedLines: its own contract gives only the shape of the lines. Which lines are typed is stated by `Utils.TypedLinesAreTrimmedNonBlank`.
- MessageCommands.ParseI32: its own contract gives only the range of the result. Which strings parse, and to what, is stated by `MessageCommands.ParseI32Spec`.
- Handlers.ShopInteraction: the `u32` overflow of price × quantity and the `as i32` casts of the price are not modelled. Integers are unbounded.
- MessageCommands.AddCoin: the `i32` overflow of `player.coin += amount` is not modelled. The sum is unbounded.
- MessageCommands.AddCoin: a negative amount is accepted and can make a balance negative, as in the code. Non-negative balances are therefore proved only for purchases.
- Handlers.BulkDestroy: whether the window is found is one flag for the whole run. The code looks the window up for each of its three sends.
- Handlers.Interaction: a destroy button pressed while the lock is held waits in the code until the lock is free. The model reports `AwaitingLock` and leaves the state unchanged.
- Maintenance.IterationAsWritten: it models one pass of the endless loop. `later` is the clock read after the stop sleep. Its two announcements are recorded as `Announce` actions whether or not the game window is found; without the window the code types nothing.
- Maintenance.IterationCorrected: the same holds for its announcements.
- Utils.ReplaceAll: its own contract gives only the length. What it produces is stated by `Utils.ReplaceLeftmost` and `Utils.ReplaceWithoutPattern`.
- Handlers.StartAnnouncement, Handlers.EndAnnouncement: the contracts give the closing notice of each line, not the words before it. The words are the code's, per run kind, in the bodies.

Points of the code that the model keeps as they are:

- A manual destroy button waits for the lock with `lock().await` (handlers.rs:246). It is not refused as busy.
- The shop transaction probes the lock first (handlers.rs:278), before the catalogue, player and cooldown checks.
- On a VIP tier tie the first role met is kept, because the comparison is a strict `>` (handlers.rs:400).
- The restart table is not sorted: 23:58 is listed first (maintenance.rs:12).

## Findings

| source | as written | input that shows it | evidently intended | confidence | as-written member | corrected member |
|---|---|---|---|---|---|---|
| maintenance.rs:60-70 | `(next + Duration::days(1)) - now` on a `NaiveTime` wraps round to `next - now`, so a time not later than now gives a negative duration, which `as u64` wraps to a sleep request just under 2^64 s (2^64 − 82440 s in the example); tokio then falls back to a far-future deadline, so the loop effectively never wakes | stop table [23:58], resume table [00:06], now 23:00: resume duration −82440 s, sleep 2^64 − 82440 s | the time until tomorrow's occurrence, in (0, 1 day] | high, not executed | Maintenance.SingleEntryExampleAsWritten | Maintenance.IterationCorrected |
| maintenance.rs:11-44 | the next stop is the first later entry in list order, and the restart table lists 23:58 first, so 23:58 is always chosen and the resume always looks sooner | shipped tables at 10:00: stop 23:58 (50280 s) against resume 12:06 (7560 s), so the pass waits; no time of day suspends | the nearest restart: at 10:00 the 11:58 restart, suspending the shop | high, not executed | Maintenance.NeverSuspends | Maintenance.CorrectedSuspendsBeforeNoon |
| handlers.rs:67-70 | `Ok(_)` matches `Ok(false)`, so a registration refused by the Steam id constraint is reported as a success | alice holds Steam id 765; bob sends `!register 765`: reply "registered", ledger unchanged | report the refusal | high, not executed | MessageCommands.RegisterAsWrittenReportsRefusalAsSuccess | MessageCommands.RegisterReportsOutcome |
