# A verified model of the FLS role-play bot's state logic

The bot is a Discord bot for role-play servers. This project models, in Dafny,
the three parts of it that keep state, and proves what they promise.

- **Inventory** (`inventory.js`). Each channel has an on/off switch, at most
  one GM (game master) and one item ledger per user. A ledger maps item names
  to positive counts. Players hand items to each other (`giveItem`). The GM
  adds, removes and deletes items (`addItem`, `removeItem`, `deleteItem`) and
  reads any player's ledger (`checkInventory`). An administrator or a
  moderator registers and unregisters the GM. A thread works on the records
  of its parent channel. Every record lives in a JSON file: `loadData` reads a
  missing file as `{}` and `saveData` deletes the file of an empty record.
- **Readiness statuses** (`status.js`). A user marks themself ready or not
  ready in a channel. A ready status lapses after twelve hours
  (`STATUS_DURATION`) through a timer kept in `activeTimers`. `check` lists
  the ready users the server still has and drops the others. After a restart,
  `restoreTimers` re-arms the timers of the statuses whose time is not up and
  deletes the rest.
- **Mini-game and `!roll N`** (`bot.js`). `!mg` keeps a progress percentage
  per channel, moved up (`prog`) or down (`decr`) by a random amount; a game
  reaching 100% ends. `!roll N` rolls one number from 1 to N, for N from 2
  to 1000.

Files:

- `wrappers.dfy`: `Option` and `Result`.
- `chat.dfy`: user and channel ids, and channels and threads.
- `text.dfy`: the string functions the commands use: `parseInt` on decimal
  input, `trim`, `join`, `startsWith` and the removal of `<@id>` mentions.
- `store.dfy`: `loadData`/`saveData` over a map from file to record.
- `inventory.dfy`: class `InventorySystem`.
- `status.dfy`: class `StatusTracker`.
- `games.dfy`: class `MiniGames` and the `!roll` check.

How things are represented:

- A store is a `map` from file to record, and a missing file is a missing key.
- Each module's state is a class whose methods change its fields in place, in
  the order the source does.
- Time is a parameter `now` in milliseconds.
- A timer is its absolute deadline in a `map`; the moment it fires is the
  method `Expire`.
- `Math.random()` is a parameter `rand` with `0 <= rand < 1`.
- Server membership lookups are a map from user id to display name.
- A message is its author, its channel and its mentions, plus two booleans:
  whether it comes from a server, and whether the author is an administrator
  or may manage the channel.

Each class carries an invariant (`Valid`) that every command keeps:

- ledgers hold positive counts and no empty file;
- a GM file names exactly one user;
- a status file holds ready entries and at least one;
- a game's progress is between 0 and 99.

`StatusTracker.Armed` adds that every stored status has its expiry pending
exactly twelve hours after it was set. `RestoreTimers` establishes it, and the
other commands keep it.

Some behaviour of the code that a reader might not expect:

- `removeItem` refuses to take more than the player holds (inventory.js:277-279).
  It does not clamp the count to zero.
- `deleteItem` refuses an item the player does not hold (inventory.js:322-324).
  It does not ignore it.
- Add, remove, delete and give each work on a single item named by the
  command's words, not on a list of `name=quantity` tokens.
- `addItem` and `removeItem` check that the words are there before they check
  the count, and `addItem` checks the name last.

## Model

| member | source | states |
|---|---|---|
| FileStore.Load | inventory.js:29-40 | a missing file reads as the empty record; an existing one as its contents |
| FileStore.Save | inventory.js:42-54 | the file exists afterwards iff the record is non-empty; loading it back gives exactly the record saved, `{}` included; no other file changes; no empty record is ever stored |
| FileStore.SaveLoaded | inventory.js:29-54 | when no empty record is stored, saving back what was loaded changes nothing |
| FileStore.LoadElsewhere | inventory.js:42-54 | a save confined to one file leaves every other file reading as before |
| Text.ParseInt | inventory.js:153-156 | `parseInt` yields a number iff the text starts with a digit, or with a sign and then a digit; a positive result never comes from text starting with `-` |
| Text.ParseShowNat | inventory.js:153-156 | a number written in decimal and followed by anything that is not a digit parses back to that number |
| Text.ParseSignedShowNat | inventory.js:153-156 | a sign in front of a decimal number is read: `+5` gives 5 and `-3` gives -3, whatever non-digit text follows |
| Text.ParseAllDigits | bot.js:93-94 | a non-empty all-digit string parses to its decimal value |
| Text.Trim | inventory.js:150 | `trim` gives text with no white space at either end, never longer than the input; it is empty exactly when the input is white space throughout |
| Text.TrimInner | inventory.js:150 | what `trim` keeps is one contiguous stretch of the input, with only white space before and after it |
| Text.TrimTrimmed | inventory.js:150 | trimming text without white space at its ends changes nothing |
| Text.StripMentions | inventory.js:228 | `replace(/<@\d+>/g, "")` never lengthens the text |
| Text.StripPlainText | inventory.js:228 | text without `<` comes through unchanged |
| Text.MentionLengthMeans | inventory.js:228 | a match of `/<@\d+>/` is found at the start of the text exactly when the text starts with `<@`, one or more digits and `>`, and the match is that whole token |
| Text.StripKeptChar | inventory.js:228 | a character that does not open a `<@digits>` match is kept, a `<` included: `<3`, `<#1>`, `<@&1>` and `<@>` pass through |
| Text.StripLeadingMention | inventory.js:228 | a leading `<@digits>` mention is removed whole and the rest is processed as if it were alone |
| Text.StripKeepsPlainText | inventory.js:228 | text without `<` in front of the rest comes through unchanged, and the rest is processed as if alone: only mentions are removed |
| Text.StripInnerMention | inventory.js:228 | a mention between other text is cut out and the text on both sides is kept: `a<@1>b` becomes `ab` |
| Text.JoinPlainWords | inventory.js:150 | words free of spaces and `<`, joined with spaces, give text with no white space at its ends and no `<` |
| Inventory.ThreadsShareScope | inventory.js:125 | every thread of a channel, and the channel itself, work on the channel's switch, GM and ledgers |
| Inventory.Scope | inventory.js:73 | a message in a text channel works on that channel; a message in a thread works on the thread's parent |
| Inventory.Toggle | inventory.js:84 | toggling flips whether the channel is on; a channel never toggled before becomes on; no other channel's switch changes |
| Inventory.IsEnabled | inventory.js:56-58 | only a stored `true` means on; a channel with no stored switch is off |
| Inventory.EnabledAfterToggles | inventory.js:56-58 | after `n` toggles a channel is on iff its starting state differs from "`n` is odd" (only a stored `true` means on) |
| Inventory.FreshChannelEnabledIffOdd | inventory.js:56-58 | a channel with no stored switch is on iff it has been toggled an odd number of times |
| Inventory.AtMostOneGM | inventory.js:359-367 | while every GM file names one user, two GMs of the same channel are the same user |
| Inventory.IsGM | inventory.js:60-64 | a user is GM iff the channel's GM file exists and stores `true` for them; with no file nobody is GM |
| Inventory.SaveKeepsValid | inventory.js:42-54 | saving a ledger of positive counts keeps every stored ledger positive and non-empty |
| Inventory.Held | inventory.js:182 | `inventory[item] \|\| 0`: an absent item counts as 0; in a ledger of positive counts the count is positive iff the item is listed |
| Inventory.Credit | inventory.js:234 | the item's count rises by exactly `n`, absent counting as 0; no other item changes; positive counts stay positive |
| Inventory.Debit | inventory.js:281-284 | the item stays iff its count is still positive, and then drops by exactly `n`; no key is added; no other item changes; positive counts stay positive |
| Inventory.CreditThenDebit | inventory.js:176-183 | adding `n` of an item and then taking `n` gives back the very same ledger, the item absent again if it was absent |
| Inventory.TransferConserves | inventory.js:176-183 | the sender's loss is exactly the receiver's gain: the item's total over both ledgers is unchanged |
| Inventory.RopeScenario | inventory.js:176-186 | 3 ropes added, 2 given away and 1 taken leave the giver with nothing, so no file, and the receiver with 2 |
| Inventory.ItemName | inventory.js:228 | the item name never starts or ends with white space |
| Inventory.ItemNameOfCommand | inventory.js:228 | for words after a mention, the mention is dropped and the name is the words as typed |
| Inventory.ItemNameOfMentionOnly | inventory.js:228-232 | a mention alone leaves an empty name, which addItem refuses |
| Inventory.ParseItemAndCount | inventory.js:218-228 | fewer than two words is a usage error; with two or more, a last word that `parseInt` does not make positive is a bad count; otherwise it succeeds, with that count and the name made from the other words |
| Inventory.ParseStoreCommand | inventory.js:218-228 | `@user big sword 3` reads as item `big sword`, count 3 |
| Inventory.WithoutMentions | inventory.js:144 | no word left starts with `<@`, and there are never more words than in the input |
| Inventory.WithoutMentionsMembers | inventory.js:144 | every word left was in the input, and every input word that is not a mention is left |
| Inventory.WithoutMentionsConcat | inventory.js:144 | the filter works word by word, so the words it keeps stay in their order |
| Inventory.WithoutMentionsKeepsPlain | inventory.js:144 | words that are not mentions all stay, in order |
| Inventory.ParseGiveArgs | inventory.js:144-160 | after dropping mentions: fewer than two words is a usage error; a last word that `parseInt` does not make positive is a bad count; a positive count with an empty trimmed name is an empty-name error; otherwise it succeeds, the item being the other words joined by spaces and trimmed and the count `parseInt` of the last word |
| Inventory.ParseGiveCommand | inventory.js:144-160 | `@user big sword 3` reads as item `big sword`, count 3 |
| Inventory.GiveGuard | inventory.js:126-160 | giving passes iff the channel is on, a user is mentioned, it is not the author and the words parse; the refusals come in the source's order, each with its own reply: off, no mention, giving to oneself, then the parse error itself; the receiver is never the giver |
| Inventory.GmTarget | inventory.js:200-211 | the GM commands pass iff the channel is on, the author is its GM and a user is mentioned, the target being the first mention; a channel that is off is refused as such, then an author who is not GM, then a missing mention |
| Inventory.AddGuard | inventory.js:200-232 | adding passes iff the GM checks pass, the words parse and the name is not empty; a failed GM check gives that check's reply, then a failed parse its own error (usage or bad count), then an empty name is refused as such |
| Inventory.RemoveGuard | inventory.js:247-274 | removing passes iff the GM checks pass and the words parse, with a positive count; a failed GM check gives that check's reply, then a failed parse its own error (usage or bad count) |
| Inventory.DeleteGuard | inventory.js:297-320 | deleting passes iff the GM checks pass and there is at least one word, all words making the name; a failed GM check gives that check's reply, and no words a usage error |
| Inventory.GmCandidate | inventory.js:351 | register and unregister act on the first mentioned user, or on the author when nobody is mentioned |
| Inventory.InventorySystem.constructor | inventory.js:29-40 | the system starts from the stored switches, ledgers and GM files |
| Inventory.InventorySystem.SaveLedger | inventory.js:42-54 | one ledger file is saved by the store's rule and reads back as saved; switches and GM files are untouched; the invariant holds |
| Inventory.InventorySystem.SetInventorySystem | inventory.js:67-94 | outside a server, or without the right, nothing changes; otherwise the channel's switch flips and the reply tells its new state |
| Inventory.InventorySystem.ShowInventory | inventory.js:97-120 | refused when the channel is off; otherwise the author's ledger in this channel, with positive counts, possibly empty |
| Inventory.InventorySystem.CheckInventory | inventory.js:420-454 | fails exactly when the GM checks fail, with their reply; otherwise the mentioned user's ledger, read by the GM |
| Inventory.InventorySystem.GiveItem | inventory.js:123-194 | a refusal, an insufficient balance included, changes no ledger; on success the sender loses exactly `count` (the item goes at zero) and the receiver gains exactly `count`, and nothing else changes |
| Inventory.InventorySystem.MoveItem | inventory.js:163-186 | the sender's ledger loses exactly `count` of the item and the receiver's gains exactly `count`, both saved by the store's rule; every other ledger reads as before |
| Inventory.InventorySystem.AddItem | inventory.js:197-241 | a refusal changes nothing; on success only the target's ledger changes, by `count` more of the item |
| Inventory.InventorySystem.RemoveItem | inventory.js:244-291 | a refusal or a count above what is held changes nothing; otherwise the count drops by exactly `count`, and at zero the item (and an emptied file) goes |
| Inventory.InventorySystem.DeleteItem | inventory.js:294-332 | an item not held is refused with nothing changed; otherwise the item goes whatever its count, and only it |
| Inventory.InventorySystem.RegisterGM | inventory.js:335-372 | succeeds iff the channel is on, the author has the right and the channel has no GM; the GM file then names exactly the mentioned user (or the author), who is the only GM |
| Inventory.InventorySystem.UnregisterGM | inventory.js:375-417 | an administrator, a moderator or the GM removes the named user only if that user is the current GM; the GM file is then deleted and the channel has no GM; a channel without a GM is answered "no GM", and a named user who is not the GM "only the current GM"; every refusal changes nothing |
| Status.ThreadHasOwnStatuses | status.js:161 | a thread keeps its own statuses, apart from its parent, whereas its inventory is its parent's |
| Status.StatusScope | status.js:90 | a status command acts on `message.channel.id` as it is, so a thread is its own channel |
| Status.AllReadyHasReady | status.js:36 | for a record of ready entries, "some entry is ready" is "the record is non-empty" |
| Status.HasReady | status.js:36 | a record with a ready entry is never empty |
| Status.SaveStatuses | status.js:32-48 | the file exists afterwards iff the record has a ready entry, and then reads back as saved; otherwise it reads as `{}`; other channels' files are untouched |
| Status.SaveStatusesIsSave | status.js:32-48 | for ready-only records this is the inventory's `saveData` rule |
| Status.SaveKeepsStored | status.js:32-48 | saving a ready-only record keeps every file ready-only and non-empty |
| Status.SaveLoadedStatuses | status.js:19-48 | saving back what was loaded changes nothing |
| Status.SaveStatusesTwice | status.js:32-48 | of two saves of one channel only the last counts |
| Status.Remaining | status.js:124-125 | the time left is positive iff the twelve hours since the status was set are not over; it is exactly twelve hours at the moment of setting, and `now` plus it is the original deadline |
| Status.GetStatus | status.js:189-192 | `getStatus` is `ready` iff the user has a stored ready entry; a user without an entry is `notready` |
| Status.OtherStatusKept | status.js:50-87 | rewriting one user's entry leaves every other user's status, in every channel, as it was |
| Status.Survivors | status.js:122-143 | restoring keeps exactly the entries that have not expired, unchanged |
| Status.SurvivorsLater | status.js:122-143 | restoring at `t1` and then at a later `t2` is restoring once at `t2` |
| Status.SurvivorsLive | status.js:122-143 | every entry kept by a restore has time left |
| Status.RestartScenario | status.js:122-143 | a status set 13 hours before a restart is dropped; one set 1 hour before is kept with 11 hours to run |
| Status.Checked | status.js:94-106 | a check keeps the non-ready entries and the ready entries of members, the latter now named; it drops the ready entries of users the server does not have |
| Status.CheckedKeepsMembers | status.js:94-106 | for a ready-only record, exactly the members' entries survive a check |
| Status.RestoreStep | status.js:117-147 | restoring one more channel keeps both halves of the restart invariant: restored channels hold their survivors, with expiries pending |
| Status.RestoreStepAdded | status.js:117-147 | restoring one more channel adds timers only for statuses still stored in restored channels |
| Status.StatusTracker.constructor | status.js:13 | the process starts with the saved files and no timer |
| Status.RestoreRecord | status.js:120-143 | the loop over one file: the file becomes its unexpired entries, saved by the status rule; each of them has a timer at its original deadline; expired entries get none; no other file or timer changes |
| Status.StatusTracker.SetStatus | status.js:50-87 | the key's old timer is cancelled; `ready` stores an entry stamped `now` and arms one timer due twelve hours later; `notready` removes the entry and touches no file when there was none; the user's status then reads as set, every other status is unchanged, and all pending expiries stay in place |
| Status.StatusTracker.Expire | status.js:75-82 | a fired timer is forgotten; the user's entry is deleted and the rest of the record saved exactly as loaded, and no file changes when there was no entry; the user's status then reads `notready`; no other status changes; while all statuses are armed, no status is dropped before its twelve hours are over |
| Status.VisitStatuses | status.js:94-106 | the loop leaves exactly the checked record; it lists every ready member once, with that member's display name, and nobody else |
| Status.StatusTracker.CheckReadyStatuses | status.js:89-110 | the names returned are those of the ready users the server has, each once; the other ready entries are deleted and the record saved; timers are untouched |
| Status.StatusTracker.RestoreChannel | status.js:120-143 | one channel's file keeps exactly its unexpired entries; each gets a timer due exactly when its original was; an expired entry gets no timer and no other timer is added; other channels' files and timers are untouched |
| Status.StatusTracker.RestoreTimers | status.js:112-148 | after a restart every channel holds exactly its unexpired statuses, each with time left and its expiry pending at its original deadline; every timer added belongs to a stored status, so starting with no timer, no timer is left for a status that is gone |
| Games.Roll | bot.js:183 | `Math.floor(Math.random() * max) + 1` lies from 1 to `max` |
| Games.RandomScaled | bot.js:183 | `Math.random() * max` lies in [0, max) |
| Games.RollReaches | bot.js:183 | every amount from 1 to `max` is the roll of some value of `Math.random()` |
| Games.MaxAmount | bot.js:177-180 | an amount exists iff the argument is there and `parseInt` makes a positive number of it |
| Games.MaxAmountOfNumber | bot.js:177-180 | a positive number written in decimal is accepted as that amount |
| Games.AmountArg | bot.js:177 | the amount word is the second word, and absent when there is none |
| Games.MiniGames.constructor | bot.js:21 | no game runs when the bot starts |
| Games.MiniGames.Start | bot.js:163-170 | a second start is refused with nothing changed; otherwise the channel's game starts at 0% |
| Games.MiniGames.Prog | bot.js:172-193 | no game or no positive amount changes nothing; otherwise progress rises by a roll from 1 to the amount, and at 100% or more the game is removed; a stored progress stays from 0 to 99 |
| Games.MiniGames.Decr | bot.js:195-213 | no game or no positive amount changes nothing; otherwise progress falls by a roll from 1 to the amount but not below 0, and strictly falls unless it was 0 |
| Games.MiniGames.Stop | bot.js:215-221 | with no game it is refused; otherwise the channel's game is removed |
| Games.MiniGames.Command | bot.js:160-223 | `start`, `prog`, `decr` and `stop` each do exactly what that sub-command does, `prog` and `decr` with the second word as their amount; only the named channel's game can change; an unknown or missing sub-command changes nothing; a game ends only by finishing or stopping and begins only by starting |
| Games.Squeeze | bot.js:91 | removing white space never lengthens the text and leaves none |
| Games.SqueezeNoSpace | bot.js:91 | text without white space is unchanged |
| Games.SqueezeConcat | bot.js:91 | removing white space from a whole is removing it from its parts, so the other characters stay, in order |
| Games.ClassifyRoll | bot.js:85-97 | no argument asks for one; the joined arguments with white space removed are taken as a single number iff they are all digits with a value from 2 to 1000; any other all-digit value is refused as out of range; anything else is a dice expression |
| Games.RollOfNumber | bot.js:93-97 | `!roll N` is accepted as a roll up to N iff 2 <= N <= 1000 |
| Games.SqueezeSpacedDigits | bot.js:91 | the words `1` and `0`, joined and squeezed, give `10` |
| Games.RollOfSpacedDigits | bot.js:91-94 | `!roll 1 0` is read as a roll up to 10 |
| Games.PlainRollInRange | bot.js:93-98 | an accepted `!roll N` rolls a number from 1 to N, at most 1000 |

## Left out

- Discord itself is not modelled. That covers the client, login, replies,
  embeds, the help and change-log texts, and the text of every reply; a reply
  is a datatype value.
- The command routers (`manageStore` and `manageInventory` in inventory.js,
  bot.js's `!inv`/`!store` routing, and the `!status` sub-command switch) are
  not modelled. They only dispatch on strings and pass the remaining words on.
- Permissions are one boolean per message, `privileged`: Administrator or
  Manage Channels. Membership in a server is another boolean, `inGuild`.
- In a direct message `registerGM` and `unregisterGM` would fail on the
  missing member, and `registerGM`'s refusal crashes on a GM who is not in the
  member cache. In both cases the state does not change; these outcomes are
  not modelled apart from that.
- File system errors are not modelled. `loadData` reads an unreadable file as
  `{}` and `saveData` ignores failed writes; the model's store never fails.
- Settings persistence (`saveSettings`) is not modelled; the switches are a
  field of the inventory system.
- Real timers are left out. `setTimeout` and `clearTimeout` are a deadline
  map plus an explicit `Expire` step; nothing forces a due timer to fire.
- A second `restoreTimers` run would leave its earlier timers running. Each
  key holds one deadline in the model, so it cannot show this leak; the bot
  restores once, at start-up.
- `Date.now()` is read once per `restoreTimers` run in the model, not once per
  entry.
- `guild.members.fetch` is asynchronous; it is a map from user id to display
  name. The order of `Object.entries`, and with it the order of the names
  `check` lists, is left open.
- Concurrency is left out: lost updates between interleaved load and save
  cycles are not modelled; every command runs alone.
- `Text.ParseInt` models `parseInt` on decimal text only. It does not model
  leading white space (the bot's words never have any), `0x` hexadecimal
  prefixes, or the loss of precision beyond 2^53.
- Numbers are unbounded integers, and `Math.random() * max` is exact real
  arithmetic, not floating point.
- `Text.IsSpace` is space, tab, newline and carriage return. JavaScript's
  `trim` and `\s` also match other Unicode spaces.
- `!roll` dice expressions, `eval`, and `!atc` are not modelled (bot.js:100-154).
  An argument that is not a plain number is classified as a dice expression
  and goes no further.
- Item names that collide with JavaScript object properties (such as
  `__proto__`) are treated as ordinary names.
