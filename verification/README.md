# Verification of the AFK supervisor's cores

This project models the hard parts of `crates/pl-afk` (the supervisor of a player's AFK accounts) and
of `crates/pl-auth` (skin histories) in Dafny and proves what they are for. There is one module for
each source file or pair of files:

- **Pattern**, **PatternText** (`pattern.rs`): the safety check of auto-respond patterns is a static
  analysis over a regular expression's syntax tree. It is proved against the language the tree
  matches: start sets, tails and nullability are sound and exact, and a loop that is accepted splits
  a line into rounds in one way. The two respelling loops keep what a pattern says.
- **Secrets** (`secrets.rs`): login commands in a keychain whose entries are too short for them. Any
  primitive call may fail and the program may stop after any of them; a value is still replaced in
  one step. While no call fails, the store is a plain map.
- **Session**, **Restart** (`session.rs`, `restart.rs`): the actor that owns a client process, its
  timers and counters, as a state machine over every run of commands, timers and client output, and
  field by field as a class; the back-off over the reals.
- **Preparation** (`manager.rs`): concurrent connects that join, leave and replace one background
  preparation, with every locked section one step and a cancelled task finishing after a newer one
  started.
- **Masking**, **MaskOrder** (`console.rs`, `util.rs`): passwords kept out of the console by
  replacing whole commands ignoring case, the longest first, then their words.
- **LookSpans**, **Looks** (`looks.rs`, with `append_line` of `session.rs` and `cap_line` of
  `console.rs`): the coloured parts of a console line and the events they point at.
- **LineReader** (`session.rs`), **Pacing** (`pacing.rs`), **History** (`history.rs`),
  **DecimalFormat** (`config.rs`), **Versions** (`runtime.rs`): the capped line reader, connection
  slots, skin histories, number formatting and the order of version names.

`Wrappers`, `Numerals`, `Utf16` and `Ordering` hold what they share: missing values, decimal
numerals, lengths in UTF-16 units, comparisons and sorting.

Where the source updates state, a class or a method with loops does the same and is proved to
compute a function of its inputs or of the state before; the theorems are about those functions,
single calls and whole runs.

## Where the code keeps less than it promises

Each of these is a lemma with an input that shows it, and the exact condition where one is given.

- The pattern check compares only optional parts with what follows them, not a part's optional
  ending: `((ab?)(ba)?)+` is accepted and "aba" splits into rounds in two ways (`Pattern.GapAccepted`).
  With the endings clear the rounds are unique. Accepted with clear endings is exactly what makes one
  character of look-ahead decide every choice (`Pattern.AcceptedLoopIff`); rounds can be unique
  without it, as in `((ab?)(bc)?)+` (`Pattern.ClearTailsNotNeeded`).
- A keychain value is replaced in one step when its old entry can be read. When that read fails, it
  still is, for every new value and every other failure, exactly if the old entry does not go on in
  parts of generation one (`Secrets.AtomicIff`).
- For a login command with one word of four characters or more, the filter keeps that word out of
  every text exactly if the word neither begins nor ends with `*` and holds no `******`
  (`Masking.HiddenIff`). With several words the condition is sufficient only: a word that holds
  another masked one goes with it (`Masking.HiddenByAnother`).
- Commands are held longest first so that one which contains another is replaced whole. The filter
  measures bytes: that is enough exactly if letters that count as alike take the same number of bytes
  (`MaskOrder.WholesFirstIff`). A dotless i counts as an i and takes two, so a marked line of one
  leaves the end of the marked line `ix` (`MaskOrder.DotlessLeaks`).
- Masked words are not put longest first. A masked word is shown as the mask alone exactly if no word
  before it is a part of it (`MaskOrder.MaskedWordIff`); of `/register pass password` the second word
  is shown as the mask and `word` (`MaskOrder.PasswordShown`).
- A console look reads back from its JSON exactly if it is a look of its line; after a cut that is so
  unless it has 64 parts that all begin before the cut (`Looks.CutReadsBack`).
- A skin history of more than 500 entries loses the ones beyond them, favourites too, at the next
  change, and exactly those (`History.FavoriteStaysIff`). 500 skins recorded and marked, one removed,
  another recorded and the removed one restored in time lead there from an empty history: recording
  the next skin loses the restored favourite (`History.FavoriteIsLost`).
- A run of a version name is plain unless it begins below the dash or is a number of 2^64 and more.
  A name stands in a circle with names of plain runs exactly if it has a run that is not plain and
  the first of those is no number that begins with nineteen nines (`Versions.InOrderIff`). The valid names `19000000000000000000`, in a circle, and
  twenty nines, in none, show both sides (`Versions.BigNumberCircle`, `Versions.BigNumberInOrder`),
  and a `+` behind a number is the usual case of a run below the dash (`Versions.LowSuffixCircle`).
- The pacer's requests can come in another order than their times. Forgetting free destinations
  never shows, whoever asks for what and whatever the spacing, exactly if no request after one that
  came at or after an earlier one is before it (`Pacing.PruningNeverShowsIff`); otherwise a forgotten
  destination is handed a slot too early (`Pacing.PruningShows`).

## Model

| member | source | states |
|---|---|---|
| Pattern.StartSound | crates/pl-afk/src/pattern.rs:285-361 | For every syntax tree, loops and counted repetitions included: an empty match only of a part marked nullable, any other begins with a character of the start set. |
| Pattern.NullableExact | crates/pl-afk/src/pattern.rs:326-361 | A part marked nullable does match the empty string, for patterns whose sets are inhabited and that repeat no part zero times, as `a{0}` does. |
| Pattern.StartExact | crates/pl-afk/src/pattern.rs:326-361 | The start set holds no character that no match begins with, for patterns whose sets are inhabited and that repeat no part zero times, as `a{0}` does. |
| Pattern.TailSound | crates/pl-afk/src/pattern.rs:363-403 | If a non-empty text and the same with `c` and more behind it both match an accepted part, `c` is in its optional tail. |
| Pattern.TailExact | crates/pl-afk/src/pattern.rs:363-403 | The optional tail of a part without loops holds no other character, for patterns whose sets are inhabited and that repeat no part zero times, as `a{0}` does. |
| Pattern.OptionalTail | crates/pl-afk/src/pattern.rs:366-403 | The loop from the back over a sequence's parts computes the tail set. |
| Pattern.OptionalTailOfSequence | crates/pl-afk/src/pattern.rs:379-400 | Stopping at the last part that has to match loses nothing of a sequence's tail. |
| Pattern.CheckBranches | crates/pl-afk/src/pattern.rs:436-446 | The accumulating loop refuses exactly the alternations two branches of which can start alike. |
| Pattern.CheckSequence | crates/pl-afk/src/pattern.rs:450-460 | The loop refuses exactly the sequences in which an optional part can start like what follows it. |
| Pattern.LookaheadSound | crates/pl-afk/src/pattern.rs:182-274 | In an accepted tree with clear tails the next character alone decides every choice; stated about the language only. |
| Pattern.LookaheadComplete | crates/pl-afk/src/pattern.rs:182-274 | And a readable tree without loops in which it does is accepted inside a repetition, with clear tails, for patterns whose sets are inhabited and that repeat no part zero times, as `a{0}` does. |
| Pattern.AcceptedLoopIff | crates/pl-afk/src/pattern.rs:182-274 | A loop is accepted and its parts' tails are clear, if and only if: one character of look-ahead decides every choice in a round and where it ends, nothing loops inside, all of it is readable, its count is in bounds, and rounds it must repeat are never empty; for patterns whose sets are inhabited and that repeat no part zero times, as `a{0}` does. |
| Pattern.AcceptedIff | crates/pl-afk/src/pattern.rs:182-274 | A whole pattern is accepted and the tails in its loops are clear, if and only if all of it is readable, counts are in bounds, counted rounds are never empty, and every outermost loop decides its choices by one character; alternatives and optional parts outside of loops are free; for patterns whose sets are inhabited and that repeat no part zero times, as `a{0}` does. |
| Pattern.AcceptedExactly | crates/pl-afk/src/pattern.rs:182-274 | The same without asking for clear tails: of a loop's choices between alternatives and before what follows an optional part one character decides, and no round begins with a character of the optional tail; for patterns whose sets are inhabited and that repeat no part zero times, as `a{0}` does. |
| Pattern.PlainAccepted | crates/pl-afk/src/pattern.rs:182-274 | A readable pattern in which nothing repeats is accepted, whatever its sets. |
| Pattern.RefusalKinds | crates/pl-afk/src/pattern.rs:182-274 | Invalid is said only of a pattern with an unreadable part, too complex only of one that still is with all its parts readable. |
| Pattern.AcceptedLoopsUnique | crates/pl-afk/src/pattern.rs:182-274 | In every accepted pattern whose loops have clear tails, a line has at most one cut into the rounds of each loop. |
| Pattern.SequenceCutOnce | crates/pl-afk/src/pattern.rs:450-460 | Inside an accepted loop a sequence cuts a line into its parts in one way. |
| Pattern.BranchTakenOnce | crates/pl-afk/src/pattern.rs:436-446 | Inside an accepted loop at most one branch of an alternation matches a non-empty line. |
| Pattern.GapAccepted | crates/pl-afk/src/pattern.rs:450-469 | The check accepts `((ab?)(ba)?)+`, and "aba" is one round of it or two. |
| Pattern.ClearTailsNotNeeded | crates/pl-afk/src/pattern.rs:450-469 | The rounds of `((ab?)(bc)?)+` are unique although a tail is not clear: the condition is sufficient only. |
| PatternText.EscapeHash | crates/pl-afk/src/pattern.rs:621-640 | The loop respells a pattern sign by sign, escapes as pairs. |
| PatternText.RespelledMeansTheSame | crates/pl-afk/src/pattern.rs:621-640 | The respelled pattern holds no number sign and says what it said, sign for sign. |
| PatternText.EscapeLiteral | crates/pl-afk/src/pattern.rs:642-656 | The loop spells a plain text character by character. |
| PatternText.EscapedReadsAsText | crates/pl-afk/src/pattern.rs:158-172 | The spelled text is read back as that text, one literal sign a character, and holds no number sign. |
| Secrets.PiecesWhole | crates/pl-afk/src/secrets.rs:186-201 | The pieces of a value concatenate back to it, each within the unit limit, and no piece could have taken one more character. |
| Secrets.SplitUnits | crates/pl-afk/src/secrets.rs:189-201 | The loop over start and used units computes those pieces. |
| Secrets.HeadReadsBack | crates/pl-afk/src/secrets.rs:173-184 | A parts header reads back with its generation, count and first piece, whatever that piece holds. |
| Secrets.HeadFits | crates/pl-afk/src/secrets.rs:80-90 | A header with its first piece fits into the 1280 units of an entry. |
| Secrets.PartKeysDiffer | crates/pl-afk/src/secrets.rs:168-171 | Two parts of one name have different keys. |
| Secrets.PartKeysApart | crates/pl-afk/src/secrets.rs:168-171 | Parts of one name are never the entry or a part of another name without a number sign. |
| Secrets.StoredIff | crates/pl-afk/src/secrets.rs:205-227 | A value is read if and only if it is the entry, or the first piece of a header that parses joined with every part it counts; with a part missing there is none. |
| Secrets.SetAtomic | crates/pl-afk/src/secrets.rs:229-261 | Whatever calls fail and after whichever call the program stops, the stored value is the old one up to one call and the new one from there on; the new one at the end if and only if `set` succeeds. |
| Secrets.AtomicIff | crates/pl-afk/src/secrets.rs:229-261 | With the read of the old entry failing too, that holds for all values and failures if and only if the old entry does not go on in parts of generation one. |
| Secrets.DeleteAtomic | crates/pl-afk/src/secrets.rs:263-271 | The same for `delete`: the old value, then none. |
| Secrets.SetLocal | crates/pl-afk/src/secrets.rs:229-261 | In every state a run passes, no written entry is longer than the keychain allows and nothing but the key and its parts changed. |
| Secrets.DeleteLocal | crates/pl-afk/src/secrets.rs:263-271 | `delete` changes nothing but the key and its parts. |
| Secrets.OthersKept | crates/pl-afk/src/secrets.rs:205-227 | What changes only a key and its parts changes no other name's value. |
| Secrets.SetClean | crates/pl-afk/src/secrets.rs:229-261 | Where no call fails, `set` succeeds unless the value needs more than 32 parts, and leaves no stale part. |
| Secrets.DeleteClean | crates/pl-afk/src/secrets.rs:263-271 | Where no call fails, `delete` succeeds and leaves no stale part. |
| Secrets.StoreIsAMap | crates/pl-afk/src/secrets.rs:204-271 | Over every run of stores and deletions without a failing call, every name without a number sign reads as in a plain map, and no stale part is left. |
| Secrets.FailedSetUndone | crates/pl-afk/src/secrets.rs:229-261 | When one call fails, and so the `set` does, every entry is as it was. |
| Secrets.RemovalGoesOn | crates/pl-afk/src/secrets.rs:151-159 | Whatever other calls fail, a part whose own removal works is gone. |
| Secrets.KeyringSecretStore.Get | crates/pl-afk/src/secrets.rs:205-227 | Reads the stored value, or fails if one of its calls failed. |
| Secrets.KeyringSecretStore.Set | crates/pl-afk/src/secrets.rs:229-261 | Step by step, with its loops over the parts: entries, result and every state in between are those of the run the theorems are about. |
| Secrets.KeyringSecretStore.Delete | crates/pl-afk/src/secrets.rs:263-271 | Step by step, the deletion the theorems are about. |
| Secrets.KeyringSecretStore.RemovePartsOf | crates/pl-afk/src/secrets.rs:151-159 | Removes the parts of a generation one by one, whatever fails. |
| Restart.Backoff | crates/pl-afk/src/restart.rs:109-134 | The doubling loop is: double until the first step is reached, at the 32nd restart at the latest, then one step for each failure. |
| Restart.ReachedFirst | crates/pl-afk/src/restart.rs:120-125 | The loop ends at the first doubling that reaches the step, or at the 32nd. |
| Restart.BackoffIs | crates/pl-afk/src/restart.rs:109-134 | Until the doubled wait first gets to the first step, or the 32nd restart, restart `n` waits the shortest delay times 2^(n-1), but no longer than the step; each failure after that waits the next step, up to the last. |
| Restart.BackoffGrows | crates/pl-afk/src/restart.rs:109-134 | A further failure never waits less. |
| Restart.DelayGrows | crates/pl-afk/src/restart.rs:82-107 | The delay does not decrease with the failures, stays between floor and ceiling and is never below the account's bounded shortest delay. |
| Restart.DelayLevels | crates/pl-afk/src/restart.rs:82-134 | From some failure on the delay stays: the longer of the account's longest and the last step. |
| Restart.FirstDelay | crates/pl-afk/src/restart.rs:82-107 | The first restart waits the account's shortest delay. |
| Restart.RampIsLinear | crates/pl-afk/src/restart.rs:96-105 | Without the back-off, the delay goes from the shortest to the longest in equal steps. |
| Restart.RangeIs | crates/pl-afk/src/restart.rs:82-96 | Delays within the bounds count as they are, the smaller first; those beyond them count as the bound, and what is no number as the default. |
| Restart.SpreadWithin | crates/pl-afk/src/restart.rs:136-146 | The spread moves a delay by a fifth at most. |
| Restart.ExitIs | crates/pl-afk/src/restart.rs:533-624 | Which exits stop, restart, give up, are refused and fail, with the reason that is shown. |
| Session.RunKeepsInv | crates/pl-afk/src/session.rs:568-614 | Over every run: a live process excludes a restart timer, a paced launch has one, a kill timer means a live process asked to stop, a requested stop means no restart timer, and the shown state says which of them there is. |
| Session.StepKeepsInv | crates/pl-afk/src/session.rs:618-1445 | Every event keeps that. |
| Session.OldOutputIgnored | crates/pl-afk/src/session.rs:1008-1030 | Output and exits of an older client change nothing. |
| Session.StoppedStays | crates/pl-afk/src/session.rs:635-652 | After a stop no client is started until the next start command. |
| Session.HistoryKept | crates/pl-afk/src/session.rs:1391-1410 | The two cause fields always equal the last cause and the trailing run of equal causes of the failure history since it was last reset. |
| Session.RestartsBounded | crates/pl-afk/src/session.rs:1412-1445 | With retries between 0 and `limit` in every event, at most `limit` automatic restarts happen since the last start or lasting connection, over every run. |
| Session.NewSessionBounded | crates/pl-afk/src/session.rs:1412-1445 | The same from a new session, with at most one client more than restarts. |
| Session.StreakStops | crates/pl-afk/src/session.rs:1328-1374 | A restart never follows a cause not on the account's list that ended enough connections in a row, and five are always enough. |
| Session.ExitMeans | crates/pl-afk/src/session.rs:1328-1445 | A client that exits unasked is due again if and only if its settings, its failure and those before it allow that: as one restart more, shown with the timer's own time, after a wait within a fifth of the delay for it, which is within floor and ceiling. Otherwise the session ends stopped, given up, refused or failed, as each is due. |
| Session.FailedLaunchMeans | crates/pl-afk/src/session.rs:967-981 | A restart that cannot be launched is due again in the same way if and only if the reconnect is on and within its limit and the version is not at fault; a first launch never is. |
| Session.DisruptionForetells | crates/pl-afk/src/session.rs:1283-1374 | The state a reported problem shows is what the exit right after it decides, up to the time of the restart. |
| Session.LastingStartsOver | crates/pl-afk/src/session.rs:1376-1389 | After a connection that lasted the next restart is the first again, with that delay. |
| Session.LoginKickCounts | crates/pl-afk/src/session.rs:1376-1410 | A kick for the login goes on with the count and the streak, however long the connection was. |
| Session.MessageSurvives | crates/pl-afk/src/restart.rs:462-475 | The message of a kick is kept through the report without one that follows. |
| Session.StartBegins | crates/pl-afk/src/session.rs:618-633 | A start from rest begins the next client, waits for its slot, or shows the failure. |
| Session.TimerBegins | crates/pl-afk/src/session.rs:983-998 | A due timer begins the client that waited, or the restart, or has it wait for its slot. |
| Session.StopEnds | crates/pl-afk/src/session.rs:635-652 | A client told to stop is killed when its grace is over, and its exit ends the session. |
| Session.EventMeans | crates/pl-afk/src/session.rs:568-614 | What every event does to a session that goes on, in those terms. |
| Session.IdleIsSeen | crates/pl-afk/src/session.rs:1328-1389 | Without a client, the shown state is an active one exactly while a timer is set. |
| Session.Actor.Handle | crates/pl-afk/src/session.rs:568-614 | One turn of the loop does to the fields what the step function says, and keeps the invariant. |
| Session.Actor.StartIt | crates/pl-afk/src/session.rs:618-633 | The whole new state of a start command: the invariant holds, a running or waiting client is left alone, else one client is begun, waits for its slot, or the failure shows. |
| Session.Actor.StopIt | crates/pl-afk/src/session.rs:635-652 | The whole new state of a stop command: the invariant holds, no timer or slot is left, no client is begun, and a live one is due to be killed. |
| Session.Actor.ShutDown | crates/pl-afk/src/session.rs:685-699 | The whole new state of a shutdown: the invariant holds, and no client, timer or slot is left. |
| Session.Actor.LaunchClient | crates/pl-afk/src/session.rs:703-759 | A launch waits for its connection slot or is made at once; it keeps the invariant and begins one client at most. |
| Session.Actor.SpawnClient | crates/pl-afk/src/session.rs:831-965 | A spawned client gets the next generation; other settings make its causes count anew; the invariant holds. |
| Session.Actor.LaunchHasFailed | crates/pl-afk/src/session.rs:967-981 | A launch that fails counts as a failure only if it was a restart, and is then due again if and only if that is allowed; it begins no client and keeps the invariant. |
| Session.Actor.RestartTimerFires | crates/pl-afk/src/session.rs:983-998 | A due timer launches the paced client or the restart: one client at most, none after a stop, and the invariant holds. |
| Session.Actor.Disruption | crates/pl-afk/src/session.rs:1285-1326 | A reported problem shows where it is heading, and touches neither the client nor the timer; the invariant holds. |
| Session.Actor.ClientExited | crates/pl-afk/src/session.rs:1328-1374 | The exit schedules the restart if and only if it is due, or shows how the session ends, and notes the cause; after a stop nothing is scheduled; the invariant holds. |
| Preparation.StepKeepsInv | crates/pl-afk/src/manager.rs:417-622 | Every locked section keeps: the current preparation is cancelled exactly when nobody waits, no account both waits and is recorded as failed, every waiter of a working task waits on the current preparation or left. |
| Preparation.RunKeepsInv | crates/pl-afk/src/manager.rs:417-622 | So does every interleaving. |
| Preparation.WaiterIsServed | crates/pl-afk/src/manager.rs:417-622 | Every waiter that ever joined left, still waits on its own preparation at work, or had its outcome told. |
| Preparation.StepGrows | crates/pl-afk/src/manager.rs:417-622 | Outcomes never change, waiters keep their preparation, and after an outcome no waiter of it leaves. |
| Preparation.JoinMeans | crates/pl-afk/src/manager.rs:419-493 | Who joins waits on the current preparation, or a new one if that is cancelled or missing, with all who waited there; a connect's wait stays one; failures of those who join are forgotten. |
| Preparation.LeaveMeans | crates/pl-afk/src/manager.rs:497-515 | A leave takes the account's waiter off and fires its token, leaves every other as it was, cancels the preparation if and only if nobody else waited, and forgets that failure alone. |
| Preparation.LeaveRunMeans | crates/pl-afk/src/manager.rs:517-543 | A cancelled bulk run does the same if and only if its own waiter still waits and no connect took it over; otherwise nothing. |
| Preparation.FinishMeans | crates/pl-afk/src/manager.rs:565-622 | A failure is told to exactly the accounts that waited on that preparation; a ready one clears all failures, a cancelled one none. |
| Preparation.CallerIsServed | crates/pl-afk/src/manager.rs:367-493 | Whoever joins in any interleaving, at every later moment its tokens have fired, or its own preparation's outcome is told, or that preparation is current, not cancelled and at work. |
| Preparation.ConnectIsServed | crates/pl-afk/src/manager.rs:417-543 | Whatever follows a connect, bulk runs that are cancelled included: as long as its account is not told to leave, its token does not fire, and it waits on its preparation at work, or that told its outcome. |
| Preparation.ConnectIsStarted | crates/pl-afk/src/manager.rs:417-622 | Such a connect is started when the preparation it joined tells that the client is ready, if its account is still there. |
| Preparation.OnlyConnectsStart | crates/pl-afk/src/manager.rs:417-622 | An account that only bulk runs prepared is never started, over every interleaving. |
| Preparation.ClientPrep.JoinPreparation | crates/pl-afk/src/manager.rs:419-493 | The whole new state of a join, which keeps the invariant, and exactly the waiters that are new, all of the preparation it returns. |
| Preparation.ClientPrep.LeaveWait | crates/pl-afk/src/manager.rs:497-515 | The whole new state of a leave, which keeps the invariant: the account neither waits nor counts as failed, its token fired, and the others are as they were. |
| Preparation.ClientPrep.LeaveRunWait | crates/pl-afk/src/manager.rs:517-543 | A bulk run takes off its own waiter only, and not one a connect took over; then its token fired and the preparation is cancelled if nobody else waits; the invariant holds. |
| Preparation.ClientPrep.FinishTask | crates/pl-afk/src/manager.rs:565-622 | A finishing task takes only its own preparation; its outcome clears or records failures and starts the sessions of its connects; the invariant holds. |
| Masking.FindIgnoreCase | crates/pl-afk/src/util.rs:25-49 | The nested search loop finds the first occurrence at or after `from`. |
| Masking.FindIsFirst | crates/pl-afk/src/util.rs:25-49 | What is found is an occurrence, none begins before it, and none at all if nothing is found. |
| Masking.MaskCommand | crates/pl-afk/src/console.rs:314-319 | The replacing loop ends although the text may grow, and replaces every occurrence from left to right. |
| Masking.MaskWordsOf | crates/pl-afk/src/console.rs:320-326 | The loop over a secret's words, each looked for first, replaces them one after the other. |
| Masking.NoSecretLeft | crates/pl-afk/src/console.rs:312-329 | Whatever the text, the other secrets, their order and overlap: the masked text holds no whole command, ignoring case, and no masked word that neither begins nor ends with `*` nor holds a mask. |
| Masking.ReplacedIff | crates/pl-afk/src/console.rs:320-326 | One replacement of a word hides it in every text under the same condition. |
| Masking.HiddenIff | crates/pl-afk/src/console.rs:312-329 | For the filter of one login command with one word to mask: no masked text holds the word, if and only if it neither begins nor ends with `*` and holds no mask. |
| Masking.HiddenByAnother | crates/pl-afk/src/console.rs:320-326 | A word that holds another masked word, one that can be hidden, is hidden whatever its own ends. |
| Masking.MaskTwice | crates/pl-afk/src/console.rs:312-329 | Masking a masked text changes nothing, if every secret is one masks cannot bring back or is hidden in the masked text. |
| Masking.SecretsFromLines | crates/pl-afk/src/console.rs:174-219 | A line with arguments, and a marked line with any text, becomes a secret of the shape masking needs, with its first word or nothing left before the mask; its masked words are exactly the words of four characters or more of the arguments or the marked line, and a line without `*` is hidden. |
| Masking.LineFilter.PushSecret | crates/pl-afk/src/console.rs:288-296 | Known commands are not added again; a new one goes behind every command that is not shorter. |
| Masking.LineFilter.AddSecret | crates/pl-afk/src/console.rs:282-286 | A login command that is not held yet is put in with its own mask and words; nothing else changes. |
| Masking.LineFilter.AddSecretLine | crates/pl-afk/src/console.rs:274-280 | The same for a line marked secret. |
| Masking.LineFilter.Mask | crates/pl-afk/src/console.rs:312-329 | Both loops together compute the masked text, commands in the order they are held and then the words; every secret that masks cannot bring back is hidden in it, whatever the others are. |
| MaskOrder.ReplacedMeans | crates/pl-afk/src/console.rs:312-329 | Replacing takes away the occurrences, found from left to right, puts the replacement in the place of each, and leaves everything between them. |
| MaskOrder.ReplaceFromIs | crates/pl-afk/src/console.rs:314-319 | The loop that replaces in place leaves what stands before where it begins and does that to the rest. |
| MaskOrder.LoneCommandMasked | crates/pl-afk/src/console.rs:312-319 | Where a held command stands in a line and no command before it in the list, nor another occurrence of it, reaches into it, exactly its own replacement stands there instead, and the text around is masked for itself. |
| MaskOrder.HeldCommandMasked | crates/pl-afk/src/console.rs:288-319 | Held longest first, a line that is a held command becomes the replacement of the first one it is, whatever shorter commands it contains, if letters that are alike take as many bytes. |
| MaskOrder.WholesFirstIff | crates/pl-afk/src/console.rs:288-296 | No command held longest first stands before a longer one it is a part of, if and only if letters that are alike take as many bytes. |
| MaskOrder.DotlessLeaks | crates/pl-afk/src/console.rs:288-329 | With the lines of a dotless i and of `ix` marked secret, `ix` is shown as the mask and `x`. |
| MaskOrder.HeldLineShown | crates/pl-afk/src/console.rs:312-329 | By both loops such a line is shown as that replacement, if it holds neither a later command nor a masked word. |
| MaskOrder.WordWholeIff | crates/pl-afk/src/console.rs:320-326 | A masked word, none of them with a `*`, is shown as the mask alone if and only if no word before it in the order of the commands is a part of it. |
| MaskOrder.MaskedWordIff | crates/pl-afk/src/console.rs:312-329 | The same of the filter: a masked word in a line without a held command is shown as the mask alone if and only if no word of a command held before its own, or before it in its own, is a part of it. |
| MaskOrder.PasswordShown | crates/pl-afk/src/console.rs:320-326 | With the words `pass` and `password` in this order, `password` is shown as the mask and `word`. |
| LookSpans.IsStyleCode | crates/pl-afk/src/looks.rs:112-132 | The byte loop accepts exactly a colour followed by flags of `klmno` in that order. |
| LookSpans.CoversMeans | crates/pl-afk/src/looks.rs:218-266 | Parts cover a text in units, with every boundary at a character, if and only if the text falls into pieces as wide as they are. |
| LookSpans.ReadSpans | crates/pl-afk/src/looks.rs:221-266 | The loop reads exactly the parts that are written as this JSON and cover the text, and none if there are none. |
| LookSpans.SpansRead | crates/pl-afk/src/looks.rs:418-428 | Parts that are right for a text read back from their JSON. |
| Looks.Renumber | crates/pl-afk/src/looks.rs:322-349 | The three loops over marks, new places and parts compute the renumbered look. |
| Looks.RenumberMeans | crates/pl-afk/src/looks.rs:322-349 | Every part keeps its length, its code and its event, or has none if that one went; every index is one and every event is pointed at. |
| Looks.RenumberKeeps | crates/pl-afk/src/looks.rs:322-349 | The events that are left are exactly those that stand and are pointed at. |
| Looks.RenumberStays | crates/pl-afk/src/looks.rs:322-349 | Renumbering changes nothing if and only if the look is in order already. |
| Looks.EventReadsBack | crates/pl-afk/src/looks.rs:268-317 | An event reads back from its JSON, nested hover included, if and only if it keeps the contract's rules. |
| Looks.ReadIsLook | crates/pl-afk/src/looks.rs:354-363 | Whatever reads is a look of the text: its parts cover it, its events are right and pointed at. |
| Looks.LookReadsBack | crates/pl-afk/src/looks.rs:354-463 | A look reads back from its JSON for a text if and only if it is a look of it with at most 64 parts. |
| Looks.UnmaskMeans | crates/pl-afk/src/looks.rs:368-384 | Every part keeps its event unless the mask touches it, no event that it does is left, and the look stays one of the text. |
| Looks.CleanMeans | crates/pl-afk/src/looks.rs:366-384 | An event stays if and only if the mask changes none of the texts in it. |
| Looks.Cut | crates/pl-afk/src/looks.rs:389-415 | The loop up to the cut computes the cut parts. |
| Looks.CutMeans | crates/pl-afk/src/looks.rs:389-415 | A look cut with its line is a look of the cut line with one part more than begin before the cut; a part keeps its event if and only if it lost nothing. |
| Looks.CutReadsBack | crates/pl-afk/src/looks.rs:389-415 | A cut look reads back if and only if it had fewer than 64 parts or its 64th begins behind the cut. |
| Looks.SomeCutDoesNotReadBack | crates/pl-afk/src/looks.rs:389-415 | There is a line and a look of it that does not. |
| Looks.FitMeans | crates/pl-afk/src/looks.rs:478-516 | What fits is within the bytes, still a look of the line with the same parts, and no part does more than before; kept is the first that fits of the look itself, the one with every click alone, and the bare parts, if it shows something. |
| Looks.ConsoleLookMeans | crates/pl-afk/src/session.rs:1481-1498 | Whatever a client sends: the look the console keeps covers the line it keeps, fits, says nothing the mask changes, and every part has its code and its event or less. |
| Looks.ConsoleLookIs | crates/pl-afk/src/session.rs:1481-1498 | A line that is not as it came keeps no look; of any other, as much of the cut and cleared look is kept as fits. |
| Looks.CleanLookStays | crates/pl-afk/src/session.rs:1481-1498 | A look of a line that is not cut, which says nothing the mask changes, fits and shows something, is kept as it is. |
| LineReader.ReadLineCapped | crates/pl-afk/src/session.rs:1602-1631 | However the bytes are buffered: the next line, cut to 64 KiB, without one carriage return at its end; false exactly at the end of input, an error exactly if the stream breaks off inside the line. |
| LineReader.ReadLines | crates/pl-afk/src/session.rs:1564-1600 | Read until the end, the texts sent are the decoded lines of the whole stream, the first without a byte order mark. |
| LineReader.LinesArePieces | crates/pl-afk/src/session.rs:1602-1631 | The lines of a stream are what stands between its line feeds, without the last piece if that is empty or the stream broke off. |
| LineReader.LinesReadBack | crates/pl-afk/src/session.rs:1602-1631 | Lines that fit, written with either ending, are read as they were. |
| LineReader.LongLineCut | crates/pl-afk/src/session.rs:1602-1631 | Of a longer line the first 64 KiB are kept, and the next line follows. |
| Pacing.ConnectPacer.Reserve | crates/pl-afk/src/pacing.rs:32-42 | The whole new table and the slot; the table keeps no destination whose next slot is free but the one asked for. |
| Pacing.PruningNeverShowsIff | crates/pl-afk/src/pacing.rs:32-42 | For requests at given times, whatever the destinations and the spacing, the pruned table answers like one that forgets nothing, if and only if no request's time is before that of an earlier request which came at or after a still earlier one's. |
| Pacing.PruningShows | crates/pl-afk/src/pacing.rs:32-42 | At any other times there are requests for which it does not: a forgotten destination asked for again gets a slot too early. |
| Pacing.SlotsSpaced | crates/pl-afk/src/pacing.rs:28-42 | Two slots of a destination are at least the spacing apart in the order they were asked for, at times for which pruning never shows. |
| Pacing.NoneBeforeItsRequest | crates/pl-afk/src/pacing.rs:28-42 | Whatever the clock does, no slot is before its request. |
| Pacing.NoneWaitsLonger | crates/pl-afk/src/pacing.rs:28-42 | Whatever the clock does, a slot is the request's own time or the spacing after an earlier slot there. |
| Pacing.OthersDoNotMatter | crates/pl-afk/src/pacing.rs:28-42 | A destination's slots are those it would get if nobody asked for another, at times for which pruning never shows. |
| History.Prune | crates/pl-auth/src/history.rs:540-557 | The counting, collecting, sorting and retaining steps compute the pruned list. |
| History.PruneKeeps | crates/pl-auth/src/history.rs:540-557 | Neither a favourite nor the skin worn now goes, and nothing new comes. |
| History.PruneCounts | crates/pl-auth/src/history.rs:540-557 | Of more than 60 entries that are no favourites exactly 60 are left. |
| History.OldestGo | crates/pl-auth/src/history.rs:540-557 | An entry that went was worn no later than any other that could have gone and stays. |
| History.RecordMeans | crates/pl-auth/src/history.rs:168-215 | The recorded skin is there with its arm model, worn less than an hour ago, and last if the clock did not go back; every other entry left is as it was and no favourite went. |
| History.RecordedEntryIs | crates/pl-auth/src/history.rs:168-215 | The recorded skin's own entry keeps its mark, its first sighting and its source; it is worn now, or when it was if that was within the hour and last; a new one begins unmarked. |
| History.ShownOnce | crates/pl-auth/src/history.rs:528-536 | The panel's order depends on the entries only, not on how the file lists them. |
| History.ShownOrder | crates/pl-auth/src/history.rs:528-536 | The panel has every entry, favourites before the others, and among each the one worn last first. |
| History.RunKeepsValid | crates/pl-auth/src/history.rs:168-311 | Over every run of the five operations, whatever fails, ids stay distinct and no file has more than one entry more than is read. |
| History.RestoreUndoesRemove | crates/pl-auth/src/history.rs:236-285 | Removing an entry and restoring it in time leaves the panel as it was, and other profiles too. |
| History.PutBackMeans | crates/pl-auth/src/history.rs:256-285 | A skin recorded again since its removal takes over the mark, the older first sighting and the source, and keeps when and how it was worn; one that was not is there as it was; nothing else changes. |
| History.RetargetMeans | crates/pl-auth/src/history.rs:289-311 | The new id has the mark, the first sighting and the source of the old, or takes them over; the old one is gone and nothing else changes. |
| History.FavoredMeans | crates/pl-auth/src/history.rs:218-232 | A mark changes nothing but the mark of that entry. |
| History.RemovalWaits | crates/pl-auth/src/history.rs:236-285 | A removed entry waits for its undo over every run of other calls within its time. |
| History.FavoriteStaysIff | crates/pl-auth/src/history.rs:462-479 | A call that writes and neither takes nor brings a favourite keeps it if and only if it is among the 500 entries that are read. |
| History.FavoriteIsLost | crates/pl-auth/src/history.rs:168-285 | There is a run from an empty history, without a failing call, after which a favourite is lost by recording another skin. |
| History.FavoriteStays | crates/pl-auth/src/history.rs:168-311 | Over every run that does not take it away, a favourite stays while no history outgrows what is read. |
| History.SkinHistory.DoRecord | crates/pl-auth/src/history.rs:168-215 | The whole new state of a recording and what it returns, failures included; the recorded skin is in the file, and ids stay distinct. |
| History.SkinHistory.DoSetFavorite | crates/pl-auth/src/history.rs:218-232 | The whole new state of a favourite mark; afterwards the entry is read as marked or not, as asked. |
| History.SkinHistory.DoRemove | crates/pl-auth/src/history.rs:236-252 | The whole new state of a removal, with what waits for undo; the entry is not read again. |
| History.SkinHistory.DoRestore | crates/pl-auth/src/history.rs:256-285 | The whole new state of an undo, after which the entry is in the file; one that could not be put back stays for another try. |
| History.SkinHistory.DoRetarget | crates/pl-auth/src/history.rs:289-311 | The whole new state of an entry moved to another id; the old id is not read again. |
| DecimalFormat.Place | crates/pl-afk/src/config.rs:530-551 | The digits around the point, with zeros where there are none, are the same number. |
| DecimalFormat.FourthDigitDecides | crates/pl-afk/src/config.rs:553-555 | Looking at the fourth decimal is rounding the whole number to the nearest thousandth, halves up. |
| DecimalFormat.ThousandthsIs | crates/pl-afk/src/config.rs:504-509 | For any number of decimals, that rounding is the only whole number of thousandths within half a thousandth of the number, the larger of two. |
| DecimalFormat.Carry | crates/pl-afk/src/config.rs:556-567 | The loop adds the carry to the digits, however many nines there are. |
| DecimalFormat.Round | crates/pl-afk/src/config.rs:553-571 | Cut or filled to three decimals, with the carry through both parts and a new first digit if it goes on, the digits are the rounded number. |
| DecimalFormat.RoundedIs | crates/pl-afk/src/config.rs:504-571 | For all digits and exponents of either sign, the rounded number is the only number of thousandths within half a thousandth of the digits' number times ten to the exponent and one less the digits' count, the larger of two. |
| DecimalFormat.ShownSays | crates/pl-afk/src/config.rs:572-589 | The text read as decimals is that number of thousandths, with a sign if and only if the number is negative and not zero. |
| DecimalFormat.DotnetNumber | crates/pl-afk/src/config.rs:510-589 | For all digits and exponents the text says exactly the number of thousandths nearest to the float, half away from zero, with its sign unless that is zero. |
| DecimalFormat.ShownShape | crates/pl-afk/src/config.rs:504-509 | One to three decimals, no needless zero at either end, a sign only on what is not zero. |
| DecimalFormat.ShownTold | crates/pl-afk/src/config.rs:504-509 | Two numbers are written alike if and only if they round to the same thousandths with the same sign, or to zero. |
| Versions.Chunks | crates/pl-afk/src/runtime.rs:549-560 | The loop over boundaries cuts a name into its runs. |
| Versions.ChunksAreRuns | crates/pl-afk/src/runtime.rs:549-560 | The pieces concatenate back to the name; each is all digits or none, and neighbours differ. |
| Versions.RunsOnce | crates/pl-afk/src/runtime.rs:549-560 | There is no other way to cut it so. |
| Versions.CompareVersions | crates/pl-afk/src/runtime.rs:516-536 | The loop over both lists compares them run by run. |
| Versions.Flips | crates/pl-afk/src/runtime.rs:516-536 | For all names, comparing the other way round gives the opposite. |
| Versions.FineTransitive | crates/pl-afk/src/runtime.rs:516-536 | On names whose runs begin with no character below the dash and whose numbers fit or begin with nineteen nines and do not, the comparison is transitive, and level only throughout. |
| Versions.LevelChunks | crates/pl-afk/src/runtime.rs:516-536 | Names whose numbers fit and whose runs begin with no character below the dash are level if and only if their runs are the same up to zeros in front of numbers. |
| Versions.PlainNamesGood | crates/pl-afk/src/runtime.rs:504-510 | Valid names without a plus are such names if their numbers fit. |
| Versions.SuffixOrder | crates/pl-afk/src/runtime.rs:512-536 | Behind a number, a suffix with a dash makes an earlier version, any other a later one. |
| Versions.NumbersDecide | crates/pl-afk/src/runtime.rs:513-536 | Behind the same start the smaller number makes the earlier version, whatever follows and however they are written. |
| Versions.TextsDecide | crates/pl-afk/src/runtime.rs:512-536 | Behind the same number the runs that follow compare as texts do. |
| Versions.VIgnored | crates/pl-afk/src/runtime.rs:538-547 | A `v` before a number makes no difference. |
| Versions.VCounts | crates/pl-afk/src/runtime.rs:538-547 | Any other `v` at the start does. |
| Ordering.TextLess | crates/pl-afk/src/runtime.rs:516-536 | Texts compare as in a dictionary: by the first different character, a start before what it begins. |
| Versions.InOrderIff | crates/pl-afk/src/runtime.rs:516-536 | Any name is in no circle with such names if and only if its first run that begins below the dash or does not fit, if there is one, is a number that begins with nineteen nines. |
| Versions.LowSuffixCircle | crates/pl-afk/src/runtime.rs:516-536 | A suffix that begins below the dash makes a circle of three names. |
| Versions.BigNumberCircle | crates/pl-afk/src/runtime.rs:525-528 | The valid name `19000000000000000000` stands in a circle of three names. |
| Versions.BigNumberInOrder | crates/pl-afk/src/runtime.rs:504-536 | The valid name of twenty nines does not fit and stands in none. |

## Left out

- Pattern parsing, Unicode classes and case tables: a one-character part carries its character set, and whether a part is spelled alike for both engines is a flag on it.
- Assertions and flags match nothing here: they only narrow what matches, so the uniqueness results hold with them.
- The pattern's length and nesting limits, `anchored` and the count of loops that can give back: a measured heuristic, not a property of the language.
- Kick phrase tables and message texts: what they find in a message is a parameter, and so is which addresses may be opened, which characters are forbidden and how many bytes a look's JSON takes.
- Tokio tasks, channels, processes, files, clocks and logging: their answers come with the events, as outcomes and times. `CancellationToken`s are the fired waiters of the preparation.
- Session: the login script, the bridge's dialog events, step cards and the emitted copies of the state.
- Restart: `attempts` as a 32-bit number that saturates, and floating-point rounding of the delays, which are reals.
- Preparation: which step a card shows, and the staggered bulk run on top of it.
- Masking: `fold` is a parameter with what the mask needs of it (only `*` folds to `*`, only a space to a space, only a tab to a tab); white space is one too, the list of sensitive command names only decides which lines become secrets, and `classify` a line's kind.
- Looks.FitMeans: does not say that fewer hovers or events mean fewer bytes; the size is an abstract function of the look.
- LineReader: how bytes are decoded (a parameter), and the receiver that may stop listening.
- Pacing: times are whole numbers and do not overflow.
- History: textures, pictures and the daily tidy-up; the file's JSON (a damaged or oversized file that is set aside reads as empty, as a missing one does), and texture ids come as given.
- DecimalFormat: printing a double as 15 significant digits; the model starts from those digits and allows any number of them.
- Versions: which installed version is chosen and which folders are pruned, which would only add easy members.
- Account models, form fields, dialogs, the legacy JSON shapes, the rest of `pl-auth`, and the TypeScript, Python and Java parts of the repository: tables, user interface, network and library code.
