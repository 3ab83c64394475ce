# Trump tap game: the clicker page's game rules in Dafny

The page component `Index` (src/pages/Index.tsx) is a clicker game. It keeps:

- a score (`clicks`) and a click power;
- eight cosmetic skins, unlocked by score thresholds, and the skin currently selected;
- three mini-games: a ten-second speed round, a memory round, and a lucky wheel.

This project models the component's state and every handler that changes it. It also proves what those handlers promise, one step at a time and over whole plays.

Files:

- `skins.dfy` (modules `Wrappers`, `Skins`) holds the fixed skin table and the two parts of the unlock effect: recomputing every skin's flag from the score, and finding the first skin that was newly unlocked. It also holds the two values the page derives from them: the data of the selected skin and the next milestone.
- `rules.dfy` (module `Rules`) is the specification. `State` has one field per piece of component state a handler touches, plus the notifications shown so far. Each handler is one pure function from state to state. Setting the score and the unlock effect that reacts to it are one step, `SetClicks`. The invariant `Valid` is proved to hold across every handler.
- `play.dfy` (module `Play`) defines actions, the controls the page offers in a state (`Enabled`), and runs of actions from the initial state. It proves facts about every reachable state and about whole rounds.
- `index.dfy` (module `IndexPage`) holds the class `Index`. It has one mutable field per `useState`, except the cosmetic `isClicking` and `showConfetti`. It has one method per handler, plus `TimerTick` for one firing of the countdown effect. Each handler method updates the fields in place and is proved to perform exactly the transition `Rules` gives for that handler, and to keep `Valid`. The helper methods `OnClicksChanged`, `SetClicks`, `BuyPower`, `MemoryMiss` and `MemoryComplete` are proved to give the new state only.

The model follows four behaviours of the code as written:

- **The memory round never accepts input.** `showingSequence` is set when a sequence is dealt and never cleared. `Play.MemoryButtonsNeverEnabled` proves that no reachable state lets the player enter a symbol.
- **The lucky wheel is free.** Its button is disabled below 100 clicks, but a spin deducts nothing.
- **The selected skin can become locked again.** Buying an upgrade lowers the score, and the selected skin stays selected. `Rules.SelectedSkinCanRelock` shows this from a valid state with 1000 clicks. `Play.SelectedSkinRelocksInPlay` shows it in a play from the start: 1000 presses, then choosing the business card, then buying an upgrade.
- **The progress-bar milestone is always 1000.** It is computed from the constant table, not from the recomputed skin list.

## Model

| member | source | states |
|---|---|---|
| Skins.Recompute | src/pages/Index.tsx:62-65 | the effect's `map`: same length, ids and thresholds kept, each skin unlocked exactly when the score reaches its threshold |
| Skins.FindNewlyUnlockedFrom | src/pages/Index.tsx:67-69 | the effect's `find`: returns the first index whose skin went from locked to unlocked and is not `default`; returns none exactly when there is no such index |
| Skins.FindByIdFrom | src/pages/Index.tsx:57 | `skins.find(s => s.id === currentSkin)` as an index: the first match, or none when no skin has that id |
| Skins.CurrentSkinData | src/pages/Index.tsx:57 | `currentSkinData` is a skin of the list carrying the selected id, or `SKINS[0]` when no skin has that id |
| Skins.FindLockedFrom | src/pages/Index.tsx:58 | `find(s => !s.unlocked)` as an index: the first locked skin, or none when all are unlocked |
| Skins.NextMilestoneIsConstant | src/pages/Index.tsx:58 | `nextMilestone` reads the constant table, so it is 1000, the business skin's threshold, whatever the state |
| Skins.Position | src/pages/Index.tsx:25-34 | every skin id has an entry in the table |
| Skins.SkinTable | src/pages/Index.tsx:25-34 | eight skins; `default` first with threshold 0; the others have thresholds of at least 1000, strictly increasing; ids are distinct |
| Skins.RecomputeTwice | src/pages/Index.tsx:61-65 | recomputing the flags again depends only on the latest score |
| Skins.UnlockCrossing | src/pages/Index.tsx:67-69 | moving the score from c0 to c1 newly unlocks skin i exactly when i is not `default` and its threshold lies in (c0, c1] |
| Skins.FirstUnlockedIsFirstCrossed | src/pages/Index.tsx:61-71 | the effect finds nothing exactly when no threshold is crossed; otherwise it finds the first crossed skin in table order |
| Skins.FirstCrossedUnique | src/pages/Index.tsx:67-69 | the first crossed skin is unique |
| Skins.DefaultStaysUnlocked | src/pages/Index.tsx:26 | with a non-negative score the `default` skin is always unlocked |
| Skins.UnlockedIsPrefix | src/pages/Index.tsx:25-34 | the unlocked skins are always a prefix of the table |
| Rules.SetClicksShape | src/pages/Index.tsx:61-81 | after `setClicks` and the effect: only the score, the flags and the notifications change; the flags match the new score; at most one notification is appended |
| Rules.UnlockNotice | src/pages/Index.tsx:61-81 | a notification fires exactly when some non-base threshold lies in (old score, new score]; it names the first such skin |
| Rules.ScoreFallIsQuiet | src/pages/Index.tsx:67-71 | lowering the score, or keeping it, never fires an unlock notification |
| Rules.NoNoticeBelowFirstThreshold | src/pages/Index.tsx:67-71 | below 1000 clicks no unlock notification can fire |
| Rules.UnchangedScoreIsQuiet | src/pages/Index.tsx:61-81 | running the effect with the score unchanged changes nothing |
| Rules.SetClicksValid | src/pages/Index.tsx:61-81 | setting a non-negative score keeps the invariant |
| Rules.ClickAddsPower | src/pages/Index.tsx:92-93 | `handleClick` adds exactly the click power, changes no other game field, and keeps the invariant |
| Rules.UpgradeSpendsOrRefuses | src/pages/Index.tsx:261-272 | with at least 500 clicks: exactly 500 are spent, power rises by 1, one purchase notice, no unlock notice; with fewer: only a refusal notice |
| Rules.SelectOnlyUnlocked | src/pages/Index.tsx:294-302 | a card changes the selected skin exactly when the score has reached its threshold; a locked card only reports its threshold |
| Rules.SelectedSkinCanRelock | src/pages/Index.tsx:263 | from a valid state with 1000 clicks: select `business`, buy an upgrade, and the selected skin is now locked |
| Rules.SpeedRoundSteps | src/pages/Index.tsx:83-106 | start arms 10 seconds and a zero tally; a speed click adds 1; a running tick with time left takes one second off; an idle tick does nothing; the invariant is kept |
| Rules.EndSpeedPaysTwiceTally | src/pages/Index.tsx:108-115 | the tick at 0 ends the round, adds exactly twice the tally, and reports the bonus and the tally |
| Rules.StartMemoryDeals | src/pages/Index.tsx:117-126 | the dealt sequence has `memoryLevel + 2` symbols in 0..3; the input is emptied and the sequence is marked as showing |
| Rules.MemoryClickBlockedWhileShowing | src/pages/Index.tsx:129 | while the sequence is showing, a symbol changes nothing |
| Rules.MemoryClickOutcomes | src/pages/Index.tsx:128-155 | a wrong symbol pays level × 50, resets the level to 1 and clears the round; the last right symbol pays level × 100, raises the level and clears the round; any other right symbol extends the input, which stays a proper prefix; the level stays at least 1 |
| Rules.MemoryClickValid | src/pages/Index.tsx:128-155 | a symbol keeps the invariant |
| Rules.SpinAddsPrize | src/pages/Index.tsx:157-164 | a spin adds one of 50, 100, 200, 500 or 1000, deducts nothing, and reports the prize |
| Play.InitialValid | src/pages/Index.tsx:43-55 | the initial state satisfies the invariant |
| Play.StepPreservesValid | src/pages/Index.tsx:92-164 | every control keeps the invariant |
| Play.RunPreservesValid | src/pages/Index.tsx:92-164 | every play from a valid state keeps the invariant |
| Play.ReachableValid | src/pages/Index.tsx:43-55 | in every reachable state: score ≥ 0, power ≥ 1, level ≥ 1, countdown in 0..10, flags matching the score, the input a proper prefix of the dealt sequence |
| Play.ReachableShowsSelectedSkin | src/pages/Index.tsx:57 | in every reachable state `currentSkinData` is the selected skin, never the fallback |
| Play.ShowingSequenceIsPermanent | src/pages/Index.tsx:121 | once the sequence is showing it stays showing, and the memory level never changes again |
| Play.MemoryButtonsNeverEnabled | src/pages/Index.tsx:376-396 | in no reachable state are the symbol buttons enabled |
| Play.NoMemoryInputWhenValid | src/pages/Index.tsx:396 | in a valid state a dealt sequence is always showing |
| Play.CountdownPays | src/pages/Index.tsx:83-90 | from a running round, timer + 1 ticks end it and add exactly twice the tally |
| Play.SpeedClicksCount | src/pages/Index.tsx:98-100 | k speed clicks in a running round raise the tally by k and change nothing else |
| Play.IdleRoundStays | src/pages/Index.tsx:83-90 | once the round is over, speed clicks are not offered and ticks change nothing |
| Play.SpeedRoundInterleaved | src/pages/Index.tsx:83-115 | a running round under any interleaving of speed clicks and ticks: it runs exactly while at most `speedTimer` ticks have fired, with the clock down by one per tick; the tally counts exactly the clicks made while it ran; the score is untouched while it runs and has grown by twice the final tally once it ends |
| Play.SpeedRoundPaysTwiceTally | src/pages/Index.tsx:102-115 | start, k clicks, eleven ticks: the round ends and the score grows by exactly 2k |
| Play.ScoreFallsOnlyOnUpgrade | src/pages/Index.tsx:261-264 | the score falls only through a bought upgrade, and then by exactly 500 |
| Play.ClicksAccumulate | src/pages/Index.tsx:92-93 | n presses of the main button add n × click power |
| Play.QuietClicks | src/pages/Index.tsx:67-71 | while the score stays below 1000, presses fire no notification |
| Play.UpgradeAfterClicks | src/pages/Index.tsx:261-267 | from the start, n presses (500 ≤ n < 1000), then an upgrade: n − 500 clicks, power 2, one purchase notice |
| Play.UpgradeStep | src/pages/Index.tsx:261-267 | the upgrade control, with at least 500 clicks, spends 500 and adds one power |
| Play.SelectedSkinRelocksInPlay | src/pages/Index.tsx:261-302 | from the start: 1000 presses, choose the business card, buy an upgrade; the selected skin is `business` and is locked |
| Play.ChooseThenUpgrade | src/pages/Index.tsx:261-302 | at 1000 clicks, choosing the business card and then upgrading leaves it selected and locked |
| Play.UpgradeKeepsSkin | src/pages/Index.tsx:261-264 | a bought upgrade keeps the selected skin and recomputes the flags for the lowered score |
| Play.WheelIsGatedButFree | src/pages/Index.tsx:415-419 | at 100 clicks or more a spin adds the prize and deducts nothing; below 100 the disabled button does nothing |
| IndexPage.Index.constructor | src/pages/Index.tsx:43-55 | the fields start at the initial state, which is valid |
| IndexPage.Index.OnClicksChanged | src/pages/Index.tsx:61-81 | the effect updates the fields as `Rules.UnlockEffect` |
| IndexPage.Index.SetClicks | src/pages/Index.tsx:61-81 | setting the score and running the effect update the fields as `Rules.SetClicks` |
| IndexPage.Index.HandleClick | src/pages/Index.tsx:92-96 | the fields become `Rules.Click` of the old ones: score + power; the invariant is kept |
| IndexPage.Index.BuyUpgrade | src/pages/Index.tsx:261-273 | the fields become `Rules.Upgrade` of the old ones: −500 and +1 power, or unchanged; the invariant is kept |
| IndexPage.Index.BuyPower | src/pages/Index.tsx:262-267 | the purchase branch: power + 1, purchase notice, score − 500 followed by the unlock effect |
| IndexPage.Index.SelectSkin | src/pages/Index.tsx:294-303 | the fields become `Rules.SelectSkin`: the selection changes only to an unlocked skin; the invariant is kept |
| IndexPage.Index.StartSpeedGame | src/pages/Index.tsx:102-106 | active, 10 seconds, zero tally; the invariant is kept |
| IndexPage.Index.HandleSpeedClick | src/pages/Index.tsx:98-100 | the tally grows by 1; the invariant is kept |
| IndexPage.Index.EndSpeedGame | src/pages/Index.tsx:108-115 | the fields become `Rules.EndSpeed`: the round stops and the score grows by twice the tally; the invariant is kept |
| IndexPage.Index.TimerTick | src/pages/Index.tsx:83-90 | one second off while time is left; at 0 the round ends and pays; the invariant is kept |
| IndexPage.Index.StartMemoryGame | src/pages/Index.tsx:117-126 | the dealt sequence is stored, the input emptied, the sequence shown; the invariant is kept |
| IndexPage.Index.HandleMemoryClick | src/pages/Index.tsx:128-155 | the fields become `Rules.MemoryClick`; no change while showing; the invariant is kept |
| IndexPage.Index.MemoryMiss | src/pages/Index.tsx:134-142 | the wrong-symbol branch: pays level × 50, level 1, round cleared |
| IndexPage.Index.MemoryComplete | src/pages/Index.tsx:145-154 | the completing branch: pays level × 100, level + 1, round cleared |
| IndexPage.Index.SpinLuckyWheel | src/pages/Index.tsx:157-164 | the score grows by the chosen prize; the invariant is kept |

## Left out

- Rendering: the JSX, styling, the image, the emoji and the confetti layout. These are presentation only.
- `toast` notifications: the model appends a `Notice` value that records which notification fired and the numbers it quotes. The message texts are not modelled.
- `isClicking`, `showConfetti` and their `setTimeout` resets: these are cosmetic timers.
- The speed-round countdown's one-second delay: each firing of the effect is an explicit `TimerTick` step, with no wall-clock time. The page ends the round in the effect that runs right after the render that shows 0. The model ends it only at the next `TimerTick`, so in the model a speed click made while the clock shows 0 still counts.
- `progress`: it divides without rounding, so it is a floating-point value.
- `Math.random`: the dealt symbols and the prize position are parameters, restricted to the values the random draw can produce. Randomness itself is not modelled.
- React scheduling: each handler is one atomic step that reads the current state, so batching and stale closures are not modelled.
- Skipped effects: React skips the unlock effect when the score is set to the value it already has, but the model runs it. `Rules.UnchangedScoreIsQuiet` proves that this makes no difference.
- Number width: scores are unbounded integers, so JavaScript number precision above 2^53 is not modelled.
- `MINI_GAMES`: a display-only table.
- The skins' display names and emoji: notifications record the skin's identity, not the text shown.
