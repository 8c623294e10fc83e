# Connecting Wires and the `/fg` address rewrite, modelled in Dafny

This project models two parts of the office-games site:

- **The Connecting Wires puzzle** (`connecting-wires/app.js`). Each level shows a left column and a right column of coloured wire sockets. The right column holds the same wire types as the left, in an order given by a second shuffle, which may be the same order. The player drags from a left socket to the right socket of the same colour. Once there are as many wires as left sockets, the level counts as solved: after a short pause an overlay appears and the next level is built. The high score is the highest level reached, and it is kept in browser storage.
- **The client-side address rewrite** (`script.js`). An address whose path, after collapsing runs of `/`, is `/fg`, `/fg/`, `/fg/index.html` or `/fg/index.html/` is replaced by `/the-office-games`. The query string and the fragment are kept.

## Modules

- `Wrappers`: the `Option` type.
- `Catalog`: the eight wire types (`wireTypes`, app.js:2-11).
- `Levels`: how many wires a level has, and the shuffled deal for a level. The random shuffles are inputs given as index permutations (`order`, `rightOrder`). `Array.prototype.sort` with a random comparator always returns some reordering of its items, and a permutation argument stands for any such outcome.
- `Puzzle`: the game state as the class `Game`. Its fields are the module-level variables of app.js (lines 14-20), the two socket columns, the stored score and the pending timers. Each event handler is a method.
  - `Valid()` holds after every handler.
  - The ledger (`Ledger`) relates `connections` to the connected sockets of both columns.
  - The two `setTimeout` callbacks of `checkWin` (app.js:220-225) become `Timer` values in the field `timers`. Any pending timer may be fired next.
  - The 10 ms callback of `stopDrag` (app.js:198-203) is the method `StopDrag`, which may run at any point.
- `UrlRewrite`: the decision made by `script.js`, as a pure function from `(pathname, search, hash)` to the new address, if any.
- `Scenarios`: two runs that show consequences of `initGame` cancelling neither the pending timers nor a running drag.

Behaviour that the model makes explicit:

- `initGame` does not clear the timers that `checkWin` scheduled. Pressing reset after a level is solved, before the overlay appears or while it is shown, therefore lands on level 2, not level 1 (`Scenarios.ResetDuringTransitionStillAdvances`, `Scenarios.ResetUnderOverlayStillAdvances`).
- `initGame` does not end a running drag either. A drag started before a rebuild can be released over a socket of the new level. Only the right socket is then marked connected, because the left socket it started from no longer exists. `connections` then holds a wire that no left socket accounts for. `Ledger` allows for this by stamping each drag origin with the number of the rebuild that created it (`generation`). `Scenarios.StaleDragConnectsOneSide` exhibits the case.
- The stored score is used as it is: `if (storedScore) highScore = parseInt(storedScore, 10)`. A stored `"0"` gives a high score of 0. There is no fallback to 1 for a non-empty stored value; only an absent or empty value gives 1.
- In `script.js` the two guards against rewriting to the current address can never fire once the path matches (`UrlRewrite.GuardsNeverBlock`).

## Model

| member | source | states |
|---|---|---|
| Catalog.WireTypes | connecting-wires/app.js:2-11 | the eight wire types, colour and symbol, in the order of the source |
| Catalog.CatalogColorsDistinct | connecting-wires/app.js:2-11 | the catalog has eight wire types and their colours are pairwise distinct |
| Catalog.ColorIdentifiesEntry | connecting-wires/app.js:2-11 | the eight wire types have pairwise distinct colours, so two catalog entries with the same colour are the same entry |
| Levels.WireCount | connecting-wires/app.js:51 | a level has at most 8 wires and at least 3 from level 1 on, and it has all 8 exactly from level 10 on |
| Levels.WireCountMonotone | connecting-wires/app.js:51 | a higher level never has fewer wires |
| Levels.WireCountExamples | connecting-wires/app.js:51 | levels 1, 2, 3, 4, 9, 10 and 20 have 3, 4, 4, 5, 7, 8 and 8 wires |
| Levels.PermutationOnto | connecting-wires/app.js:52 | a list of n distinct positions below n contains every position below n |
| Levels.PermuteKeepsItems | connecting-wires/app.js:52 | reordering distinct items keeps them distinct, with the same items and the same multiset |
| Levels.PermuteKeepsColorsDistinct | connecting-wires/app.js:57 | reordering keeps the colours pairwise distinct |
| Levels.ShuffledPrefix | connecting-wires/app.js:52-53 | the first n items of a shuffled palette with distinct colours are n distinct palette entries with distinct colours |
| Levels.LevelWiresLayout | connecting-wires/app.js:51-53 | the left column of a level has WireCount(level) wire types, between 3 and 8, all from the catalog, all distinct and with distinct colours |
| Levels.DealLayout | connecting-wires/app.js:51-58 | the right column has the same wire types as the left one, the same number of each, in some order, with distinct colours on each side |
| Levels.LevelWires | connecting-wires/app.js:51-53 | the left column's wire types: the first WireCount(level) entries of the catalog in the shuffled order |
| Levels.RightWires | connecting-wires/app.js:57 | the right column's wire types: the left column's wire types reordered by the second shuffle |
| Levels.DistinctSetSize | connecting-wires/app.js:52 | a list of distinct positions has as many elements as its set |
| Levels.DistinctAtMostOnce | connecting-wires/app.js:52 | in a list of distinct items, every item occurs at most once |
| Puzzle.LoadedScore | connecting-wires/app.js:36-37 | the high score at start-up: the stored value when one is stored, otherwise 1 |
| Puzzle.Commits | connecting-wires/app.js:162-166 | the test that decides whether a drop connects: a socket is under the pointer, it is a right socket, it has the colour of the socket the drag started from, and it is not connected yet |
| Puzzle.BuildColumn | connecting-wires/app.js:55 | the socket-creating loop gives one unconnected socket per wire type, in order |
| Puzzle.BuildLevel | connecting-wires/app.js:51-58 | the two columns built for a level are unconnected sockets for the level's deal and form a valid layout |
| Puzzle.CommitKeepsLedger | connecting-wires/app.js:162-175 | marking the right target and the origin (if it is in the current columns) and appending the wire keeps connections consistent with both columns |
| Puzzle.CountConnectedMark | connecting-wires/app.js:169-170 | marking an unconnected socket raises the column's connected count by one and keeps its wire types |
| Puzzle.CountConnectedBounds | connecting-wires/app.js:216-218 | a column has at most as many connected sockets as sockets, and the counts are equal exactly when every socket is connected |
| Puzzle.CountConnectedAppend | connecting-wires/app.js:55 | adding a socket adds one to the count exactly when it is connected |
| Puzzle.CountFromBound | connecting-wires/app.js:175 | no more wires come from one level build than there are wires, and all of them do exactly when the counts are equal |
| Puzzle.SolvedIffAllConnected | connecting-wires/app.js:216-219 | the level is marked solved exactly when every right socket is connected |
| Puzzle.LedgerBounds | connecting-wires/app.js:169-175 | connections never outnumber the left sockets, and there are never fewer of them than connected left sockets |
| Puzzle.LedgerMatchesLeft | connecting-wires/app.js:169-175 | when every wire came from the current columns, there is exactly one wire per connected left socket |
| Puzzle.UniquePartner | connecting-wires/app.js:53-58 | every left socket has exactly one right socket of its colour, so every level can be solved and a match is never ambiguous |
| Puzzle.Game.constructor | connecting-wires/app.js:36-39 | the stored score, or 1 when none is stored, becomes the high score, and level 1 is built with nothing connected, no drag and no timer |
| Puzzle.Game.InitGame | connecting-wires/app.js:42-59 | empties connections, hides the overlay, clears isTransitioning and builds the current level's columns; the level, the score, the timers and any running drag stay |
| Puzzle.Game.DragStart | connecting-wires/app.js:95-102 | a drag from left socket i starts unless the level is being left or the socket is connected; nothing else changes |
| Puzzle.Game.DragEnd | connecting-wires/app.js:152-181 | a running drag released over an unconnected right socket of its colour connects it (and its origin, if that is in the current columns), appends one wire and runs the win check; any drag ends |
| Puzzle.Game.CheckWin | connecting-wires/app.js:216-227 | when there are as many wires as left sockets, input is blocked and the overlay timer is scheduled; otherwise nothing changes |
| Puzzle.Game.CleanUpDrag | connecting-wires/app.js:206-209 | afterwards no drag runs; nothing else changes |
| Puzzle.Game.StopDrag | connecting-wires/app.js:197-204 | the delayed check cancels a drag still running and changes nothing else |
| Puzzle.Game.FireShowOverlay | connecting-wires/app.js:220-222 | the first timer shows the overlay and schedules the advance |
| Puzzle.Game.FireAdvance | connecting-wires/app.js:222-224 | the second timer moves to the next level with fresh columns and updates the high score as nextLevel does |
| Puzzle.Game.NextLevel | connecting-wires/app.js:229-237 | the level goes up by one; the high score and the stored value become the new level exactly when it beats the high score; the new level is built |
| Puzzle.Game.TriggerReset | connecting-wires/app.js:244-247 | back to level 1 with fresh columns; the high score and the stored value stay |
| Scenarios.ResetDuringTransitionStillAdvances | connecting-wires/app.js:216-247 | a reset after a level is solved but before the overlay appears still ends on level 2 once the pending timers fire |
| Scenarios.ResetUnderOverlayStillAdvances | connecting-wires/app.js:216-247 | a reset while the overlay is shown and the advance timer is pending still ends on level 2 once that timer fires |
| Scenarios.StaleDragConnectsOneSide | connecting-wires/app.js:95-247 | a drag that survives a reset and a level advance can connect a right socket of the new level while no left socket becomes connected |
| UrlRewrite.Normalize | script.js:11 | collapsing slash runs keeps the first character, never lengthens the path and leaves no doubled slash |
| UrlRewrite.NormalizeFixedPoint | script.js:11 | a path is left unchanged exactly when it has no doubled slash |
| UrlRewrite.NormalizeIdempotent | script.js:11 | normalizing twice is the same as normalizing once |
| UrlRewrite.NormalizeKeepsNonSlash | script.js:11 | every character other than a slash is kept, in order |
| UrlRewrite.NormalizeIsCollapse | script.js:11 | normalizing equals the character-by-character reference: a `/` is dropped exactly when the character before it is a `/`, so every run of slashes becomes exactly one `/` and nothing else changes |
| UrlRewrite.NormalizeIsCollapseFrom | script.js:11 | the induction behind the reference: normalizing equals collapsing from a start with no slash before it, and after a slash the collapse is the normal form without its leading `/` |
| UrlRewrite.MatchesFgPattern | script.js:14 | the regular expression read as written: `/fg`, then optionally `/index.html`, then optionally `/`, then the end of the string |
| UrlRewrite.MatchesFgPatternExactly | script.js:14 | the pattern accepts exactly `/fg`, `/fg/`, `/fg/index.html` and `/fg/index.html/` |
| UrlRewrite.Rewrite | script.js:6-27 | a new address is produced exactly when the normalized path is one of the four `/fg` forms, and it is the target path followed by the original query string and fragment |
| UrlRewrite.SameAddressIsTarget | script.js:21 | with the same query string and fragment, only the target path gives the target address |
| UrlRewrite.GuardsNeverBlock | script.js:17-21 | for a matching path, the normalized path is never the target and the current address never equals the new one |
| UrlRewrite.RewriteSettles | script.js:16-21 | on the target path, whatever the query string and fragment, no new address is produced, so a rewritten address is not rewritten again |
| UrlRewrite.TargetIsNormal | script.js:17 | the target path is already normal and is not one of the `/fg` forms |

## Left out

- DOM construction (`createSocket`, `innerHTML` resets, the text of the level and score displays) is left out; the columns are modelled as sequences of `(wire type, connected)` records.
- The contrast colour of each socket's symbol (app.js:74-78) is presentation only and is left out.
- SVG geometry is left out: `handleDragMove`, `updateWire`, `snapWireToTarget` and the path element `activeWire` only draw the wire. Removing an uncommitted path is not modelled either.
- `checkWin` counts the elements matching `.column-left .socket` (app.js:217). The model uses the length of `left` instead, taking that selector to match exactly the sockets of the left column `left-col` (app.js:27). The page markup that would confirm this is not part of this model.
- Event listener registration is left out. The pointer target that `handleDragEnd` finds (`closest('.socket')`, `elementFromPoint` for touch) is a parameter: a socket reference or none.
- Shuffle uniformity is left out. Any permutation is allowed as the outcome of each random sort.
- Timer durations (300 ms and 1500 ms, and 10 ms in `stopDrag`) are left out. Any pending timer may fire at any point, which admits more interleavings than the real clock does.
- `localStorage` is modelled as the field `stored`, not as I/O.
- Puzzle.Game.constructor: a stored string that `parseInt` turns into `NaN` is not modelled. The stored score is an optional integer, and an absent or empty string is `None`.
- The year display (app.js:35) and `triggerHome` (app.js:240-242) are navigation and display only, and are left out.
- UrlRewrite.Rewrite: reading `window.location` and calling `history.replaceState` are browser I/O and are left out. The `try`/`catch` is not modelled, since the decision is total. `search || ''` and `hash || ''` are not modelled because `search` and `hash` are always strings here; a missing part is `""`.
- The regular expression engine is not modelled in general. The pattern of script.js:14 is written out as a predicate over strings.
