# LS-Puzzle: a Dafny model of the puzzle core

LS-Puzzle is a browser jigsaw game for children, with a calmer "TEA" mode for
autistic players. A photo is cropped to a square and cut into a grid of tiles.
In the TEA mode the tiles are offered one at a time, and the child taps the board
slot where each one belongs. This project models the rules behind that, and proves
what they promise:

- **Grid planning** (`grid.dfy`). `calculateGrid` searches for the divisor layout
  closest to the aspect ratio.
- **Tiling** (`tiling.dfy`). This covers the centre crop and the raster-order tile
  records of `splitIntoPieces`.
- **Shuffling** (`shuffle.dfy`, `random.dfy`). `shufflePieces` runs a Fisher–Yates
  pass on an array copy, then repositions the pieces by index.
- **Seed hash** (`seed.dfy`). This is the 31× rolling hash of `generateSeed`, with
  32-bit truncation.
- **File validation** (`validation.dfy`).
- **The sequential game** (`game_screen.dfy`). It is a class whose click handler is
  proved against a step function. An invariant holds from a fresh start through every
  click: the placed ids are exactly the ones before the current piece. A level or
  image change on a mounted screen keeps the old progress, and that can break it.
- **TEA screens**. These are level selection (`phase_screen.dfy`), the photo list
  (`upload_screen.dfy`), the name editor (`register_screen.dfy`), the settings panel
  (`settings_panel.dfy`) and the countdown (`transition_screen.dfy`).
- **Configuration data** (`constants.dfy`). The board shapes the level tables lead
  to are in `level_layouts.dfy`.

`numerals.dfy` holds decimal rendering and `parseInt` on digit strings.
`arith.dfy` holds division facts, and `wrappers.dfy` holds `Option`.

Modelling conventions:

- JavaScript numbers in ratios and volumes are exact reals.
- `Infinity`, `null` and missing fields are `Option`.
- Strings are sequences of characters. The seed hash works on UTF-16 code units.
- Every random source is a parameter. A generator is modelled as the sequence of
  values in [0, 1) that it returns.
- Each React state setter is a field assignment, and each timer-delayed step is part
  of the event that schedules it.

## Model

| member | source | states |
|---|---|---|
| Grid.CalculateGrid | src/shared/utils/imageProcessing.js:9-28 | the loop returns the search result; below 2 pieces it is 2 x 2; from 2 pieces on, rows * cols is the piece count, cols >= 2, and the layout is the closest-ratio divisor |
| Grid.BestLayoutIsBest | src/shared/utils/imageProcessing.js:14-25 | for pieceCount >= 2 the result divides exactly and no examined divisor is closer to the aspect ratio; every divisor with fewer columns is strictly farther, so ties go to the fewest columns |
| Grid.SearchFindsBest | src/shared/utils/imageProcessing.js:14-25 | from any search state that summarises the divisors already examined, the rest of the loop ends on a best layout |
| Grid.SearchKeepsBest | src/shared/utils/imageProcessing.js:20-24 | the strict `<` keeps the current layout once no later divisor is strictly closer |
| Grid.SmallPieceCountDefault | src/shared/utils/imageProcessing.js:10-14 | with fewer than 2 pieces the loop never runs and 2 x 2 comes back |
| Grid.PrimeIsOneRow | src/shared/utils/imageProcessing.js:14-25 | a prime piece count p gives 1 row of p columns |
| Grid.SquareCountIsSquareGrid | src/shared/utils/imageProcessing.js:14-25 | with aspect ratio 1, k * k pieces (k >= 2) give a k x k grid |
| Tiling.CenterCrop | src/shared/utils/imageProcessing.js:39-41 | the crop side is the shorter side; both offsets are non-negative, at least one is 0, and the margins are equal on both ends |
| Tiling.SplitIntoPieces | src/shared/utils/imageProcessing.js:54-87 | exactly rows * cols records in raster order: record i has id i, correct position (i / cols, i % cols), current position equal to it, its own tile, and is not placed |
| Tiling.RasterTilingCoversGrid | src/shared/utils/imageProcessing.js:74-79 | every grid cell (row, col) is the correct position of the record at index row * cols + col |
| Tiling.RasterTilingInjective | src/shared/utils/imageProcessing.js:74-79 | distinct records have distinct correct positions |
| Randomness.ScaledIndex | src/shared/utils/imageProcessing.js:97 | `Math.floor(r * n)` for a draw r in [0, 1) is an index below n |
| Shuffle.FisherYatesInPlace | src/shared/utils/imageProcessing.js:96-99 | the in-place swap loop leaves the array equal to the Fisher–Yates specification of its old contents |
| Shuffle.FisherYatesPermutes | src/shared/utils/imageProcessing.js:96-99 | the Fisher–Yates pass returns a permutation of its input |
| Shuffle.KeysPermutation | src/shared/utils/imageProcessing.js:91-110 | rearranging pieces rearranges their position-free parts the same way |
| Shuffle.Reposition | src/shared/utils/imageProcessing.js:106-110 | the piece at index k gets current position (k / cols, k % cols) and keeps every other field |
| Shuffle.ShufflePieces | src/shared/utils/imageProcessing.js:90-111 | the method returns the shuffle specification: Fisher–Yates on a copy when deterministic and the seed is truthy, otherwise the sorted copy, then repositioned |
| Shuffle.ShuffledIsPermutation | src/shared/utils/imageProcessing.js:90-111 | the result has the input's length, holds the same pieces up to current position (ids, correct positions and images preserved), and places element k at (k / cols, k % cols) |
| Shuffle.ZeroSeedIsNotSeeded | src/shared/utils/imageProcessing.js:93 | a seed of 0 skips the seeded branch even when deterministic is set |
| Seed.GenerateSeed | src/shared/utils/imageProcessing.js:123-132 | the loop returns the absolute value of the 32-bit hash of imageUrl + userId, equal to the hash polynomial truncated once, in [0, 2^31] |
| Seed.HashStep | src/shared/utils/imageProcessing.js:128-129 | one step of the loop leaves the hash within the 32-bit signed range |
| Seed.HashStepIsTimes31 | src/shared/utils/imageProcessing.js:128-129 | `((h << 5) - h) + c` truncated by `h & h` is ToInt32(31 * h + c) |
| Seed.HashIsPolynomial | src/shared/utils/imageProcessing.js:126-130 | the hash equals ToInt32 of sum s[i] * 31^(n-1-i), so per-step truncation does not change the result |
| Seed.ToInt32 | src/shared/utils/imageProcessing.js:130 | the truncation lies in [-2^31, 2^31) and is congruent to its argument modulo 2^32 |
| Seed.EmptySeedIsZero | src/shared/utils/imageProcessing.js:124-131 | the empty concatenation has seed 0 |
| Seed.SplitsCollide | src/shared/utils/imageProcessing.js:125 | two argument pairs with the same concatenation get the same seed |
| Validation.ValidateImageFile | src/shared/utils/imageProcessing.js:166-182 | valid iff the type is supported and the size is at most 5 * 1024 * 1024; valid iff no errors; the format error is present iff the type is unsupported; the size error is present iff the file is too large; at most two errors, format first |
| GameScreen.Click | src/modes/tea/screens/GameScreen.jsx:66-109 | ignored while loading or past the last piece; a hit iff the slot is the current piece's id; a miss changes nothing; placed ids only grow, by at most the clicked id; a non-last hit advances by one; a last hit keeps the index and requests completion |
| GameScreen.SequentialGame.HandleSlotClick | src/modes/tea/screens/GameScreen.jsx:66-109 | the handler updates the fields as the step function says, shows the guide exactly on a miss, and keeps the in-order invariant |
| GameScreen.SequentialGame.InitializePuzzle | src/modes/tea/screens/GameScreen.jsx:49-64 | once loading ends, the grid is calculateGrid(pieces, 1) and the pieces are its raster tiling (pieceCount of them from 2 pieces on, 4 below); on a load failure only the loading flag changes; the progress fields are never reset |
| GameScreen.SequentialGame.constructor | src/modes/tea/screens/GameScreen.jsx:10-15 | the initial state: no pieces, index 0, nothing placed, guide hidden, 2 x 2, loading |
| GameScreen.SequentialGame.ToggleGuide | src/modes/tea/screens/GameScreen.jsx:145 | the hint button flips the guide and nothing else |
| GameScreen.SequentialGame.Completed | src/modes/tea/screens/GameScreen.jsx:111-255 | the overlay is drawn on the object's state only once loading is over (the loading view returns early); under the in-order invariant it is drawn iff loading is over and every id of the board is placed |
| GameScreen.FreshGameInOrder | src/modes/tea/screens/GameScreen.jsx:57 | pieces from splitIntoPieces with no progress satisfy the in-order invariant |
| GameScreen.ClickKeepsOrder | src/modes/tea/screens/GameScreen.jsx:72-97 | every click keeps the placed set equal to the ids before the current index, or to all ids once complete |
| GameScreen.RunKeepsOrder | src/modes/tea/screens/GameScreen.jsx:72-97 | any sequence of clicks keeps that invariant |
| GameScreen.HitIffCurrentSlot | src/modes/tea/screens/GameScreen.jsx:67-72 | once loaded, with pieces on the board, a click is a hit iff the slot equals the current index and a miss otherwise |
| GameScreen.PlacedSlotIsMiss | src/modes/tea/screens/GameScreen.jsx:72-108 | before completion, clicking an already-placed slot is a miss that changes nothing |
| GameScreen.CompletionIffAllPlaced | src/modes/tea/screens/GameScreen.jsx:111-255 | in order, the line-248 size test holds iff every id of the board is placed, and the overlay is drawn iff besides that loading is over |
| GameScreen.PanelIffNotComplete | src/modes/tea/screens/GameScreen.jsx:111-255 | while loading neither the current-piece panel nor the overlay is drawn; once loaded and in order, the panel is drawn iff the overlay is not |
| GameScreen.RepeatedLastTap | src/modes/tea/screens/GameScreen.jsx:67-93 | after completion, tapping the last slot again leaves the state unchanged but requests completion again |
| GameScreen.EmptyBoard | src/modes/tea/screens/GameScreen.jsx:60-62 | when loading ends with no pieces (the image failed to load) the overlay is drawn and every tap is ignored |
| GameScreen.RasterOrderCompletes | src/modes/tea/screens/GameScreen.jsx:72-97 | on a loaded board, tapping slots 0, 1, ..., n-1 places every piece and draws the overlay |
| GameScreen.StaleProgressBreaksOrder | src/modes/tea/screens/GameScreen.jsx:19-23 | re-initialising on a larger board while keeping the progress of a finished one leaves the game out of order, although that progress was in order on the old board |
| GameScreen.GridRow | src/modes/tea/screens/GameScreen.jsx:202 | `Math.floor(id / cols) + 1` is the 1-based row whose span of cols ids holds the id |
| GameScreen.GridColumn | src/modes/tea/screens/GameScreen.jsx:203 | `id % cols + 1` lies in 1..cols and, with the row, spells out the id |
| GameScreen.BelowSize | src/modes/tea/screens/GameScreen.jsx:248 | the set of ids before k has k elements |
| GameScreen.SlotPlacement | src/modes/tea/screens/GameScreen.jsx:202-203 | each slot's CSS row and column are its piece's correct row and column plus one, inside the grid |
| PhaseScreen.IsUnlocked | src/modes/tea/screens/PhaseScreen.jsx:17 | the first level is always unlocked; with no star anywhere only the first level is |
| PhaseScreen.Completions | src/modes/tea/screens/PhaseScreen.jsx:18 | a missing completion count reads as 0 |
| PhaseScreen.Buttons | src/modes/tea/screens/PhaseScreen.jsx:130-174 | Play shows iff unlocked; Previous iff current > 0; Next iff there is a later level and the current one has a star and at least 3 completions |
| PhaseScreen.SelectionsAreSound | src/modes/tea/screens/PhaseScreen.jsx:130-174 | every shown button selects an existing level; selecting the current level requires it to be unlocked; Next leads to an unlocked level; Previous selects current - 1 |
| PhaseScreen.StarredCount | src/modes/tea/screens/PhaseScreen.jsx:61 | the overall progress count never exceeds the number of levels |
| PhaseScreen.StarredCountIsStarredLevels | src/modes/tea/screens/PhaseScreen.jsx:61 | the progress count is the number of levels with a star |
| PhaseScreen.FullProgress | src/modes/tea/screens/PhaseScreen.jsx:61 | the count equals the number of levels iff every level has a star |
| PhaseScreen.CirclesAndMessage | src/modes/tea/screens/PhaseScreen.jsx:90-110 | when shown, circle 0 is ticked and ticks form a prefix; the remaining-plays message shows iff the last circle is unticked, with 1 or 2, the number of unticked circles |
| PhaseScreen.LitStarsArePrefix | src/modes/tea/screens/PhaseScreen.jsx:115-119 | star s is lit iff s <= stars; lit stars form a prefix of the three |
| UploadScreen.PhotoList.HandleImageUpload | src/modes/tea/screens/UploadScreen.jsx:11-48 | rejected with no change iff the selection would exceed 10 photos; otherwise the list becomes the upload result; the 10-photo bound is kept |
| UploadScreen.Uploaded | src/modes/tea/screens/UploadScreen.jsx:11-48 | rejected iff the selection would exceed 10 photos; an accepted list keeps at least the old count and at most 10 |
| UploadScreen.UploadKeepsCapacity | src/modes/tea/screens/UploadScreen.jsx:13-46 | an accepted upload keeps the old photos in front, adds at most one photo per file, stays within 10, and adds exactly the photos of files that validate and load |
| UploadScreen.UploadInFileOrder | src/modes/tea/screens/UploadScreen.jsx:18-46 | photos are appended in file order |
| UploadScreen.Process | src/modes/tea/screens/UploadScreen.jsx:19-42 | a file gives a photo iff it passes validation and loads, and that photo carries the file's name and data URL |
| UploadScreen.Compact | src/modes/tea/screens/UploadScreen.jsx:46 | the filter never lengthens, and keeps everything when nothing is null |
| UploadScreen.CompactMembers | src/modes/tea/screens/UploadScreen.jsx:46 | the filter keeps exactly the non-null values |
| UploadScreen.CompactAppend | src/modes/tea/screens/UploadScreen.jsx:46 | the filter keeps the order of the kept values |
| UploadScreen.PhotoList.GenerateRandomImages | src/modes/tea/screens/UploadScreen.jsx:50-93 | the list becomes the random fill; from a valid list it has exactly 10 photos |
| UploadScreen.RandomFillFillsUp | src/modes/tea/screens/UploadScreen.jsx:51-91 | the random fill never drops an entry: exactly 10 photos, the old ones in front, each new one 800 x 800 with a .jpg name |
| UploadScreen.EntryShape | src/modes/tea/screens/UploadScreen.jsx:65-84 | every generated entry, downloaded or fallback, is 800 x 800 with a name ending in .jpg |
| UploadScreen.FillHidesButton | src/modes/tea/screens/UploadScreen.jsx:139 | after the fill button is used the list is full and the button hides |
| UploadScreen.PhotoList.RemoveImage | src/modes/tea/screens/UploadScreen.jsx:95-96 | the list becomes the index filter of the old list, and the bound is kept |
| UploadScreen.WithoutIndex | src/modes/tea/screens/UploadScreen.jsx:96 | the index filter drops exactly one photo when the index is in range and none otherwise |
| UploadScreen.RemoveExactlyOne | src/modes/tea/screens/UploadScreen.jsx:95-96 | the filter removes exactly the photo at index and keeps the rest in order; an index out of range changes nothing |
| UploadScreen.PhotoList.Continue | src/modes/tea/screens/UploadScreen.jsx:201-213 | onNext fires iff there are at least 3 photos, which is exactly when no photos-missing label shows |
| UploadScreen.MissingPhotosBound | src/modes/tea/screens/UploadScreen.jsx:211-213 | the label shows iff fewer than 3 photos, and asks for 1 to 3 more, exactly enough to reach 3 |
| RegisterScreen.Append | src/modes/tea/screens/RegisterScreen.jsx:78-82 | a key appends its letter iff the name is shorter than 10; the old name stays a prefix; the length never passes 10 |
| RegisterScreen.DeleteLast | src/modes/tea/screens/RegisterScreen.jsx:92-93 | delete drops the last character, and an empty name stays empty |
| RegisterScreen.AppendThenDelete | src/modes/tea/screens/RegisterScreen.jsx:78-93 | below 10 characters, delete undoes a letter |
| RegisterScreen.KeysKeepTyped | src/modes/tea/screens/RegisterScreen.jsx:75-104 | letter, delete and clear keep a name of at most 10 alphabet letters |
| RegisterScreen.Trim | src/modes/tea/screens/RegisterScreen.jsx:116 | `name.trim()` is no longer than the name and, when non-empty, starts and ends with a non-whitespace character |
| RegisterScreen.TrimNonEmpty | src/modes/tea/screens/RegisterScreen.jsx:116 | `name.trim()` is non-empty iff the name has a non-whitespace character |
| RegisterScreen.TypedNameVisible | src/modes/tea/screens/RegisterScreen.jsx:114-121 | a typed name can continue iff it is non-empty |
| RegisterScreen.NameEditor.PressLetter | src/modes/tea/screens/RegisterScreen.jsx:78-82 | the name becomes the append result and stays within 10 |
| RegisterScreen.NameEditor.Delete | src/modes/tea/screens/RegisterScreen.jsx:92-93 | the name loses its last character |
| RegisterScreen.NameEditor.Clear | src/modes/tea/screens/RegisterScreen.jsx:103-104 | the name becomes empty |
| RegisterScreen.NameEditor.Continue | src/modes/tea/screens/RegisterScreen.jsx:114-121 | onNext fires iff the name has a non-whitespace character |
| SettingsPanel.Toggle | src/modes/tea/components/SettingsPanel.jsx:2-7 | the chosen flag is negated; every other flag, the volume and the delay are unchanged |
| SettingsPanel.ToggleTwice | src/modes/tea/components/SettingsPanel.jsx:2-7 | toggling a flag twice restores the configuration |
| SettingsPanel.SetVolume | src/modes/tea/components/SettingsPanel.jsx:9-14 | only the volume changes |
| SettingsPanel.SetHintsDelay | src/modes/tea/components/SettingsPanel.jsx:16-21 | choosing option k sets the delay to the k-th of 5000, 10000, 15000, 20000, 30000; the flags and the volume are unchanged |
| SettingsPanel.OptionsSetDelays | src/modes/tea/components/SettingsPanel.jsx:196-201 | option k sets the delay to the k-th of 5000, 10000, 15000, 20000, 30000 |
| SettingsPanel.SelectorFollowsAutoHints | src/modes/tea/components/SettingsPanel.jsx:187 | the delay selector shows iff auto hints are on; only the auto-hints switch changes that |
| SettingsPanel.TeaDefaultIsAnOption | src/config/constants.js:40-49 | the TEA defaults show the selector, and their 15000 delay is the third option |
| Numerals.ParseDecimal | src/modes/tea/components/SettingsPanel.jsx:19 | parseInt of a rendered decimal numeral gives the number back |
| SettingsPanel.OptionNumeral | src/modes/tea/components/SettingsPanel.jsx:197-201 | each option's value text is the decimal numeral of its delay, with no leading zeros |
| SettingsPanel.OptionValue | src/modes/tea/components/SettingsPanel.jsx:19 | parseInt reads each option's value text back as its delay, by the numeral round trip |
| TransitionScreen.Step | src/modes/tea/screens/TransitionScreen.jsx:16-28 | the next value is never negative and is prev - 1 from 1 on; the tick completes iff it yields 0; it vibrates iff it does not complete and sound effects are on |
| TransitionScreen.TicksToZero | src/modes/tea/screens/TransitionScreen.jsx:16-28 | from n >= 1, tick k shows n - k, and the n-th tick is the only one to complete |
| TransitionScreen.ThreeTwoOneZero | src/modes/tea/screens/TransitionScreen.jsx:5-28 | from 3, the ticks show 2, 1, 0; only the third completes; only the first two vibrate |
| TransitionScreen.Transition.constructor | src/modes/tea/screens/TransitionScreen.jsx:5-12 | the countdown starts at 3 with the interval running and nothing scheduled; the start-up vibration fires iff sound effects are on and the device can vibrate |
| TransitionScreen.Transition.OnInterval | src/modes/tea/screens/TransitionScreen.jsx:15-30 | a running interval applies the updater, stops and schedules completion on the tick that yields 0; a cleared interval does nothing |
| TransitionScreen.TargetMessage | src/modes/tea/screens/TransitionScreen.jsx:49-58 | 'game' and 'victory' get their own labels, and every other target gets the default label |
| Constants.TablesWellNumbered | src/config/constants.js:8-33 | both tables hold levels 1..10 in order, all with 0 stars |
| Constants.TablesNonDecreasing | src/config/constants.js:8-33 | piece counts never decrease along a table |
| Constants.TeaAtMostSixteen | src/config/constants.js:21-33 | no TEA level asks for more than 16 pieces |
| Constants.AlphabetIsAtoZ | src/config/constants.js:35-38 | the keyboard letters are A..Z in order |
| LevelLayouts.SixPieces | src/config/constants.js:25-26 | 6 pieces are laid out as 3 rows of 2 columns |
| LevelLayouts.TwelvePieces | src/config/constants.js:29-30 | 12 pieces are laid out as 4 rows of 3 columns |
| LevelLayouts.SquarePieces | src/config/constants.js:9-18 | 4, 9, 16 and 25 pieces are laid out as 2x2, 3x3, 4x4 and 5x5 |
| LevelLayouts.TablesGiveBoards | src/config/constants.js:8-33 | every level of both tables gets a board with at least 2 rows and 2 columns that multiplies out to its piece count |

## Left out

- Canvas and image I/O are left out: `drawImage`, `toDataURL`, `loadImage`,
  `createFallbackImage`, `compressImage` and `FileReader`. A tile's bitmap is named
  by its grid cell, a loaded image by what it yields, and the fallback picture by a
  parameter. The fractional tile sizes are float pixel geometry.
- `seededRandom` (sine arithmetic) and `Math.random` are parameters. Each is a
  sequence of draws in [0, 1), or, for the random-comparator sort, some permutation
  of the copy.
- The shuffle claims neither uniformity nor a result different from the solved
  order. Nothing in `shufflePieces` rejects and redraws.
- Shuffle.ShufflePieces: requires `cols > 0`, so `cols <= 0` is excluded. With `cols = 0`
  the source gives row `NaN` for index 0 and `Infinity` for every later index, and
  column `NaN` throughout. With negative `cols`, `Math.floor` gives negative rows and
  the sign-of-dividend `%` gives non-negative columns. The model represents neither.
- Grid.CalculateGrid: ratios are exact reals. Floating-point rounding could in
  principle change which of two nearly equal ratios wins.
- Timers are collapsed, so each tap is one atomic step. This covers the 300 ms
  advance, the 500 ms completion callback and the 1.5 s guide reset after a miss.
  Because of that, the model does not capture a second tap landing inside the
  300 ms window, and the guide stays shown after a miss.
- The auto-hint inactivity timer of the game screen is left out. So is the
  progress bar of every screen, which uses float percentages; the game screen's
  bar can pass 100 %.
- Vibration is left out except on the countdown screen. There, the start-up vibration
  is a field of `Transition` and the per-tick vibration is a flag of the tick.
- GameScreen.SequentialGame.InitializePuzzle: whether the image loads is a
  parameter. The puzzle is set up only when an image is present.
- GameScreen.SequentialGame.InitializePuzzle: ensures the in-order invariant only from
  a fresh state. `initializePuzzle` runs again when the level or image changes on a
  mounted screen (GameScreen.jsx:19-23), and it does not reset `currentPieceIndex` or
  `placedPieces`. The old progress then carries over to the new board, and
  `StaleProgressBreaksOrder` shows that it can leave the game out of order.
- UploadScreen: file reading and the loremflickr downloads are parameters. The
  `images` list captured across `await` is not modelled, because each handler works
  on the list as it was when it started.
- UploadScreen.RandomEntry: assumes the draws are consumed in call order, so slot
  `idx` draws its keyword at call `2 * idx` and its unique id at the next call.
  The unique id only affects the download URL, which is abstracted.
- Validation.ValidateImageFile: errors carry the offending type or size. The
  message wording and the `toFixed(2)` rendering are not modelled.
- RegisterScreen: the avatar upload (file reading) is not modelled. Name length
  counts characters rather than UTF-16 code units; the two agree on names typed
  with the A–Z keyboard.
- SettingsPanel.SetVolume: the slider's `parseFloat` is not modelled; the volume
  arrives as a number.
- SettingsPanel.SetHintsDelay: `parseInt` is modelled only on strings of decimal
  digits, the only values the selector produces.
- PhaseScreen: the shown level must exist. The screen reads
  `levelProgress[currentLevel]` and would fail otherwise.
- Encryption helpers, the Supabase client, the service worker and the view-only
  components (app shell, mode selector, welcome and victory screens, mode apps) are
  not part of this model.
