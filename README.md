# RLHF learning game: progress controller

A model of the progress controller of the RLHF learning game, a
single-page checklist of five curriculum levels. Each level has a key and
an xp reward. The user marks a level complete or resets it. The
controller keeps the list of completed level keys. From that list it
derives the xp earned out of the xp total, whether each level is unlocked
and completed, the status glyph of each card, and the label and enabled
state of each card's button.

Modules, one file each:

- `Curriculum` (`curriculum.dfy`): the `Level(key, xp)` datatype and the
  shipped dataset `Levels` (`lvl1`..`lvl5`, 100, 150, 200, 250 and 300 xp).
- `CompletedList` (`completed_list.dfy`): the completed list as a
  `seq<string>`, the filter `RemoveAll` and the toggle update `ToggleList`,
  with their order, membership, round-trip and no-duplicates properties.
- `Experience` (`experience.dfy`): `TotalXP`, `EarnedXP` (a filter of the
  dataset by membership, then a sum), the bounds, and how a toggle moves
  the earned xp.
- `LevelView` (`level_view.dfy`): `IsUnlocked`, `IsCompleted`, the status
  glyph `StatusOf` and the button `ButtonOf`.
- `ProgressController` (`controller.dfy`): the `Controller` class. It owns
  the `completed` state cell and has the unguarded `Toggle` handler and the
  button `Click`, which is enabled only on unlocked levels. Two client
  methods replay sessions.

Three behaviours of the code are easy to miss:

- The toggle handler makes no unlock check. Only the disabled button keeps
  locked levels from being toggled. `Controller.Toggle` has no guard, and
  `Controller.Click` requires the level to be unlocked.
- Unlocking is re-evaluated on every render and looks only at the
  immediate predecessor. Resetting a level therefore locks its completed
  successor. That card shows the completed glyph and a "Reset" button,
  but the button is disabled, so the level cannot be reset until its
  predecessor is completed again (`LevelView.CompletedButLocked`).
- The stored value is parsed with no error handling, so a malformed stored
  value throws. The model claims no recovery (see Left out).

## Model

| member | source | states |
|---|---|---|
| `Curriculum.LevelsWellFormed` | src/App.js:3-102 | the dataset has five levels with distinct keys and positive xp |
| `CompletedList.RemoveAll` | src/App.js:121 | the filter leaves no occurrence of the key, keeps exactly the other members, and removes every occurrence of the key and nothing else (multiset) |
| `CompletedList.ToggleList` | src/App.js:119-123 | after a toggle the key is a member iff it was not before; every other key keeps its membership; an absent key is appended at the end; a present key loses all its occurrences |
| `CompletedList.RemoveAllAbsent` | src/App.js:121 | filtering a key that is not in the list gives the same list |
| `CompletedList.RemoveAllAppend` | src/App.js:121 | the filter distributes over concatenation, so the kept elements stay in order |
| `CompletedList.RemoveAllKeepsOrder` | src/App.js:121 | two kept elements appear in the result in their original relative order |
| `CompletedList.ToggleTwiceAbsent` | src/App.js:121 | toggling an absent key twice gives back exactly the original list |
| `CompletedList.ToggleTwicePresent` | src/App.js:121 | on a duplicate-free list holding the key, toggling twice gives the other keys in order followed by the key: the same multiset, still duplicate-free |
| `CompletedList.ToggleKeepsNoDuplicates` | src/App.js:121 | a toggle keeps a duplicate-free list duplicate-free |
| `Experience.TotalXP` | src/App.js:114 | the xp total of the shipped dataset is 1000 |
| `Experience.EarnedXP` | src/App.js:115-117 | the earned xp never exceeds the total |
| `Experience.CompletedLevels` | src/App.js:115-116 | the filtered levels are exactly the dataset levels whose key is in the list, each as often as in the dataset, and no others |
| `Experience.FilteredSumBound` | src/App.js:115-117 | the sum over the filtered levels is at most the sum over all levels |
| `Experience.CompletedLevelsAgree` | src/App.js:115-116 | two lists that agree on every dataset key select the same levels |
| `Experience.EarnedXPDependsOnlyOnMembership` | src/App.js:115-117 | duplicates, order and keys that name no level do not change the earned xp |
| `Experience.EarnedAllXP` | src/App.js:114-117 | the earned xp equals the total iff every level key is in the list |
| `Experience.EarnedNoXP` | src/App.js:115-117 | the earned xp is 0 iff no level key is in the list |
| `Experience.ToggleEarnedXP` | src/App.js:115-121 | toggling a key raises the earned xp by that key's worth when it was absent and lowers it by that amount when it was present |
| `Experience.KeyXPOfLevel` | src/App.js:3-102 | a level key is worth that level's xp; any other string is worth 0 |
| `Experience.EarnedXPByKeys` | src/App.js:115-117 | on a duplicate-free list the earned xp equals the sum of each listed key's worth |
| `LevelView.IsUnlocked` | src/App.js:136-138 | the unlock chain: level 0 is always unlocked, and level i > 0 is unlocked iff level i-1 is completed |
| `LevelView.StatusOf` | src/App.js:153 | the glyph is the check mark iff completed, the flame iff not completed but unlocked, and the padlock iff neither |
| `LevelView.ButtonOf` | src/App.js:189-195 | the label is "Reset" iff completed and "Complete" otherwise; the button is disabled iff the level is locked |
| `LevelView.ToggleIsLocal` | src/App.js:119-138 | a toggle of a key flips the completion of exactly the level carrying that key, and the unlock state of exactly the level after it; no other card changes |
| `LevelView.CompletedButLocked` | src/App.js:136-194 | a completed level whose predecessor is not completed shows the check mark and a disabled "Reset" button |
| `LevelView.SequentialProgress` | src/App.js:136-138 | with the keys of the first j levels as the list, exactly those levels are completed and exactly the first j+1 are unlocked |
| `LevelView.InOrderStep` | src/App.js:119-123 | completing level j after the first j levels extends the list of their keys by level j's key, so clicking the levels in order from the empty list yields the lists of `SequentialProgress` |
| `ProgressController.InitialList` | src/App.js:105-108 | with nothing stored the initial list is well formed; a well-formed stored list gives a well-formed initial list |
| `ProgressController.ToggleKeepsWellFormed` | src/App.js:119-123 | toggling a level key keeps the list duplicate-free and made only of level keys |
| `ProgressController.Controller.constructor` | src/App.js:105-108 | the state cell starts as the initial list, and the controller is valid when nothing is stored or the stored list is well formed |
| `ProgressController.Controller.Toggle` | src/App.js:119-123 | the state cell is replaced by its toggled value, with no unlock check |
| `ProgressController.Controller.Click` | src/App.js:189-191 | a click on an unlocked level's button toggles that level's key and keeps a well-formed list well formed |

## Left out

- Reading and writing browser local storage under the key `rlhf-completed`, and the JSON encoding and decoding around it. This is foreign browser I/O. The constructor takes the stored list already parsed; `None` stands for a missing or empty stored value. The model covers only stored values that parse to an array of strings. A value that fails to parse makes the source throw at once. A value that parses to something else (`null`, an object, a number) throws later, when `includes` runs on it. A stored JSON string turns `includes` into a substring test. The model says nothing about any of these cases.
- React's state hook and effect scheduling (re-rendering, and the write after each change). The model keeps the state cell and replaces it on each toggle.
- Rendering: the layout, styles, titles, descriptions, examples and resource links. The status glyph is the `Status` datatype rather than the emoji text.
- JavaScript numbers are floating point; the xp sums are modelled as unbounded naturals. With the shipped values (at most 1000) the sums are exact integers.
