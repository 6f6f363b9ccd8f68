# F1 start-lights reaction game: session state and leaderboard

This project models the two pieces of logic in `streamlit_app.py`, a small
Streamlit game in which five start lights come on one after another and go
out together. The player presses GO as soon as they go out. The game
measures the reaction time and keeps a top-ten leaderboard.

- `leaderboard.dfy`, module `Leaderboard`: `add_to_leaderboard`. A missing
  or empty board starts empty. The `(name, score)` pair is appended. The
  board is sorted by score with Python's stable `sorted` and cut to its
  first ten rows.
  - `Ranked(board, e)` is the new board.
  - `StableSort` is an insertion sort. `StableSortCharacterized` proves it
    is exactly a stable sort by score: the result is sorted, and the
    entries that share a score keep their input order. It also proves that
    only one sequence has both properties, so the model agrees with
    Python's `sorted` whatever algorithm that uses.
- `race.dfy`, module `Race`: the session state kept by `main`. Class
  `RaceSession` has the five-slot light array `colors`, the flag
  `readyToClick`, the arming instant `startTime` and the `leaderboard`.
  - `LightSequence(count)` resets the lights, clears the flag and lights
    the first `count` slots one by one in a loop. Its ghost result `shown`
    records every light state drawn on the way.
  - `StartRace` runs the whole sequence (`count` = 5), then all lights go
    out and the session is armed.
  - `Go` times the reaction when armed, or reports a false start.
  - `GoBeforeStart`, `GoDuringLights`, `OneRaceTwoPresses` and
    `RaceOnSession` are client scenarios that use only the methods'
    contracts.
  - The class invariant `Valid()` says the session has five light slots
    and that a stored board is sorted by score and at most ten rows long.

Scores are integers, for example milliseconds. The source only compares
them and subtracts two clock readings. The clock is a parameter:
`StartRace(armedAt)` receives the reading taken when the lights go out, and
`Go(now, name)` the reading taken when GO is pressed.

- GO when the session is not armed is a false start (streamlit_app.py:70-71).
- An empty name leaves the board alone (streamlit_app.py:68).
- The board lives only in `st.session_state` (streamlit_app.py:20-24).

Streamlit stops a running script at its next `st.*` call when a button is
pressed. A GO pressed while the lights are coming on therefore cuts Start
Race short: the lights lit so far stay lit, the flag stays cleared
(line 46), and GO is a false start. `LightSequence(count)` with
`count` < 5 is that cut-short run, and `GoDuringLights` follows it with GO.

## Model

| member | source | states |
|---|---|---|
| `Leaderboard.Board` | streamlit_app.py:20-21 | a missing board and an empty board both count as the empty board; a non-empty stored board is used as it is |
| `Leaderboard.StableSort` | streamlit_app.py:24 | the sorted board is exactly as long as the input; that it is sorted, a permutation and stable is stated by the lemmas below |
| `Leaderboard.Truncate` | streamlit_app.py:24 | `[:10]` keeps the first min(n, 10) rows of an n-row board: the result is a prefix of its input, of that length |
| `Leaderboard.Ranked` | streamlit_app.py:22-24 | the new board has one row more than the old board, unless the old board already had 10 rows; then it has 10 |
| `Leaderboard.StableSortSorted` | streamlit_app.py:24 | `sorted(..., key=score)` returns the same entries (same multiset), in non-decreasing score order |
| `Leaderboard.StableSortIsStable` | streamlit_app.py:24 | for every score, the entries with that score appear in the sorted board in the same order as in the input (stability) |
| `Leaderboard.StableSortUnique` | streamlit_app.py:24 | two boards that are both sorted by score and agree, score by score, on the order of the entries are equal |
| `Leaderboard.StableSortCharacterized` | streamlit_app.py:24 | a sequence is a stable ascending sort of the board by score if and only if it equals `StableSort` of that board |
| `Leaderboard.SortedIsFixpoint` | streamlit_app.py:24 | sorting a board that is already in score order leaves it unchanged |
| `Leaderboard.InsertKeepsSorted` | streamlit_app.py:22-24 | putting the new entry into a sorted board keeps it sorted |
| `Leaderboard.InsertWithScore` | streamlit_app.py:22-24 | on a sorted board, the new entry joins the end of the run of entries with its own score; the other runs are unchanged |
| `Leaderboard.RankedBounded` | streamlit_app.py:22-24 | after an insert the board has at most 10 rows, is sorted by score, and invents no entry. With fewer than 10 old rows it holds all old rows plus the new one. Otherwise it has exactly 10 rows |
| `Leaderboard.FirstEntry` | streamlit_app.py:20-24 | adding to a missing or an empty board yields exactly `[(name, score)]` |
| `Leaderboard.RankedOnSortedBoard` | streamlit_app.py:22-24 | on a sorted board, the new board is the old one with the new entry placed after every row whose score is at most its own (so after all ties), cut to 10; old rows keep their relative order |
| `Leaderboard.NewEntryKeptIff` | streamlit_app.py:22-24 | on a sorted board, the new entry survives the cut exactly when fewer than 10 old rows have a score at most its own, and then it sits at that index; otherwise the new board is the old board's first 10 rows |
| `Leaderboard.FullBoardDropsLast` | streamlit_app.py:22-24 | a full sorted board that the new entry gets onto loses only its last (slowest) row |
| `Leaderboard.FullBoardRejectsSlowest` | streamlit_app.py:22-24 | a full sorted board is unchanged by an entry whose score is at least every row's score (ties included) |
| `Race.NextLightOnly` | streamlit_app.py:49-54 | each step of the start sequence lights exactly one more slot, the next one in index order |
| `Race.RaceSession.constructor` | streamlit_app.py:37-39 | a new session has all five lights unlit, is not armed and has no leaderboard |
| `Race.RaceSession.LightSequence` | streamlit_app.py:45-54 | the flag is cleared; the drawn light states are all unlit, then slots 0..k-1 lit for k = 1..count in turn; the lights end with the first `count` slots lit; start time and board are unchanged |
| `Race.RaceSession.AddToLeaderboard` | streamlit_app.py:18-24 | the session's board becomes `Ranked` of the old board (missing or empty read as empty) and the new entry; it stays sorted and at most 10 long; lights, flag and start time are unchanged |
| `Race.RaceSession.StartRace` | streamlit_app.py:44-60 | the drawn light states are all unlit, then slots 0..i lit for i = 0..4 in turn, then all unlit; the session ends armed, with `startTime` the arming instant and the leaderboard unchanged |
| `Race.RaceSession.Go` | streamlit_app.py:62-71 | when armed: the outcome is `now - startTime`, the session is disarmed, and the board gains the entry only if the name is non-empty. When not armed: a false start, and flag, start time, lights and board are unchanged |
| `Race.GoDuringLights` | streamlit_app.py:44-71 | GO pressed after only some lights have come on is a false start, leaves those lights lit and creates no board |
| `Race.RaceOnSession` | streamlit_app.py:44-69 | on any valid session, Start Race then GO with a name times the reaction from the arming instant; the player gets onto the board exactly when fewer than 10 stored rows score at most their time, and then sits at that index; the board stays sorted and at most 10 long |
| `Race.GoBeforeStart` | streamlit_app.py:62-71 | GO on a fresh session (not armed, line 39), before any start, is a false start and creates no board |
| `Race.OneRaceTwoPresses` | streamlit_app.py:44-71 | after Start Race, the first GO is timed from the arming instant and puts the player alone on a new board; a second GO is a false start |

## Left out

- `draw_lights` and all matplotlib work (streamlit_app.py:6-16 and the redraws in `main`): rendering only. `StartRace` records the light states those redraws would show, as a ghost sequence.
- `display_leaderboard` and the Streamlit widgets (`st.title`, `st.button`, `st.text_input`, `st.write`, `st.error`, the `:.3f` formatting): user interface. GO takes the typed name as a parameter, and a false start is an `Outcome` value instead of an error message.
- Streamlit's re-run of the whole script on every interaction is not modelled. Each method is one button press (Start Race cut short by a later press is `LightSequence`), and the session object stands for `st.session_state`. GO takes the player's name as a parameter, so the model can put a player on the board.
- Race.RaceSession.Go: the name is a parameter of the same press, which the app as written never delivers. On the run where GO is pressed, `st.text_input` (line 67) is created for the first time and returns its default `""`, so line 68 skips the insert. Typing a name starts a new run on which `st.button('GO!')` (line 62) is false, so lines 63-69 do not run at all. The app as written therefore never calls `add_to_leaderboard`, and its board stays missing. The leaderboard results here (`Go`, `OneRaceTwoPresses`, `RaceOnSession`) describe what lines 18-24 and 63-69 would do if a name arrived with the press.
- `time.sleep` and the `random.uniform` waits (between lights, in [0.8, 1.0) seconds; before lights out, in [0.8, 1.2) seconds) are real-time blocking and randomness. Only the order of the light changes is modelled.
- `time.time()` is a floating-point wall clock and becomes integer parameters. It is not monotonic, so `Go` promises a non-negative reaction time only when `now >= startTime`.
- Reaction times are floats in the source and integers here. Ties between equal floats behave the same, since only comparisons are used.
- The session key `start_time` does not exist before the first Start Race. The model starts it at 0. `Go` never reads it while the session is unarmed, and only Start Race arms the session.
- Race.RaceSession.StartRace: the model cuts Start Race short only after a whole number of lights (`LightSequence` with `count` < 5). A press that lands during the final wait or just after the lights go out (lines 55-58) leaves the lights unlit and the session unarmed; that state is not built by a separate method. Which sleep a press interrupts is timing, and is not modelled.
