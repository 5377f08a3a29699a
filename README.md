# Scoreboard sessions and scores in Dafny

This project models the three pieces of the live scoreboard that carry its logic:

- **The backend session table** (`SessionManager`, file `session_manager.dfy`). The backend keeps an in-memory dictionary from session code to a session record: the code and the two team scores (`CustomTypes.SessionState`, with the score-only projection `CustomTypes.SessionScore`). Its operations are `create_session`, `update_session_state`, `get_score` and `terminate_session`. The pure functions `Create`, `Update`, `Score` and `Terminate` say what each operation does to a table. The class `SessionManager.SessionManager` holds the table in its `sessions` field and changes it in place, and each method is proved against its function. A raised exception becomes an `Err`/`Fail` value naming one of the two error messages (`NoSuchSession`, `CodeMismatch`). The object invariant `WellKeyed` says every record is stored under its own code, and every operation keeps it.
- **The frontend session-code format** (`SessionCode`, file `session_code.dfy`). `isValidSessionCode` tests the regular expression `^[A-Z0-9]{3}-[A-Z0-9]{3}$`. The model writes that expression as a sequence of single-character atoms (`SessionCodePattern`) matched end to end (`FullMatch`). `generateSessionCode` draws six characters from a 36-letter alphabet and puts a dash after the third. In the model its six calls to `Math.random()` become six indices supplied by the caller (`picks`). `CharAt` keeps the behaviour of JavaScript's `charAt`, which returns the empty string for an index out of range. The generator's doc comment speaks of a "6-character" code: it counts the six drawn characters. With the dash the code has seven characters, which is the length `GeneratedLayout` proves.
- **The scoreboard component's score state** (`ScoreTracking`, file `score_tracker.dfy`). This is two counters with five button handlers (increment or decrement either team, and reset) and a callback that replaces both scores with a pair pushed by the server. The class `ScoreTracker` holds `teamA` and `teamB`. Its ghost log `emitted` records every pair the handlers pass to `emitScoreUpdate`. The function `Apply` gives the effect of one action. `Run` and `Emitted` extend it to a sequence of actions, and the lemmas about whole runs use them.

The model follows the code as written; in particular:

- Neither `isValidSessionCode` nor the backend canonicalises session codes. The validator rejects lower case (`RejectsLowercase`), and the backend looks codes up exactly as given. Only the join form (frontend/src/pages/Home.tsx:21-22, not part of this model) upper-cases what the user types before checking its length.
- Each increment or decrement press changes its own team's score by one, except that a decrement at 0 leaves it at 0 (`Math.max(0, x - 1)`); reset sets both scores to 0.
- A pushed score is taken as it is, with no clamping, so a negative push is displayed as negative.
- The backend draws six-character codes with no dash, while the frontend validates `XXX-XXX`. The two formats are modelled separately as they are written. The backend draws are arbitrary strings supplied by the caller.

## Model

| member | source | states |
|---|---|---|
| `SessionManager.WellKeyed` | backend/logic/session_manager.py:16-31 | the table invariant that every record is stored under its own code; under it, looking a stored record up by its own code finds that record |
| `SessionManager.FirstFresh` | backend/logic/session_manager.py:11-13 | the retry loop stops at a draw that is not a key, and every earlier draw was a key |
| `SessionManager.Create` | backend/logic/session_manager.py:8-22 | the returned code is the first unused draw and was not a key; the new table has exactly one more key, that code, holding a record with that code and scores 0 and 0; every earlier entry is unchanged; records stay under their own codes |
| `SessionManager.Update` | backend/logic/session_manager.py:24-31 | an unknown code fails with "no session", checked first; a record whose code differs fails with "code mismatch"; otherwise the record is replaced, the keys stay the same and every other entry is unchanged; records stay under their own codes |
| `SessionManager.Score` | backend/logic/session_manager.py:33-45 | succeeds exactly when the code is a key, fails with "no session" otherwise, and returns the stored score_A and score_B |
| `SessionManager.Terminate` | backend/logic/session_manager.py:47-52 | an unknown code fails with "no session"; otherwise exactly that key is removed and every other entry is unchanged |
| `SessionManager.CreatedScoreIsZero` | backend/logic/session_manager.py:16-20 | a newly created session reads back as 0 and 0, and every other code reads as before |
| `SessionManager.UpdateThenScore` | backend/logic/session_manager.py:31-45 | after a successful update, get_score returns exactly the new score_A and score_B, and every other code reads as before |
| `SessionManager.UpdateWithStoredState` | backend/logic/session_manager.py:28-31 | writing back a session's own stored record leaves the table unchanged, given records are stored under their own codes |
| `SessionManager.UpdateLastWriteWins` | backend/logic/session_manager.py:31 | two successful updates of one session leave the same table as the second update alone |
| `SessionManager.TerminateThenScoreFails` | backend/logic/session_manager.py:47-52 | after termination, get_score on that code fails with "no session", and every other code reads as before |
| `SessionManager.CreateThenTerminate` | backend/logic/session_manager.py:16-52 | terminating the session just created restores the table exactly |
| `SessionManager.TerminatedIsGone` | backend/logic/session_manager.py:24-52 | after termination, updating or terminating that code again fails with "no session" |
| `SessionManager.SessionLifecycle` | backend/testing/logic_test.py:13-39 | the test scenario, starting from an empty manager: the created session reads 0 and 0, reads 10 and 2 after that update, and fails to read after termination |
| `SessionManager.SessionManager.constructor` | backend/logic/session_manager.py:5-6 | a new manager has an empty table |
| `SessionManager.SessionManager.CreateSession` | backend/logic/session_manager.py:8-22 | the retry loop returns a code that was not a key before the call and is a key after it; the new table and code are those of `Create`; the invariant is kept |
| `SessionManager.SessionManager.UpdateSessionState` | backend/logic/session_manager.py:24-31 | the outcome and new table are those of `Update`; on either failure the table is unchanged; the invariant is kept |
| `SessionManager.SessionManager.GetScore` | backend/logic/session_manager.py:33-45 | returns what `Score` gives for the current table and changes nothing |
| `SessionManager.SessionManager.TerminateSession` | backend/logic/session_manager.py:47-52 | the outcome and new table are those of `Terminate`; on failure the table is unchanged; the invariant is kept |
| `SessionCode.AlphabetAt` | frontend/src/utils/session.ts:10 | the alphabet has 36 characters: `A`..`Z` at positions 0-25, then `0`..`9` |
| `SessionCode.AlphabetIsCodeChars` | frontend/src/utils/session.ts:10 | every alphabet character is in `[A-Z0-9]`, and no character occurs twice |
| `SessionCode.AlphabetIndex` | frontend/src/utils/session.ts:10 | every `[A-Z0-9]` character occurs in the alphabet, at the returned index |
| `SessionCode.CharAt` | frontend/src/utils/session.ts:14 | `chars.charAt(n)`: at most one character, empty exactly when n is out of range, otherwise the character at n |
| `SessionCode.SessionCodePattern` | frontend/src/utils/session.ts:25 | the pattern `[A-Z0-9]{3}-[A-Z0-9]{3}`: seven one-character atoms, the literal dash at index 3 and the class `[A-Z0-9]` everywhere else |
| `SessionCode.FullMatch` | frontend/src/utils/session.ts:25 | the anchored test `^...$`: a match consumes one character per atom, so a matching string is exactly as long as the pattern |
| `SessionCode.IsValidSessionCode` | frontend/src/utils/session.ts:24-26 | `isValidSessionCode`: the whole code matches the pattern, so a valid code has length 7 and a dash at index 3 |
| `SessionCode.FullMatchPointwise` | frontend/src/utils/session.ts:25 | an anchored match of single-character atoms holds exactly when the lengths agree and each character matches its atom |
| `SessionCode.UpperOrDigitMatches` | frontend/src/utils/session.ts:25 | the class `[A-Z0-9]` accepts exactly the upper-case letters and the digits |
| `SessionCode.ValidSessionCodeShape` | frontend/src/utils/session.ts:24-26 | a code is valid exactly when it has 7 characters, a dash at index 3, and `A`-`Z` or `0`-`9` at every other index |
| `SessionCode.RejectsLowercase` | frontend/src/utils/session.ts:25 | any lower-case letter makes a code invalid, since the expression has no case-insensitive flag |
| `SessionCode.Prefix` | frontend/src/utils/session.ts:11-16 | the code after the first n loop iterations is at most n characters long, plus one for the dash once the third iteration has run |
| `SessionCode.Generated` | frontend/src/utils/session.ts:11-18 | the returned code, built from the six draws, has at most seven characters |
| `SessionCode.GenerateSessionCode` | frontend/src/utils/session.ts:9-19 | the loop builds the code determined by the six draws, and that code is valid exactly when every draw is an alphabet index |
| `SessionCode.GeneratedLayout` | frontend/src/utils/session.ts:13-16 | with in-range draws the code has length 7, a dash at index 3, and the drawn alphabet characters at the other six positions in draw order |
| `SessionCode.PrefixLength` | frontend/src/utils/session.ts:13-16 | each iteration adds at most one drawn character, plus the dash once; a draw out of range leaves the code strictly shorter |
| `SessionCode.GeneratedValidIff` | frontend/src/utils/session.ts:7-25 | the generated code has the documented `XXX-XXX` form exactly when every draw is below 36 |
| `SessionCode.PicksOf` | frontend/src/utils/session.ts:10-15 | every valid code yields six in-range draws, one per non-dash character |
| `SessionCode.GeneratedPicksOf` | frontend/src/utils/session.ts:9-26 | every valid code is produced by the generator, from the draws `PicksOf` recovers |
| `SessionCode.PicksOfGenerated` | frontend/src/utils/session.ts:9-26 | in-range draws are recovered exactly from the code they generate |
| `SessionCode.GeneratedInjective` | frontend/src/utils/session.ts:13-15 | distinct in-range draws generate distinct codes |
| `ScoreTracking.DecrementClamped` | frontend/src/components/ScoreTracker.tsx:61 | `Math.max(0, x - 1)`: the result is at least 0 and at least x - 1, and equals one of them |
| `ScoreTracking.Emission` | frontend/src/components/ScoreTracker.tsx:50-76 | each button handler makes exactly one `emitScoreUpdate` call, a push makes none, and what is emitted is the pair after the action |
| `ScoreTracking.Apply` | frontend/src/components/ScoreTracker.tsx:28-77 | a push makes the scores exactly the pushed pair; a button handler keeps non-negative scores non-negative |
| `ScoreTracking.IncrementThenDecrement` | frontend/src/components/ScoreTracker.tsx:47-63 | an increment adds one to its own team only, and from non-negative scores a decrement after it restores them |
| `ScoreTracking.DecrementClamps` | frontend/src/components/ScoreTracker.tsx:59-71 | a decrement lowers its own team by one, leaves 0 at 0, and leaves the other team unchanged |
| `ScoreTracking.ResetZeroes` | frontend/src/components/ScoreTracker.tsx:73-77 | reset gives 0 and 0 from any scores and emits 0 and 0 |
| `ScoreTracking.PushReplaces` | frontend/src/components/ScoreTracker.tsx:28-31 | a push gives the pushed pair whatever the scores were before, with no merging, and emits nothing |
| `ScoreTracking.RunStaysNonNegative` | frontend/src/components/ScoreTracker.tsx:47-77 | from non-negative scores, any sequence of button presses and non-negative pushes keeps both scores non-negative |
| `ScoreTracking.RunSnoc` | frontend/src/components/ScoreTracker.tsx:47-77 | one more action makes one more step and appends exactly that action's emission |
| `ScoreTracking.EmittedTracksLocalActions` | frontend/src/components/ScoreTracker.tsx:50-76 | the emitted log has one entry per button press, and after a press its last entry is the pair on display |
| `ScoreTracking.ScoreTracker.constructor` | frontend/src/components/ScoreTracker.tsx:17-18 | scores start at 0 and 0, and nothing has been emitted |
| `ScoreTracking.ScoreTracker.HandleTeamAScore` | frontend/src/components/ScoreTracker.tsx:47-51 | team A goes up by one and team B is unchanged; exactly the new pair is appended to the emitted log |
| `ScoreTracking.ScoreTracker.HandleTeamBScore` | frontend/src/components/ScoreTracker.tsx:53-57 | team B goes up by one and team A is unchanged; exactly the new pair is appended to the emitted log |
| `ScoreTracking.ScoreTracker.HandleTeamADecrement` | frontend/src/components/ScoreTracker.tsx:59-64 | team A becomes max(0, A - 1) and team B is unchanged; exactly the new pair is appended to the emitted log |
| `ScoreTracking.ScoreTracker.HandleTeamBDecrement` | frontend/src/components/ScoreTracker.tsx:66-71 | team B becomes max(0, B - 1) and team A is unchanged; exactly the new pair is appended to the emitted log |
| `ScoreTracking.ScoreTracker.HandleReset` | frontend/src/components/ScoreTracker.tsx:73-77 | both scores become 0, and (0, 0) is appended to the emitted log |
| `ScoreTracking.ScoreTracker.OnScoreUpdate` | frontend/src/components/ScoreTracker.tsx:28-31 | both scores become the pushed pair, and nothing is emitted |

## Left out

- Random code generation: the backend's `generate_random_session_code` (backend/logic/helper.py) and the frontend's `Math.random()`/`Math.floor` are replaced by caller-supplied draws. Floating-point arithmetic is not modelled.
- `SessionManager.SessionManager.CreateSession`: requires that some supplied draw is unused. The source loop only stops when the random generator produces such a code, so its termination depends on randomness and is not modelled.
- `SessionManager.SessionManager.UpdateSessionState`: stores a copy of the record. In Python the caller's dictionary object itself is stored, so a later mutation by the caller would alias into the table; this is not modelled.
- Python and JavaScript numbers are modelled as unbounded integers. JavaScript's loss of precision above 2^53 is not modelled.
- React's asynchronous state updates and re-rendering are modelled as immediate assignments. A handler reads the scores of the latest render; several presses handled within one render are not modelled.
- The component's socket connection and loading flag (`connectSocket`, `disconnectSocket`, the `loading` state) and all rendering are I/O and are left out. frontend/src/services/socket.ts and frontend/src/services/api.ts are not part of this model: the socket service only logs, and the API service wraps HTTP requests.
- `emitScoreUpdate` is modelled as a ghost log of the emitted pairs. Delivery to the server and to other clients is not modelled.
- Page routing and the join form (frontend/src/App.tsx, frontend/src/pages) are not part of this model. The join form (frontend/src/pages/Home.tsx:21-22) upper-cases the entered code and then checks only that it has seven characters.
- Broadcasting, per-session serialization, reconnection and case canonicalisation of codes are not implemented by the modelled code, so they are not modelled.
