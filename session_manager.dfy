/**
 * The backend's in-memory session table (backend/logic/session_manager.py).
 *
 * The table is a map from session code to session record. The pure functions
 * below state what each operation does to a table; the class `SessionManager`
 * holds the table in a field and updates it in place, each of its methods
 * proved against the matching function. Raised exceptions become `Err`/`Fail`
 * values, and a failing operation leaves the table as it was.
 */
module SessionManager {
  import opened CustomTypes

  type Table = map<string, SessionState>

  /** The two exceptions the manager raises. */
  datatype SessionError =
    | NoSuchSession  // 'No session with given session code'
    | CodeMismatch   // 'New game state's session code does not match given session code'

  datatype Result<T> = Ok(value: T) | Err(error: SessionError)

  datatype Outcome = Pass | Fail(error: SessionError)

  /** Every record is stored under its own code. */
  predicate WellKeyed(t: Table)
    ensures WellKeyed(t) ==>
      forall s :: s in t.Values ==> s.sessionCode in t && t[s.sessionCode] == s
  {
    forall k :: k in t ==> t[k].sessionCode == k
  }

  /** Some draw is a code not yet in use, so the retry loop of create_session stops. */
  predicate HasFreshDraw(draws: seq<string>, t: Table) {
    exists j :: 0 <= j < |draws| && draws[j] !in t
  }

  /** Where the retry loop of create_session stops: the first draw not in use. */
  function FirstFresh(draws: seq<string>, t: Table): (i: nat)
    requires HasFreshDraw(draws, t)
    ensures i < |draws| && draws[i] !in t
    ensures forall j :: 0 <= j < i ==> draws[j] in t
    decreases |draws|
  {
    if draws[0] !in t then 0
    else
      assert HasFreshDraw(draws[1..], t) by {
        var j :| 0 <= j < |draws| && draws[j] !in t;
        assert draws[1..][j - 1] == draws[j];
      }
      1 + FirstFresh(draws[1..], t)
  }

  /** create_session: insert a zeroed record under the first unused drawn code. */
  function Create(t: Table, draws: seq<string>): (r: (string, Table))
    requires HasFreshDraw(draws, t)
    ensures var (code, t') := r;
      && code == draws[FirstFresh(draws, t)] && code !in t
      && t'.Keys == t.Keys + {code}
      && t'[code].sessionCode == code && t'[code].scoreA == 0 && t'[code].scoreB == 0
      && (forall k :: k in t ==> t'[k] == t[k])
    ensures WellKeyed(t) ==> WellKeyed(r.1)
  {
    var code := draws[FirstFresh(draws, t)];
    (code, t[code := SessionState(code, 0, 0)])
  }

  /** update_session_state: replace a record, guarded by the two checks in order. */
  function Update(t: Table, code: string, newState: SessionState): (r: Result<Table>)
    ensures code !in t ==> r == Err(NoSuchSession)
    ensures code in t && newState.sessionCode != code ==> r == Err(CodeMismatch)
    ensures code in t && newState.sessionCode == code ==>
      && r.Ok?
      && r.value.Keys == t.Keys
      && r.value[code] == newState
      && (forall k :: k in t && k != code ==> r.value[k] == t[k])
    ensures r.Ok? && WellKeyed(t) ==> WellKeyed(r.value)
  {
    if code !in t then Err(NoSuchSession)
    else if newState.sessionCode != code then Err(CodeMismatch)
    else Ok(t[code := newState])
  }

  /** get_score: the two scores of a stored record. */
  function Score(t: Table, code: string): (r: Result<SessionScore>)
    ensures r.Ok? <==> code in t
    ensures r.Err? ==> r.error == NoSuchSession
    ensures r.Ok? ==> r.value.scoreA == t[code].scoreA && r.value.scoreB == t[code].scoreB
  {
    if code !in t then Err(NoSuchSession)
    else Ok(SessionScore(t[code].scoreA, t[code].scoreB))
  }

  /** terminate_session: remove a record. */
  function Terminate(t: Table, code: string): (r: Result<Table>)
    ensures code !in t ==> r == Err(NoSuchSession)
    ensures code in t ==>
      && r.Ok?
      && r.value.Keys == t.Keys - {code}
      && (forall k :: k in r.value ==> r.value[k] == t[k])
    ensures r.Ok? && WellKeyed(t) ==> WellKeyed(r.value)
  {
    if code !in t then Err(NoSuchSession)
    else Ok(t - {code})
  }

  // ---------------------------------------------------------------------
  // Properties relating the operations
  // ---------------------------------------------------------------------

  /** A freshly created session reads back as 0 to 0. */
  lemma CreatedScoreIsZero(t: Table, draws: seq<string>)
    requires HasFreshDraw(draws, t)
    ensures var (code, t') := Create(t, draws);
      Score(t', code) == Ok(SessionScore(0, 0)) &&
      forall k :: k != code ==> Score(t', k) == Score(t, k)
  {
  }

  /** After a successful update, get_score returns exactly the new scores, and every other
      code reads as before. */
  lemma UpdateThenScore(t: Table, code: string, newState: SessionState)
    requires Update(t, code, newState).Ok?
    ensures Score(Update(t, code, newState).value, code) == Ok(SessionScore(newState.scoreA, newState.scoreB))
    ensures forall k :: k != code ==> Score(Update(t, code, newState).value, k) == Score(t, k)
  {
  }

  /** Writing back a session's own record changes nothing, provided records sit under their
      own codes. */
  lemma UpdateWithStoredState(t: Table, code: string)
    requires WellKeyed(t) && code in t
    ensures Update(t, code, t[code]) == Ok(t)
  {
    assert t[code := t[code]] == t;
  }

  /** Two successful updates of one session leave what the second alone would. */
  lemma UpdateLastWriteWins(t: Table, code: string, s1: SessionState, s2: SessionState)
    requires Update(t, code, s1).Ok?
    ensures Update(Update(t, code, s1).value, code, s2) == Update(t, code, s2)
  {
    assert t[code := s1][code := s2] == t[code := s2];
  }

  /** After termination, get_score on that code fails; every other code reads as before. */
  lemma TerminateThenScoreFails(t: Table, code: string)
    requires code in t
    ensures Score(Terminate(t, code).value, code) == Err(NoSuchSession)
    ensures forall k :: k != code ==> Score(Terminate(t, code).value, k) == Score(t, k)
  {
  }

  /** Terminating a session that was just created restores the table. */
  lemma CreateThenTerminate(t: Table, draws: seq<string>)
    requires HasFreshDraw(draws, t)
    ensures var (code, t') := Create(t, draws);
      Terminate(t', code) == Ok(t)
  {
    var (code, t') := Create(t, draws);
    assert t' - {code} == t;
  }

  /** A terminated session can be neither updated nor terminated again. */
  lemma TerminatedIsGone(t: Table, code: string, newState: SessionState)
    requires code in t
    ensures Update(Terminate(t, code).value, code, newState) == Err(NoSuchSession)
    ensures Terminate(Terminate(t, code).value, code) == Err(NoSuchSession)
  {
  }

  /** The scenario of the backend tests, from an empty table: a created session reads 0 to 0,
      reads 10 to 2 after being updated to that, and cannot be read once terminated. */
  lemma SessionLifecycle(draws: seq<string>)
    requires |draws| > 0
    ensures HasFreshDraw(draws, map[])
    ensures var (code, t) := Create(map[], draws);
      && code == draws[0]
      && Score(t, code) == Ok(SessionScore(0, 0))
      && Update(t, code, SessionState(code, 10, 2)).Ok?
      && Score(Update(t, code, SessionState(code, 10, 2)).value, code) == Ok(SessionScore(10, 2))
      && Score(Terminate(t, code).value, code) == Err(NoSuchSession)
  {
    var empty: Table := map[];
    assert draws[0] !in empty;
    var (code, t) := Create(map[], draws);
    CreatedScoreIsZero(map[], draws);
    UpdateThenScore(t, code, SessionState(code, 10, 2));
    TerminateThenScoreFails(t, code);
  }

  // ---------------------------------------------------------------------
  // The manager object
  // ---------------------------------------------------------------------

  class SessionManager {
    var sessions: Table

    ghost predicate Valid()
      reads this
    {
      WellKeyed(sessions)
    }

    constructor ()
      ensures Valid() && sessions == map[]
    {
      sessions := map[];
    }

    /** `draws` stands for the successive results of generate_random_session_code(). */
    method CreateSession(draws: seq<string>) returns (code: string)
      requires Valid()
      requires HasFreshDraw(draws, sessions)
      modifies this
      ensures Valid()
      ensures code !in old(sessions) && code in sessions
      ensures (code, sessions) == Create(old(sessions), draws)
    {
      ghost var stop := FirstFresh(draws, sessions);
      var i := 0;
      var newCode := draws[i];
      while newCode in sessions
        invariant i <= stop && newCode == draws[i]
        decreases stop - i
      {
        i := i + 1;
        newCode := draws[i];
      }
      sessions := sessions[newCode := SessionState(newCode, 0, 0)];
      code := newCode;
    }

    method UpdateSessionState(code: string, newState: SessionState) returns (r: Outcome)
      requires Valid()
      modifies this
      ensures Valid()
      ensures match Update(old(sessions), code, newState)
        case Ok(t) => r == Pass && sessions == t
        case Err(e) => r == Fail(e) && sessions == old(sessions)
    {
      if code !in sessions {
        return Fail(NoSuchSession);
      }
      if newState.sessionCode != code {
        return Fail(CodeMismatch);
      }
      sessions := sessions[code := newState];
      r := Pass;
    }

    method GetScore(code: string) returns (r: Result<SessionScore>)
      ensures r == Score(sessions, code)
    {
      if code !in sessions {
        return Err(NoSuchSession);
      }
      var state := sessions[code];
      r := Ok(SessionScore(state.scoreA, state.scoreB));
    }

    method TerminateSession(code: string) returns (r: Outcome)
      requires Valid()
      modifies this
      ensures Valid()
      ensures match Terminate(old(sessions), code)
        case Ok(t) => r == Pass && sessions == t
        case Err(e) => r == Fail(e) && sessions == old(sessions)
    {
      if code !in sessions {
        return Fail(NoSuchSession);
      }
      sessions := sessions - {code};
      r := Pass;
    }
  }
}
