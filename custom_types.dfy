/** The backend's record types (backend/logic/custom_types.py). */
module CustomTypes {

  /** A session as the session manager stores it: its code and the two team scores. */
  datatype SessionState = SessionState(sessionCode: string, scoreA: int, scoreB: int)

  /** The two scores of a session, without its code. */
  datatype SessionScore = SessionScore(scoreA: int, scoreB: int)
}
