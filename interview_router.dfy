/** The interview endpoints: beginning a chatbot interview for a candidate,
    chatting in it, evaluating one answer and ending the interview. The
    session id (a random UUID), the clock and the language-model replies
    are parameters. */
module InterviewRouter {
  import opened Models
  import opened Database
  import opened ChatbotService

  datatype ChatbotResponse = ChatbotResponse(response: string, sessionId: string, firstMessage: Option<string>)

  datatype EvaluationResponse = EvaluationResponse(score: int, feedback: string)

  const EndedMessage: string := "Phỏng vấn đã kết thúc thành công."

  /** `db.get(Candidate, id)`. */
  function CandidateAt(candidates: map<nat, Candidate>, id: int): (c: Option<Candidate>)
    ensures c.Some? <==> id in candidates
    ensures c.Some? ==> c.value == candidates[id]
  {
    if id in candidates then Some(candidates[id]) else None
  }

  // ---------------------------------------------------------------- begin

  /** The database after a new interview row for `candidateId` and
      `sessionId` is stored at the next free id. */
  function Begun(s: DbState, candidateId: nat, sessionId: string, now: Timestamp): (r: DbState)
    ensures r.interviews.Keys == s.interviews.Keys + {s.nextInterviewId}
    ensures var iv := r.interviews[s.nextInterviewId];
      iv.candidateId == candidateId && iv.sessionId == sessionId && iv.startTime == now && iv.endTime.None?
    ensures forall k :: k in s.interviews && k != s.nextInterviewId ==> r.interviews[k] == s.interviews[k]
    ensures r.(interviews := s.interviews, nextInterviewId := s.nextInterviewId) == s
  {
    s.(interviews := s.interviews[s.nextInterviewId := NewInterview(candidateId, sessionId, now)],
       nextInterviewId := s.nextInterviewId + 1)
  }

  /** Storing an interview for an existing candidate under an unused session
      id keeps the database valid. */
  lemma BegunValid(s: DbState, candidateId: nat, sessionId: string, now: Timestamp)
    requires ValidDb(s) && candidateId in s.candidates
    requires forall id: nat :: !InterviewWithSession(s, sessionId, id)
    ensures ValidDb(Begun(s, candidateId, sessionId, now))
  {
    var s1 := Begun(s, candidateId, sessionId, now);
    BegunSession(s, candidateId, sessionId, now);
    forall t | t in s1.testResults
      ensures ScoredAt(s1, t)
    {
      assert ScoredAt(s, t);
    }
    forall a, b | a in s1.interviews && b in s1.interviews && s1.interviews[a].sessionId == s1.interviews[b].sessionId
      ensures a == b
    {
      if s1.interviews[a].sessionId == sessionId {
        assert InterviewWithSession(s1, sessionId, a) && InterviewWithSession(s1, sessionId, b);
      } else {
        assert s1.interviews[a] == s.interviews[a] && s1.interviews[b] == s.interviews[b];
      }
    }
  }

  /** After a begin, the new row is the one interview with that session id. */
  lemma BegunSession(s: DbState, candidateId: nat, sessionId: string, now: Timestamp)
    requires forall k :: k in s.interviews ==> k < s.nextInterviewId
    requires forall id: nat :: !InterviewWithSession(s, sessionId, id)
    ensures forall id: nat :: InterviewWithSession(Begun(s, candidateId, sessionId, now), sessionId, id) <==> id == s.nextInterviewId
  {
    var s1 := Begun(s, candidateId, sessionId, now);
    forall id: nat
      ensures InterviewWithSession(s1, sessionId, id) <==> id == s.nextInterviewId
    {
      if id != s.nextInterviewId {
        assert !InterviewWithSession(s, sessionId, id);
        assert id in s1.interviews <==> id in s.interviews;
        if id in s.interviews {
          assert s1.interviews[id] == s.interviews[id];
        }
      }
    }
  }

  /** The insert of `begin_interview`. */
  method AddInterview(db: Db, candidateId: nat, sessionId: string, now: Timestamp) returns (id: nat)
    modifies db
    ensures id == old(db.nextInterviewId)
    ensures db.State() == Begun(old(db.State()), candidateId, sessionId, now)
  {
    id := db.nextInterviewId;
    db.interviews := db.interviews[id := NewInterview(candidateId, sessionId, now)];
    db.nextInterviewId := id + 1;
  }

  /** `begin_interview`. `sessionId` is the fresh UUID the handler draws; if
      it already names an interview, the unique constraint on the session id
      fails the commit (a server error) after the transcript was cleared. */
  method BeginInterview(db: Db, sessions: SessionStore, candidateId: int, sessionId: string, now: Timestamp)
    returns (r: Result<ChatbotResponse>)
    requires db.Valid()
    modifies db, sessions
    ensures db.Valid()
    ensures candidateId !in old(db.candidates) ==>
      r == Err(NotFound) && db.State() == old(db.State()) && sessions.store == old(sessions.store)
    ensures candidateId in old(db.candidates) && (exists id: nat :: InterviewWithSession(old(db.State()), sessionId, id)) ==>
      && r == Err(ServerError) && db.State() == old(db.State())
      && sessions.store == (if sessionId in old(sessions.store) then old(sessions.store)[sessionId := []] else old(sessions.store))
    ensures candidateId in old(db.candidates) && (forall id: nat :: !InterviewWithSession(old(db.State()), sessionId, id)) ==>
      && r == Ok(ChatbotResponse(InitialPrompt, sessionId, Some(InitialPrompt)))
      && db.State() == Begun(old(db.State()), candidateId, sessionId, now)
      && sessions.store == Started(old(sessions.store), sessionId)
  {
    if candidateId !in db.candidates {
      return Err(NotFound);
    }
    sessions.ClearHistory(sessionId);
    var existing := db.FindInterviewBySession(sessionId);
    if existing.Some? {
      return Err(ServerError);
    }
    ghost var s0 := db.State();
    BegunValid(s0, candidateId, sessionId, now);
    var _ := AddInterview(db, candidateId, sessionId, now);
    var text := sessions.StartInterview(sessionId);
    r := Ok(ChatbotResponse(text, sessionId, Some(text)));
  }

  /** Clearing before starting changes nothing: the transcript `begin_interview`
      leaves is the one `start_interview` alone leaves. */
  lemma ClearThenStart(store: map<string, History>, sessionId: string)
    ensures Started(if sessionId in store then store[sessionId := []] else store, sessionId) == Started(store, sessionId)
  {
  }

  // ---------------------------------------------------------------- chat

  /** `continue_interview_chat`: the chatbot is reached only for a session
      id that names an interview; `reply` is what the chain answers, and the
      turn is recorded in that session's transcript. */
  method ContinueInterviewChat(db: Db, sessions: SessionStore, sessionId: string, message: string, reply: string)
    returns (r: Result<ChatbotResponse>)
    requires db.Valid()
    modifies sessions
    ensures (forall id: nat :: !InterviewWithSession(db.State(), sessionId, id)) ==>
      r == Err(NotFound) && sessions.store == old(sessions.store)
    ensures (exists id: nat :: InterviewWithSession(db.State(), sessionId, id)) ==>
      && r == Ok(ChatbotResponse(reply, sessionId, None))
      && sessions.store == Chatted(old(sessions.store), sessionId, message, reply)
  {
    ghost var s0 := db.State();
    var found := db.FindInterviewBySession(sessionId);
    if found.None? {
      return Err(NotFound);
    }
    assert InterviewWithSession(s0, sessionId, found.value);
    var text := sessions.ChatWithChatbot(sessionId, message, reply);
    assert db.State() == s0;
    r := Ok(ChatbotResponse(text, sessionId, None));
  }

  // ---------------------------------------------------------------- evaluate

  /** The JD the evaluation uses: the candidate's stored JD when it is
      non-empty, otherwise the request's; a bad request when both are empty. */
  function ChooseJd(candidate: Option<Candidate>, requestJd: string): (r: Result<string>)
    ensures r.Err? <==> (candidate.None? || candidate.value.jdText.None? || candidate.value.jdText.value == "") && requestJd == ""
    ensures r.Err? ==> r.error == BadRequest
    ensures r.Ok? ==> r.value != ""
    ensures candidate.Some? && candidate.value.jdText.Some? && candidate.value.jdText.value != "" ==>
      r == Ok(candidate.value.jdText.value)
    ensures (candidate.None? || candidate.value.jdText.None? || candidate.value.jdText.value == "") && requestJd != "" ==>
      r == Ok(requestJd)
  {
    var jd := if candidate.Some? && candidate.value.jdText.Some? then candidate.value.jdText.value else "";
    if jd == "" && requestJd == "" then Err(BadRequest)
    else Ok(if jd != "" then jd else requestJd)
  }

  /** `InterviewEvaluationResponse(**result)`: both fields must be present. */
  function ToEvaluationResponse(d: EvalReply): (r: Result<EvaluationResponse>)
    ensures r.Ok? <==> d.score.Some? && d.feedback.Some?
    ensures r.Ok? ==> r.value == EvaluationResponse(d.score.value, d.feedback.value)
    ensures r.Err? ==> r.error == ServerError
  {
    if d.score.Some? && d.feedback.Some? then Ok(EvaluationResponse(d.score.value, d.feedback.value))
    else Err(ServerError)
  }

  /** What `evaluate_interview_response` answers when the request names its
      candidate; `model(question, answer, jd)` is the parsed reply of the
      evaluation call, or None when the call or parsing raised. */
  function Evaluation(candidate: Option<Candidate>, question: string, answer: string, requestJd: string,
                      model: (string, string, string) -> Option<EvalReply>): (r: Result<EvaluationResponse>)
    ensures r == Err(BadRequest) <==> ChooseJd(candidate, requestJd).Err?
    ensures r.Err? ==> r.error in {BadRequest, ServerError}
    ensures requestJd != "" ==> r != Err(BadRequest)
  {
    var jd := ChooseJd(candidate, requestJd);
    if jd.Err? then Err(jd.error)
    else ToEvaluationResponse(EvaluateCandidateResponse(model(question, answer, jd.value)))
  }

  /** The outcomes of an evaluation: a bad request exactly when no JD is
      available; otherwise the model is asked with the chosen JD, a failed
      call scores 0 with the fixed explanation, and a reply lacking a field
      is a server error. */
  lemma EvaluationOutcomes(candidate: Option<Candidate>, question: string, answer: string, requestJd: string,
                           model: (string, string, string) -> Option<EvalReply>)
    ensures var r := Evaluation(candidate, question, answer, requestJd, model);
      && (r == Err(BadRequest) <==> ChooseJd(candidate, requestJd).Err?)
      && (ChooseJd(candidate, requestJd).Ok? ==>
            var reply := model(question, answer, ChooseJd(candidate, requestJd).value);
            && (reply.None? ==> r == Ok(EvaluationResponse(0, EvaluationFallbackFeedback)))
            && (reply.Some? ==> r == ToEvaluationResponse(reply.value)))
  {
  }

  /** `evaluate_interview_response` as intended: the candidate is looked up
      by the id the request carries. */
  method EvaluateInterviewResponse(db: Db, candidateId: int, question: string, answer: string, requestJd: string,
                                   model: (string, string, string) -> Option<EvalReply>)
    returns (r: Result<EvaluationResponse>)
    ensures r == Evaluation(CandidateAt(db.candidates, candidateId), question, answer, requestJd, model)
    ensures requestJd != "" ==> r != Err(BadRequest)
  {
    var candidate := if candidateId in db.candidates then Some(db.candidates[candidateId]) else None;
    var jd := if candidate.Some? && candidate.value.jdText.Some? then candidate.value.jdText.value else "";
    if jd == "" && requestJd == "" {
      return Err(BadRequest);
    }
    var result := EvaluateCandidateResponse(model(question, answer, if jd != "" then jd else requestJd));
    if result.score.None? || result.feedback.None? {
      return Err(ServerError);
    }
    r := Ok(EvaluationResponse(result.score.value, result.feedback.value));
  }

  /** `evaluate_interview_response` as written: the request type has no
      candidate id, so reading it raises before anything else and every
      request is answered with a server error. */
  function EvaluationAsWritten(question: string, answer: string, requestJd: string,
                               model: (string, string, string) -> Option<EvalReply>): (r: Result<EvaluationResponse>)
    ensures r == Err(ServerError)
  {
    Err(ServerError)
  }

  /** A request carrying its own JD, answered well by the model, succeeds as
      intended but fails as written. */
  lemma EvaluationFinding(question: string, answer: string, requestJd: string, score: int, feedback: string)
    requires requestJd != ""
    ensures var model := (q: string, a: string, jd: string) => Some(EvalReply(Some(score), Some(feedback)));
      && Evaluation(None, question, answer, requestJd, model) == Ok(EvaluationResponse(score, feedback))
      && EvaluationAsWritten(question, answer, requestJd, model) == Err(ServerError)
  {
  }

  // ---------------------------------------------------------------- end

  /** The two guards of `end_interview`, on the interview found for the
      session id: none found, or already ended. */
  function EndGuard(found: Option<Interview>): (e: Option<Error>)
    ensures found.None? ==> e == Some(NotFound)
    ensures found.Some? && found.value.endTime.Some? ==> e == Some(BadRequest)
    ensures e.None? <==> found.Some? && found.value.endTime.None?
  {
    if found.None? then Some(NotFound)
    else if found.value.endTime.Some? then Some(BadRequest)
    else None
  }

  /** The answer of `end_interview` as intended. */
  function EndResponse(found: Option<Interview>): (r: Result<string>)
    ensures r.Ok? <==> found.Some? && found.value.endTime.None?
    ensures r.Ok? ==> r.value == EndedMessage
    ensures found.None? ==> r == Err(NotFound)
    ensures found.Some? && found.value.endTime.Some? ==> r == Err(BadRequest)
  {
    var e := EndGuard(found);
    if e.Some? then Err(e.value) else Ok(EndedMessage)
  }

  /** The answer of `end_interview` as written: past the guards, the handler
      calls `datetime.utcnow()` in a module that never imports `datetime`, so
      it raises before the commit. */
  function EndResponseAsWritten(found: Option<Interview>): (r: Result<string>)
    ensures r.Err?
    ensures found.None? ==> r == Err(NotFound)
    ensures found.Some? && found.value.endTime.Some? ==> r == Err(BadRequest)
    ensures found.Some? && found.value.endTime.None? ==> r == Err(ServerError)
  {
    var e := EndGuard(found);
    if e.Some? then Err(e.value) else Err(ServerError)
  }

  /** As written, no interview can be ended: every call fails, and an open
      interview gets a server error where a success was intended. */
  lemma EndFinding(found: Option<Interview>)
    ensures EndResponseAsWritten(found).Err?
    ensures found.Some? && found.value.endTime.None? ==>
      EndResponseAsWritten(found) == Err(ServerError) && EndResponse(found) == Ok(EndedMessage)
    ensures found.None? || found.value.endTime.Some? ==> EndResponseAsWritten(found) == EndResponse(found)
  {
  }

  /** The interview the session id names, if any. */
  ghost function InterviewFor(s: DbState, sessionId: string): (found: Option<Interview>)
    requires UniqueSessions(s.interviews)
    ensures found.None? <==> forall id: nat :: !InterviewWithSession(s, sessionId, id)
    ensures forall id: nat :: InterviewWithSession(s, sessionId, id) ==> found == Some(s.interviews[id])
  {
    if exists id: nat :: InterviewWithSession(s, sessionId, id) then
      var id: nat :| InterviewWithSession(s, sessionId, id);
      Some(s.interviews[id])
    else None
  }

  /** The database after interview `id` gets its end time. */
  function Ended(s: DbState, id: nat, now: Timestamp): (r: DbState)
    requires id in s.interviews
    ensures r.interviews.Keys == s.interviews.Keys
    ensures var iv0, iv := s.interviews[id], r.interviews[id];
      iv.endTime == Some(now) && iv.candidateId == iv0.candidateId && iv.sessionId == iv0.sessionId &&
      iv.startTime == iv0.startTime
    ensures forall k :: k in s.interviews && k != id ==> r.interviews[k] == s.interviews[k]
    ensures r.(interviews := s.interviews) == s
  {
    s.(interviews := s.interviews[id := s.interviews[id].(endTime := Some(now))])
  }

  /** Ending an interview keeps the database valid, and the interview stays
      reachable by its session id with its end time set, so a second end is
      refused. */
  lemma EndedValid(s: DbState, id: nat, now: Timestamp)
    requires ValidDb(s) && id in s.interviews
    ensures ValidDb(Ended(s, id, now))
    ensures var s1 := Ended(s, id, now);
      var sid := s.interviews[id].sessionId;
      InterviewWithSession(s1, sid, id) && EndGuard(InterviewFor(s1, sid)) == Some(BadRequest)
  {
    var s1 := Ended(s, id, now);
    forall t | t in s1.testResults
      ensures ScoredAt(s1, t)
    {
      assert ScoredAt(s, t);
    }
    assert UniqueSessions(s1.interviews) by {
      forall a, b | a in s1.interviews && b in s1.interviews && s1.interviews[a].sessionId == s1.interviews[b].sessionId
        ensures a == b
      {
        assert s.interviews[a].sessionId == s1.interviews[a].sessionId;
        assert s.interviews[b].sessionId == s1.interviews[b].sessionId;
      }
    }
    assert InterviewWithSession(s1, s.interviews[id].sessionId, id);
  }

  /** The update of `end_interview`. */
  method CloseInterview(db: Db, id: nat, now: Timestamp)
    requires id in db.interviews
    modifies db
    ensures db.State() == Ended(old(db.State()), id, now)
  {
    db.interviews := db.interviews[id := db.interviews[id].(endTime := Some(now))];
  }

  /** `end_interview` as intended: close the interview once and drop its
      transcript, leaving every other transcript as it was. */
  method EndInterview(db: Db, sessions: SessionStore, sessionId: string, now: Timestamp)
    returns (r: Result<string>)
    requires db.Valid()
    modifies db, sessions
    ensures db.Valid()
    ensures r == EndResponse(InterviewFor(old(db.State()), sessionId))
    ensures r.Err? ==> db.State() == old(db.State()) && sessions.store == old(sessions.store)
    ensures r.Ok? ==> exists id: nat ::
      && InterviewWithSession(old(db.State()), sessionId, id)
      && db.State() == Ended(old(db.State()), id, now)
    ensures r.Ok? ==> sessions.store == old(sessions.store) - {sessionId}
  {
    ghost var s0 := db.State();
    var found := db.FindInterviewBySession(sessionId);
    if found.None? {
      return Err(NotFound);
    }
    var id := found.value;
    if db.interviews[id].endTime.Some? {
      return Err(BadRequest);
    }
    EndedValid(s0, id, now);
    CloseInterview(db, id, now);
    sessions.DropHistory(sessionId);
    r := Ok(EndedMessage);
  }

  /** `end_interview` as written: the guards, then a server error; neither
      the database nor the transcripts change. */
  method EndInterviewAsWritten(db: Db, sessions: SessionStore, sessionId: string, now: Timestamp)
    returns (r: Result<string>)
    requires db.Valid()
    ensures r == EndResponseAsWritten(InterviewFor(db.State(), sessionId))
    ensures r.Err?
  {
    var found := db.FindInterviewBySession(sessionId);
    if found.None? {
      return Err(NotFound);
    }
    if db.interviews[found.value].endTime.Some? {
      return Err(BadRequest);
    }
    r := Err(ServerError);
  }
}
