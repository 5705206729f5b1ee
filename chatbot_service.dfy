/** The interview chatbot's in-memory session store and its helpers. The
    language-model calls are not modelled: their replies are parameters. */
module ChatbotService {
  import opened Models

  datatype ChatMessage = AiMessage(content: string) | HumanMessage(content: string)

  type History = seq<ChatMessage>

  const InitialPrompt: string := "Chào bạn! Chúng ta sẽ bắt đầu buổi phỏng vấn sơ bộ cho vị trí Software Engineer. Bạn có thể giới thiệu đôi chút về bản thân và kinh nghiệm của mình không?"

  const EvaluationFallbackFeedback: string := "Không thể đánh giá. Vui lòng thử lại."

  /** The store after `start_interview(sessionId)`: that session holds exactly
      the opening AI message, whatever it held before, and every other
      session is as it was. */
  function Started(store: map<string, History>, sessionId: string): (s: map<string, History>)
    ensures s.Keys == store.Keys + {sessionId}
    ensures s[sessionId] == [AiMessage(InitialPrompt)]
    ensures forall k :: k in store && k != sessionId ==> s[k] == store[k]
  {
    store[sessionId := [AiMessage(InitialPrompt)]]
  }

  /** Starting a session twice leaves the same store as starting it once. */
  lemma StartedIdempotent(store: map<string, History>, sessionId: string)
    ensures Started(Started(store, sessionId), sessionId) == Started(store, sessionId)
  {
  }

  /** Starting one session never disturbs another, so starts of different
      sessions commute. */
  lemma StartedCommute(store: map<string, History>, a: string, b: string)
    ensures Started(Started(store, a), b) == Started(Started(store, b), a)
  {
  }

  /** The process-wide `store` dictionary from session id to transcript. */
  class SessionStore {
    var store: map<string, History>

    constructor ()
      ensures store == map[]
    {
      store := map[];
    }

    /** `get_session_history`: the session's transcript, inserting an empty
        one when the session is unknown; no other session is touched. */
    method GetSessionHistory(sessionId: string) returns (h: History)
      modifies this
      ensures sessionId in old(store) ==> store == old(store) && h == old(store)[sessionId]
      ensures sessionId !in old(store) ==> store == old(store)[sessionId := []] && h == []
      ensures sessionId in store && store[sessionId] == h
      ensures forall k :: k != sessionId ==> (k in store <==> k in old(store))
      ensures forall k :: k in old(store) ==> k in store && store[k] == old(store)[k]
    {
      if sessionId !in store {
        store := store[sessionId := []];
      }
      h := store[sessionId];
    }

    /** `store[sessionId].clear()` guarded by membership: an existing
        transcript becomes empty; an absent one stays absent. */
    method ClearHistory(sessionId: string)
      modifies this
      ensures sessionId in old(store) ==> store == old(store)[sessionId := []]
      ensures sessionId !in old(store) ==> store == old(store)
    {
      if sessionId in store {
        store := store[sessionId := []];
      }
    }

    /** `del store[sessionId]` guarded by membership: the session's
        transcript is gone and every other one is as it was. */
    method DropHistory(sessionId: string)
      modifies this
      ensures store == old(store) - {sessionId}
      ensures sessionId !in store
      ensures forall k :: k != sessionId ==> (k in store <==> k in old(store))
      ensures forall k :: k in store ==> store[k] == old(store)[k]
    {
      if sessionId in store {
        store := store - {sessionId};
      }
    }

    /** `start_interview`: clear the session, record the opening message and
        return it. */
    method StartInterview(sessionId: string) returns (text: string)
      modifies this
      ensures store == Started(old(store), sessionId)
      ensures text == InitialPrompt && store[sessionId] == [AiMessage(text)]
    {
      ClearHistory(sessionId);
      var history := GetSessionHistory(sessionId);
      assert store == old(store)[sessionId := []] && history == [];
      assert history + [AiMessage(InitialPrompt)] == [AiMessage(InitialPrompt)];
      store := store[sessionId := history + [AiMessage(InitialPrompt)]];
      text := InitialPrompt;
    }

    /** `chat_with_chatbot`: the chain looks the session up (creating it when
        absent), answers with the model's reply, given here as `reply`, and
        records the turn in the session's transcript. */
    method ChatWithChatbot(sessionId: string, message: string, reply: string) returns (text: string)
      modifies this
      ensures text == reply
      ensures store == Chatted(old(store), sessionId, message, reply)
    {
      var history := GetSessionHistory(sessionId);
      store := store[sessionId := history + [HumanMessage(message), AiMessage(reply)]];
      text := reply;
    }
  }

  /** The store after one successful chat turn: the session's transcript
      (empty when the session was unknown) gains the human message and then
      the AI reply; every other session is as it was. */
  function Chatted(store: map<string, History>, sessionId: string, message: string, reply: string): (s: map<string, History>)
    ensures s.Keys == store.Keys + {sessionId}
    ensures sessionId in store ==> |s[sessionId]| == |store[sessionId]| + 2 && s[sessionId][..|store[sessionId]|] == store[sessionId]
    ensures sessionId !in store ==> |s[sessionId]| == 2
    ensures s[sessionId][|s[sessionId]| - 2..] == [HumanMessage(message), AiMessage(reply)]
    ensures forall k :: k in store && k != sessionId ==> s[k] == store[k]
  {
    var before := if sessionId in store then store[sessionId] else [];
    store[sessionId := before + [HumanMessage(message), AiMessage(reply)]]
  }

  /** The first turn after a start: the transcript is the opening prompt,
      the candidate's message and the reply, in that order. */
  lemma StartedThenChatted(store: map<string, History>, sessionId: string, message: string, reply: string)
    ensures Chatted(Started(store, sessionId), sessionId, message, reply)[sessionId]
         == [AiMessage(InitialPrompt), HumanMessage(message), AiMessage(reply)]
  {
  }

  /** Turns in different sessions commute: each touches only its own transcript. */
  lemma ChattedCommute(store: map<string, History>, a: string, b: string, ma: string, ra: string, mb: string, rb: string)
    requires a != b
    ensures Chatted(Chatted(store, a, ma, ra), b, mb, rb) == Chatted(Chatted(store, b, mb, rb), a, ma, ra)
  {
  }

  /** The JSON object the evaluation call yields; either field may be missing. */
  datatype EvalReply = EvalReply(score: Option<int>, feedback: Option<string>)

  /** `evaluate_candidate_response`. `reply` is the parsed model reply, or
      None when the call or the JSON parsing raised; then the caller receives
      score 0 with a fixed, non-empty explanation. */
  function EvaluateCandidateResponse(reply: Option<EvalReply>): (d: EvalReply)
    ensures reply.Some? ==> d == reply.value
    ensures reply.None? ==> d.score == Some(0) && d.feedback == Some(EvaluationFallbackFeedback)
    ensures reply.None? ==> d.feedback.value != ""
  {
    if reply.Some? then reply.value else EvalReply(Some(0), Some(EvaluationFallbackFeedback))
  }
}
