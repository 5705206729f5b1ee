/** Record shapes of the recruitment backend's relational schema, and the
    error outcomes its HTTP handlers raise. Timestamps are opaque values
    supplied by the caller (the clock is not modelled). */
module Models {

  type Timestamp = nat

  datatype Option<+T> = None | Some(value: T)

  /** The HTTP errors the handlers raise: 404, 400 and 500. */
  datatype Error = NotFound | BadRequest | ServerError

  datatype Result<+T> = Ok(value: T) | Err(error: Error)

  /** A suggestion list as it sits in its text column: the JSON encoding of a
      list, or the empty string (which reads back as no suggestions). */
  datatype StoredList = Encoded(items: seq<string>) | Blank

  /** What json.dumps stores for a list of suggestions. */
  function EncodeList(xs: seq<string>): (s: StoredList)
    ensures s != Blank
  {
    Encoded(xs)
  }

  /** What a stored suggestion column reads back as: the decoded list, or
      the empty list when the column holds the empty string. */
  function DecodeList(s: StoredList): (r: seq<string>)
    ensures s == Blank ==> r == []
    ensures forall xs :: s == EncodeList(xs) ==> r == xs
  {
    match s
    case Encoded(xs) => xs
    case Blank => []
  }

  lemma DecodeEncode(xs: seq<string>)
    ensures DecodeList(EncodeList(xs)) == xs
  {
  }

  datatype Candidate = Candidate(
    userId: Option<nat>,
    fullName: string,
    email: string,
    phoneNumber: Option<string>,
    appliedPosition: Option<string>,
    cvText: Option<string>,
    jdText: Option<string>)

  datatype MatchResult = MatchResult(
    candidateId: nat,
    jdId: Option<nat>,
    matchScore: int,
    feedback: string,
    suggestions: StoredList,
    createdAt: Timestamp)

  datatype Interview = Interview(
    candidateId: nat,
    sessionId: string,
    startTime: Timestamp,
    endTime: Option<Timestamp>,
    overallScore: Option<int>,
    overallFeedback: Option<string>)

  datatype Question = Question(
    questionText: string,
    options: seq<string>,
    correctAnswer: string,
    skillCategory: string)

  datatype SkillTestResult = SkillTestResult(
    candidateId: nat,
    startTime: Timestamp,
    endTime: Option<Timestamp>,
    score: Option<int>,
    totalQuestions: Option<int>)

  datatype SkillTestResultItem = SkillTestResultItem(
    testResultId: nat,
    questionId: nat,
    selectedAnswer: Option<string>,
    isCorrect: Option<bool>)

  /** A new interview row: only the candidate and session are given, start
      time defaults to now, everything else to unset. */
  function NewInterview(candidateId: nat, sessionId: string, now: Timestamp): (i: Interview)
    ensures i.candidateId == candidateId && i.sessionId == sessionId && i.startTime == now
    ensures i.endTime == None && i.overallScore == None && i.overallFeedback == None
  {
    Interview(candidateId, sessionId, now, None, None, None)
  }

  /** A new skill-test row with the given question count; end time and score unset. */
  function NewSkillTestResult(candidateId: nat, total: Option<int>, now: Timestamp): (t: SkillTestResult)
    ensures t.candidateId == candidateId && t.startTime == now && t.totalQuestions == total
    ensures t.endTime == None && t.score == None
  {
    SkillTestResult(candidateId, now, None, None, total)
  }
}
