/** The skill-test endpoints: question selection when a test starts, scoring
    when it is submitted (once), and reading a result back. */
module SkillTests {
  import opened Models
  import opened Database

  /** One submitted answer; the question id is whatever the client sent. */
  datatype AnswerSubmission = AnswerSubmission(questionId: int, selectedAnswer: string)

  /** A question as shown to the candidate: no correct answer. */
  datatype QuestionPublic = QuestionPublic(id: nat, questionText: string, options: seq<string>, skillCategory: string)

  datatype StartResponse = StartResponse(testId: nat, questions: seq<QuestionPublic>)

  datatype SubmitResponse = SubmitResponse(testResultId: nat, score: int, totalQuestions: int)

  datatype ItemPublic = ItemPublic(questionText: string, selectedAnswer: Option<string>, isCorrect: Option<bool>)

  datatype TestResultPublic = TestResultPublic(
    id: nat,
    candidateId: nat,
    score: Option<int>,
    totalQuestions: Option<int>,
    startTime: Timestamp,
    endTime: Option<Timestamp>,
    items: seq<ItemPublic>)

  /** How many questions a test draws when the request names no limit. */
  const DefaultLimit: nat := 10

  /** The questions of one category with id below `n`, in id order. */
  function InCategory(questions: map<nat, Question>, category: string, n: nat): seq<(nat, Question)>
  {
    Rows(questions, (q: Question) => q.skillCategory == category, n)
  }

  /** `select(Question).where(skill_category == category).limit(limit)`: the
      first `limit` questions of the category; fewer when the category has
      fewer, and then all of them. */
  function SelectQuestions(questions: map<nat, Question>, category: string, limit: nat, n: nat): (r: seq<(nat, Question)>)
    ensures |r| <= limit
    ensures forall i :: 0 <= i < |r| ==> r[i].0 in questions && questions[r[i].0] == r[i].1 && r[i].1.skillCategory == category
    ensures forall i, j :: 0 <= i < j < |r| ==> r[i].0 < r[j].0
    ensures |r| < limit ==> r == InCategory(questions, category, n)
  {
    var all := InCategory(questions, category, n);
    if |all| <= limit then all else all[..limit]
  }

  /** Selection comes back empty exactly when the limit is zero or no question
      (below the id bound) has the category. */
  lemma SelectEmpty(questions: map<nat, Question>, category: string, limit: nat, n: nat)
    ensures SelectQuestions(questions, category, limit, n) == [] <==>
      limit == 0 || forall k :: k in questions && k < n ==> questions[k].skillCategory != category
  {
    var keep := (q: Question) => q.skillCategory == category;
    if forall k :: k in questions && k < n ==> questions[k].skillCategory != category {
      RowsNone(questions, keep, n);
    } else {
      var k :| k in questions && k < n && questions[k].skillCategory == category;
      RowsComplete(questions, keep, n, k);
    }
  }

  /** The public view of a selected question: id, text, options, category. */
  function PublicQuestions(rows: seq<(nat, Question)>): (r: seq<QuestionPublic>)
    ensures |r| == |rows|
    ensures forall i :: 0 <= i < |r| ==>
      r[i].id == rows[i].0 && r[i].questionText == rows[i].1.questionText &&
      r[i].options == rows[i].1.options && r[i].skillCategory == rows[i].1.skillCategory
  {
    seq(|rows|, i requires 0 <= i < |rows| =>
      QuestionPublic(rows[i].0, rows[i].1.questionText, rows[i].1.options, rows[i].1.skillCategory))
  }

  /** The item stored for one answer: none when the question does not exist. */
  function ItemFor(questions: map<nat, Question>, testId: nat, a: AnswerSubmission): (r: seq<SkillTestResultItem>)
    ensures r == [] <==> a.questionId !in questions
    ensures |r| <= 1
    ensures forall it :: it in r ==>
      && it.testResultId == testId && it.questionId == a.questionId
      && it.selectedAnswer == Some(a.selectedAnswer) && it.isCorrect == Some(Scores(questions, a))
  {
    if a.questionId in questions then
      [SkillTestResultItem(testId, a.questionId, Some(a.selectedAnswer),
                           Some(a.selectedAnswer == questions[a.questionId].correctAnswer))]
    else []
  }

  /** The items a submission stores, in answer order. */
  function Graded(questions: map<nat, Question>, testId: nat, answers: seq<AnswerSubmission>): (r: seq<SkillTestResultItem>)
    ensures |r| <= |answers|
    ensures forall i :: 0 <= i < |r| ==> r[i].testResultId == testId && r[i].questionId in questions
  {
    if answers == [] then []
    else Graded(questions, testId, answers[..|answers| - 1]) + ItemFor(questions, testId, answers[|answers| - 1])
  }

  /** Whether an answer names an existing question. */
  predicate Known(questions: map<nat, Question>, a: AnswerSubmission)
  {
    a.questionId in questions
  }

  /** Exactly one item per answer whose question exists, in answer order:
      it records the selected answer, and it is marked correct exactly when
      that answer equals the question's correct answer. */
  lemma {:induction false} GradedExact(questions: map<nat, Question>, testId: nat, answers: seq<AnswerSubmission>)
    ensures var kept := Filter(answers, (a: AnswerSubmission) => Known(questions, a));
      && |Graded(questions, testId, answers)| == |kept|
      && forall i :: 0 <= i < |kept| ==>
           && kept[i].questionId in questions
           && Graded(questions, testId, answers)[i] ==
                SkillTestResultItem(testId, kept[i].questionId, Some(kept[i].selectedAnswer),
                                    Some(kept[i].selectedAnswer == questions[kept[i].questionId].correctAnswer))
  {
    if answers != [] {
      GradedExact(questions, testId, answers[..|answers| - 1]);
    }
  }

  /** Whether an answer scores: its question exists and the selected answer
      equals the correct one. */
  predicate Scores(questions: map<nat, Question>, a: AnswerSubmission)
  {
    a.questionId in questions && a.selectedAnswer == questions[a.questionId].correctAnswer
  }

  /** The score of a submission: the number of answers that score. */
  function Score(questions: map<nat, Question>, answers: seq<AnswerSubmission>): (r: nat)
    ensures r <= |answers|
    ensures (forall i :: 0 <= i < |answers| ==> Scores(questions, answers[i])) ==> r == |answers|
    ensures (forall i :: 0 <= i < |answers| ==> !Scores(questions, answers[i])) ==> r == 0
  {
    if answers == [] then 0
    else Score(questions, answers[..|answers| - 1]) + (if Scores(questions, answers[|answers| - 1]) then 1 else 0)
  }

  /** The score equals the number of stored items marked correct and never
      exceeds the number of answers. */
  lemma {:induction false} ScoreCountsCorrectItems(questions: map<nat, Question>, testId: nat, answers: seq<AnswerSubmission>)
    ensures Score(questions, answers) == CountCorrect(Graded(questions, testId, answers))
    ensures Score(questions, answers) <= |answers|
  {
    if answers != [] {
      var init := answers[..|answers| - 1];
      var last := ItemFor(questions, testId, answers[|answers| - 1]);
      ScoreCountsCorrectItems(questions, testId, init);
      assert Graded(questions, testId, answers) == Graded(questions, testId, init) + last;
      CountCorrectAppend(Graded(questions, testId, init), last);
      if last != [] {
        assert last[..0] == [];
      }
      assert CountCorrect(last) == if Scores(questions, answers[|answers| - 1]) then 1 else 0;
    }
  }

  /** One item per answer whose question exists; answers naming a missing
      question leave no trace. */
  lemma {:induction false} GradedSkipsMissing(questions: map<nat, Question>, testId: nat, answers: seq<AnswerSubmission>)
    ensures (forall i :: 0 <= i < |answers| ==> answers[i].questionId in questions) ==>
      |Graded(questions, testId, answers)| == |answers|
    ensures (forall i :: 0 <= i < |answers| ==> answers[i].questionId !in questions) ==>
      Graded(questions, testId, answers) == [] && Score(questions, answers) == 0
  {
    if answers != [] {
      var init := answers[..|answers| - 1];
      GradedSkipsMissing(questions, testId, init);
      assert forall i :: 0 <= i < |init| ==> init[i] == answers[i];
    }
  }

  /** The score is not bounded by the number of questions in the test: an
      answer that scores counts every time it is submitted, so a correct
      answer to one question sent `n` times scores `n`. */
  lemma {:induction false} ScoreCanExceedTotal(questions: map<nat, Question>, a: AnswerSubmission, n: nat)
    requires Scores(questions, a)
    ensures Score(questions, seq(n, _ => a)) == n
  {
    if n > 0 {
      ScoreCanExceedTotal(questions, a, n - 1);
      assert seq(n, _ => a)[..n - 1] == seq(n - 1, _ => a);
    }
  }

  /** Number of public items marked correct. */
  function CountCorrectPublic(items: seq<ItemPublic>): nat
  {
    if items == [] then 0
    else CountCorrectPublic(items[..|items| - 1]) + (if items[|items| - 1].isCorrect == Some(true) then 1 else 0)
  }

  lemma {:induction false} CountCorrectPublicAgrees(pub: seq<ItemPublic>, items: seq<SkillTestResultItem>)
    requires |pub| == |items|
    requires forall i :: 0 <= i < |pub| ==> pub[i].isCorrect == items[i].isCorrect
    ensures CountCorrectPublic(pub) == CountCorrect(items)
  {
    if pub != [] {
      CountCorrectPublicAgrees(pub[..|pub| - 1], items[..|items| - 1]);
    }
  }

  /** The database after a question is stored at the next free id. */
  function QuestionAdded(s: DbState, q: Question): (r: DbState)
    ensures r.questions.Keys == s.questions.Keys + {s.nextQuestionId}
    ensures r.questions[s.nextQuestionId] == q
    ensures forall k :: k in s.questions && k != s.nextQuestionId ==> r.questions[k] == s.questions[k]
    ensures r.(questions := s.questions, nextQuestionId := s.nextQuestionId) == s
  {
    s.(questions := s.questions[s.nextQuestionId := q], nextQuestionId := s.nextQuestionId + 1)
  }

  /** Storing a question keeps the database valid and changes no test. */
  lemma QuestionAddedValid(s: DbState, q: Question)
    requires ValidDb(s)
    ensures ValidDb(QuestionAdded(s, q))
    ensures QuestionAdded(s, q).questions[s.nextQuestionId] == q && s.nextQuestionId !in s.questions
  {
    var s1 := QuestionAdded(s, q);
    forall t | t in s1.testResults
      ensures ScoredAt(s1, t)
    {
      assert ScoredAt(s, t);
    }
  }

  /** `create_question`: store a new reference question. */
  method CreateQuestion(db: Db, q: Question) returns (id: nat)
    requires db.Valid()
    modifies db
    ensures db.Valid()
    ensures id == old(db.nextQuestionId) && id !in old(db.questions)
    ensures db.State() == QuestionAdded(old(db.State()), q)
  {
    ghost var s0 := db.State();
    QuestionAddedValid(s0, q);
    id := db.nextQuestionId;
    db.questions := db.questions[id := q];
    db.nextQuestionId := id + 1;
    assert db.State() == QuestionAdded(s0, q);
  }

  /** The database after a test for `candidateId` over `total` questions is
      opened at the next free id. */
  function Opened(s: DbState, candidateId: nat, total: nat, now: Timestamp): (r: DbState)
    ensures r.testResults.Keys == s.testResults.Keys + {s.nextTestResultId}
    ensures var t := r.testResults[s.nextTestResultId];
      t.candidateId == candidateId && t.totalQuestions == Some(total) && t.startTime == now &&
      t.score.None? && t.endTime.None?
    ensures forall k :: k in s.testResults && k != s.nextTestResultId ==> r.testResults[k] == s.testResults[k]
    ensures r.(testResults := s.testResults, nextTestResultId := s.nextTestResultId) == s
  {
    s.(testResults := s.testResults[s.nextTestResultId := NewSkillTestResult(candidateId, Some(total), now)],
       nextTestResultId := s.nextTestResultId + 1)
  }

  /** Opening a test for an existing candidate keeps the database valid: the
      new test is open, has its question count and has no items yet. */
  lemma OpenedValid(s: DbState, candidateId: nat, total: nat, now: Timestamp)
    requires ValidDb(s) && candidateId in s.candidates
    ensures ValidDb(Opened(s, candidateId, total, now))
    ensures s.nextTestResultId !in s.testResults
    ensures ItemsOf(s.testItems, s.nextTestResultId, s.nextTestItemId) == []
  {
    var s1 := Opened(s, candidateId, total, now);
    var id := s.nextTestResultId;
    RowsNone(s.testItems, (it: SkillTestResultItem) => it.testResultId == id, s.nextTestItemId);
    forall t | t in s1.testResults
      ensures ScoredAt(s1, t)
    {
      if t != id {
        assert ScoredAt(s, t);
      }
    }
  }

  /** The insert of `start_skill_test`: a new open test at the next free id. */
  method OpenTest(db: Db, candidateId: nat, total: nat, now: Timestamp) returns (id: nat)
    modifies db
    ensures id == old(db.nextTestResultId)
    ensures db.State() == Opened(old(db.State()), candidateId, total, now)
  {
    id := db.nextTestResultId;
    db.testResults := db.testResults[id := NewSkillTestResult(candidateId, Some(total), now)];
    db.nextTestResultId := id + 1;
  }

  /** `start_skill_test`. */
  method StartSkillTest(db: Db, candidateId: int, category: string, now: Timestamp, limit: nat := DefaultLimit)
    returns (r: Result<StartResponse>)
    requires db.Valid()
    modifies db
    ensures db.Valid()
    ensures candidateId !in old(db.candidates) ==> r == Err(NotFound)
    ensures r.Err? ==> r.error == NotFound && db.State() == old(db.State())
    ensures var sel := SelectQuestions(old(db.questions), category, limit, old(db.nextQuestionId));
      candidateId in old(db.candidates) ==>
        && (sel == [] <==> r.Err?)
        && (r.Ok? ==>
              && r.value == StartResponse(old(db.nextTestResultId), PublicQuestions(sel))
              && db.State() == Opened(old(db.State()), candidateId, |sel|, now))
  {
    if candidateId !in db.candidates {
      return Err(NotFound);
    }
    var selected := SelectQuestions(db.questions, category, limit, db.nextQuestionId);
    if selected == [] {
      return Err(NotFound);
    }
    ghost var s0 := db.State();
    OpenedValid(s0, candidateId, |selected|, now);
    var id := OpenTest(db, candidateId, |selected|, now);
    r := Ok(StartResponse(id, PublicQuestions(selected)));
  }

  /** The scoring loop of `submit_skill_test`: look each answer's question
      up, count the correct ones, and stage one item per answer whose
      question exists (written to the table at commit). */
  method ScoreAnswers(questions: map<nat, Question>, testId: nat, answers: seq<AnswerSubmission>)
    returns (score: nat, staged: seq<SkillTestResultItem>)
    ensures score == Score(questions, answers)
    ensures staged == Graded(questions, testId, answers)
    ensures score == CountCorrect(staged) <= |answers|
  {
    score, staged := 0, [];
    var i := 0;
    while i < |answers|
      invariant 0 <= i <= |answers|
      invariant score == Score(questions, answers[..i])
      invariant staged == Graded(questions, testId, answers[..i])
    {
      var a := answers[i];
      assert answers[..i + 1][..i] == answers[..i];
      if a.questionId in questions {
        var question := questions[a.questionId];
        var isCorrect := a.selectedAnswer == question.correctAnswer;
        if isCorrect {
          score := score + 1;
        }
        staged := staged + [SkillTestResultItem(testId, a.questionId, Some(a.selectedAnswer), Some(isCorrect))];
      } else {
        assert staged + [] == staged;
      }
      i := i + 1;
    }
    assert answers[..i] == answers;
    ScoreCountsCorrectItems(questions, testId, answers);
  }

  /** `submit_skill_test`: score the answers and close the test, once. */
  method SubmitSkillTest(db: Db, testId: int, answers: seq<AnswerSubmission>, now: Timestamp)
    returns (r: Result<SubmitResponse>)
    requires db.Valid()
    modifies db
    ensures db.Valid()
    ensures testId !in old(db.testResults) ==> r == Err(NotFound)
    ensures testId in old(db.testResults) && old(db.testResults)[testId].endTime.Some? ==> r == Err(BadRequest)
    ensures r.Err? ==> db.State() == old(db.State())
    ensures testId in old(db.testResults) && old(db.testResults)[testId].endTime.None? ==>
      var items := Graded(old(db.questions), testId, answers);
      var score := Score(old(db.questions), answers);
      && r == Ok(SubmitResponse(testId, score, old(db.testResults)[testId].totalQuestions.value))
      && db.State() == Submitted(old(db.State()), testId, items, now, score)
      && score == CountCorrect(items) <= |answers|
  {
    if testId !in db.testResults {
      return Err(NotFound);
    }
    var tid: nat := testId;
    var t0 := db.testResults[tid];
    if t0.endTime.Some? {
      return Err(BadRequest);
    }
    ghost var s0 := db.State();
    var score, staged := ScoreAnswers(db.questions, tid, answers);
    SubmitKeepsValid(s0, tid, staged, now, score);
    CommitSubmission(db, tid, staged, now, score);
    r := Ok(SubmitResponse(tid, score, t0.totalQuestions.value));
  }

  /** The commit of `submit_skill_test`: the staged items are added at
      fresh ids and the test gets its end time and score. */
  method CommitSubmission(db: Db, tid: nat, staged: seq<SkillTestResultItem>, now: Timestamp, score: nat)
    requires tid in db.testResults
    modifies db
    ensures db.State() == Submitted(old(db.State()), tid, staged, now, score)
  {
    var t0 := db.testResults[tid];
    db.testItems := Inserted(db.testItems, db.nextTestItemId, staged);
    db.nextTestItemId := db.nextTestItemId + |staged|;
    db.testResults := db.testResults[tid := t0.(endTime := Some(now), score := Some(score))];
  }

  /** The state `submit_skill_test` leaves behind: the open test `tid`
      closed with `score`, and `items` stored at fresh ids. */
  function Submitted(s0: DbState, tid: nat, items: seq<SkillTestResultItem>, now: Timestamp, score: nat): (r: DbState)
    requires tid in s0.testResults
    ensures r.testResults.Keys == s0.testResults.Keys
    ensures var t0, t := s0.testResults[tid], r.testResults[tid];
      t.endTime == Some(now) && t.score == Some(score) &&
      t.candidateId == t0.candidateId && t.totalQuestions == t0.totalQuestions && t.startTime == t0.startTime
    ensures forall k :: k in s0.testResults && k != tid ==> r.testResults[k] == s0.testResults[k]
    ensures forall i :: 0 <= i < |items| ==> s0.nextTestItemId + i in r.testItems && r.testItems[s0.nextTestItemId + i] == items[i]
    ensures r.nextTestItemId == s0.nextTestItemId + |items|
    ensures r.(testResults := s0.testResults, testItems := s0.testItems, nextTestItemId := s0.nextTestItemId) == s0
  {
    s0.(
      testResults := s0.testResults[tid := s0.testResults[tid].(endTime := Some(now), score := Some(score))],
      testItems := Inserted(s0.testItems, s0.nextTestItemId, items),
      nextTestItemId := s0.nextTestItemId + |items|)
  }

  /** Closing an open test with the items of its submission keeps the
      database valid, and the test's items are exactly those items. */
  lemma SubmitKeepsValid(s0: DbState, tid: nat, items: seq<SkillTestResultItem>, now: Timestamp, score: nat)
    requires ValidDb(s0)
    requires tid in s0.testResults && s0.testResults[tid].endTime.None?
    requires forall i :: 0 <= i < |items| ==> items[i].testResultId == tid && items[i].questionId in s0.questions
    requires score == CountCorrect(items)
    ensures ValidDb(Submitted(s0, tid, items, now, score))
    ensures ItemsOf(Submitted(s0, tid, items, now, score).testItems, tid, s0.nextTestItemId + |items|) == items
  {
    var s1 := Submitted(s0, tid, items, now, score);
    SubmittedItems(s0, tid, items);
    SubmitKeepsKeys(s0, tid, items, now, score);
    forall t | t in s1.testResults
      ensures ScoredAt(s1, t)
    {
      assert ScoredAt(s0, t);
      SubmitScoredAt(s0, tid, items, now, score, t);
    }
    assert TestsScored(s1);
  }

  /** Closing test `tid` keeps the lifecycle of every test `t`: `tid` ends
      closed with the count of its new items, any other test is untouched. */
  lemma SubmitScoredAt(s0: DbState, tid: nat, items: seq<SkillTestResultItem>, now: Timestamp, score: nat, t: nat)
    requires forall k :: k in s0.testItems ==> k < s0.nextTestItemId
    requires tid in s0.testResults && s0.testResults[tid].endTime.None?
    requires t in s0.testResults && ScoredAt(s0, t)
    requires forall i :: 0 <= i < |items| ==> items[i].testResultId == tid
    requires score == CountCorrect(items)
    ensures ScoredAt(Submitted(s0, tid, items, now, score), t)
  {
    var s1 := Submitted(s0, tid, items, now, score);
    SubmitItemsOf(s0, tid, items, t);
    var before := ItemsOf(s0.testItems, t, s0.nextTestItemId);
    var after := ItemsOf(s1.testItems, t, s1.nextTestItemId);
    assert after == before + (if t == tid then items else []);
    if t == tid {
      assert before == [];
      assert after == items by {
        assert before + items == items;
      }
      assert s1.testResults[t] == s0.testResults[t].(endTime := Some(now), score := Some(score));
    } else {
      assert after == before by {
        assert before + [] == before;
      }
      assert s1.testResults[t] == s0.testResults[t];
    }
  }

  /** After closing, the items of the test are exactly the staged ones. */
  lemma SubmittedItems(s0: DbState, tid: nat, items: seq<SkillTestResultItem>)
    requires ValidDb(s0)
    requires tid in s0.testResults && s0.testResults[tid].endTime.None?
    requires forall i :: 0 <= i < |items| ==> items[i].testResultId == tid
    ensures ItemsOf(Inserted(s0.testItems, s0.nextTestItemId, items), tid, s0.nextTestItemId + |items|) == items
  {
    assert ScoredAt(s0, tid);
    SubmitItemsOf(s0, tid, items, tid);
    assert ItemsOf(s0.testItems, tid, s0.nextTestItemId) + items == items;
  }

  /** Closing a test keeps every id below its counter and every stored item
      pointing at an existing test and question. */
  lemma SubmitKeepsKeys(s0: DbState, tid: nat, items: seq<SkillTestResultItem>, now: Timestamp, score: nat)
    requires IdsBelowCounters(s0) && ForeignKeys(s0)
    requires tid in s0.testResults
    requires forall i :: 0 <= i < |items| ==> items[i].testResultId == tid && items[i].questionId in s0.questions
    ensures IdsBelowCounters(Submitted(s0, tid, items, now, score))
    ensures ForeignKeys(Submitted(s0, tid, items, now, score))
  {
    var s1 := Submitted(s0, tid, items, now, score);
    var base := s0.nextTestItemId;
    InsertedAt(s0.testItems, base, items);
    forall k | k in s1.testItems
      ensures s1.testItems[k].testResultId in s1.testResults && s1.testItems[k].questionId in s1.questions
    {
      if k !in s0.testItems {
        assert s1.testItems[k] == items[k - base];
      }
    }
  }

  /** Storing the submission's items extends the items of test `tid` by
      exactly those items and leaves the items of every other test as they were. */
  lemma SubmitItemsOf(s0: DbState, tid: nat, items: seq<SkillTestResultItem>, t: nat)
    requires forall k :: k in s0.testItems ==> k < s0.nextTestItemId
    requires forall i :: 0 <= i < |items| ==> items[i].testResultId == tid
    ensures ItemsOf(Inserted(s0.testItems, s0.nextTestItemId, items), t, s0.nextTestItemId + |items|) ==
            ItemsOf(s0.testItems, t, s0.nextTestItemId) + (if t == tid then items else [])
  {
    var keep := (it: SkillTestResultItem) => it.testResultId == t;
    RowsInserted(s0.testItems, keep, s0.nextTestItemId, items);
    FilterAllOrNone(items, keep);
  }

  /** How one stored item is shown: its question's text, or "N/A" when the
      question is missing. */
  function ItemView(questions: map<nat, Question>, it: SkillTestResultItem): (r: ItemPublic)
    ensures r.selectedAnswer == it.selectedAnswer && r.isCorrect == it.isCorrect
    ensures it.questionId in questions ==> r.questionText == questions[it.questionId].questionText
    ensures it.questionId !in questions ==> r.questionText == "N/A"
  {
    ItemPublic(if it.questionId in questions then questions[it.questionId].questionText else "N/A",
               it.selectedAnswer, it.isCorrect)
  }

  /** The items shown in stored order, one per stored item. */
  function ItemsView(questions: map<nat, Question>, its: seq<SkillTestResultItem>): (r: seq<ItemPublic>)
    ensures |r| == |its|
    ensures forall i :: 0 <= i < |its| ==>
      r[i].selectedAnswer == its[i].selectedAnswer && r[i].isCorrect == its[i].isCorrect
  {
    seq(|its|, i requires 0 <= i < |its| => ItemView(questions, its[i]))
  }

  /** The public view of a test read back from the database. */
  function ResultView(s: DbState, tid: nat): (r: TestResultPublic)
    requires tid in s.testResults
    ensures var t := s.testResults[tid];
      && r.id == tid && r.candidateId == t.candidateId && r.score == t.score
      && r.totalQuestions == t.totalQuestions && r.startTime == t.startTime && r.endTime == t.endTime
    ensures |r.items| == |ItemsOf(s.testItems, tid, s.nextTestItemId)|
  {
    var t := s.testResults[tid];
    TestResultPublic(tid, t.candidateId, t.score, t.totalQuestions, t.startTime, t.endTime,
                     ItemsView(s.questions, ItemsOf(s.testItems, tid, s.nextTestItemId)))
  }

  /** In a valid database the view of a test shows, item by item in id
      order, the real question text, the answer and the mark; "N/A" never
      appears; an open test shows no score and no items; a closed test's
      score is the number of items shown as correct. */
  lemma ResultViewFaithful(s: DbState, tid: nat)
    requires ValidDb(s) && tid in s.testResults
    ensures var v := ResultView(s, tid);
      var its := ItemsOf(s.testItems, tid, s.nextTestItemId);
      && |v.items| == |its|
      && (forall i :: 0 <= i < |its| ==>
            && its[i].questionId in s.questions
            && v.items[i] == ItemPublic(s.questions[its[i].questionId].questionText, its[i].selectedAnswer, its[i].isCorrect))
      && (v.endTime.None? ==> v.score.None? && v.items == [])
      && (v.endTime.Some? ==> v.score == Some(CountCorrectPublic(v.items)))
  {
    var its := ItemsOf(s.testItems, tid, s.nextTestItemId);
    ItemsReferenceQuestions(s, tid);
    assert ScoredAt(s, tid);
    CountCorrectPublicAgrees(ItemsView(s.questions, its), its);
  }

  /** `get_test_results`: the test with its items in id order; an item whose
      question is missing shows "N/A". */
  method GetTestResults(db: Db, testId: int) returns (r: Result<TestResultPublic>)
    ensures testId !in db.testResults <==> r == Err(NotFound)
    ensures r.Ok? ==> testId in db.testResults && r.value == ResultView(db.State(), testId)
  {
    if testId !in db.testResults {
      return Err(NotFound);
    }
    var tid: nat := testId;
    var t := db.testResults[tid];
    var its := ItemsOf(db.testItems, tid, db.nextTestItemId);
    var pub: seq<ItemPublic> := [];
    var i := 0;
    while i < |its|
      invariant 0 <= i <= |its|
      invariant pub == ItemsView(db.questions, its[..i])
    {
      var item := its[i];
      var text := if item.questionId in db.questions then db.questions[item.questionId].questionText else "N/A";
      pub := pub + [ItemPublic(text, item.selectedAnswer, item.isCorrect)];
      i := i + 1;
    }
    assert its[..i] == its;
    r := Ok(TestResultPublic(tid, t.candidateId, t.score, t.totalQuestions, t.startTime, t.endTime, pub));
  }

  /** In a valid database every item of a test names an existing question. */
  lemma ItemsReferenceQuestions(s: DbState, tid: nat)
    requires ValidDb(s)
    ensures forall i :: 0 <= i < |ItemsOf(s.testItems, tid, s.nextTestItemId)| ==>
      ItemsOf(s.testItems, tid, s.nextTestItemId)[i].questionId in s.questions
  {
  }
}
