/** The relational store seen by the handlers: one map from id to record per
    table, and a next-id counter per table standing for auto-increment
    primary keys. */
module Database {
  import opened Models

  /** The rows of `m` with id below `n` whose record satisfies `keep`, as
      (id, record) pairs in ascending id order: an unordered SELECT ... WHERE
      as the model reads it. */
  function Rows<T>(m: map<nat, T>, keep: T -> bool, n: nat): (r: seq<(nat, T)>)
    ensures |r| <= n
    ensures forall i :: 0 <= i < |r| ==> r[i].0 < n && r[i].0 in m && m[r[i].0] == r[i].1 && keep(r[i].1)
    ensures forall i, j :: 0 <= i < j < |r| ==> r[i].0 < r[j].0
  {
    if n == 0 then []
    else
      var prefix := Rows(m, keep, n - 1);
      if n - 1 in m && keep(m[n - 1]) then prefix + [(n - 1, m[n - 1])] else prefix
  }

  /** Every row below the bound that satisfies `keep` is returned. */
  lemma {:induction false} RowsComplete<T>(m: map<nat, T>, keep: T -> bool, n: nat, k: nat)
    requires k < n && k in m && keep(m[k])
    ensures exists i :: 0 <= i < |Rows(m, keep, n)| && Rows(m, keep, n)[i] == (k, m[k])
  {
    var r := Rows(m, keep, n);
    if k == n - 1 {
      assert r[|r| - 1] == (k, m[k]);
    } else {
      RowsComplete(m, keep, n - 1, k);
      var i :| 0 <= i < |Rows(m, keep, n - 1)| && Rows(m, keep, n - 1)[i] == (k, m[k]);
      assert r[i] == (k, m[k]);
    }
  }

  /** Writing at an id at or above the bound does not change the rows below it. */
  lemma {:induction false} RowsFrame<T>(m: map<nat, T>, keep: T -> bool, n: nat, k: nat, x: T)
    requires n <= k
    ensures Rows(m[k := x], keep, n) == Rows(m, keep, n)
  {
    if n > 0 {
      RowsFrame(m, keep, n - 1, k, x);
    }
  }

  /** Inserting a record at the first unused id extends the rows by that
      record exactly when it satisfies `keep`. */
  lemma RowsInsert<T>(m: map<nat, T>, keep: T -> bool, k: nat, x: T)
    ensures Rows(m[k := x], keep, k + 1) == Rows(m, keep, k) + (if keep(x) then [(k, x)] else [])
  {
    RowsFrame(m, keep, k, k, x);
  }

  /** A bound with no selected row below it gives nothing. */
  lemma {:induction false} RowsNone<T>(m: map<nat, T>, keep: T -> bool, n: nat)
    requires forall k :: k in m && k < n ==> !keep(m[k])
    ensures Rows(m, keep, n) == []
  {
    if n > 0 {
      RowsNone(m, keep, n - 1);
    }
  }

  /** `m` after inserting the records `xs` one by one at the consecutive ids
      `base`, `base + 1`, ... (a bulk `db.add`). */
  function Inserted<T>(m: map<nat, T>, base: nat, xs: seq<T>): (r: map<nat, T>)
    ensures forall k :: k in r <==> k in m || base <= k < base + |xs|
    ensures forall i :: 0 <= i < |xs| ==> r[base + i] == xs[i]
  {
    if xs == [] then m
    else Inserted(m, base, xs[..|xs| - 1])[base + |xs| - 1 := xs[|xs| - 1]]
  }

  /** The inserted map holds the old rows and exactly the new ids, each with
      its record. */
  lemma {:induction false} InsertedAt<T>(m: map<nat, T>, base: nat, xs: seq<T>)
    requires forall k :: k in m ==> k < base
    ensures forall k :: k in Inserted(m, base, xs) <==> k in m || base <= k < base + |xs|
    ensures forall k :: k in m ==> Inserted(m, base, xs)[k] == m[k]
    ensures forall i :: 0 <= i < |xs| ==> Inserted(m, base, xs)[base + i] == xs[i]
  {
    if xs != [] {
      InsertedAt(m, base, xs[..|xs| - 1]);
    }
  }

  /** Bulk insertion above every used id extends the rows by the inserted
      records that satisfy `keep`. */
  lemma {:induction false} RowsInserted<T>(m: map<nat, T>, keep: T -> bool, base: nat, xs: seq<T>)
    requires forall k :: k in m ==> k < base
    ensures Records(Rows(Inserted(m, base, xs), keep, base + |xs|))
         == Records(Rows(m, keep, base)) + Filter(xs, keep)
  {
    if xs == [] {
      assert Records(Rows(m, keep, base)) + Filter(xs, keep) == Records(Rows(m, keep, base));
    } else {
      var init := xs[..|xs| - 1];
      var x := xs[|xs| - 1];
      var k := base + |init|;
      var m' := Inserted(m, base, init);
      var r0 := Records(Rows(m, keep, base));
      var rows' := Rows(m', keep, k);
      var b := if keep(x) then [(k, x)] else [];
      assert xs == init + [x];
      InsertedSnoc(m, base, init, x);
      RowsInserted(m, keep, base, init);
      RowsInsert(m', keep, k, x);
      RecordsAppend(rows', b);
      assert Records(b) == (if keep(x) then [x] else []);
      assert Filter(xs, keep) == Filter(init, keep) + Records(b);
      ConcatAssoc(r0, Filter(init, keep), Records(b));
      calc {
        Records(Rows(Inserted(m, base, xs), keep, base + |xs|));
        Records(Rows(m'[k := x], keep, k + 1));
        Records(rows' + b);
        Records(rows') + Records(b);
        (r0 + Filter(init, keep)) + Records(b);
        r0 + Filter(xs, keep);
      }
    }
  }

  lemma InsertedSnoc<T>(m: map<nat, T>, base: nat, init: seq<T>, x: T)
    ensures Inserted(m, base, init + [x]) == Inserted(m, base, init)[base + |init| := x]
  {
    assert (init + [x])[..|init|] == init;
  }

  lemma ConcatAssoc<T>(a: seq<T>, b: seq<T>, c: seq<T>)
    ensures (a + b) + c == a + (b + c)
  {
  }

  /** The elements of `xs` that satisfy `keep`, in order. */
  function Filter<T>(xs: seq<T>, keep: T -> bool): (r: seq<T>)
    ensures |r| <= |xs|
    ensures forall i :: 0 <= i < |r| ==> keep(r[i])
  {
    if xs == [] then []
    else Filter(xs[..|xs| - 1], keep) + (if keep(xs[|xs| - 1]) then [xs[|xs| - 1]] else [])
  }

  lemma {:induction false} FilterAppend<T>(xs: seq<T>, ys: seq<T>, keep: T -> bool)
    ensures Filter(xs + ys, keep) == Filter(xs, keep) + Filter(ys, keep)
    decreases |ys|
  {
    if ys == [] {
      assert xs + ys == xs;
    } else {
      FilterAppend(xs, ys[..|ys| - 1], keep);
      assert (xs + ys)[..|xs + ys| - 1] == xs + ys[..|ys| - 1];
      assert (xs + ys)[|xs + ys| - 1] == ys[|ys| - 1];
    }
  }

  /** Filtering keeps everything when every element qualifies and nothing
      when none does. */
  lemma {:induction false} FilterAllOrNone<T>(xs: seq<T>, keep: T -> bool)
    ensures (forall i :: 0 <= i < |xs| ==> keep(xs[i])) ==> Filter(xs, keep) == xs
    ensures (forall i :: 0 <= i < |xs| ==> !keep(xs[i])) ==> Filter(xs, keep) == []
  {
    if xs != [] {
      var init := xs[..|xs| - 1];
      FilterAllOrNone(init, keep);
      assert forall i :: 0 <= i < |init| ==> init[i] == xs[i];
      assert init + [xs[|xs| - 1]] == xs;
    }
  }

  /** The records of a list of rows, dropping the ids. */
  function Records<T>(rows: seq<(nat, T)>): (r: seq<T>)
    ensures |r| == |rows|
    ensures forall i :: 0 <= i < |r| ==> r[i] == rows[i].1
  {
    seq(|rows|, i requires 0 <= i < |rows| => rows[i].1)
  }

  lemma RecordsAppend<T>(a: seq<(nat, T)>, b: seq<(nat, T)>)
    ensures Records(a + b) == Records(a) + Records(b)
  {
  }

  /** The answer items of one skill test, in id order (SkillTestResult.items). */
  function ItemsOf(items: map<nat, SkillTestResultItem>, testId: nat, n: nat): (r: seq<SkillTestResultItem>)
    ensures forall i :: 0 <= i < |r| ==> r[i].testResultId == testId
  {
    Records(Rows(items, (it: SkillTestResultItem) => it.testResultId == testId, n))
  }

  /** Number of items marked correct. */
  function CountCorrect(items: seq<SkillTestResultItem>): (c: nat)
    ensures c <= |items|
  {
    if items == [] then 0
    else CountCorrect(items[..|items| - 1]) + (if items[|items| - 1].isCorrect == Some(true) then 1 else 0)
  }

  lemma CountCorrectAppend(items: seq<SkillTestResultItem>, more: seq<SkillTestResultItem>)
    ensures CountCorrect(items + more) == CountCorrect(items) + CountCorrect(more)
    decreases |more|
  {
    if more != [] {
      CountCorrectAppend(items, more[..|more| - 1]);
      assert (items + more)[..|items + more| - 1] == items + more[..|more| - 1];
      assert (items + more)[|items + more| - 1] == more[|more| - 1];
    } else {
      assert items + more == items;
    }
  }

  /** The whole database at one instant. */
  datatype DbState = DbState(
    candidates: map<nat, Candidate>,
    matchResults: map<nat, MatchResult>,
    interviews: map<nat, Interview>,
    questions: map<nat, Question>,
    testResults: map<nat, SkillTestResult>,
    testItems: map<nat, SkillTestResultItem>,
    nextCandidateId: nat,
    nextMatchResultId: nat,
    nextInterviewId: nat,
    nextQuestionId: nat,
    nextTestResultId: nat,
    nextTestItemId: nat)

  function EmptyDb(): DbState
  {
    DbState(map[], map[], map[], map[], map[], map[], 0, 0, 0, 0, 0, 0)
  }

  /** Every id in use lies below its table's counter, so the counter is a fresh id. */
  ghost predicate IdsBelowCounters(s: DbState)
  {
    && (forall k :: k in s.candidates ==> k < s.nextCandidateId)
    && (forall k :: k in s.matchResults ==> k < s.nextMatchResultId)
    && (forall k :: k in s.interviews ==> k < s.nextInterviewId)
    && (forall k :: k in s.questions ==> k < s.nextQuestionId)
    && (forall k :: k in s.testResults ==> k < s.nextTestResultId)
    && (forall k :: k in s.testItems ==> k < s.nextTestItemId)
  }

  /** The unique constraint on Candidate.email. */
  ghost predicate UniqueEmails(c: map<nat, Candidate>)
  {
    forall a, b :: a in c && b in c && c[a].email == c[b].email ==> a == b
  }

  /** The unique constraint on Interview.session_id. */
  ghost predicate UniqueSessions(iv: map<nat, Interview>)
  {
    forall a, b :: a in iv && b in iv && iv[a].sessionId == iv[b].sessionId ==> a == b
  }

  /** Every foreign key names an existing row. */
  ghost predicate ForeignKeys(s: DbState)
  {
    && (forall k :: k in s.matchResults ==> s.matchResults[k].candidateId in s.candidates)
    && (forall k :: k in s.interviews ==> s.interviews[k].candidateId in s.candidates)
    && (forall k :: k in s.testResults ==> s.testResults[k].candidateId in s.candidates)
    && (forall k :: k in s.testItems ==>
          s.testItems[k].testResultId in s.testResults && s.testItems[k].questionId in s.questions)
  }

  /** The skill-test lifecycle for one test: the question count is set; an
      open test has no score and no items; a closed test's score is the
      number of its items marked correct. */
  ghost predicate ScoredAt(s: DbState, t: nat)
    requires t in s.testResults
  {
    var tr := s.testResults[t];
    var its := ItemsOf(s.testItems, t, s.nextTestItemId);
    && tr.totalQuestions.Some?
    && (tr.endTime.None? ==> tr.score.None? && its == [])
    && (tr.endTime.Some? ==> tr.score == Some(CountCorrect(its)))
  }

  ghost predicate TestsScored(s: DbState)
  {
    forall t :: t in s.testResults ==> ScoredAt(s, t)
  }

  ghost predicate ValidDb(s: DbState)
  {
    && IdsBelowCounters(s)
    && UniqueEmails(s.candidates)
    && UniqueSessions(s.interviews)
    && ForeignKeys(s)
    && TestsScored(s)
  }

  lemma EmptyDbValid()
    ensures ValidDb(EmptyDb())
  {
  }

  /** The id of the candidate with this e-mail, if any. */
  ghost predicate CandidateWithEmail(s: DbState, email: string, id: nat)
  {
    id in s.candidates && s.candidates[id].email == email
  }

  /** The id of the interview with this session id, if any. */
  ghost predicate InterviewWithSession(s: DbState, sessionId: string, id: nat)
  {
    id in s.interviews && s.interviews[id].sessionId == sessionId
  }

  /** The database session: the tables are fields that handlers change in place. */
  class Db {
    var candidates: map<nat, Candidate>
    var matchResults: map<nat, MatchResult>
    var interviews: map<nat, Interview>
    var questions: map<nat, Question>
    var testResults: map<nat, SkillTestResult>
    var testItems: map<nat, SkillTestResultItem>
    var nextCandidateId: nat
    var nextMatchResultId: nat
    var nextInterviewId: nat
    var nextQuestionId: nat
    var nextTestResultId: nat
    var nextTestItemId: nat

    function State(): DbState
      reads this
    {
      DbState(candidates, matchResults, interviews, questions, testResults, testItems,
              nextCandidateId, nextMatchResultId, nextInterviewId, nextQuestionId,
              nextTestResultId, nextTestItemId)
    }

    ghost predicate Valid()
      reads this
    {
      ValidDb(State())
    }

    constructor ()
      ensures Valid() && State() == EmptyDb()
    {
      candidates, matchResults, interviews := map[], map[], map[];
      questions, testResults, testItems := map[], map[], map[];
      nextCandidateId, nextMatchResultId, nextInterviewId := 0, 0, 0;
      nextQuestionId, nextTestResultId, nextTestItemId := 0, 0, 0;
    }

    /** `select(Candidate).where(Candidate.email == email).first()`. */
    method FindCandidateByEmail(email: string) returns (r: Option<nat>)
      requires Valid()
      ensures r.Some? ==> CandidateWithEmail(State(), email, r.value)
      ensures r.None? ==> forall id: nat :: !CandidateWithEmail(State(), email, id)
      ensures forall id: nat :: CandidateWithEmail(State(), email, id) ==> r == Some(id)
    {
      if exists id :: id in candidates && candidates[id].email == email {
        var id :| id in candidates && candidates[id].email == email;
        r := Some(id);
      } else {
        r := None;
      }
    }

    /** `select(Interview).where(Interview.session_id == session_id).first()`. */
    method FindInterviewBySession(sessionId: string) returns (r: Option<nat>)
      requires Valid()
      ensures r.Some? ==> InterviewWithSession(State(), sessionId, r.value)
      ensures r.None? ==> forall id: nat :: !InterviewWithSession(State(), sessionId, id)
      ensures forall id: nat :: InterviewWithSession(State(), sessionId, id) ==> r == Some(id)
    {
      if exists id :: id in interviews && interviews[id].sessionId == sessionId {
        var id :| id in interviews && interviews[id].sessionId == sessionId;
        r := Some(id);
      } else {
        r := None;
      }
    }
  }
}
