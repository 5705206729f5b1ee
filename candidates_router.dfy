/** The candidate endpoints: uploading a CV and a JD (extract, find or create
    the candidate by e-mail, store the texts and one match result), reading
    a candidate with its results, and the guard chain of sending an offer.
    The language-model replies and the outcome of the mail delivery are
    parameters. */
module CandidatesRouter {
  import opened Models
  import opened Database
  import opened CvJdProcessor

  const UploadedMessage: string := "File đã được xử lý và phân tích thành công!"
  const NoFeedback: string := "Không có phản hồi từ AI."
  const OfferSentMessage: string := "Thư mời đã được gửi thành công!"

  datatype UploadResponse = UploadResponse(
    candidateId: nat,
    message: string,
    cvTextExtracted: bool,
    jdTextExtracted: bool,
    matchScore: Option<int>,
    feedback: Option<string>,
    suggestions: Option<seq<string>>)

  /** Score, feedback and suggestions as the upload handler takes them from
      the two helpers' results. */
  datatype Analysis = Analysis(score: int, feedback: string, suggestions: seq<string>)

  // ---------------------------------------------------------------- upload

  /** The `.get` defaults: a missing score is 0, missing feedback a fixed
      text, missing suggestions the empty list; present fields are kept. */
  function AnalysisOf(m: MatchReply, sg: SuggestionsReply): (a: Analysis)
    ensures m.score.None? ==> a.score == 0
    ensures m.score.Some? ==> a.score == m.score.value
    ensures m.feedback.None? ==> a.feedback == NoFeedback
    ensures m.feedback.Some? ==> a.feedback == m.feedback.value
    ensures sg.suggestions.None? ==> a.suggestions == []
    ensures sg.suggestions.Some? ==> a.suggestions == sg.suggestions.value
  {
    Analysis(if m.score.Some? then m.score.value else 0,
             if m.feedback.Some? then m.feedback.value else NoFeedback,
             if sg.suggestions.Some? then sg.suggestions.value else [])
  }

  /** When both model calls fail, the stored analysis is the two helpers'
      fallbacks: score 0, the fixed explanation and the one fixed suggestion. */
  lemma AnalysisWhenModelsFail()
    ensures AnalysisOf(MatchingScoreAndFeedback(None), ImprovementSuggestions(None))
         == Analysis(0, MatchFallbackFeedback, [SuggestionsFallback])
  {
  }

  /** The id of the candidate with this e-mail, if there is one. */
  ghost function ExistingCandidate(s: DbState, email: string): (e: Option<nat>)
    requires UniqueEmails(s.candidates)
    ensures e.None? <==> forall id: nat :: !CandidateWithEmail(s, email, id)
    ensures forall id: nat :: CandidateWithEmail(s, email, id) ==> e == Some(id)
  {
    if exists id: nat :: CandidateWithEmail(s, email, id) then
      var id: nat :| CandidateWithEmail(s, email, id);
      Some(id)
    else None
  }

  /** The candidate the upload writes to: the existing one, or a new row at
      the next free id. */
  function TargetId(s: DbState, existing: Option<nat>): nat
  {
    if existing.Some? then existing.value else s.nextCandidateId
  }

  /** The database after the candidate step of the upload: the existing
      candidate gets the two texts and keeps everything else; otherwise a new
      candidate is made from the form fields and the texts. */
  function WithTexts(s: DbState, existing: Option<nat>, fullName: string, email: string, position: string,
                     cv: string, jd: string): (r: DbState)
    requires existing.Some? ==> existing.value in s.candidates
    ensures existing.Some? ==> r.candidates.Keys == s.candidates.Keys && r.nextCandidateId == s.nextCandidateId
    ensures existing.None? ==>
      r.candidates.Keys == s.candidates.Keys + {s.nextCandidateId} && r.nextCandidateId == s.nextCandidateId + 1
    ensures var c := r.candidates[TargetId(s, existing)];
      c.cvText == Some(cv) && c.jdText == Some(jd)
    ensures existing.Some? ==>
      var c0, c := s.candidates[existing.value], r.candidates[existing.value];
      c.(cvText := c0.cvText, jdText := c0.jdText) == c0
    ensures existing.None? ==>
      var c := r.candidates[s.nextCandidateId];
      c.fullName == fullName && c.email == email && c.appliedPosition == Some(position) &&
      c.userId.None? && c.phoneNumber.None?
    ensures forall k :: k in s.candidates && k != TargetId(s, existing) ==> r.candidates[k] == s.candidates[k]
    ensures r.(candidates := s.candidates, nextCandidateId := s.nextCandidateId) == s
  {
    if existing.Some? then
      var id := existing.value;
      s.(candidates := s.candidates[id := s.candidates[id].(cvText := Some(cv), jdText := Some(jd))])
    else
      s.(candidates := s.candidates[s.nextCandidateId :=
           Candidate(None, fullName, email, None, Some(position), Some(cv), Some(jd))],
         nextCandidateId := s.nextCandidateId + 1)
  }

  /** The database after the match result for candidate `cid` is stored at
      the next free id, its suggestions serialised. */
  function WithMatch(s: DbState, cid: nat, a: Analysis, now: Timestamp): (r: DbState)
    ensures r.matchResults.Keys == s.matchResults.Keys + {s.nextMatchResultId}
    ensures var m := r.matchResults[s.nextMatchResultId];
      m.candidateId == cid && m.jdId.None? && m.matchScore == a.score && m.feedback == a.feedback &&
      DecodeList(m.suggestions) == a.suggestions && m.createdAt == now
    ensures forall k :: k in s.matchResults && k != s.nextMatchResultId ==> r.matchResults[k] == s.matchResults[k]
    ensures r.(matchResults := s.matchResults, nextMatchResultId := s.nextMatchResultId) == s
  {
    s.(matchResults := s.matchResults[s.nextMatchResultId :=
         MatchResult(cid, None, a.score, a.feedback, EncodeList(a.suggestions), now)],
       nextMatchResultId := s.nextMatchResultId + 1)
  }

  /** The whole effect of a successful upload. */
  ghost function Uploaded(s: DbState, fullName: string, email: string, position: string,
                          cv: string, jd: string, a: Analysis, now: Timestamp): (r: DbState)
    requires UniqueEmails(s.candidates)
    ensures s.nextMatchResultId in r.matchResults && r.matchResults[s.nextMatchResultId].candidateId in r.candidates
    ensures var c := r.candidates[r.matchResults[s.nextMatchResultId].candidateId];
      c.email == email && c.cvText == Some(cv) && c.jdText == Some(jd)
  {
    var e := ExistingCandidate(s, email);
    WithMatch(WithTexts(s, e, fullName, email, position, cv, jd), TargetId(s, e), a, now)
  }

  /** The candidate step keeps the database valid (in particular e-mails stay
      unique) and leaves the target candidate in place. */
  lemma WithTextsValid(s: DbState, existing: Option<nat>, fullName: string, email: string, position: string,
                       cv: string, jd: string)
    requires ValidDb(s)
    requires existing == ExistingCandidate(s, email)
    ensures existing.Some? ==> existing.value in s.candidates
    ensures ValidDb(WithTexts(s, existing, fullName, email, position, cv, jd))
    ensures TargetId(s, existing) in WithTexts(s, existing, fullName, email, position, cv, jd).candidates
  {
    var s1 := WithTexts(s, existing, fullName, email, position, cv, jd);
    var cid := TargetId(s, existing);
    forall t | t in s1.testResults
      ensures ScoredAt(s1, t)
    {
      assert ScoredAt(s, t);
    }
    forall a, b | a in s1.candidates && b in s1.candidates && s1.candidates[a].email == s1.candidates[b].email
      ensures a == b
    {
      if s1.candidates[a].email == email {
        CandidateEmailAfter(s, existing, fullName, email, position, cv, jd, a);
        CandidateEmailAfter(s, existing, fullName, email, position, cv, jd, b);
      } else {
        assert a != cid && b != cid;
        assert s1.candidates[a] == s.candidates[a] && s1.candidates[b] == s.candidates[b];
      }
    }
  }

  /** After the candidate step the target is the one candidate with the
      e-mail. */
  lemma CandidateEmailAfter(s: DbState, existing: Option<nat>, fullName: string, email: string, position: string,
                            cv: string, jd: string, k: nat)
    requires ValidDb(s)
    requires existing == ExistingCandidate(s, email)
    requires existing.Some? ==> existing.value in s.candidates
    requires k in WithTexts(s, existing, fullName, email, position, cv, jd).candidates
    requires WithTexts(s, existing, fullName, email, position, cv, jd).candidates[k].email == email
    ensures k == TargetId(s, existing)
  {
    var s1 := WithTexts(s, existing, fullName, email, position, cv, jd);
    if k != TargetId(s, existing) {
      assert k in s.candidates && s1.candidates[k] == s.candidates[k];
      assert CandidateWithEmail(s, email, k);
    }
  }

  /** Storing a match result for an existing candidate keeps the database valid. */
  lemma WithMatchValid(s: DbState, cid: nat, a: Analysis, now: Timestamp)
    requires ValidDb(s) && cid in s.candidates
    ensures ValidDb(WithMatch(s, cid, a, now))
  {
    var s1 := WithMatch(s, cid, a, now);
    forall t | t in s1.testResults
      ensures ScoredAt(s1, t)
    {
      assert ScoredAt(s, t);
    }
  }

  /** A successful upload keeps the database valid. */
  lemma UploadedValid(s: DbState, fullName: string, email: string, position: string,
                      cv: string, jd: string, a: Analysis, now: Timestamp)
    requires ValidDb(s)
    ensures ValidDb(Uploaded(s, fullName, email, position, cv, jd, a, now))
  {
    var e := ExistingCandidate(s, email);
    WithTextsValid(s, e, fullName, email, position, cv, jd);
    WithMatchValid(WithTexts(s, e, fullName, email, position, cv, jd), TargetId(s, e), a, now);
  }

  /** What an upload does to the candidates: an existing candidate with the
      e-mail is reused, keeping its name, phone, position and user and
      getting the two texts; otherwise exactly one candidate is added from the
      form fields. Every other candidate is untouched. */
  lemma UploadedCandidates(s: DbState, fullName: string, email: string, position: string,
                           cv: string, jd: string, a: Analysis, now: Timestamp)
    requires UniqueEmails(s.candidates)
    requires forall k :: k in s.candidates ==> k < s.nextCandidateId
    ensures var s1 := Uploaded(s, fullName, email, position, cv, jd, a, now);
      var e := ExistingCandidate(s, email);
      var cid := TargetId(s, e);
      && cid in s1.candidates
      && s1.candidates[cid].email == email
      && s1.candidates[cid].cvText == Some(cv) && s1.candidates[cid].jdText == Some(jd)
      && (forall k :: k in s.candidates && k != cid ==> k in s1.candidates && s1.candidates[k] == s.candidates[k])
      && (e.Some? ==>
            && s1.candidates.Keys == s.candidates.Keys
            && s1.candidates[cid] == s.candidates[cid].(cvText := Some(cv), jdText := Some(jd)))
      && (e.None? ==>
            && cid !in s.candidates
            && s1.candidates.Keys == s.candidates.Keys + {cid}
            && s1.candidates[cid] == Candidate(None, fullName, email, None, Some(position), Some(cv), Some(jd)))
  {
    var e := ExistingCandidate(s, email);
    var cid := TargetId(s, e);
    var s1 := Uploaded(s, fullName, email, position, cv, jd, a, now);
    if e.Some? {
      assert CandidateWithEmail(s, email, e.value);
      assert s1.candidates == s.candidates[cid := s.candidates[cid].(cvText := Some(cv), jdText := Some(jd))];
    } else {
      assert s1.candidates == s.candidates[cid := Candidate(None, fullName, email, None, Some(position), Some(cv), Some(jd))];
    }
  }

  /** The match results of candidate `cid`, in id order. */
  function MatchRows(s: DbState, cid: nat): seq<(nat, MatchResult)>
  {
    Rows(s.matchResults, (mr: MatchResult) => mr.candidateId == cid, s.nextMatchResultId)
  }

  /** Every upload appends exactly one match result to the candidate's
      results, at a fresh id, keeping the earlier ones; a new candidate has
      only that one. */
  lemma UploadedMatches(s: DbState, fullName: string, email: string, position: string,
                        cv: string, jd: string, a: Analysis, now: Timestamp)
    requires UniqueEmails(s.candidates)
    requires forall k :: k in s.candidates ==> k < s.nextCandidateId
    requires forall k :: k in s.matchResults ==> k < s.nextMatchResultId && s.matchResults[k].candidateId in s.candidates
    ensures var s1 := Uploaded(s, fullName, email, position, cv, jd, a, now);
      var e := ExistingCandidate(s, email);
      var cid := TargetId(s, e);
      var added := MatchResult(cid, None, a.score, a.feedback, EncodeList(a.suggestions), now);
      && s.nextMatchResultId !in s.matchResults
      && s1.matchResults == s.matchResults[s.nextMatchResultId := added]
      && MatchRows(s1, cid) == MatchRows(s, cid) + [(s.nextMatchResultId, added)]
      && (e.None? ==> MatchRows(s, cid) == [])
  {
    var e := ExistingCandidate(s, email);
    var cid := TargetId(s, e);
    var st := WithTexts(s, e, fullName, email, position, cv, jd);
    assert st.matchResults == s.matchResults && st.nextMatchResultId == s.nextMatchResultId;
    assert MatchRows(st, cid) == MatchRows(s, cid);
    WithMatchRows(st, cid, a, now);
    if e.None? {
      NoMatchesYet(s, cid);
    }
  }

  /** Storing a match result for `cid` appends it to `cid`'s results. */
  lemma WithMatchRows(s: DbState, cid: nat, a: Analysis, now: Timestamp)
    ensures MatchRows(WithMatch(s, cid, a, now), cid) ==
      MatchRows(s, cid) + [(s.nextMatchResultId, MatchResult(cid, None, a.score, a.feedback, EncodeList(a.suggestions), now))]
  {
    var added := MatchResult(cid, None, a.score, a.feedback, EncodeList(a.suggestions), now);
    RowsInsert(s.matchResults, (mr: MatchResult) => mr.candidateId == cid, s.nextMatchResultId, added);
  }

  /** A candidate id not in use has no match results. */
  lemma NoMatchesYet(s: DbState, cid: nat)
    requires forall k :: k in s.matchResults ==> s.matchResults[k].candidateId in s.candidates
    requires cid !in s.candidates
    ensures MatchRows(s, cid) == []
  {
    RowsNone(s.matchResults, (mr: MatchResult) => mr.candidateId == cid, s.nextMatchResultId);
  }

  /** The candidate step of the upload (`db.add(candidate)`, commit). */
  method SaveCandidate(db: Db, existing: Option<nat>, fullName: string, email: string, position: string,
                       cv: string, jd: string) returns (cid: nat)
    requires existing.Some? ==> existing.value in db.candidates
    modifies db
    ensures cid == TargetId(old(db.State()), existing)
    ensures db.State() == WithTexts(old(db.State()), existing, fullName, email, position, cv, jd)
  {
    if existing.Some? {
      cid := existing.value;
      db.candidates := db.candidates[cid := db.candidates[cid].(cvText := Some(cv), jdText := Some(jd))];
    } else {
      cid := db.nextCandidateId;
      db.candidates := db.candidates[cid := Candidate(None, fullName, email, None, Some(position), Some(cv), Some(jd))];
      db.nextCandidateId := cid + 1;
    }
  }

  /** The match-result step of the upload (`db.add(new_match_result)`, commit). */
  method AddMatchResult(db: Db, cid: nat, a: Analysis, now: Timestamp)
    modifies db
    ensures db.State() == WithMatch(old(db.State()), cid, a, now)
  {
    var id := db.nextMatchResultId;
    db.matchResults := db.matchResults[id := MatchResult(cid, None, a.score, a.feedback, EncodeList(a.suggestions), now)];
    db.nextMatchResultId := id + 1;
  }

  /** `upload_cv_jd`. `matchModel(cv, jd)` and `suggestModel(cv, jd)` are the
      parsed replies of the two model calls, or None when a call raised. Both
      extractions are checked before anything is written. */
  method UploadCvJd(db: Db, fullName: string, email: string, position: string,
                    cvFile: UploadedFile, jdFile: UploadedFile,
                    matchModel: (string, string) -> Option<MatchReply>,
                    suggestModel: (string, string) -> Option<SuggestionsReply>,
                    now: Timestamp)
    returns (r: Result<UploadResponse>)
    requires db.Valid()
    modifies db
    ensures db.Valid()
    ensures !Readable(ExtractedText(cvFile)) ==> r == Err(BadRequest) && db.State() == old(db.State())
    ensures Readable(ExtractedText(cvFile)) && !Readable(ExtractedText(jdFile)) ==>
      r == Err(BadRequest) && db.State() == old(db.State())
    ensures Readable(ExtractedText(cvFile)) && Readable(ExtractedText(jdFile)) ==>
      var cv := ExtractedText(cvFile).value;
      var jd := ExtractedText(jdFile).value;
      var a := AnalysisOf(MatchingScoreAndFeedback(matchModel(cv, jd)), ImprovementSuggestions(suggestModel(cv, jd)));
      && db.State() == Uploaded(old(db.State()), fullName, email, position, cv, jd, a, now)
      && r == Ok(UploadResponse(TargetId(old(db.State()), ExistingCandidate(old(db.State()), email)),
                                UploadedMessage, true, true, Some(a.score), Some(a.feedback), Some(a.suggestions)))
  {
    var cvText := ProcessUploadedFile(cvFile);
    var jdText := ProcessUploadedFile(jdFile);
    if cvText.None? || cvText.value == "" {
      return Err(BadRequest);
    }
    if jdText.None? || jdText.value == "" {
      return Err(BadRequest);
    }
    var cv, jd := cvText.value, jdText.value;
    var cid, analysis := StoreUpload(db, fullName, email, position, cv, jd, matchModel, suggestModel, now);
    r := Ok(UploadResponse(cid, UploadedMessage, true, true,
                           Some(analysis.score), Some(analysis.feedback), Some(analysis.suggestions)));
  }

  /** The writes of `upload_cv_jd` once both texts are extracted: find or
      create the candidate and store the texts, ask the two helpers, apply
      the defaults and store one match result. */
  method StoreUpload(db: Db, fullName: string, email: string, position: string, cv: string, jd: string,
                     matchModel: (string, string) -> Option<MatchReply>,
                     suggestModel: (string, string) -> Option<SuggestionsReply>,
                     now: Timestamp)
    returns (cid: nat, a: Analysis)
    requires db.Valid()
    modifies db
    ensures db.Valid()
    ensures a == AnalysisOf(MatchingScoreAndFeedback(matchModel(cv, jd)), ImprovementSuggestions(suggestModel(cv, jd)))
    ensures cid == TargetId(old(db.State()), ExistingCandidate(old(db.State()), email))
    ensures db.State() == Uploaded(old(db.State()), fullName, email, position, cv, jd, a, now)
  {
    ghost var s0 := db.State();
    var existing := db.FindCandidateByEmail(email);
    assert existing == ExistingCandidate(s0, email);
    WithTextsValid(s0, existing, fullName, email, position, cv, jd);
    cid := SaveCandidate(db, existing, fullName, email, position, cv, jd);
    ghost var s1 := db.State();
    var matching := MatchingScoreAndFeedback(matchModel(cv, jd));
    var suggestions := ImprovementSuggestions(suggestModel(cv, jd));
    var score := if matching.score.Some? then matching.score.value else 0;
    var feedback := if matching.feedback.Some? then matching.feedback.value else NoFeedback;
    var list := if suggestions.suggestions.Some? then suggestions.suggestions.value else [];
    a := Analysis(score, feedback, list);
    WithMatchValid(s1, cid, a, now);
    AddMatchResult(db, cid, a, now);
  }

  // ---------------------------------------------------------------- read

  datatype MatchResultPublic = MatchResultPublic(
    id: nat, matchScore: int, feedback: string, suggestions: seq<string>, createdAt: Timestamp)

  datatype CandidatePublic = CandidatePublic(
    id: nat,
    fullName: string,
    email: string,
    matchResults: seq<MatchResultPublic>,
    interviews: seq<Interview>,
    skillTests: seq<SkillTestResult>)

  /** A match result as read back: its stored suggestions decoded. */
  function MatchPublic(row: (nat, MatchResult)): (r: MatchResultPublic)
    ensures r.id == row.0 && r.matchScore == row.1.matchScore && r.feedback == row.1.feedback
    ensures r.createdAt == row.1.createdAt
    ensures row.1.suggestions == Blank ==> r.suggestions == []
    ensures forall xs :: row.1.suggestions == EncodeList(xs) ==> r.suggestions == xs
  {
    MatchResultPublic(row.0, row.1.matchScore, row.1.feedback, DecodeList(row.1.suggestions), row.1.createdAt)
  }

  function MatchesView(rows: seq<(nat, MatchResult)>): (r: seq<MatchResultPublic>)
    ensures |r| == |rows|
    ensures forall i :: 0 <= i < |rows| ==> r[i].id == rows[i].0 && r[i].suggestions == DecodeList(rows[i].1.suggestions)
  {
    seq(|rows|, i requires 0 <= i < |rows| => MatchPublic(rows[i]))
  }

  /** `read_candidate`'s answer for an existing candidate, its related rows
      in id order. */
  function CandidateView(s: DbState, cid: nat): (r: CandidatePublic)
    requires cid in s.candidates
    ensures r.id == cid && r.fullName == s.candidates[cid].fullName && r.email == s.candidates[cid].email
    ensures |r.matchResults| == |MatchRows(s, cid)|
    ensures forall i :: 0 <= i < |r.matchResults| ==>
      r.matchResults[i].id in s.matchResults && s.matchResults[r.matchResults[i].id].candidateId == cid
    ensures forall i :: 0 <= i < |r.interviews| ==> r.interviews[i].candidateId == cid
    ensures forall i :: 0 <= i < |r.skillTests| ==> r.skillTests[i].candidateId == cid
  {
    var c := s.candidates[cid];
    CandidatePublic(cid, c.fullName, c.email,
      MatchesView(MatchRows(s, cid)),
      Records(Rows(s.interviews, (iv: Interview) => iv.candidateId == cid, s.nextInterviewId)),
      Records(Rows(s.testResults, (t: SkillTestResult) => t.candidateId == cid, s.nextTestResultId)))
  }

  /** `read_candidate`: not found, or the candidate with each match result's
      suggestions decoded (an empty column reads as no suggestions). */
  method ReadCandidate(db: Db, candidateId: int) returns (r: Result<CandidatePublic>)
    ensures candidateId !in db.candidates <==> r == Err(NotFound)
    ensures r.Ok? ==> candidateId in db.candidates && r.value == CandidateView(db.State(), candidateId)
  {
    if candidateId !in db.candidates {
      return Err(NotFound);
    }
    var cid: nat := candidateId;
    var c := db.candidates[cid];
    var rows := MatchRows(db.State(), cid);
    var results: seq<MatchResultPublic> := [];
    var i := 0;
    while i < |rows|
      invariant 0 <= i <= |rows|
      invariant results == MatchesView(rows[..i])
    {
      var mr := rows[i].1;
      var decoded := if mr.suggestions.Encoded? then mr.suggestions.items else [];
      results := results + [MatchResultPublic(rows[i].0, mr.matchScore, mr.feedback, decoded, mr.createdAt)];
      i := i + 1;
    }
    assert rows[..i] == rows;
    r := Ok(CandidatePublic(cid, c.fullName, c.email, results,
      Records(Rows(db.interviews, (iv: Interview) => iv.candidateId == cid, db.nextInterviewId)),
      Records(Rows(db.testResults, (t: SkillTestResult) => t.candidateId == cid, db.nextTestResultId))));
  }

  /** What an upload answers is what a later read shows: the candidate's
      match results read back end with one carrying the returned score,
      feedback and suggestions, after the earlier ones. */
  lemma ReadAfterUpload(s: DbState, fullName: string, email: string, position: string,
                        cv: string, jd: string, a: Analysis, now: Timestamp)
    requires UniqueEmails(s.candidates)
    requires forall k :: k in s.candidates ==> k < s.nextCandidateId
    requires forall k :: k in s.matchResults ==> k < s.nextMatchResultId && s.matchResults[k].candidateId in s.candidates
    ensures var s1 := Uploaded(s, fullName, email, position, cv, jd, a, now);
      var cid := TargetId(s, ExistingCandidate(s, email));
      && cid in s1.candidates
      && MatchesView(MatchRows(s1, cid)) ==
           MatchesView(MatchRows(s, cid)) + [MatchResultPublic(s.nextMatchResultId, a.score, a.feedback, a.suggestions, now)]
  {
    var cid := TargetId(s, ExistingCandidate(s, email));
    var s1 := Uploaded(s, fullName, email, position, cv, jd, a, now);
    UploadedCandidates(s, fullName, email, position, cv, jd, a, now);
    UploadedMatches(s, fullName, email, position, cv, jd, a, now);
    DecodeEncode(a.suggestions);
    var added := MatchResult(cid, None, a.score, a.feedback, EncodeList(a.suggestions), now);
    assert MatchRows(s1, cid) == MatchRows(s, cid) + [(s.nextMatchResultId, added)];
  }

  // ---------------------------------------------------------------- send offer

  datatype OfferRequest = OfferRequest(candidateId: int, recipientEmail: string, candidateName: string, positionName: string)

  /** The handler's answer, and whether it got as far as asking the mail
      service to deliver the offer. */
  datatype OfferOutcome = OfferOutcome(attempted: bool, result: Result<string>)

  /** `send_offer_to_candidate` as intended, where `delivered` is what the
      mail service reports: unknown candidate, then e-mail mismatch, then a
      failed delivery. */
  function SendOffer(candidates: map<nat, Candidate>, req: OfferRequest, delivered: bool): (o: OfferOutcome)
    ensures req.candidateId !in candidates ==> o == OfferOutcome(false, Err(NotFound))
    ensures req.candidateId in candidates && candidates[req.candidateId].email != req.recipientEmail ==>
      o == OfferOutcome(false, Err(BadRequest))
    ensures o.attempted <==> req.candidateId in candidates && candidates[req.candidateId].email == req.recipientEmail
    ensures o.attempted ==> (o.result.Ok? <==> delivered)
    ensures o.result.Err? && o.attempted ==> o.result.error == ServerError
    ensures o.result.Ok? ==> o.result.value == OfferSentMessage
  {
    if req.candidateId !in candidates then OfferOutcome(false, Err(NotFound))
    else if candidates[req.candidateId].email != req.recipientEmail then OfferOutcome(false, Err(BadRequest))
    else if !delivered then OfferOutcome(true, Err(ServerError))
    else OfferOutcome(true, Ok(OfferSentMessage))
  }

  /** `send_offer_to_candidate` as written: the offer helper never returns
      the delivery result, so the handler always sees a falsy value and
      answers with a server error, even after a successful delivery. */
  function SendOfferAsWritten(candidates: map<nat, Candidate>, req: OfferRequest, delivered: bool): (o: OfferOutcome)
    ensures o.result.Err?
    ensures o.attempted ==> o.result == Err(ServerError)
  {
    if req.candidateId !in candidates then OfferOutcome(false, Err(NotFound))
    else if candidates[req.candidateId].email != req.recipientEmail then OfferOutcome(false, Err(BadRequest))
    else OfferOutcome(true, Err(ServerError))
  }

  /** The two versions agree on the guards and differ exactly on a delivered
      offer, which the code as written reports as a failure. */
  lemma OfferFinding(candidates: map<nat, Candidate>, req: OfferRequest, delivered: bool)
    ensures SendOfferAsWritten(candidates, req, delivered).attempted == SendOffer(candidates, req, delivered).attempted
    ensures !SendOffer(candidates, req, delivered).attempted ==>
      SendOfferAsWritten(candidates, req, delivered) == SendOffer(candidates, req, delivered)
    ensures SendOffer(candidates, req, delivered).attempted && delivered ==>
      && SendOffer(candidates, req, delivered).result == Ok(OfferSentMessage)
      && SendOfferAsWritten(candidates, req, delivered).result == Err(ServerError)
  {
  }
}
