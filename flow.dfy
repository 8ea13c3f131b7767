// The questionnaire flow of the web application, as functions on the value
// of one user's session: the `index` route (back, start or resume, hand-off
// to results, prefill, submit) and the `results` route (score, record, clear).

module Flow {
  import opened Catalog

  datatype Option<T> = None | Some(value: T)

  /** The user's cookie session. `active` says that the keys
      'current_question' and 'answers' are present; they are always set
      together and cleared together. An inactive session holds index 0 and
      no answers. `answers` maps str(question id) to the chosen letter. */
  datatype Session = Session(active: bool, index: int, answers: map<string, char>)

  /** The session of a user who has not started, or whose session was cleared. */
  const Empty := Session(false, 0, map[])

  /** One request to the index route: whether the query string says
      action=prev, and the posted answer field (None for a GET; an absent
      field posts as ""). */
  datatype Request = Request(prev: bool, form: Option<string>)

  /** What the index route answers with. */
  datatype Page =
    | RedirectToIndex
    | RedirectToResults
    | ShowQuestion(progress: int, question: Question, prefill: Option<char>)

  /** The invariant every reachable session keeps: the index stays within
      the catalog, the answered positions form a prefix that covers every
      position already passed, every key is a catalog key, and every stored
      letter is one of its question's options. */
  ghost predicate Valid(s: Session)
  {
    && (!s.active ==> s.index == 0 && s.answers == map[])
    && 0 <= s.index <= |Questions|
    && (forall k :: k in s.answers ==> exists i :: 0 <= i < |Questions| && k == Key(i))
    && (forall i :: 0 <= i < |Questions| && Key(i) in s.answers ==> s.answers[Key(i)] in Questions[i].options)
    && (forall i :: 0 <= i < s.index ==> Key(i) in s.answers)
    && (forall i, j :: 0 <= i <= j < |Questions| && Key(j) in s.answers ==> Key(i) in s.answers)
  }

  // ---------------------------------------------------------------------------
  // The steps of the index route

  /** `session.get('current_question', 0) > 0`: a step back is possible. */
  predicate CanGoBack(s: Session)
  {
    s.active && s.index > 0
  }

  /** action=prev: one question back when possible; answers are kept. */
  function Retreat(s: Session): Session
  {
    if CanGoBack(s) then s.(index := s.index - 1) else s
  }

  /** First visit: index 0 and no answers; an existing session is resumed as it is. */
  function Begin(s: Session): Session
  {
    if s.active then s else Session(true, 0, map[])
  }

  /** The choice pre-filled for the current question: its stored answer, if any. */
  function Prefill(s: Session): Option<char>
    requires 0 <= s.index < |Questions|
  {
    if Key(s.index) in s.answers then Some(s.answers[Key(s.index)]) else None
  }

  /** The form's answer data when it is validated and recorded: the posted
      letter, unless a stored answer was pre-filled over it. */
  function FormData(s: Session, posted: string): string
    requires 0 <= s.index < |Questions|
  {
    match Prefill(s)
    case Some(c) => [c]
    case None => posted
  }

  /** The radio field accepts its data when it is one of the question's option letters. */
  predicate IsChoice(i: int, data: string)
    requires 0 <= i < |Questions|
  {
    |data| == 1 && data[0] in Questions[i].options
  }

  /** The submitted form validates. */
  predicate Accepted(s: Session, posted: string)
    requires 0 <= s.index < |Questions|
  {
    IsChoice(s.index, FormData(s, posted))
  }

  /** A post on the current question: record the form data under the
      question's key and move one question forward, or nothing if the form
      does not validate. */
  function Advance(s: Session, posted: string): Session
    requires 0 <= s.index < |Questions|
  {
    if Accepted(s, posted) then
      s.(index := s.index + 1, answers := s.answers[Key(s.index) := FormData(s, posted)[0]])
    else
      s
  }

  /** The whole index route: the new session and the page returned. */
  function Index(s: Session, req: Request): (r: (Session, Page))
    requires 0 <= s.index
    ensures 0 <= r.0.index
  {
    if req.prev && CanGoBack(s) then
      (Retreat(s), RedirectToIndex)
    else
      var t := Begin(s);
      if t.index >= |Questions| then
        (t, RedirectToResults)
      else
        match req.form
        case Some(posted) =>
          if Accepted(t, posted) then (Advance(t, posted), RedirectToIndex)
          else (t, ShowQuestion(t.index, Questions[t.index], Prefill(t)))
        case None =>
          (t, ShowQuestion(t.index, Questions[t.index], Prefill(t)))
  }

  // ---------------------------------------------------------------------------
  // The results route

  /** The three scoring stages, which live outside this model. */
  datatype Scorer = Scorer(
    rawScore: map<string, char> -> real,
    standardScore: real -> real,
    riskGroup: real -> string)

  /** The row handed to the results table. */
  datatype Record = Record(userId: int, answers: map<string, char>, rawScore: real, standardScore: real, riskGroup: string)

  datatype Finished =
    | NoAnswers            // redirected to the index route
    | SinkFailed           // the database commit raised
    | Recorded(record: Record)

  /** The record scored from a session's answers. */
  function Score(sc: Scorer, userId: int, answers: map<string, char>): Record
  {
    var raw := sc.rawScore(answers);
    var standard := sc.standardScore(raw);
    Record(userId, answers, raw, standard, sc.riskGroup(standard))
  }

  /** The results route: nothing without answers; otherwise score the
      answers, record them, and clear the session once the record is committed. */
  function Results(s: Session, sc: Scorer, userId: int, committed: bool): (Session, Finished)
  {
    if !s.active then (s, NoAnswers)
    else if !committed then (s, SinkFailed)
    else (Empty, Recorded(Score(sc, userId, s.answers)))
  }

  // ---------------------------------------------------------------------------
  // Properties of the steps

  /** Starting a fresh session gives index 0 and no answers; resuming leaves
      the session as it is, so starting twice is starting once. */
  lemma BeginResumes(s: Session)
    ensures !s.active ==> Begin(s) == Session(true, 0, map[])
    ensures s.active ==> Begin(s) == s
    ensures Begin(Begin(s)) == Begin(s)
  {
  }

  /** A step back moves exactly one question back and keeps every answer;
      at index 0 or without a session it changes nothing. */
  lemma RetreatSteps(s: Session)
    ensures Retreat(s).answers == s.answers && Retreat(s).active == s.active
    ensures CanGoBack(s) ==> Retreat(s).index == s.index - 1
    ensures !CanGoBack(s) ==> Retreat(s) == s
  {
  }

  /** On a question not answered before, a post is accepted exactly when the
      posted letter is one of the question's letters; an accepted post records that
      letter and moves one forward, a rejected one changes nothing. */
  lemma AdvanceFresh(s: Session, posted: string)
    requires 0 <= s.index < |Questions|
    requires Key(s.index) !in s.answers
    ensures Accepted(s, posted) <==> IsChoice(s.index, posted)
    ensures Accepted(s, posted) ==>
              Advance(s, posted) == s.(index := s.index + 1, answers := s.answers[Key(s.index) := posted[0]])
    ensures !Accepted(s, posted) ==> Advance(s, posted) == s
  {
  }

  /** On a question answered before, whatever is posted (another letter, a
      letter of no option, nothing), the stored answer is pre-filled over
      it: the post is accepted, the answers stay exactly as they were, and
      the index moves one forward. */
  lemma AdvanceRevisit(s: Session, posted: string)
    requires Valid(s)
    requires 0 <= s.index < |Questions|
    requires Key(s.index) in s.answers
    ensures Accepted(s, posted)
    ensures Advance(s, posted) == s.(index := s.index + 1)
  {
    assert FormData(s, posted) == [s.answers[Key(s.index)]];
    assert s.answers[Key(s.index) := s.answers[Key(s.index)]] == s.answers;
  }

  /** Each step of the index route keeps the invariant. */
  lemma IndexKeepsValid(s: Session, req: Request)
    requires Valid(s)
    ensures Valid(Index(s, req).0)
  {
    if req.prev && CanGoBack(s) {
    } else {
      var t := Begin(s);
      if t.index < |Questions| && req.form.Some? && Accepted(t, req.form.value) {
        AdvanceKeepsValid(t, req.form.value);
      }
    }
  }

  lemma AdvanceKeepsValid(s: Session, posted: string)
    requires Valid(s) && s.active
    requires 0 <= s.index < |Questions|
    ensures Valid(Advance(s, posted))
  {
    if Accepted(s, posted) {
      var t := Advance(s, posted);
      var c := FormData(s, posted)[0];
      assert t.answers == s.answers[Key(s.index) := c];
      assert c in Questions[s.index].options;
      forall i | 0 <= i < |Questions| && Key(i) in t.answers
        ensures t.answers[Key(i)] in Questions[i].options
      {
        if Key(i) == Key(s.index) {
          KeyInjective(i, s.index);
        }
      }
      forall i, j | 0 <= i <= j < |Questions| && Key(j) in t.answers
        ensures Key(i) in t.answers
      {
        if Key(j) == Key(s.index) {
          KeyInjective(j, s.index);
        }
      }
    }
  }

  /** action=prev where no step back is possible is not a no-op of the
      route: the request is handled as if it did not ask to go back. */
  lemma IndexPrevFallsThrough(s: Session, req: Request)
    requires 0 <= s.index
    requires !CanGoBack(s)
    ensures Index(s, req) == Index(s, req.(prev := false))
  {
  }

  /** Once the index reaches the end of the catalog, the route shows no
      question and records nothing: it hands off to results. */
  lemma IndexCompleteHandsOff(s: Session, req: Request)
    requires Valid(s)
    requires !(req.prev && CanGoBack(s))
    requires Begin(s).index == |Questions|
    ensures Index(s, req) == (Begin(s), RedirectToResults)
  {
  }

  /** The route's answer to a GET or to a post that does not validate: the
      current question, with its stored answer pre-filled exactly when it
      has one, and no change beyond starting the session. */
  lemma IndexShowsQuestion(s: Session, req: Request)
    requires Valid(s)
    requires !(req.prev && CanGoBack(s))
    requires Begin(s).index < |Questions|
    requires req.form.None? || !Accepted(Begin(s), req.form.value)
    ensures Index(s, req).0 == Begin(s)
    ensures Index(s, req).1.ShowQuestion?
    ensures Index(s, req).1.progress == Begin(s).index
    ensures Index(s, req).1.question.id == Begin(s).index + 1
    ensures Index(s, req).1.prefill.Some? <==> Key(Begin(s).index) in s.answers
    ensures Index(s, req).1.prefill.Some? ==> Index(s, req).1.prefill.value == s.answers[Key(Begin(s).index)]
  {
    CatalogShape();
  }

  /** Going back and then posting again, whatever is posted, restores the
      session exactly: the stored answer is re-recorded and the index
      returns to where it was. */
  lemma BackThenSubmitRestores(s: Session, posted: string)
    requires Valid(s)
    requires CanGoBack(s)
    ensures Index(Index(s, Request(true, None)).0, Request(false, Some(posted))).0 == s
  {
    var b := Index(s, Request(true, None)).0;
    assert b == s.(index := s.index - 1);
    assert Key(b.index) in b.answers;
    AdvanceRevisit(b, posted);
  }

  /** A concrete run: answer 'b' to question 1, go back, post 'c'. The
      first answer stays recorded and the index is back at 1. */
  lemma RevisitKeepsFirstAnswer()
    ensures var s1 := Index(Empty, Request(false, Some("b"))).0;
            var s2 := Index(s1, Request(true, None)).0;
            var s3 := Index(s2, Request(false, Some("c"))).0;
            s1 == Session(true, 1, map["1" := 'b']) &&
            s2 == Session(true, 0, map["1" := 'b']) &&
            s3 == s1
  {
    assert Key(0) == "1";
  }

  /** After a step back the answers still hold the question left behind:
      answers cover more than the positions below the index. */
  lemma BackKeepsAnswerAhead(s: Session)
    requires Valid(s)
    requires CanGoBack(s)
    ensures var b := Index(s, Request(true, None)).0;
            b.index == s.index - 1 && Key(b.index) in b.answers
  {
  }

  /** The results route scores whatever answers the session holds, at any
      index, and leaves the session alone until the record is committed;
      after the commit the whole session is cleared. */
  lemma ResultsClears(s: Session, sc: Scorer, userId: int, committed: bool)
    ensures !s.active ==> Results(s, sc, userId, committed) == (s, NoAnswers)
    ensures s.active && !committed ==> Results(s, sc, userId, committed) == (s, SinkFailed)
    ensures s.active && committed ==>
              var r := Results(s, sc, userId, committed);
              r.0 == Empty && r.1.Recorded? && r.1.record.answers == s.answers &&
              r.1.record.rawScore == sc.rawScore(s.answers) &&
              r.1.record.standardScore == sc.standardScore(r.1.record.rawScore) &&
              r.1.record.riskGroup == sc.riskGroup(r.1.record.standardScore)
  {
  }

  /** The results route keeps the invariant. */
  lemma ResultsKeepsValid(s: Session, sc: Scorer, userId: int, committed: bool)
    requires Valid(s)
    ensures Valid(Results(s, sc, userId, committed).0)
  {
  }

  /** Two sessions with the same answers score to the same record, whatever
      their indices. */
  lemma ScoreDependsOnlyOnAnswers(s1: Session, s2: Session, sc: Scorer, userId: int)
    requires s1.active && s2.active && s1.answers == s2.answers
    ensures Results(s1, sc, userId, true).1 == Results(s2, sc, userId, true).1
  {
  }

  // ---------------------------------------------------------------------------
  // Runs of requests

  /** A request from the user's browser: to the index route, or to the
      results route with whether the database commit succeeds. */
  datatype Visit = ToIndex(req: Request) | ToResults(committed: bool)

  /** The session after a sequence of visits. */
  function Run(s: Session, visits: seq<Visit>, sc: Scorer, userId: int): (t: Session)
    requires 0 <= s.index
    ensures 0 <= t.index
    decreases |visits|
  {
    if visits == [] then s
    else
      var next := match visits[0]
        case ToIndex(req) => Index(s, req).0
        case ToResults(committed) => Results(s, sc, userId, committed).0;
      Run(next, visits[1..], sc, userId)
  }

  /** Every session reachable from a fresh one keeps the invariant. */
  lemma {:induction false} RunKeepsValid(s: Session, visits: seq<Visit>, sc: Scorer, userId: int)
    requires Valid(s)
    ensures Valid(Run(s, visits, sc, userId))
    decreases |visits|
  {
    if visits != [] {
      match visits[0]
      case ToIndex(req) =>
        IndexKeepsValid(s, req);
        RunKeepsValid(Index(s, req).0, visits[1..], sc, userId);
      case ToResults(committed) =>
        ResultsKeepsValid(s, sc, userId, committed);
        RunKeepsValid(Results(s, sc, userId, committed).0, visits[1..], sc, userId);
    }
  }

  /** A session at the end of the catalog holds a valid answer for every question. */
  lemma CompleteSessionAnswersAll(s: Session)
    requires Valid(s)
    requires s.index == |Questions|
    ensures forall i :: 0 <= i < |Questions| ==> Key(i) in s.answers && s.answers[Key(i)] in Questions[i].options
  {
  }
}
