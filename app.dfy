// One user's session as the web application keeps it: a mutable record of
// the current question index and the answers so far, updated in place by the
// index route and cleared by the results route. Each method is proved
// against the corresponding function of module Flow.

module App {
  import opened Catalog
  import opened Flow

  class QuizSession {
    /** The keys 'current_question' and 'answers' are present. */
    var active: bool
    /** session['current_question'] */
    var index: int
    /** session['answers']: str(question id) to the chosen letter */
    var answers: map<string, char>

    /** The session as a value. */
    function Value(): Session
      reads this
    {
      Session(active, index, answers)
    }

    /** A user who has never opened the questionnaire. */
    constructor ()
      ensures Value() == Empty && Valid(Value())
    {
      active, index, answers := false, 0, map[];
    }

    /** action=prev: one question back when there is one to go back to. */
    method Back() returns (moved: bool)
      modifies this
      ensures moved == (old(active) && old(index) > 0)
      ensures moved ==> index == old(index) - 1
      ensures !moved ==> index == old(index)
      ensures active == old(active) && answers == old(answers)
      ensures Value() == Retreat(old(Value()))
    {
      moved := active && index > 0;
      if moved {
        index := index - 1;
      }
    }

    /** First visit: start at question 0 with no answers; otherwise resume. */
    method Init()
      modifies this
      ensures active
      ensures old(active) ==> index == old(index) && answers == old(answers)
      ensures !old(active) ==> index == 0 && answers == map[]
      ensures Value() == Begin(old(Value()))
    {
      if !active {
        active := true;
        index := 0;
        answers := map[];
      }
    }

    /** A post on the current question: the stored answer, if any, is
        pre-filled over the posted letter; the form validates when its data is
        one of the question's letters, and then the data is recorded and the
        index moves one forward. */
    method Submit(posted: string) returns (accepted: bool)
      requires active && 0 <= index < |Questions|
      modifies this
      ensures active
      ensures accepted == Accepted(old(Value()), posted)
      ensures accepted ==> index == old(index) + 1
      ensures accepted ==> answers == old(answers)[Key(old(index)) := FormData(old(Value()), posted)[0]]
      ensures !accepted ==> index == old(index) && answers == old(answers)
      ensures Value() == Advance(old(Value()), posted)
    {
      var question := Questions[index];
      var key := Decimal(question.id);
      var data := posted;
      if key in answers {
        data := [answers[key]];
      }
      accepted := |data| == 1 && data[0] in question.options;
      if accepted {
        answers := answers[key := data[0]];
        index := index + 1;
      }
    }

    /** The index route. */
    method Index(req: Request) returns (page: Page)
      requires 0 <= index
      modifies this
      ensures (Value(), page) == Flow.Index(old(Value()), req)
      ensures Valid(old(Value())) ==> Valid(Value())
    {
      if Valid(Value()) {
        IndexKeepsValid(Value(), req);
      }
      if req.prev {
        var moved := Back();
        if moved {
          return RedirectToIndex;
        }
      }
      Init();
      if index >= |Questions| {
        return RedirectToResults;
      }
      var question := Questions[index];
      var prefill := if Key(index) in answers then Some(answers[Key(index)]) else None;
      match req.form {
        case Some(posted) =>
          var accepted := Submit(posted);
          if accepted {
            page := RedirectToIndex;
          } else {
            page := ShowQuestion(index, question, prefill);
          }
        case None =>
          page := ShowQuestion(index, question, prefill);
      }
    }

    /** The results route: without answers nothing happens; otherwise the
        answers are scored and recorded, and once the record is committed
        the whole session is cleared. */
    method Finish(sc: Scorer, userId: int, committed: bool) returns (outcome: Finished)
      modifies this
      ensures (Value(), outcome) == Results(old(Value()), sc, userId, committed)
      ensures !old(active) || !committed ==> Value() == old(Value())
      ensures old(active) && committed ==> !active && index == 0 && answers == map[]
      ensures Valid(old(Value())) ==> Valid(Value())
    {
      if !active {
        return NoAnswers;
      }
      var raw := sc.rawScore(answers);
      var standard := sc.standardScore(raw);
      var record := Record(userId, answers, raw, standard, sc.riskGroup(standard));
      if !committed {
        return SinkFailed;
      }
      active, index, answers := false, 0, map[];
      outcome := Recorded(record);
    }
  }
}
