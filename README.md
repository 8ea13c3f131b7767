# Risk questionnaire session flow, in Dafny

This project models the assessment engine of the feline risk-assessment web
application (`app.py`). It covers:

- the fixed catalog of fifteen multiple-choice questions;
- the per-user session that the `index` route steps through one question at a
  time: start or resume, go back, pre-fill a stored answer, validate and record
  a posted answer, hand off to results;
- the `results` route, which scores the stored answers, records them and clears
  the session.

Modules:

- `Catalog` (`catalog.dfy`) holds the question ids and option letters. It also
  holds `Decimal`, which models Python's `str()` of an id. Session answers are
  stored under that string key.
- `Flow` (`flow.dfy`) describes the session as a value. Each route is a function
  on that value, and the lemmas state what each step does and what it keeps.
  The central invariant is `Valid`:
  - the index stays in `0..15`;
  - the answered questions form a prefix of the catalog that covers every
    question already passed;
  - every key is the string id of a catalog question;
  - every stored letter is one of that question's options.

  `RunKeepsValid` proves that every session reachable by any sequence of visits
  satisfies `Valid`.
- `App` (`app.dfy`) is the session as the application keeps it: an object whose
  `index` and `answers` fields are updated in place by `Back`, `Init`, `Submit`,
  `Index` and `Finish`. Each method is proved to produce exactly the new state
  and result that the matching `Flow` function gives.

A request to the index route is modelled as two things:
- whether its query string says `action=prev`;
- the posted answer field (`None` for a GET, `""` for a post without a choice).

Where the code and its design description disagree, the model follows the code:

- **Revisiting locks the answer.** Line 238 writes the stored answer into the
  form before line 241 reads it. So a post on a question answered before
  re-records the old letter, whatever was posted (`AdvanceRevisit`,
  `RevisitKeepsFirstAnswer`). The design says a submit records the chosen
  label. As written, a user who goes back cannot change an answer.
- **Going back keeps later answers.** After a step back, the answer to the
  question just left is still stored (`BackKeepsAnswerAhead`). So the answers
  cover the prefix of questions ever reached, not only the positions below the
  index.
- **Going back at question 0 is not a no-op.** `action=prev` where no step back
  is possible falls through to the rest of the route, so a post there is still
  handled (`IndexPrevFallsThrough`).
- **Results does not check completion.** `results()` scores whatever answers
  the session holds, at any index (`ResultsClears`). It clears the session only
  after the database commit. A second visit then finds no answers and
  redirects, so one completed session is recorded at most once.

## Model

| member | source | states |
|---|---|---|
| `Catalog.CatalogShape` | app.py:30-174 | the catalog has 15 questions; question i has id i + 1 and 2 to 4 options lettered 'a', 'b', ... consecutively |
| `Catalog.Decimal` | app.py:237 | str(id) is a non-empty digit string, one character long exactly for ids below 10, ending in the id's last digit |
| `Catalog.DecimalInjective` | app.py:237 | different ids give different str(id) keys |
| `Catalog.KeyInjective` | app.py:237-241 | two catalog positions share a session key only if they are the same position |
| `Flow.Index` | app.py:219-249 | the index route never makes the stored index negative |
| `Flow.BeginResumes` | app.py:226-228 | with no session, the route starts at index 0 with no answers; an existing session is left as it is, so resuming is idempotent |
| `Flow.RetreatSteps` | app.py:222-223 | going back, when the index is above 0, lowers it by exactly one and keeps every answer; otherwise nothing changes |
| `Flow.IndexPrevFallsThrough` | app.py:222-224 | action=prev with no step back possible is handled exactly as the same request without action=prev |
| `Flow.IndexCompleteHandsOff` | app.py:230-231 | once the index reaches the catalog length, the route records nothing, shows no question and redirects to results |
| `Flow.IndexShowsQuestion` | app.py:233-249 | a GET, or a post that fails validation, shows the current question (id index + 1) at progress = index; the stored answer is pre-filled exactly when there is one; only session start changes state |
| `Flow.AdvanceFresh` | app.py:233-242 | on an unanswered question, a post is accepted exactly when it is one of the question's option letters; an accepted post records that letter and moves the index forward by one, and a rejected post changes nothing |
| `Flow.AdvanceRevisit` | app.py:237-242 | on a question answered before, any post is accepted; the answers stay exactly as they were (the pre-filled answer is re-recorded) and the index moves forward by one |
| `Flow.AdvanceKeepsValid` | app.py:240-242 | an accepted or rejected post keeps the session invariant |
| `Flow.IndexKeepsValid` | app.py:219-249 | every request to the index route keeps the session invariant |
| `Flow.BackThenSubmitRestores` | app.py:222-242 | going back and then posting anything restores the exact earlier session (index and answers) |
| `Flow.RevisitKeepsFirstAnswer` | app.py:237-242 | answering 'b' to question 1, going back and posting 'c' leaves the answer 'b' and returns to index 1 |
| `Flow.BackKeepsAnswerAhead` | app.py:222-224 | after a step back, the question at the new index still has its stored answer |
| `Flow.ResultsClears` | app.py:254-274 | without answers the results route changes nothing; with answers it scores raw, then standard, then group from the stored answers, at any index; the session is cleared only after the commit, and left unchanged when the commit fails |
| `Flow.ResultsKeepsValid` | app.py:254-274 | the results route keeps the session invariant |
| `Flow.ScoreDependsOnlyOnAnswers` | app.py:258-260 | two sessions with the same answers yield the same record, whatever their indices |
| `Flow.Run` | app.py:219-274 | any sequence of visits to the two routes keeps the stored index non-negative |
| `Flow.RunKeepsValid` | app.py:219-274 | every session reachable by visits to the two routes satisfies the invariant |
| `Flow.CompleteSessionAnswersAll` | app.py:230-231 | a session whose index has reached the catalog length holds a valid letter for every question |
| `App.QuizSession.constructor` | app.py:226 | a new user has no session, and that state satisfies the invariant |
| `App.QuizSession.Back` | app.py:222-223 | moves back exactly when a session exists with index above 0; lowers the index by one and leaves the answers unchanged |
| `App.QuizSession.Init` | app.py:226-228 | creates the session at index 0 with no answers, or leaves an existing one unchanged |
| `App.QuizSession.Submit` | app.py:233-242 | validates the pre-filled or posted letter against the current question's options; when it is valid, stores it under str(id) and increments the index; otherwise changes nothing |
| `App.QuizSession.Index` | app.py:219-249 | performs the index route in place: same new session and page as `Flow.Index`, and keeps the invariant |
| `App.QuizSession.Finish` | app.py:253-274 | performs the results route in place: scores and records the answers; clears index and answers only after a committed record; changes nothing otherwise |

## Left out

- Flask routing, redirects and templates are left out. A route's answer is
  reduced to a `Page` value: a redirect, or the question with its progress and
  pre-filled choice.
- Request arguments and form parsing are reduced to a `Request` value.
- CSRF tokens, the secret key and cookie transport are left out. Posts are
  taken to carry a valid CSRF token.
- Login, registration, logout, password checks and `load_user` are left out.
  They are authentication against a database. The user id is a parameter of
  `Finish`.
- The bodies of `calculate_raw_score`, `calculate_standard_score` and
  `get_risk_profile` are not part of this model, because `scoring.py` is not
  part of it. They are passed in as the three total functions of a `Scorer`.
  No weights or bands are assumed.
- The numeric types of the scores are not fixed by the visible code. The model
  uses `real`.
- Of the risk profile, only its `group` is kept.
- The database row and its commit are reduced to a `Record` value and a
  `committed` flag. A commit that raises leaves the session uncleared.
- Question and option texts are left out, because they carry no behaviour.
- `session.clear()` also removes the login library's own session keys. The
  model clears only the two questionnaire keys.
- One user's session is modelled. Concurrent requests from several tabs of the
  same user are left out, because they are concurrency.
