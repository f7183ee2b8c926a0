/** The relational records of the quiz store (questions, their choices, users
    and the answers users submit), the two enumerations that go with them, and
    the hard-coded constants the core reads. The four tables together are the
    value `Tables`; `Tables.Valid` is what the schema's keys and constraints
    guarantee about any state the database can be in. */
module Models {
  import opened Runtime

  /** A question's difficulty, stored as a database enum. */
  datatype DifficultyLevel = Easy | Moderate | Hard

  /** The sort direction of a question listing. */
  datatype OrderDirection = Asc | Desc

  /** The curated subdomains a listing falls back to when none is asked for. */
  const DEFAULT_SUBDOMAINS: seq<string> := ["python", "javascript", "sql"]

  /** The email of the stored user that stands for anonymous callers. */
  const PLACEHOLDER_USER_EMAIL: string := "placeholder@softwarequizzes.com"

  /** A row of `questions`. Timestamps are ticks of the database clock. */
  datatype Question = Question(
    id: int,
    text: string,
    snippet: Option<string>,
    createdAt: int,
    updatedAt: int,
    subdomain: string,
    explanation: Option<string>,
    level: DifficultyLevel)

  /** A row of `choices`; `questionId` is a foreign key into `questions`. */
  datatype Choice = Choice(id: int, questionId: int, text: string, isAnswer: bool)

  /** A row of `auth_user`; `password` holds the password hash. */
  datatype User = User(id: int, password: string, email: string)

  /** A row of `user_answers`: three independent foreign keys and nothing else. */
  datatype UserAnswer = UserAnswer(id: int, userId: int, questionId: int, choiceId: int)

  /** The primary keys of the users table. */
  function UserIds(users: map<string, User>): (ids: set<int>)
    ensures forall e | e in users :: users[e].id in ids
    ensures forall id | id in ids :: exists e | e in users :: users[e].id == id
  {
    set e | e in users :: users[e].id
  }

  /** The `Question.choices` relationship: every stored choice whose foreign key
      is `questionId`, in no particular order. */
  function ChoicesOf(choices: map<int, Choice>, questionId: int): (cs: set<Choice>)
    ensures forall c :: c in cs <==> c in choices.Values && c.questionId == questionId
  {
    set c | c in choices.Values && c.questionId == questionId
  }

  /** The four tables. Users are keyed by email: the unique index on
      `auth_user.email` makes the email a key of its own. */
  datatype Tables = Tables(
    questions: map<int, Question>,
    choices: map<int, Choice>,
    users: map<string, User>,
    answers: map<int, UserAnswer>)
  {
    /** Keys agree with the stored ids, ids of users are distinct, and every
        foreign key points at a stored row. */
    ghost predicate Valid() {
      && (forall id | id in questions :: questions[id].id == id)
      && (forall id | id in choices :: choices[id].id == id && choices[id].questionId in questions)
      && (forall e | e in users :: users[e].email == e)
      && (forall e1, e2 | e1 in users && e2 in users && e1 != e2 :: users[e1].id != users[e2].id)
      && (forall id | id in answers :: AnswerValid(id, answers[id]))
    }

    ghost predicate AnswerValid(id: int, a: UserAnswer) {
      && a.id == id
      && a.userId in UserIds(users)
      && a.questionId in questions
      && a.choiceId in choices
    }

    /** True when some answer points at question `qid` or at one of its choices. */
    predicate QuestionReferenced(qid: int) {
      exists id | id in answers ::
        || answers[id].questionId == qid
        || (answers[id].choiceId in choices && choices[answers[id].choiceId].questionId == qid)
    }

    /** True when some answer points at choice `cid`. */
    predicate ChoiceReferenced(cid: int) {
      exists id | id in answers :: answers[id].choiceId == cid
    }
  }

  /** Deleting a question through the ORM: the "all, delete-orphan" cascade
      deletes its choices with it. `user_answers` has no cascade, so the
      foreign keys reject the delete when any answer still refers to the
      question or to one of its choices. */
  function DeleteQuestion(t: Tables, qid: int): (r: Outcome<Tables>)
    requires qid in t.questions
    ensures r.Raised? <==> t.QuestionReferenced(qid)
    ensures r.Raised? ==> r.error == IntegrityError
    ensures r.Returned? ==>
      && r.value.questions.Keys == t.questions.Keys - {qid}
      && (forall id | id in r.value.questions :: r.value.questions[id] == t.questions[id])
      && ChoicesOf(r.value.choices, qid) == {}
      && (forall id | id in t.choices ::
            id in r.value.choices <==> t.choices[id].questionId != qid)
      && (forall id | id in r.value.choices :: id in t.choices && r.value.choices[id] == t.choices[id])
      && r.value.users == t.users && r.value.answers == t.answers
    ensures r.Returned? && t.Valid() ==> r.value.Valid()
  {
    if t.QuestionReferenced(qid) then Raised(IntegrityError)
    else
      var choices := map id | id in t.choices && t.choices[id].questionId != qid :: t.choices[id];
      Returned(t.(questions := t.questions - {qid}, choices := choices))
  }

  /** Removing a choice from its question's `choices` list: delete-orphan
      deletes the row, unless an answer still refers to it. */
  function RemoveChoice(t: Tables, cid: int): (r: Outcome<Tables>)
    requires cid in t.choices
    ensures r.Raised? <==> t.ChoiceReferenced(cid)
    ensures r.Raised? ==> r.error == IntegrityError
    ensures r.Returned? ==>
      && r.value.choices.Keys == t.choices.Keys - {cid}
      && (forall id | id in r.value.choices :: r.value.choices[id] == t.choices[id])
      && r.value.questions == t.questions && r.value.users == t.users
      && r.value.answers == t.answers
    ensures r.Returned? && t.Valid() ==> r.value.Valid()
  {
    if t.ChoiceReferenced(cid) then Raised(IntegrityError)
    else Returned(t.(choices := t.choices - {cid}))
  }

  /** Every stored choice belongs to exactly one stored question: it is in the
      choice list of its own question and of no other. */
  lemma ChoiceBelongsToOneQuestion(t: Tables, cid: int, qid: int)
    requires t.Valid() && cid in t.choices
    ensures t.choices[cid].questionId in t.questions
    ensures t.choices[cid] in ChoicesOf(t.choices, qid) <==> qid == t.choices[cid].questionId
  {
    assert cid in t.choices.Keys;
  }

  /** The choice lists of the stored questions partition the stored choices:
      the lists of two different questions share no choice, and every stored
      choice is in the list of a stored question. */
  lemma ChoicesPartition(t: Tables)
    requires t.Valid()
    ensures forall q1, q2 | q1 in t.questions && q2 in t.questions && q1 != q2 ::
      ChoicesOf(t.choices, q1) !! ChoicesOf(t.choices, q2)
    ensures forall id | id in t.choices ::
      t.choices[id].questionId in t.questions && t.choices[id] in ChoicesOf(t.choices, t.choices[id].questionId)
  {
    forall id | id in t.choices ensures t.choices[id] in ChoicesOf(t.choices, t.choices[id].questionId) {
      assert id in t.choices.Keys;
    }
  }

  /** With the primary key on `auth_user.id`, there are exactly as many user
      ids as users. */
  lemma {:induction false} UserIdsCount(users: map<string, User>)
    requires forall e1, e2 | e1 in users && e2 in users && e1 != e2 :: users[e1].id != users[e2].id
    ensures |UserIds(users)| == |users|
    decreases |users|
  {
    if users != map[] {
      var e :| e in users;
      var rest := users - {e};
      assert users.Keys == rest.Keys + {e};
      assert |rest| == |users| - 1;
      UserIdsCount(rest);
      assert users[e].id !in UserIds(rest);
      UserIdsRemove(users, e);
    } else {
      assert UserIds(users) == {};
    }
  }

  /** Taking one user out takes out its id and keeps the others'. */
  lemma UserIdsRemove(users: map<string, User>, e: string)
    requires e in users
    ensures UserIds(users) == UserIds(users - {e}) + {users[e].id}
  {
    var rest := users - {e};
    forall id | id in UserIds(users) ensures id in UserIds(rest) + {users[e].id} {
      var e2 :| e2 in users && users[e2].id == id;
      if e2 != e {
        assert e2 in rest;
      }
    }
    forall e2 | e2 in rest ensures users[e2].id in UserIds(users) {
    }
  }

  /** Two answers with the same user, question and choice. */
  predicate HasDuplicateAnswers(t: Tables) {
    exists i, j | i in t.answers && j in t.answers ::
      && i != j
      && t.answers[i].userId == t.answers[j].userId
      && t.answers[i].questionId == t.answers[j].questionId
      && t.answers[i].choiceId == t.answers[j].choiceId
  }

  /** An answer whose choice belongs to another question than its own. */
  predicate HasMismatchedAnswer(t: Tables) {
    exists i | i in t.answers ::
      t.answers[i].choiceId in t.choices
      && t.choices[t.answers[i].choiceId].questionId != t.answers[i].questionId
  }

  /** A single small store used by the two lemmas below. */
  function SampleTables(answers: map<int, UserAnswer>): Tables {
    var q1 := Question(1, "What is 2+2?", None, 0, 0, "python", None, Easy);
    var q2 := Question(2, "What is 3+3?", None, 0, 0, "python", None, Easy);
    Tables(
      map[1 := q1, 2 := q2],
      map[10 := Choice(10, 1, "4", true), 20 := Choice(20, 2, "6", true)],
      map["a@example.com" := User(7, "hash", "a@example.com")],
      answers)
  }

  /** The sample store is valid for any answers by its one user to its
      questions and choices. */
  lemma SampleTablesValid(answers: map<int, UserAnswer>)
    requires forall id | id in answers ::
      && answers[id].id == id && answers[id].userId == 7
      && (answers[id].questionId == 1 || answers[id].questionId == 2)
      && (answers[id].choiceId == 10 || answers[id].choiceId == 20)
    ensures SampleTables(answers).Valid()
  {
    var t := SampleTables(answers);
    assert 7 in UserIds(t.users) by { assert t.users["a@example.com"].id == 7; }
    assert forall id | id in t.questions :: t.questions[id].id == id;
    assert forall id | id in t.choices :: t.choices[id].id == id && t.choices[id].questionId in t.questions;
    assert forall e | e in t.users :: t.users[e].email == e;
    forall id | id in t.answers ensures t.AnswerValid(id, t.answers[id]) {
    }
  }

  /** The schema has no unique constraint on (user, question, choice): a valid
      store may hold the same answer twice. */
  lemma DuplicateAnswersAllowed()
    ensures exists t: Tables :: t.Valid() && HasDuplicateAnswers(t)
  {
    var answers := map[100 := UserAnswer(100, 7, 1, 10), 101 := UserAnswer(101, 7, 1, 10)];
    SampleTablesValid(answers);
    var t := SampleTables(answers);
    assert 100 in t.answers && 101 in t.answers;
    assert HasDuplicateAnswers(t);
  }

  /** Nothing ties an answer's choice to the answer's question: a valid store
      may hold an answer that pairs a question with another question's choice. */
  lemma AnswerChoiceIndependentOfQuestion()
    ensures exists t: Tables :: t.Valid() && HasMismatchedAnswer(t)
  {
    var answers := map[100 := UserAnswer(100, 7, 1, 20)];
    SampleTablesValid(answers);
    var t := SampleTables(answers);
    assert 100 in t.answers;
    assert HasMismatchedAnswer(t);
  }
}
