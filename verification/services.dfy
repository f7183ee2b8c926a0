/** The CRUD services: the database as a mutable object holding the four
    tables and the id sequences, the two inserting operations
    (`create_instance`, `create_question_choices`), and the two reading ones
    (`read_question`, and `list_questions` without the default-subdomain
    fallback). Storage failures the model does not explain are inputs: `fault`
    says the commit of `create_instance` fails, `failAt` names the first choice
    whose commit fails. */
module Services {
  import opened Runtime
  import opened Models
  import opened Ordering
  import opened Statement

  const INVALID_QUESTION_ID: string := "Invalid question id"

  /** One choice of a `create_question_choices` request. */
  datatype ChoiceInput = ChoiceInput(text: string, isAnswer: bool)

  /** The row `create_instance` is asked to insert: a question or a user. */
  datatype NewRow =
    | NewQuestion(text: string, snippet: Option<string>, subdomain: string, explanation: Option<string>, level: DifficultyLevel)
    | NewUser(email: string, password: string)

  /** The choices rows created from `inputs` for question `qid`, with ids
      taken from the sequence starting at `start`, in input order. */
  function Appended(start: int, qid: int, inputs: seq<ChoiceInput>): map<int, Choice>
    decreases |inputs|
  {
    if inputs == [] then map[]
    else
      var n := |inputs| - 1;
      Appended(start, qid, inputs[..n])[start + n := Choice(start + n, qid, inputs[n].text, inputs[n].isAnswer)]
  }

  /** One row per input, under consecutive ids from `start`, each with the
      question id, text and `is_answer` of its input. */
  lemma {:induction false} AppendedRows(start: int, qid: int, inputs: seq<ChoiceInput>)
    ensures forall k :: k in Appended(start, qid, inputs) <==> start <= k < start + |inputs|
    ensures forall j | 0 <= j < |inputs| ::
      Appended(start, qid, inputs)[start + j] == Choice(start + j, qid, inputs[j].text, inputs[j].isAnswer)
    decreases |inputs|
  {
    if inputs != [] {
      var n := |inputs| - 1;
      AppendedRows(start, qid, inputs[..n]);
      assert forall j | 0 <= j < n :: inputs[..n][j] == inputs[j];
    }
  }

  /** Storing one more choice extends the appended rows by that choice. */
  lemma AppendedStep(base: map<int, Choice>, start: int, qid: int, inputs: seq<ChoiceInput>, i: int)
    requires 0 <= i < |inputs|
    ensures base + Appended(start, qid, inputs[..i + 1])
         == (base + Appended(start, qid, inputs[..i]))[start + i := Choice(start + i, qid, inputs[i].text, inputs[i].isAnswer)]
  {
    assert inputs[..i + 1][..i] == inputs[..i];
  }

  /** The schema's constraints hold, and every id sequence is past every id
      it has handed out: `nq`, `nc` and `nu` are the next values of the
      sequences of `questions`, `choices` and `auth_user`. */
  ghost predicate Consistent(t: Tables, nq: int, nc: int, nu: int) {
    && t.Valid()
    && (forall id | id in t.questions :: id < nq)
    && (forall id | id in t.choices :: id < nc)
    && (forall e | e in t.users :: t.users[e].id < nu)
  }

  lemma AddQuestionKeepsConsistent(t: Tables, nq: int, nc: int, nu: int, q: Question)
    requires Consistent(t, nq, nc, nu) && q.id == nq
    ensures Consistent(t.(questions := t.questions[q.id := q]), nq + 1, nc, nu)
  {
    var u := t.(questions := t.questions[q.id := q]);
    forall id | id in u.answers ensures u.AnswerValid(id, u.answers[id]) {
      assert t.AnswerValid(id, t.answers[id]);
    }
  }

  lemma AddChoiceKeepsConsistent(t: Tables, nq: int, nc: int, nu: int, c: Choice)
    requires Consistent(t, nq, nc, nu) && c.id == nc && c.questionId in t.questions
    ensures Consistent(t.(choices := t.choices[c.id := c]), nq, nc + 1, nu)
  {
    var u := t.(choices := t.choices[c.id := c]);
    forall id | id in u.answers ensures u.AnswerValid(id, u.answers[id]) {
      assert t.AnswerValid(id, t.answers[id]);
    }
  }

  lemma AddUserKeepsConsistent(t: Tables, nq: int, nc: int, nu: int, user: User)
    requires Consistent(t, nq, nc, nu) && user.id == nu && user.email !in t.users
    ensures Consistent(t.(users := t.users[user.email := user]), nq, nc, nu + 1)
  {
    var u := t.(users := t.users[user.email := user]);
    forall x | x in UserIds(t.users) ensures x in UserIds(u.users) {
      var e :| e in t.users && t.users[e].id == x;
      assert u.users[e].id == x;
    }
    forall id | id in u.answers ensures u.AnswerValid(id, u.answers[id]) {
      assert t.AnswerValid(id, t.answers[id]);
    }
  }

  /** A failed insert still draws its id: the sequence moves on. */
  lemma SkipIdKeepsConsistent(t: Tables, nq: int, nc: int, nu: int)
    requires Consistent(t, nq, nc, nu)
    ensures Consistent(t, nq + 1, nc, nu) && Consistent(t, nq, nc + 1, nu) && Consistent(t, nq, nc, nu + 1)
  {
  }

  /** How many choices a request stores before the failing commit, if any. */
  function StoredCount(n: nat, failAt: Option<nat>): (k: nat)
    ensures k <= n
    ensures k < n <==> failAt.Some? && failAt.value < n
    ensures k < n ==> k == failAt.value
  {
    if failAt.Some? && failAt.value < n then failAt.value else n
  }

  class Database {
    var questions: map<int, Question>
    var choices: map<int, Choice>
    var users: map<string, User>
    var answers: map<int, UserAnswer>
    /** The next values of the id sequences of `questions`, `choices` and `auth_user`. */
    var nextQuestionId: int
    var nextChoiceId: int
    var nextUserId: int

    /** The tables as a value. */
    function Snapshot(): Tables
      reads this
    {
      Tables(questions, choices, users, answers)
    }

    ghost predicate Valid()
      reads this
    {
      Consistent(Snapshot(), nextQuestionId, nextChoiceId, nextUserId)
    }

    constructor ()
      ensures Valid()
      ensures questions == map[] && choices == map[] && users == map[] && answers == map[]
    {
      questions, choices, users, answers := map[], map[], map[], map[];
      nextQuestionId, nextChoiceId, nextUserId := 1, 1, 1;
    }

    /** Inserts one row and commits; returns the new row's id, or rolls back
        and re-raises. The insert draws an id from the table's sequence even
        when it fails. The unique index on `auth_user.email` rejects a second
        user with a stored email. Timestamps come from the database clock `now`. */
    method CreateInstance(row: NewRow, now: int, fault: bool) returns (r: Outcome<int>)
      requires Valid()
      modifies this
      ensures Valid()
      ensures choices == old(choices) && answers == old(answers) && nextChoiceId == old(nextChoiceId)
      ensures row.NewQuestion? ==>
        && users == old(users) && nextUserId == old(nextUserId)
        && nextQuestionId == old(nextQuestionId) + 1
        && (fault ==> r == Raised(DatabaseError) && questions == old(questions))
        && (!fault ==>
              && r == Returned(old(nextQuestionId))
              && r.value !in old(questions)
              && questions == old(questions)[r.value :=
                   Question(r.value, row.text, row.snippet, now, now, row.subdomain, row.explanation, row.level)])
      ensures row.NewUser? ==>
        && questions == old(questions) && nextQuestionId == old(nextQuestionId)
        && nextUserId == old(nextUserId) + 1
        && (row.email in old(users) ==> r == Raised(IntegrityError) && users == old(users))
        && (row.email !in old(users) && fault ==> r == Raised(DatabaseError) && users == old(users))
        && (row.email !in old(users) && !fault ==>
              && r == Returned(old(nextUserId))
              && r.value !in UserIds(old(users))
              && users == old(users)[row.email := User(r.value, row.password, row.email)])
    {
      match row
      case NewQuestion(text, snippet, subdomain, explanation, level) =>
        var id := nextQuestionId;
        nextQuestionId := nextQuestionId + 1;
        if fault {
          SkipIdKeepsConsistent(Snapshot(), id, nextChoiceId, nextUserId);
          r := Raised(DatabaseError);
        } else {
          var q := Question(id, text, snippet, now, now, subdomain, explanation, level);
          AddQuestionKeepsConsistent(Snapshot(), old(nextQuestionId), nextChoiceId, nextUserId, q);
          questions := questions[id := q];
          r := Returned(id);
        }
      case NewUser(email, password) =>
        var id := nextUserId;
        nextUserId := nextUserId + 1;
        if email in users || fault {
          SkipIdKeepsConsistent(Snapshot(), nextQuestionId, nextChoiceId, id);
        }
        if email in users {
          r := Raised(IntegrityError);
        } else if fault {
          r := Raised(DatabaseError);
        } else {
          AddUserKeepsConsistent(Snapshot(), nextQuestionId, nextChoiceId, old(nextUserId), User(id, password, email));
          users := users[email := User(id, password, email)];
          r := Returned(id);
        }
    }

    /** One iteration of `create_question_choices`: adds a choice of question
        `questionId` and commits it. The insert draws its id even when the
        commit fails and is rolled back. */
    method CommitChoice(questionId: int, input: ChoiceInput, fault: bool) returns (r: Outcome<int>)
      requires Valid() && questionId in questions
      modifies this
      ensures Valid()
      ensures questions == old(questions) && users == old(users) && answers == old(answers)
      ensures nextQuestionId == old(nextQuestionId) && nextUserId == old(nextUserId)
      ensures nextChoiceId == old(nextChoiceId) + 1
      ensures fault ==> r == Raised(DatabaseError) && choices == old(choices)
      ensures !fault ==>
        && r == Returned(old(nextChoiceId))
        && r.value !in old(choices)
        && choices == old(choices)[r.value := Choice(r.value, questionId, input.text, input.isAnswer)]
    {
      var id := nextChoiceId;
      if fault {
        SkipIdKeepsConsistent(Snapshot(), nextQuestionId, id, nextUserId);
        r := Raised(DatabaseError);
      } else {
        var instance := Choice(id, questionId, input.text, input.isAnswer);
        AddChoiceKeepsConsistent(Snapshot(), nextQuestionId, id, nextUserId, instance);
        choices := choices[id := instance];
        r := Returned(id);
      }
      nextChoiceId := id + 1;
    }

    /** Adds the choices to question `questionId`, committing each one on its
        own. An unknown question stores nothing. When the commit of choice
        `k` fails, choices `0..k-1` stay stored, only choice `k` is rolled
        back, and the error propagates. */
    method CreateQuestionChoices(questionId: int, inputs: seq<ChoiceInput>, failAt: Option<nat>)
      returns (r: Outcome<(bool, string)>)
      requires Valid()
      modifies this
      ensures Valid()
      ensures questions == old(questions) && users == old(users) && answers == old(answers)
      ensures nextQuestionId == old(nextQuestionId) && nextUserId == old(nextUserId)
      ensures questionId !in old(questions) ==>
        r == Returned((false, INVALID_QUESTION_ID)) && choices == old(choices) && nextChoiceId == old(nextChoiceId)
      ensures questionId in old(questions) ==>
        var n := StoredCount(|inputs|, failAt);
        && choices == old(choices) + Appended(old(nextChoiceId), questionId, inputs[..n])
        && (n == |inputs| ==> r == Returned((true, "")) && nextChoiceId == old(nextChoiceId) + n)
        && (n < |inputs| ==> r == Raised(DatabaseError) && nextChoiceId == old(nextChoiceId) + n + 1)
    {
      if questionId !in questions {
        return Returned((false, INVALID_QUESTION_ID));
      }
      var i := 0;
      while i < |inputs|
        invariant 0 <= i <= |inputs|
        invariant failAt.Some? ==> i <= failAt.value
        invariant Valid() && questionId in questions
        invariant questions == old(questions) && users == old(users) && answers == old(answers)
        invariant nextQuestionId == old(nextQuestionId) && nextUserId == old(nextUserId)
        invariant nextChoiceId == old(nextChoiceId) + i
        invariant choices == old(choices) + Appended(old(nextChoiceId), questionId, inputs[..i])
      {
        var committed := CommitChoice(questionId, inputs[i], failAt == Some(i));
        if committed.Raised? {
          assert StoredCount(|inputs|, failAt) == i;
          return Raised(committed.error);
        }
        AppendedStep(old(choices), old(nextChoiceId), questionId, inputs, i);
        i := i + 1;
      }
      assert inputs[..i] == inputs;
      assert StoredCount(|inputs|, failAt) == i;
      return Returned((true, ""));
    }
  }

  /** `read_question`: the question with primary key `pk` with its choices,
      or None when there is none. */
  function ReadQuestion(t: Tables, pk: int): (r: Option<Listed>)
    ensures r.Some? <==> pk in t.questions
    ensures r.Some? ==> r.value.question == t.questions[pk]
    ensures r.Some? ==> forall c :: c in r.value.choices <==> c in t.choices.Values && c.questionId == pk
  {
    if pk in t.questions then Some(Listed(t.questions[pk], ChoicesOf(t.choices, pk))) else None
  }

  /** What a listing shows for a row is what `read_question` returns for its id. */
  lemma ListedRowIsReadable(t: Tables, scan: seq<Question>, p: ListParams, category: Option<string>, i: int)
    requires IsScanOf(scan, t.questions)
    requires ListQuestions(t, scan, p, category).Returned?
    requires 0 <= i < |ListQuestions(t, scan, p, category).value|
    ensures var l := ListQuestions(t, scan, p, category).value[i];
      ReadQuestion(t, l.question.id) == Some(l)
  {
    var r := ListQuestions(t, scan, p, category).value;
    RunListsStoredRows(t, scan, p, AnySubdomain);
    assert r[i] in r;
  }

  /** `list_questions` of the services: the same statement, but an unset
      subdomain restricts nothing. `category` is accepted and ignored. */
  function ListQuestions(t: Tables, scan: seq<Question>, p: ListParams, category: Option<string>): (r: Outcome<seq<Listed>>)
    ensures r.Raised? <==> BadOrderBy(p) || p.limit < 0 || p.offset < 0
    ensures r.Returned? ==> forall i | 0 <= i < |r.value| ::
      var q := r.value[i].question;
      && q in scan
      && (HasSubdomain(p) ==> q.subdomain == p.subdomain.value)
      && (p.level.Some? ==> q.level == p.level.value)
      && r.value[i].choices == ChoicesOf(t.choices, q.id)
    ensures r.Returned? && p.limit > 0 ==> |r.value| <= p.limit
    ensures r.Returned? && Ordered(p) ==> Sorted(Questions(r.value), ParseColumn(p.orderBy).value, p.direction.dir)
    ensures r.Returned? ==> Questions(r.value) == Select(scan, p, AnySubdomain)
  {
    RunSound(t, scan, p, AnySubdomain);
    if !BadOrderBy(p) && p.limit >= 0 && p.offset >= 0 then
      LoadRows(Select(scan, p, AnySubdomain), t.choices);
      Run(t, scan, p, AnySubdomain)
    else
      Run(t, scan, p, AnySubdomain)
  }

  /** With no subdomain, no level, no LIMIT and no OFFSET, every stored
      question is listed, whatever its subdomain. */
  lemma ListQuestionsUnrestricted(t: Tables, scan: seq<Question>, p: ListParams, category: Option<string>)
    requires IsScanOf(scan, t.questions)
    requires !HasSubdomain(p) && p.level.None?
    requires !BadOrderBy(p) && p.limit == 0 && p.offset == 0
    ensures ListQuestions(t, scan, p, category).Returned?
    ensures forall id | id in t.questions :: t.questions[id] in Questions(ListQuestions(t, scan, p, category).value)
  {
    RunListsEveryMatchingRow(t, scan, p, AnySubdomain);
    forall id | id in t.questions ensures Matches(t.questions[id], WhereOf(p, AnySubdomain)) {
    }
  }

  /** When a subdomain is given, both listings return the same rows. */
  lemma ListingsAgreeOnSubdomain(t: Tables, scan: seq<Question>, p: ListParams, category: Option<string>)
    requires HasSubdomain(p)
    ensures ListQuestions(t, scan, p, category) == Run(t, scan, p, DefaultSubdomains)
  {
    assert WhereOf(p, AnySubdomain) == WhereOf(p, DefaultSubdomains);
    assert Arranged(scan, Unpaged(p), AnySubdomain) == Arranged(scan, Unpaged(p), DefaultSubdomains);
  }

  /** The category argument has no effect. */
  lemma CategoryIgnored(t: Tables, scan: seq<Question>, p: ListParams, c1: Option<string>, c2: Option<string>)
    ensures ListQuestions(t, scan, p, c1) == ListQuestions(t, scan, p, c2)
  {
  }
}
