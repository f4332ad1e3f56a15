/** The enrollment handler `POST /users/:userId/quizes/:quizId`: look up the
    user, then the quiz; unless the user already holds the quiz, add the quiz id
    to the user's `quizIds` and set the quiz's `userCount` to the value read
    plus one, as two independent updates. */
module Enrollment {
  import opened Documents
  import opened Repository
  import Schemas

  /** Whether each store call of one request fails. */
  datatype Faults = Faults(
    userRead: bool, quizRead: bool,
    userWrite: bool, userReread: bool,
    quizWrite: bool, quizReread: bool)

  const NoFaults: Faults := Faults(false, false, false, false, false, false)

  /** A JSON response body: one document, or `{quiz, user}`. */
  datatype Body = Fields(doc: Doc) | Pair(quiz: Doc, user: Doc)

  /** A response, or `Aborted` when the handler throws (the exception is passed
      on by the request wrapper and no body of the handler's is sent). */
  datatype Response = Reply(status: int, body: Body) | Aborted

  datatype State = State(users: Coll, quizzes: Coll)

  datatype Outcome = Outcome(state: State, response: Response)

  const HasQuizMessage: Doc := map["data" := Str("User has that Quiz")]

  /** The write to the user: `{ quizIds: arrayUnion(quiz.data.id) }`, where
      `quiz.data.id` is the requested quiz id. */
  function UserPatch(quizId: string): (p: Patch)
    ensures p.Keys == {"quizIds"}
    ensures forall d :: Member(Merge(d, p), quizId)
  {
    map["quizIds" := Union(quizId)]
  }

  /** The write to the quiz: `{ userCount: quiz.data.userCount + 1 }`. */
  function QuizPatch(quizData: Doc): (p: Patch)
    ensures p.Keys == {"userCount"} && p["userCount"].Put?
    ensures "userCount" in quizData && quizData["userCount"].Num? ==>
              p["userCount"].v == Num(quizData["userCount"].n + 1)
  {
    map["userCount" := Put(PlusOne(Field(quizData, "userCount")))]
  }

  /** The handler's effect on the two collections and its response: every
      reply has status 200, 404 or 500; no document is created or deleted; and
      the collections change only when the reply is 200 with `{quiz, user}`. */
  function Enroll(st: State, userId: string, quizId: string, f: Faults): (o: Outcome)
    ensures o.response.Reply? ==> o.response.status in {200, 404, 500}
    ensures o.state.users.Keys == st.users.Keys && o.state.quizzes.Keys == st.quizzes.Keys
    ensures o.state != st ==> o.response.Reply? && o.response.status == 200 && o.response.body.Pair?
  {
    var user := Get(st.users, userId, f.userRead);
    if user.status != 200 then
      Outcome(st, Reply(user.status, Fields(user.data)))
    else
      var quiz := Get(st.quizzes, quizId, f.quizRead);
      var has := Includes(Field(user.data, "quizIds"), quizId);
      if has.None? then
        Outcome(st, Aborted)
      else if quiz.status == 200 && !has.value then
        var u := Update(st.users, userId, UserPatch(quizId), f.userWrite, f.userReread);
        var q := Update(st.quizzes, quizId, QuizPatch(quiz.data), f.quizWrite, f.quizReread);
        Outcome(State(u.coll, q.coll), Reply(200, Pair(q.result.data, u.result.data)))
      else
        Outcome(st, Reply(quiz.status, Fields(if has.value then HasQuizMessage else quiz.data)))
  }

  /** The handler itself, running against the store. */
  method EnrollUser(s: Store, userId: string, quizId: string, f: Faults) returns (resp: Response)
    modifies s
    ensures Outcome(State(s.users, s.quizzes), resp) == Enroll(State(old(s.users), old(s.quizzes)), userId, quizId, f)
  {
    var user := s.GetDocument(Users, userId, f.userRead);
    if user.status != 200 {
      return Reply(user.status, Fields(user.data));
    }
    var quiz := s.GetDocument(Quizzes, quizId, f.quizRead);
    var has := Includes(Field(user.data, "quizIds"), quizId);
    if has.None? {
      return Aborted;
    }
    if quiz.status == 200 && !has.value {
      var updatedUser := s.UpdateDocument(Users, userId, UserPatch(quizId), f.userWrite, f.userReread);
      var updatedQuiz := s.UpdateDocument(Quizzes, quizId, QuizPatch(quiz.data), f.quizWrite, f.quizReread);
      resp := Reply(200, Pair(updatedQuiz.data, updatedUser.data));
    } else {
      resp := Reply(quiz.status, Fields(if has.value then HasQuizMessage else quiz.data));
    }
  }

  /** Whether the user document lists the quiz in an array `quizIds`. */
  predicate Member(d: Doc, quizId: string)
  {
    "quizIds" in d && d["quizIds"].StrList? && quizId in d["quizIds"].items
  }

  /** A user as the user schema stores it: `quizIds` is an array. */
  predicate UserWellFormed(d: Doc)
  {
    "quizIds" in d && d["quizIds"].StrList?
  }

  /** Success: with both documents present, the user not yet enrolled and no
      store call failing, the quiz id is appended to `quizIds`, `userCount` is
      the value read plus one, nothing else in either collection changes, and
      the reply is 200 with both re-read documents. */
  lemma EnrollSucceeds(st: State, userId: string, quizId: string, l: seq<string>, count: Option<Value>)
    requires userId in st.users && quizId in st.quizzes
    requires Field(st.users[userId], "quizIds") == Some(StrList(l)) && quizId !in l
    requires Field(st.quizzes[quizId], "userCount") == count
    ensures var o := Enroll(st, userId, quizId, NoFaults);
            var user := st.users[userId]["quizIds" := StrList(l + [quizId])];
            var quiz := st.quizzes[quizId]["userCount" := PlusOne(count)];
            && o.state.users == st.users[userId := user]
            && o.state.quizzes == st.quizzes[quizId := quiz]
            && o.response == Reply(200, Pair(WithId(quiz, quizId), WithId(user, userId)))
  {
    var user := st.users[userId]["quizIds" := StrList(l + [quizId])];
    var quiz := st.quizzes[quizId]["userCount" := PlusOne(count)];
    assert Merge(st.users[userId], UserPatch(quizId)) == user;
    assert Field(WithId(st.quizzes[quizId], quizId), "userCount") == count;
    assert Merge(st.quizzes[quizId], QuizPatch(WithId(st.quizzes[quizId], quizId))) == quiz;
  }

  /** With a numeric counter, success adds exactly one to it. */
  lemma EnrollIncrementsCount(st: State, userId: string, quizId: string, l: seq<string>, n: int)
    requires userId in st.users && quizId in st.quizzes
    requires Field(st.users[userId], "quizIds") == Some(StrList(l)) && quizId !in l
    requires Field(st.quizzes[quizId], "userCount") == Some(Num(n))
    ensures Enroll(st, userId, quizId, NoFaults).state.quizzes[quizId]["userCount"] == Num(n + 1)
  {
    EnrollSucceeds(st, userId, quizId, l, Some(Num(n)));
  }

  /** Once both lookups succeed and the user is not enrolled, the reply is 200
      even if an update fails (its half of the body is then `{}`). */
  lemma EnrollRepliesOkDespiteWriteFaults(st: State, userId: string, quizId: string, f: Faults)
    requires !f.userRead && !f.quizRead
    requires userId in st.users && quizId in st.quizzes
    requires Includes(Field(st.users[userId], "quizIds"), quizId) == Some(false)
    ensures var o := Enroll(st, userId, quizId, f);
            && o.response.Reply? && o.response.status == 200 && o.response.body.Pair?
            && (f.userWrite || f.userReread ==> o.response.body.user == map[])
            && (f.quizWrite || f.quizReread ==> o.response.body.quiz == map[])
  {
    assert Field(WithId(st.users[userId], userId), "quizIds") == Field(st.users[userId], "quizIds");
  }

  /** Already enrolled: nothing is written, and the reply carries the quiz
      lookup's status (200 when the quiz exists) with "User has that Quiz". */
  lemma EnrollAlreadyEnrolled(st: State, userId: string, quizId: string, f: Faults)
    requires !f.userRead && userId in st.users
    requires Includes(Field(st.users[userId], "quizIds"), quizId) == Some(true)
    ensures var o := Enroll(st, userId, quizId, f);
            && o.state == st
            && o.response == Reply(Get(st.quizzes, quizId, f.quizRead).status, Fields(HasQuizMessage))
  {
    assert Field(WithId(st.users[userId], userId), "quizIds") == Field(st.users[userId], "quizIds");
  }

  /** Enrolling the same pair twice: the second request changes nothing and
      replies 200 "User has that Quiz", so `userCount` stays one above its
      first value and `quizIds` holds the quiz id exactly once. */
  lemma {:induction false} EnrollTwice(st: State, userId: string, quizId: string, l: seq<string>, n: int)
    requires userId in st.users && quizId in st.quizzes
    requires Field(st.users[userId], "quizIds") == Some(StrList(l)) && quizId !in l
    requires Field(st.quizzes[quizId], "userCount") == Some(Num(n))
    ensures var once := Enroll(st, userId, quizId, NoFaults);
            var twice := Enroll(once.state, userId, quizId, NoFaults);
            && twice.state == once.state
            && twice.response == Reply(200, Fields(HasQuizMessage))
            && twice.state.quizzes[quizId]["userCount"] == Num(n + 1)
            && twice.state.users[userId]["quizIds"] == StrList(l + [quizId])
            && Count(twice.state.users[userId]["quizIds"].items, quizId) == 1
  {
    EnrollSucceeds(st, userId, quizId, l, Some(Num(n)));
    var once := Enroll(st, userId, quizId, NoFaults);
    var user := once.state.users[userId];
    assert Field(user, "quizIds") == Some(StrList(l + [quizId]));
    EnrollAlreadyEnrolled(once.state, userId, quizId, NoFaults);
    CountAppend(l, quizId, quizId);
  }

  /** A failed user lookup ends the request: nothing is written, the reply is
      the lookup's status with `{}`, and the quiz is never read (the reply does
      not depend on the quizzes or on the later store calls). */
  lemma EnrollUserLookupFails(st: State, quizzes2: Coll, userId: string, quizId: string, f: Faults, f2: Faults)
    requires f.userRead || userId !in st.users
    requires f2.userRead == f.userRead
    ensures var o := Enroll(st, userId, quizId, f);
            && o.state == st
            && o.response == Reply(if f.userRead then 500 else 404, Fields(map[]))
            && Enroll(State(st.users, quizzes2), userId, quizId, f2).response == o.response
  {
  }

  /** A failed quiz lookup for a user not enrolled: nothing is written and the
      reply is the quiz lookup's status (404 or 500) with `{}`. */
  lemma EnrollQuizLookupFails(st: State, userId: string, quizId: string, f: Faults)
    requires !f.userRead && userId in st.users
    requires Includes(Field(st.users[userId], "quizIds"), quizId) == Some(false)
    requires f.quizRead || quizId !in st.quizzes
    ensures var o := Enroll(st, userId, quizId, f);
            && o.state == st
            && o.response == Reply(if f.quizRead then 500 else 404, Fields(map[]))
  {
    assert Field(WithId(st.users[userId], userId), "quizIds") == Field(st.users[userId], "quizIds");
  }

  /** The handler throws exactly when the user exists and its `quizIds` is
      neither an array nor a string; then nothing is written. */
  lemma EnrollAbortsOnlyOnMalformedUser(st: State, userId: string, quizId: string, f: Faults)
    ensures var o := Enroll(st, userId, quizId, f);
            && (o.response == Aborted <==>
                  !f.userRead && userId in st.users
                  && Includes(Field(st.users[userId], "quizIds"), quizId).None?)
            && (o.response == Aborted ==> o.state == st)
  {
    if !f.userRead && userId in st.users {
      assert Field(WithId(st.users[userId], userId), "quizIds") == Field(st.users[userId], "quizIds");
    }
  }

  /** Users created through the user schema always have an array `quizIds`,
      so enrolling them never throws. */
  lemma SchemaUsersNeverAbort(st: State, userId: string, quizId: string, f: Faults, body: Doc)
    requires Schemas.Validate(Schemas.UserSchema(), body).Some?
    requires userId in st.users && st.users[userId] == Schemas.Validate(Schemas.UserSchema(), body).value
    ensures UserWellFormed(st.users[userId])
    ensures Enroll(st, userId, quizId, f).response != Aborted
  {
    Schemas.UserRules(body);
    EnrollAbortsOnlyOnMalformedUser(st, userId, quizId, f);
  }

  /** Whether the request reaches the two updates: both lookups succeed and the
      user's `quizIds` does not include the quiz id. */
  predicate ReachesWrites(st: State, userId: string, quizId: string, f: Faults)
  {
    && !f.userRead && userId in st.users
    && !f.quizRead && quizId in st.quizzes
    && Includes(Field(st.users[userId], "quizIds"), quizId) == Some(false)
  }

  /** The collections after a request: the two updates when it reaches them,
      the old collections otherwise. */
  lemma EnrollState(st: State, userId: string, quizId: string, f: Faults)
    ensures Enroll(st, userId, quizId, f).state ==
              if ReachesWrites(st, userId, quizId, f) then
                State(Update(st.users, userId, UserPatch(quizId), f.userWrite, f.userReread).coll,
                      Update(st.quizzes, quizId, QuizPatch(WithId(st.quizzes[quizId], quizId)), f.quizWrite, f.quizReread).coll)
              else st
  {
    if !f.userRead && userId in st.users {
      assert Field(WithId(st.users[userId], userId), "quizIds") == Field(st.users[userId], "quizIds");
    }
  }

  /** Nothing else changes: whatever fails, both collections keep their ids,
      every other user and quiz is untouched, the user can only gain the quiz id
      in `quizIds`, and only the quiz's `userCount` can change. */
  lemma EnrollFrame(st: State, userId: string, quizId: string, f: Faults)
    ensures var o := Enroll(st, userId, quizId, f);
            && o.state.users.Keys == st.users.Keys
            && o.state.quizzes.Keys == st.quizzes.Keys
            && (forall u :: u in st.users && u != userId ==> o.state.users[u] == st.users[u])
            && (forall q :: q in st.quizzes && q != quizId ==> o.state.quizzes[q] == st.quizzes[q])
            && (userId in st.users ==>
                  var before, after := st.users[userId], o.state.users[userId];
                  && after.Keys <= before.Keys + {"quizIds"}
                  && (forall k :: k in before && k != "quizIds" ==> k in after && after[k] == before[k])
                  && (after != before ==> Member(after, quizId))
                  && ("quizIds" in before && before["quizIds"].StrList? ==>
                        || after["quizIds"] == before["quizIds"]
                        || after["quizIds"] == StrList(before["quizIds"].items + [quizId]))
                  && (!("quizIds" in before && before["quizIds"].StrList?) && after != before ==>
                        after["quizIds"] == StrList([quizId])))
            && (quizId in st.quizzes ==>
                  var before, after := st.quizzes[quizId], o.state.quizzes[quizId];
                  && after.Keys <= before.Keys + {"userCount"}
                  && (forall k :: k in before && k != "userCount" ==> k in after && after[k] == before[k]))
  {
    EnrollState(st, userId, quizId, f);
    if ReachesWrites(st, userId, quizId, f) {
      MergeOne(st.users[userId], "quizIds", Union(quizId));
      var quiz := st.quizzes[quizId];
      MergeOne(quiz, "userCount", Put(PlusOne(Field(WithId(quiz, quizId), "userCount"))));
    }
  }

  /** The users enrolled in a quiz. */
  function Enrolled(users: Coll, quizId: string): set<string>
  {
    set u | u in users && Member(users[u], quizId)
  }

  /** Every quiz's `userCount` is the number of users enrolled in it. */
  predicate CountsConsistent(st: State)
  {
    forall q :: q in st.quizzes ==> Field(st.quizzes[q], "userCount") == Some(Num(|Enrolled(st.users, q)|))
  }

  /** Replacing one user by a document that lists `quizId` in addition to
      what it listed before adds exactly that user to the quiz's enrolled set
      and leaves every other quiz's enrolled set as it was. */
  lemma {:induction false} EnrolledAfterJoin(users: Coll, userId: string, after: Doc, quizId: string)
    requires userId in users && !Member(users[userId], quizId) && Member(after, quizId)
    requires forall q :: q != quizId ==> Member(after, q) == Member(users[userId], q)
    ensures |Enrolled(users[userId := after], quizId)| == |Enrolled(users, quizId)| + 1
    ensures forall q :: q != quizId ==> Enrolled(users[userId := after], q) == Enrolled(users, q)
  {
    var users' := users[userId := after];
    assert Enrolled(users', quizId) == Enrolled(users, quizId) + {userId};
    forall q | q != quizId
      ensures Enrolled(users', q) == Enrolled(users, q)
    {
      assert Member(after, q) == Member(users[userId], q);
    }
  }

  /** The two writes of an enrollment, applied to a consistent state, keep it
      consistent. */
  lemma {:induction false} CountsAfterWrites(st: State, userId: string, quizId: string)
    requires CountsConsistent(st)
    requires ReachesWrites(st, userId, quizId, NoFaults)
    ensures var quiz := st.quizzes[quizId];
            CountsConsistent(State(
              st.users[userId := Merge(st.users[userId], UserPatch(quizId))],
              st.quizzes[quizId := Merge(quiz, QuizPatch(WithId(quiz, quizId)))]))
  {
    var before := st.users[userId];
    var after := Merge(before, UserPatch(quizId));
    MergeOne(before, "quizIds", Union(quizId));
    forall q | q != quizId
      ensures Member(after, q) == Member(before, q)
    {
    }
    EnrolledAfterJoin(st.users, userId, after, quizId);
    var quiz := st.quizzes[quizId];
    assert Field(WithId(quiz, quizId), "userCount") == Field(quiz, "userCount");
    var quiz' := Merge(quiz, QuizPatch(WithId(quiz, quizId)));
    MergeOne(quiz, "userCount", Put(PlusOne(Field(quiz, "userCount"))));
    assert Field(quiz', "userCount") == Some(Num(|Enrolled(st.users, quizId)| + 1));
  }

  /** A successful enrollment with no failing store call keeps every quiz's
      `userCount` equal to the number of its enrolled users. */
  lemma {:induction false} EnrollKeepsCounts(st: State, userId: string, quizId: string)
    requires CountsConsistent(st)
    ensures CountsConsistent(Enroll(st, userId, quizId, NoFaults).state)
  {
    EnrollState(st, userId, quizId, NoFaults);
    if ReachesWrites(st, userId, quizId, NoFaults) {
      CountsAfterWrites(st, userId, quizId);
    }
  }

  /** The two updates are not one transaction: when the user update succeeds and
      the quiz update fails, the request still replies 200 and leaves a user
      counted in no `userCount`. */
  lemma PartialWriteBreaksCounts()
    ensures var st := State(
              map["u" := map["name" := Str("Bob"), "quizIds" := StrList([])]],
              map["q" := map["name" := Str("Quiz"), "userCount" := Num(0)]]);
            var o := Enroll(st, "u", "q", NoFaults.(quizWrite := true));
            && CountsConsistent(st)
            && o.response.Reply? && o.response.status == 200
            && !CountsConsistent(o.state)
  {
    var st := State(
      map["u" := map["name" := Str("Bob"), "quizIds" := StrList([])]],
      map["q" := map["name" := Str("Quiz"), "userCount" := Num(0)]]);
    assert Enrolled(st.users, "q") == {};
    var o := Enroll(st, "u", "q", NoFaults.(quizWrite := true));
    assert Field(WithId(st.users["u"], "u"), "quizIds") == Some(StrList([]));
    assert o.state.users["u"]["quizIds"] == StrList(["q"]);
    assert Enrolled(o.state.users, "q") == {"u"};
    assert o.state.quizzes == st.quizzes;
  }
}
