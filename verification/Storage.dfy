/** The storage facade as the requests use it: one transaction at a time over the tables
    (storage/_submissions.py, storage/_progress.py, seed.py, and the controller that drives them). */
module Storage {
  import opened Schema
  import opened SandboxResult
  import opened Curriculum
  import opened Progression
  import opened Grading
  import opened Locales
  import opened Content
  import opened Ingest

  class Store {
    var lessons: map<Id, Lesson>
    var lessonTexts: map<Id, Child<Translation>>
    var exercises: map<Id, Child<Exercise>>
    var exerciseTexts: map<Id, Child<Translation>>
    var tests: map<Id, Child<TestFile>>
    var submissions: map<Id, Submission>
    var progress: map<Id, Progress>
    var nextId: Id

    function Snapshot(): Database
      reads this
    {
      Database(lessons, lessonTexts, exercises, exerciseTexts, tests, submissions, progress, nextId)
    }

    // Put the tables into a given state.
    method Restore(db: Database)
      modifies this
      ensures Snapshot() == db
    {
      lessons, lessonTexts, exercises, exerciseTexts := db.lessons, db.lessonTexts, db.exercises, db.exerciseTexts;
      tests, submissions, progress, nextId := db.tests, db.submissions, db.progress, db.nextId;
    }

    // Sequences are not transactional: keys drawn before a rollback stay drawn.
    method Rollback(db: Database)
      modifies this
      ensures Snapshot() == db.(nextId := old(nextId))
    {
      Restore(db.(nextId := nextId));
    }

    // ---- submissions and progress ------------------------------------------------------------

    method CreatePendingSubmission(user: UserId, e: Id, code: string) returns (sub: Id)
      modifies this`submissions, this`nextId
      ensures sub == old(nextId) && nextId == sub + 1
      ensures submissions == old(submissions)[sub := Submission(user, e, code, Pending, None)]
    {
      sub := nextId;
      submissions := submissions[sub := Submission(user, e, code, Pending, None)];
      nextId := nextId + 1;
    }

    method FinalizeSubmission(sub: Id, status: Status, result: TestRunResult)
      requires sub in submissions
      modifies this`submissions
      ensures submissions == old(submissions)[sub := old(submissions)[sub].(status := status, result := Some(result))]
    {
      submissions := submissions[sub := submissions[sub].(status := status, result := Some(result))];
    }

    method GetProgress(user: UserId, e: Id) returns (row: Option<Id>)
      requires UniqueRows(progress)
      ensures row == RowOf(progress, user, e)
    {
      var matching := set p | p in progress && progress[p].userId == user && progress[p].exerciseId == e;
      if matching == {} {
        assert forall p | p in progress :: p !in matching;
        return None;
      }
      var p :| p in matching;
      return Some(p);
    }

    method RecordAttempt(user: UserId, e: Id, sub: Id, solved: bool, now: Time)
      requires UniqueRows(progress)
      modifies this`progress, this`nextId
      ensures Snapshot() == Grading.RecordAttempt(old(Snapshot()), user, e, sub, solved, now)
    {
      var found := GetProgress(user, e);
      var row := if found.Some? then progress[found.value] else Progress(user, e, false, 0, None, None, now);
      row := row.(attempts := row.attempts + 1, lastSubmissionId := Some(sub), updatedAt := now);
      if solved && !row.isSolved {
        row := row.(isSolved := true, solvedAt := Some(now));
      }
      if found.Some? {
        progress := progress[found.value := row];
      } else {
        progress := progress[nextId := row];
        nextId := nextId + 1;
      }
    }

    // The lock shared by submission, lesson view and reveal; `order` is the listing the query returns.
    method IsLocked(user: UserId, order: seq<Id>, lesson: Id) returns (locked: bool)
      ensures locked == Locked(Snapshot(), user, order, lesson)
    {
      var states := ComputeStates(order, CountsByLesson(Snapshot(), user));
      var state := FindState(states, lesson);
      locked := state.Some? && !state.value.isUnlocked;
    }

    // r.result is the sandbox's answer.
    method SubmitSolution(r: Request, order: seq<Id>) returns (answer: Answer)
      requires Valid(Snapshot())
      modifies this`submissions, this`progress, this`nextId
      ensures (Snapshot(), answer) == Submit(old(Snapshot()), order, r)
      ensures Valid(Snapshot())
    {
      hide Locked, ContentTables, StatusFromResult, Record;
      SubmitKeepsConstraints(Snapshot(), order, r);
      if r.exercise !in exercises { return NotFound; }
      var locked := IsLocked(r.user, order, exercises[r.exercise].parent);
      if locked { return Forbidden; }
      var sub := CreatePendingSubmission(r.user, r.exercise, r.code);
      var status := StatusFromResult(r.result);
      FinalizeSubmission(sub, status, r.result);
      assert Snapshot() == StoreSubmission(old(Snapshot()), r);
      if r.result.runnerError != "" { return Graded(sub, status, false); }
      RecordAttempt(r.user, r.exercise, sub, status == Passed, r.at);
      return Graded(sub, status, status == Passed);
    }

    // ---- ingest ---------------------------------------------------------------------------------

    method InsertLessonTexts(lesson: Id, title: map<string, string>, body: map<string, string>)
      requires Filled(title) && Filled(body)
      modifies this`lessonTexts, this`nextId
      ensures Snapshot() == AddLessonTexts(old(Snapshot()), lesson, TextRows(title, body, |SUPPORTED_LOCALES|))
    {
      for i := 0 to |SUPPORTED_LOCALES|
        invariant |TextRows(title, body, i)| == i
        invariant Snapshot() == AddLessonTexts(old(Snapshot()), lesson, TextRows(title, body, i))
      {
        var locale := SUPPORTED_LOCALES[i];
        var row := Translation(locale, title[locale], body[locale]);
        AppendOne(old(lessonTexts), old(nextId), lesson, TextRows(title, body, i), row);
        lessonTexts := lessonTexts[nextId := Child(lesson, row)];
        nextId := nextId + 1;
      }
    }

    method InsertExerciseTexts(e: Id, title: map<string, string>, statement: map<string, string>)
      requires Filled(title) && Filled(statement)
      modifies this`exerciseTexts, this`nextId
      ensures Snapshot() == AddExerciseTexts(old(Snapshot()), e, TextRows(title, statement, |SUPPORTED_LOCALES|))
    {
      for i := 0 to |SUPPORTED_LOCALES|
        invariant |TextRows(title, statement, i)| == i
        invariant Snapshot() == AddExerciseTexts(old(Snapshot()), e, TextRows(title, statement, i))
      {
        var locale := SUPPORTED_LOCALES[i];
        var row := Translation(locale, title[locale], statement[locale]);
        AppendOne(old(exerciseTexts), old(nextId), e, TextRows(title, statement, i), row);
        exerciseTexts := exerciseTexts[nextId := Child(e, row)];
        nextId := nextId + 1;
      }
    }

    // False: a mandatory key is missing, and the caller rolls back.
    method InsertTests(e: Id, raws: seq<RawTest>) returns (ok: bool)
      modifies this`tests, this`nextId
      ensures old(nextId) <= nextId
      ensures ok <==> forall t | t in raws :: t.filename.Some?
      ensures ok ==> Snapshot() == AddTests(old(Snapshot()), e, TestsOf(raws))
    {
      hide AppendRows, TestOf;
      AppendNone(tests, nextId, e);
      assert TestsOf(raws[..0]) == [];
      for i := 0 to |raws|
        invariant forall k | 0 <= k < i :: raws[k].filename.Some?
        invariant Snapshot() == AddTests(old(Snapshot()), e, TestsOf(raws[..i]))
      {
        if raws[i].filename.None? { return false; }
        assert TestsOf(raws[..i + 1]) == TestsOf(raws[..i]) + [TestOf(raws[i])];
        AppendOne(old(tests), old(nextId), e, TestsOf(raws[..i]), TestOf(raws[i]));
        tests := tests[nextId := Child(e, TestOf(raws[i]))];
        nextId := nextId + 1;
      }
      assert raws[..|raws|] == raws;
      return true;
    }

    method IngestExercise(lesson: Id, raw: RawExercise) returns (ok: bool)
      modifies this`exercises, this`exerciseTexts, this`tests, this`nextId
      ensures old(nextId) <= nextId
      ensures ok <==> WellFormedExercise(raw)
      ensures ok ==> Filled(NormaliseExercise(raw).title) && Filled(NormaliseExercise(raw).statement)
      ensures ok ==> Snapshot() == AddExercise(old(Snapshot()), lesson, NormaliseExercise(raw))
    {
      if raw.slug.None? { return false; }
      var e := nextId;
      exercises := exercises[e := Child(lesson, ExerciseOf(raw))];
      nextId := nextId + 1;
      assert Snapshot() == InsertExercise(old(Snapshot()), lesson, ExerciseOf(raw));
      if raw.title.None? || raw.statementMd.None? { return false; }
      var title, statement := Normalise(raw.title.value), Normalise(raw.statementMd.value);
      NormaliseSettles(raw.title.value);
      NormaliseSettles(raw.statementMd.value);
      InsertExerciseTexts(e, title, statement);
      ok := InsertTests(e, Default(raw.tests, []));
    }

    method Ingest(raw: RawLesson) returns (ok: bool)
      requires ContentTables(Snapshot())
      modifies this
      ensures ok <==> WellFormed(raw)
      ensures ok ==> FilledDoc(NormaliseLesson(raw)) && Snapshot() == IngestDoc(old(Snapshot()), NormaliseLesson(raw))
      ensures ok ==> ContentTables(Snapshot())
                     && Docs(Snapshot()) == Docs(old(Snapshot()))[raw.slug.value := NormaliseLesson(raw)]
      ensures !ok ==> Snapshot() == old(Snapshot()).(nextId := nextId) && old(nextId) <= nextId
    {
      hide Docs, SettledDoc, AddExercises, AddExercise, DeleteLesson, ContentTables, Fill, Settled, Filled;
      if raw.slug.None? { return false; }
      var before := Snapshot();
      DeleteExisting(raw.slug.value);
      if raw.title.None? || raw.bodyMd.None? { Rollback(before); return false; }
      var title, body := Normalise(raw.title.value), Normalise(raw.bodyMd.value);
      NormaliseSettles(raw.title.value);
      NormaliseSettles(raw.bodyMd.value);
      var lesson := nextId;
      lessons := lessons[lesson := Lesson(raw.slug.value, Default(raw.position, 0), Default(raw.isPublished, false))];
      nextId := nextId + 1;
      InsertLessonTexts(lesson, title, body);
      ok := IngestExercises(lesson, Default(raw.exercises, []));
      if !ok { Rollback(before); return false; }
      NormalisedIsSettled(raw);
      IngestIsMapUpdate(before, NormaliseLesson(raw));
    }

    method DeleteExisting(slug: string)
      requires ContentTables(Snapshot())
      modifies this
      ensures Snapshot() == DropSlug(old(Snapshot()), slug) && nextId == old(nextId)
    {
      var existing := set l | l in lessons && lessons[l].slug == slug;
      if existing != {} {
        var l :| l in existing;
        Restore(DeleteLesson(Snapshot(), l));  // one DELETE statement; the cascades are the database's
      } else {
        assert forall l | l in lessons :: l !in existing;
      }
    }

    method IngestExercises(lesson: Id, raws: seq<RawExercise>) returns (ok: bool)
      modifies this`exercises, this`exerciseTexts, this`tests, this`nextId
      ensures old(nextId) <= nextId
      ensures ok <==> forall x | x in raws :: WellFormedExercise(x)
      ensures ok ==> forall x | x in ExerciseDocsOf(raws) :: Filled(x.title) && Filled(x.statement)
      ensures ok ==> Snapshot() == AddExercises(old(Snapshot()), lesson, ExerciseDocsOf(raws))
    {
      hide AddExercise, WellFormedExercise, Filled, NormaliseExercise;
      for i := 0 to |raws|
        invariant old(nextId) <= nextId
        invariant forall k | 0 <= k < i :: WellFormedExercise(raws[k])
        invariant forall x | x in ExerciseDocsOf(raws[..i]) :: Filled(x.title) && Filled(x.statement)
        invariant Snapshot() == AddExercises(old(Snapshot()), lesson, ExerciseDocsOf(raws[..i]))
      {
        ok := IngestExercise(lesson, raws[i]);
        if !ok { return; }
        var done, x := ExerciseDocsOf(raws[..i]), NormaliseExercise(raws[i]);
        assert ExerciseDocsOf(raws[..i + 1]) == done + [x];
        assert (done + [x])[..|done|] == done;
      }
      assert raws[..|raws|] == raws;
      ok := true;
    }
  }

  lemma {:induction false} AppendNone<T>(table: map<Id, Child<T>>, n: Id, parent: Id)
    ensures AppendRows(table, n, parent, []) == table
  {}

  lemma {:induction false} AppendOne<T>(table: map<Id, Child<T>>, n: Id, parent: Id, values: seq<T>, value: T)
    ensures AppendRows(table, n, parent, values + [value])
            == AppendRows(table, n, parent, values)[n + |values| := Child(parent, value)]
  {
    assert (values + [value])[..|values|] == values;
  }
}
