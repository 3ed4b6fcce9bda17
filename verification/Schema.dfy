/** The relational schema: rows, tables, and the constraints PostgreSQL enforces on them.
    A table is a map from primary key to row. */
module Schema {
  import opened SandboxResult

  datatype Option<+T> = None | Some(value: T)
  datatype Result<+T, +E> = Success(value: T) | Failure(error: E)

  type Id = nat
  type UserId = nat
  type Time = int

  // A row of a content table whose parent is referenced ON DELETE CASCADE.
  datatype Child<+T> = Child(parent: Id, value: T)

  datatype Lesson = Lesson(slug: string, position: int, isPublished: bool)
  // A lesson_translation or exercise_translation row; markdown is body_md or statement_md.
  datatype Translation = Translation(locale: string, title: string, markdown: string)
  datatype Exercise = Exercise(slug: string, starterCode: string, solutionCode: Option<string>,
                               solutionModule: string, position: int)
  datatype TestFile = TestFile(filename: string, content: string, isHidden: bool, position: int)

  datatype Status = Pending | Passed | Failed | Error | Timeout

  datatype Submission = Submission(userId: UserId, exerciseId: Id, code: string, status: Status,
                                   result: Option<TestRunResult>)

  datatype Progress = Progress(userId: UserId, exerciseId: Id, isSolved: bool, attempts: int,
                               lastSubmissionId: Option<Id>, solvedAt: Option<Time>, updatedAt: Time)

  // nextId stands for the primary-key sequences: it only ever grows.
  datatype Database = Database(
    lessons: map<Id, Lesson>,
    lessonTexts: map<Id, Child<Translation>>,
    exercises: map<Id, Child<Exercise>>,
    exerciseTexts: map<Id, Child<Translation>>,
    tests: map<Id, Child<TestFile>>,
    submissions: map<Id, Submission>,
    progress: map<Id, Progress>,
    nextId: Id)

  predicate IdsBelow<R>(table: map<Id, R>, n: Id) {
    forall id | id in table :: id < n
  }

  predicate ParentsIn<T, R>(table: map<Id, Child<T>>, parents: map<Id, R>) {
    forall id | id in table :: table[id].parent in parents
  }

  // uq_progress_user_exercise
  ghost predicate UniqueRows(table: map<Id, Progress>) {
    forall p, q | p in table && q in table && table[p].userId == table[q].userId
                  && table[p].exerciseId == table[q].exerciseId :: p == q
  }

  ghost predicate UniqueProgress(db: Database) {
    UniqueRows(db.progress)
  }

  ghost predicate UniqueSlugs(db: Database) {
    forall l, m | l in db.lessons && m in db.lessons && db.lessons[l].slug == db.lessons[m].slug :: l == m
  }

  // uq_lesson_translation_locale, uq_exercise_translation_locale
  ghost predicate UniqueLocales(table: map<Id, Child<Translation>>) {
    forall s, t | s in table && t in table && table[s].parent == table[t].parent
                  && table[s].value.locale == table[t].value.locale :: s == t
  }

  // Keys, references and unique constraints of the content tables.
  ghost predicate ContentTables(db: Database) {
    && IdsBelow(db.lessons, db.nextId) && UniqueSlugs(db)
    && UniqueLocales(db.lessonTexts) && UniqueLocales(db.exerciseTexts)
    && IdsBelow(db.lessonTexts, db.nextId) && ParentsIn(db.lessonTexts, db.lessons)
    && IdsBelow(db.exercises, db.nextId) && ParentsIn(db.exercises, db.lessons)
    && IdsBelow(db.exerciseTexts, db.nextId) && ParentsIn(db.exerciseTexts, db.exercises)
    && IdsBelow(db.tests, db.nextId) && ParentsIn(db.tests, db.exercises)
  }

  // The same of the tables written at run time.
  ghost predicate UserTables(db: Database) {
    && IdsBelow(db.submissions, db.nextId) && IdsBelow(db.progress, db.nextId) && UniqueProgress(db)
    && (forall s | s in db.submissions :: db.submissions[s].exerciseId in db.exercises)
    && (forall p | p in db.progress :: RowReferences(db, db.progress[p]))
  }

  predicate RowReferences(db: Database, row: Progress) {
    row.exerciseId in db.exercises
    && (row.lastSubmissionId.Some? ==> row.lastSubmissionId.value in db.submissions)
  }

  ghost predicate Valid(db: Database) {
    ContentTables(db) && UserTables(db)
  }

  lemma {:induction false} SameContent(a: Database, b: Database)
    requires ContentTables(a) && SameCurriculum(a, b) && a.nextId <= b.nextId
    ensures ContentTables(b)
  {}

  // Everything a submission never writes.
  predicate SameCurriculum(a: Database, b: Database) {
    a.lessons == b.lessons && a.exercises == b.exercises && a.tests == b.tests
    && a.lessonTexts == b.lessonTexts && a.exerciseTexts == b.exerciseTexts
  }
}

/** clients/sandbox_result.py */
module SandboxResult {
  datatype TestOutcome = PassedTest | FailedTest | ErrorTest
  datatype TestResult = TestResult(name: string, outcome: TestOutcome, message: string)
  datatype TestRunResult = TestRunResult(
    passed: bool, total: nat, passedCount: nat, failedCount: nat, tests: seq<TestResult>,
    stdout: string, stderr: string, runnerError: string)
}
