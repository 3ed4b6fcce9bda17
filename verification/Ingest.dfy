/** Lesson ingest (seed.py, _ingest): delete by slug with cascades, then rebuild five tables. */
module Ingest {
  import opened Schema
  import opened Curriculum
  import opened Progression
  import opened Locales
  import opened Content

  // ---- the contract document, as parsed JSON; None is an absent key -----------------------------

  datatype RawTest = RawTest(filename: Option<string>, content: Option<string>, isHidden: Option<bool>,
                             position: Option<int>)
  datatype RawExercise = RawExercise(
    slug: Option<string>, title: Option<Prose>, statementMd: Option<Prose>, starterCode: Option<string>,
    solutionCode: Option<Option<string>>,        // Some(None) is an explicit null
    legacySolutionCode: Option<Option<string>>,
    solutionModule: Option<string>, position: Option<int>, tests: Option<seq<RawTest>>)
  datatype RawLesson = RawLesson(
    slug: Option<string>, title: Option<Prose>, bodyMd: Option<Prose>, position: Option<int>,
    isPublished: Option<bool>, exercises: Option<seq<RawExercise>>)

  function Default<T>(value: Option<T>, default: T): T {
    if value.Some? then value.value else default
  }

  // An explicit null solution_code is not overridden by the legacy key.
  function SolutionCode(raw: RawExercise): Option<string> {
    Default(raw.solutionCode, Default(raw.legacySolutionCode, None))
  }

  predicate WellFormedExercise(raw: RawExercise) {
    raw.slug.Some? && raw.title.Some? && raw.statementMd.Some?
    && forall t | t in Default(raw.tests, []) :: t.filename.Some?
  }

  // The mandatory keys are all there.
  predicate WellFormed(raw: RawLesson) {
    raw.slug.Some? && raw.title.Some? && raw.bodyMd.Some?
    && forall x | x in Default(raw.exercises, []) :: WellFormedExercise(x)
  }

  function TestOf(raw: RawTest): TestFile
    requires raw.filename.Some?
  {
    TestFile(raw.filename.value, Default(raw.content, ""), Default(raw.isHidden, false), Default(raw.position, 0))
  }

  function ExerciseOf(raw: RawExercise): Exercise
    requires raw.slug.Some?
  {
    Exercise(raw.slug.value, Default(raw.starterCode, ""), SolutionCode(raw),
             Default(raw.solutionModule, "solution"), Default(raw.position, 0))
  }

  function TestsOf(raws: seq<RawTest>): seq<TestFile>
    requires forall t | t in raws :: t.filename.Some?
  {
    seq(|raws|, i requires 0 <= i < |raws| => TestOf(raws[i]))
  }

  function NormaliseExercise(raw: RawExercise): ExerciseDoc
    requires WellFormedExercise(raw)
  {
    ExerciseDoc(ExerciseOf(raw), Normalise(raw.title.value), Normalise(raw.statementMd.value),
                TestsOf(Default(raw.tests, [])))
  }

  function ExerciseDocsOf(raws: seq<RawExercise>): seq<ExerciseDoc>
    requires forall x | x in raws :: WellFormedExercise(x)
  {
    seq(|raws|, i requires 0 <= i < |raws| => NormaliseExercise(raws[i]))
  }

  function NormaliseLesson(raw: RawLesson): LessonDoc
    requires WellFormed(raw)
  {
    LessonDoc(raw.slug.value, Default(raw.position, 0), Default(raw.isPublished, false),
              Normalise(raw.title.value), Normalise(raw.bodyMd.value),
              ExerciseDocsOf(Default(raw.exercises, [])))
  }

  // A test file as its document says, absent keys by their defaults.
  predicate TestAsWritten(raw: RawTest, t: TestFile) {
    && raw.filename == Some(t.filename)
    && (match raw.content case Some(text) => t.content == text case None => t.content == "")
    && (match raw.isHidden case Some(hidden) => t.isHidden == hidden case None => !t.isHidden)
    && (match raw.position case Some(n) => t.position == n case None => t.position == 0)
  }

  // The reference solution: an explicit null means none; the legacy key counts only where the canonical is absent.
  predicate SolutionAsWritten(raw: RawExercise, code: Option<string>) {
    match (raw.solutionCode, raw.legacySolutionCode)
    case (Some(value), _) => code == value
    case (None, Some(value)) => code == value
    case (None, None) => code == None
  }

  predicate ExerciseAsWritten(raw: RawExercise, x: ExerciseDoc) {
    && raw.slug == Some(x.core.slug) && SolutionAsWritten(raw, x.core.solutionCode)
    && (match raw.starterCode case Some(code) => x.core.starterCode == code case None => x.core.starterCode == "")
    && (match raw.solutionModule
        case Some(name) => x.core.solutionModule == name case None => x.core.solutionModule == "solution")
    && (match raw.position case Some(n) => x.core.position == n case None => x.core.position == 0)
    && raw.title.Some? && x.title == Normalise(raw.title.value)
    && raw.statementMd.Some? && x.statement == Normalise(raw.statementMd.value)
    && (match raw.tests
        case None => x.tests == []
        case Some(ts) => |x.tests| == |ts| && forall i | 0 <= i < |ts| :: TestAsWritten(ts[i], x.tests[i]))
  }

  predicate LessonAsWritten(raw: RawLesson, d: LessonDoc) {
    && raw.slug == Some(d.slug)
    && (match raw.position case Some(n) => d.position == n case None => d.position == 0)
    && (match raw.isPublished case Some(published) => d.isPublished == published case None => !d.isPublished)
    && raw.title.Some? && d.title == Normalise(raw.title.value)
    && raw.bodyMd.Some? && d.body == Normalise(raw.bodyMd.value)
    && (match raw.exercises
        case None => d.exercises == []
        case Some(xs) => |d.exercises| == |xs| && forall i | 0 <= i < |xs| :: ExerciseAsWritten(xs[i], d.exercises[i]))
  }

  lemma {:induction false} NormalisedTest(raw: RawTest)
    requires raw.filename.Some?
    ensures TestAsWritten(raw, TestOf(raw))
  {}

  lemma {:induction false} NormalisedExercise(raw: RawExercise)
    requires WellFormedExercise(raw)
    ensures ExerciseAsWritten(raw, NormaliseExercise(raw))
  {
    hide TestAsWritten, TestOf, Normalise;
    forall t | t in Default(raw.tests, []) ensures TestAsWritten(t, TestOf(t)) { NormalisedTest(t); }
  }

  lemma {:induction false} NormalisedLesson(raw: RawLesson)
    requires WellFormed(raw)
    ensures LessonAsWritten(raw, NormaliseLesson(raw))
  {
    hide ExerciseAsWritten, NormaliseExercise, Normalise, WellFormedExercise;
    forall x | x in Default(raw.exercises, []) ensures ExerciseAsWritten(x, NormaliseExercise(x)) {
      NormalisedExercise(x);
    }
  }

  // ---- what the statements do to the tables -------------------------------------------------------

  // ON DELETE CASCADE of exercise.id, and ON DELETE SET NULL of progress.last_submission_id.
  function DeleteLesson(db: Database, lesson: Id): Database {
    var gone := ExercisesOf(db, lesson);
    var submissions := map s | s in db.submissions && db.submissions[s].exerciseId !in gone :: db.submissions[s];
    db.(lessons := map l | l in db.lessons && l != lesson :: db.lessons[l],
        lessonTexts := map t | t in db.lessonTexts && db.lessonTexts[t].parent != lesson :: db.lessonTexts[t],
        exercises := map e | e in db.exercises && db.exercises[e].parent != lesson :: db.exercises[e],
        exerciseTexts := map t | t in db.exerciseTexts && db.exerciseTexts[t].parent !in gone :: db.exerciseTexts[t],
        tests := map t | t in db.tests && db.tests[t].parent !in gone :: db.tests[t],
        submissions := submissions,
        progress := map p | p in db.progress && db.progress[p].exerciseId !in gone ::
          var row := db.progress[p];
          if row.lastSubmissionId.Some? && row.lastSubmissionId.value !in submissions
          then row.(lastSubmissionId := None) else row)
  }

  ghost predicate Filled(t: map<string, string>) {
    forall i | 0 <= i < |SUPPORTED_LOCALES| :: SUPPORTED_LOCALES[i] in t
  }

  // The rows of the first n supported locales.
  ghost function TextRows(title: map<string, string>, markdown: map<string, string>, n: nat): seq<Translation>
    requires n <= |SUPPORTED_LOCALES| && Filled(title) && Filled(markdown)
  {
    if n == 0 then []
    else TextRows(title, markdown, n - 1)
         + [Translation(SUPPORTED_LOCALES[n - 1], title[SUPPORTED_LOCALES[n - 1]], markdown[SUPPORTED_LOCALES[n - 1]])]
  }

  function AddLessonTexts(db: Database, lesson: Id, rows: seq<Translation>): Database {
    db.(lessonTexts := AppendRows(db.lessonTexts, db.nextId, lesson, rows), nextId := db.nextId + |rows|)
  }

  function AddExerciseTexts(db: Database, e: Id, rows: seq<Translation>): Database {
    db.(exerciseTexts := AppendRows(db.exerciseTexts, db.nextId, e, rows), nextId := db.nextId + |rows|)
  }

  function AddTests(db: Database, e: Id, tests: seq<TestFile>): Database {
    db.(tests := AppendRows(db.tests, db.nextId, e, tests), nextId := db.nextId + |tests|)
  }

  function InsertExercise(db: Database, lesson: Id, core: Exercise): Database {
    db.(exercises := db.exercises[db.nextId := Child(lesson, core)], nextId := db.nextId + 1)
  }

  ghost function AddExercise(db: Database, lesson: Id, x: ExerciseDoc): Database
    requires Filled(x.title) && Filled(x.statement)
  {
    AddTests(AddExerciseTexts(InsertExercise(db, lesson, x.core), db.nextId,
                              TextRows(x.title, x.statement, |SUPPORTED_LOCALES|)),
             db.nextId, x.tests)
  }

  ghost function AddExercises(db: Database, lesson: Id, xs: seq<ExerciseDoc>): Database
    requires forall x | x in xs :: Filled(x.title) && Filled(x.statement)
  {
    if xs == [] then db else AddExercise(AddExercises(db, lesson, xs[..|xs| - 1]), lesson, xs[|xs| - 1])
  }

  function InsertLesson(db: Database, d: LessonDoc): Database {
    db.(lessons := db.lessons[db.nextId := Lesson(d.slug, d.position, d.isPublished)], nextId := db.nextId + 1)
  }

  ghost predicate FilledDoc(d: LessonDoc) {
    Filled(d.title) && Filled(d.body) && forall x | x in d.exercises :: Filled(x.title) && Filled(x.statement)
  }

  ghost function DropSlug(db: Database, slug: string): Database {
    var existing := LessonBySlug(db, slug);
    if existing.Some? then DeleteLesson(db, existing.value) else db
  }

  ghost function Rebuild(db: Database, d: LessonDoc): Database
    requires FilledDoc(d)
  {
    AddExercises(AddLessonTexts(InsertLesson(db, d), db.nextId, TextRows(d.title, d.body, |SUPPORTED_LOCALES|)),
                 db.nextId, d.exercises)
  }

  ghost function IngestDoc(db: Database, d: LessonDoc): Database
    requires FilledDoc(d)
  {
    Rebuild(DropSlug(db, d.slug), d)
  }

  /** Every well-formed document normalises to settled prose. */
  lemma {:induction false} NormalisedIsSettled(raw: RawLesson)
    requires WellFormed(raw)
    ensures SettledDoc(NormaliseLesson(raw))
  {
    hide Settled, Filled;
    var d, xs := NormaliseLesson(raw), Default(raw.exercises, []);
    NormaliseSettles(raw.title.value);
    NormaliseSettles(raw.bodyMd.value);
    forall x | x in d.exercises
      ensures Settled(x.title) && Settled(x.statement) && Filled(x.title) && Filled(x.statement)
    {
      var i :| 0 <= i < |xs| && xs[i] in xs && x == NormaliseExercise(xs[i]);
      NormaliseSettles(xs[i].title.value);
      NormaliseSettles(xs[i].statementMd.value);
    }
  }

  lemma {:induction false} NormaliseSettles(prose: Prose)
    ensures Settled(Normalise(prose)) && Filled(Normalise(prose))
  {
    hide Fill;
    FillSettles(Raw(prose));
    SettledIsFilled(Normalise(prose));
  }

  // ---- deletion ---------------------------------------------------------------------------------------

  lemma {:induction false} DeleteKeepsContent(db: Database, lesson: Id)
    requires ContentTables(db)
    ensures ContentTables(DeleteLesson(db, lesson))
  {}

  // A row's last submission is one of the same exercise.
  ghost predicate OwnLastSubmission(db: Database) {
    forall p | p in db.progress && db.progress[p].lastSubmissionId.Some? ::
      db.progress[p].lastSubmissionId.value in db.submissions
      && db.submissions[db.progress[p].lastSubmissionId.value].exerciseId == db.progress[p].exerciseId
  }

  // A row whose last submission is one of these exercises' loses the reference, and nothing else.
  function Unlinked(db: Database, gone: set<Id>, row: Progress): Progress {
    var last := row.lastSubmissionId;
    if last.Some? && last.value in db.submissions && db.submissions[last.value].exerciseId in gone
    then row.(lastSubmissionId := None) else row
  }

  function KeptSubmissions(db: Database, gone: set<Id>): map<Id, Submission> {
    map s | s in db.submissions && db.submissions[s].exerciseId !in gone :: db.submissions[s]
  }

  function KeptProgress(db: Database, gone: set<Id>): map<Id, Progress> {
    map p | p in db.progress && db.progress[p].exerciseId !in gone :: Unlinked(db, gone, db.progress[p])
  }

  lemma {:induction false} DeletedRows(db: Database, lesson: Id)
    requires UserTables(db)
    ensures var after, gone := DeleteLesson(db, lesson), ExercisesOf(db, lesson);
            after.submissions == KeptSubmissions(db, gone) && after.progress == KeptProgress(db, gone)
  {
    var after, gone := DeleteLesson(db, lesson), ExercisesOf(db, lesson);
    hide ExercisesOf;
    forall p | p in after.progress ensures after.progress[p] == Unlinked(db, gone, db.progress[p]) {
      assert RowReferences(db, db.progress[p]);
    }
  }

  // User state after a delete: the lesson's own rows go; of the others, only a dangling reference.
  lemma {:induction false} DeleteUserState(db: Database, lesson: Id)
    requires UserTables(db)
    ensures var after, gone := DeleteLesson(db, lesson), ExercisesOf(db, lesson);
            && after.submissions == KeptSubmissions(db, gone) && after.progress == KeptProgress(db, gone)
            && UserTables(after)
  {
    var after := DeleteLesson(db, lesson);
    DeletedRows(db, lesson);
    forall p | p in after.progress ensures RowReferences(after, after.progress[p]) {
      assert RowReferences(db, db.progress[p]);
    }
  }

  // No reference is lost as long as every row's last submission is one of its own exercise.
  lemma {:induction false} OwnSubmissionsStay(db: Database, after: Database, gone: set<Id>)
    requires OwnLastSubmission(db)
    requires after.submissions == KeptSubmissions(db, gone) && after.progress == KeptProgress(db, gone)
    ensures OwnLastSubmission(after)
    ensures after.progress == map p | p in db.progress && db.progress[p].exerciseId !in gone :: db.progress[p]
  {}

  lemma {:induction false} DeleteKeepsLesson(db: Database, lesson: Id, other: Id)
    requires ContentTables(db) && other in db.lessons && other != lesson
    ensures SameLesson(db, DeleteLesson(db, lesson), other)
  {
    var after := DeleteLesson(db, lesson);
    assert ExercisesOf(after, other) == ExercisesOf(db, other);
    forall e | e in ExercisesOf(db, other) ensures SameExercise(db, after, e) {
      assert e !in ExercisesOf(db, lesson);
    }
  }

  // ---- rebuilding ----------------------------------------------------------------------------------------

  lemma {:induction false} AppendKeepsLocales(table: map<Id, Child<Translation>>, n: Id, parent: Id,
                                             rows: seq<Translation>)
    requires IdsBelow(table, n) && UniqueLocales(table)
    requires forall t | t in table :: table[t].parent != parent
    requires forall i, j | 0 <= i < j < |rows| :: rows[i].locale != rows[j].locale
    ensures UniqueLocales(AppendRows(table, n, parent, rows))
  {
    hide AppendRows;
    AppendedKeys(table, n, parent, rows);
    var after := AppendRows(table, n, parent, rows);
    forall s, t | s in after && t in after && after[s].parent == after[t].parent
                  && after[s].value.locale == after[t].value.locale ensures s == t {
      if s !in table && t !in table { assert rows[s - n].locale == rows[t - n].locale; }
    }
  }

  lemma {:induction false} AppendKeepsParents<T, R>(table: map<Id, Child<T>>, n: Id, parent: Id, rows: seq<T>,
                                                   parents: map<Id, R>)
    requires IdsBelow(table, n) && ParentsIn(table, parents) && parent in parents
    ensures ParentsIn(AppendRows(table, n, parent, rows), parents)
  {
    hide AppendRows;
    AppendedKeys(table, n, parent, rows);
  }

  lemma {:induction false} TextRowsAt(title: map<string, string>, markdown: map<string, string>)
    requires Filled(title) && Filled(markdown)
    ensures "en" in title && "ru" in title && "en" in markdown && "ru" in markdown
    ensures TextRows(title, markdown, 2)
            == [Translation("en", title["en"], markdown["en"]), Translation("ru", title["ru"], markdown["ru"])]
  {
    assert SUPPORTED_LOCALES[0] == "en" && SUPPORTED_LOCALES[1] == "ru";
    assert TextRows(title, markdown, 1) == [Translation("en", title["en"], markdown["en"])];
  }

  // The rows written for settled prose read back as that prose.
  lemma {:induction false} TextRowsRead(title: map<string, string>, markdown: map<string, string>)
    requires Settled(title) && Settled(markdown)
    ensures Filled(title) && Filled(markdown)
    ensures var rows := TextRows(title, markdown, 2);
            Fill(Titles(rows)) == title && Fill(Markdowns(rows)) == markdown
  {
    hide Fill;
    SettledIsFilled(title);
    SettledIsFilled(markdown);
    TextRowsAt(title, markdown);
    var rows := TextRows(title, markdown, 2);
    TwoRows(Titles(rows), title);
    TwoRows(Markdowns(rows), markdown);
  }

  lemma {:induction false} SettledIsFilled(t: map<string, string>)
    requires Settled(t)
    ensures Filled(t)
  {
    forall i | 0 <= i < |SUPPORTED_LOCALES| ensures SUPPORTED_LOCALES[i] in t { Supported(SUPPORTED_LOCALES[i]); }
  }

  lemma {:induction false} TwoRows(rows: Dict, t: map<string, string>)
    requires Settled(t) && rows == [("en", t["en"]), ("ru", t["ru"])]
    ensures Fill(rows) == t
  {
    hide Fill;
    assert rows[0].0 == "en" && rows[1].0 == "ru";
    assert rows[0].0[0] != rows[1].0[0];
    SettledIsFixpoint(t, rows);
  }

  // What adding under one parent leaves alone.
  ghost predicate Grows(a: Database, b: Database) {
    && a.nextId <= b.nextId && a.lessons == b.lessons && a.submissions == b.submissions && a.progress == b.progress
    && (forall e | e in a.exercises :: SameExercise(a, b, e))
  }

  lemma {:induction false} InsertKeepsContent(db: Database, lesson: Id, core: Exercise)
    requires ContentTables(db) && lesson in db.lessons
    ensures ContentTables(InsertExercise(db, lesson, core))
  {}

  lemma {:induction false} ExerciseTextsKeepContent(db: Database, e: Id, rows: seq<Translation>)
    requires ContentTables(db) && e in db.exercises
    requires forall t | t in db.exerciseTexts :: db.exerciseTexts[t].parent != e
    requires forall i, j | 0 <= i < j < |rows| :: rows[i].locale != rows[j].locale
    ensures ContentTables(AddExerciseTexts(db, e, rows))
  {
    hide AppendRows, Children, UniqueLocales, ParentsIn;
    AppendedRows(db.exerciseTexts, db.nextId, e, rows);
    AppendKeepsLocales(db.exerciseTexts, db.nextId, e, rows);
    AppendKeepsParents(db.exerciseTexts, db.nextId, e, rows, db.exercises);
  }

  lemma {:induction false} TestsKeepContent(db: Database, e: Id, tests: seq<TestFile>)
    requires ContentTables(db) && e in db.exercises
    ensures ContentTables(AddTests(db, e, tests))
  {
    hide AppendRows, Children, UniqueLocales, ParentsIn;
    AppendedRows(db.tests, db.nextId, e, tests);
    AppendKeepsParents(db.tests, db.nextId, e, tests, db.exercises);
  }

  lemma {:induction false} DistinctTextRows(title: map<string, string>, markdown: map<string, string>)
    requires Filled(title) && Filled(markdown)
    ensures var rows := TextRows(title, markdown, 2); |rows| == 2 && rows[0].locale != rows[1].locale
  {
    TextRowsAt(title, markdown);
    assert "en"[0] != "ru"[0];
  }

  lemma {:induction false} AddExerciseKeepsContent(db: Database, lesson: Id, x: ExerciseDoc)
    requires ContentTables(db) && lesson in db.lessons && Filled(x.title) && Filled(x.statement)
    ensures ContentTables(AddExercise(db, lesson, x))
  {
    hide ContentTables, TextRows, AppendRows;
    var one := InsertExercise(db, lesson, x.core);
    NoOrphans(db);
    DistinctTextRows(x.title, x.statement);
    InsertKeepsContent(db, lesson, x.core);
    ExerciseTextsKeepContent(one, db.nextId, TextRows(x.title, x.statement, 2));
    TestsKeepContent(AddExerciseTexts(one, db.nextId, TextRows(x.title, x.statement, 2)), db.nextId, x.tests);
  }

  // Nothing refers to a key that has not been drawn yet.
  lemma {:induction false} NoOrphans(db: Database)
    requires ContentTables(db)
    ensures db.nextId !in db.lessons && db.nextId !in db.exercises
    ensures forall t | t in db.lessonTexts :: db.lessonTexts[t].parent != db.nextId
    ensures forall e | e in db.exercises :: db.exercises[e].parent != db.nextId
    ensures forall t | t in db.exerciseTexts :: db.exerciseTexts[t].parent != db.nextId
    ensures forall t | t in db.tests :: db.tests[t].parent != db.nextId
  {}

  lemma {:induction false} NoChildren<T>(table: map<Id, Child<T>>, parent: Id, n: Id)
    requires forall t | t in table :: table[t].parent != parent
    ensures Children(table, parent, n) == []
  {
    if n > 0 { NoChildren(table, parent, n - 1); }
  }

  lemma {:induction false} AddedReadsBack(db: Database, lesson: Id, x: ExerciseDoc)
    requires ContentTables(db) && Settled(x.title) && Settled(x.statement)
    requires Filled(x.title) && Filled(x.statement)
    ensures db.nextId in AddExercise(db, lesson, x).exercises
    ensures ExerciseDocOf(AddExercise(db, lesson, x), db.nextId) == x
  {
    hide ContentTables, Fill, TextRows, Children, AppendRows, Settled, Titles, Markdowns;
    var e, after := db.nextId, AddExercise(db, lesson, x);
    var one := InsertExercise(db, lesson, x.core);
    var rows := TextRows(x.title, x.statement, 2);
    var two := AddExerciseTexts(one, e, rows);
    NoOrphans(db);
    TextRowsRead(x.title, x.statement);
    NoChildren(one.exerciseTexts, e, one.nextId);
    NoChildren(two.tests, e, two.nextId);
    BelowNext(db);
    AppendedRows(one.exerciseTexts, one.nextId, e, rows);
    AppendedRows(two.tests, two.nextId, e, x.tests);
    ChildrenBeyond(two.exerciseTexts, e, two.nextId, after.nextId);
    assert [] + rows == rows && [] + x.tests == x.tests;
  }

  lemma {:induction false} BelowNext(db: Database)
    requires ContentTables(db)
    ensures KeysBelow(db)
  {}

  lemma {:induction false} AddedGrows(db: Database, lesson: Id, x: ExerciseDoc)
    requires ContentTables(db) && Filled(x.title) && Filled(x.statement)
    ensures Grows(db, AddExercise(db, lesson, x)) && AddExercise(db, lesson, x).lessonTexts == db.lessonTexts
  {
    hide ContentTables, TextRows, Children, AppendRows, SameChildren;
    var e, after := db.nextId, AddExercise(db, lesson, x);
    var one := InsertExercise(db, lesson, x.core);
    var rows := TextRows(x.title, x.statement, 2);
    var two := AddExerciseTexts(one, e, rows);
    NoOrphans(db);
    BelowNext(db);
    AppendedRows(one.exerciseTexts, one.nextId, e, rows);
    AppendedRows(two.tests, two.nextId, e, x.tests);
    assert forall q | q in db.exercises :: q != e && SameExercise(db, after, q);
  }

  lemma {:induction false} AddedExercises(db: Database, lesson: Id, x: ExerciseDoc)
    requires db.nextId !in db.exercises && Filled(x.title) && Filled(x.statement)
    ensures AddExercise(db, lesson, x).exercises == db.exercises[db.nextId := Child(lesson, x.core)]
    ensures forall l :: ExercisesOf(AddExercise(db, lesson, x), l)
                        == ExercisesOf(db, l) + if l == lesson then {db.nextId} else {}
  {
    hide TextRows, AppendRows, Filled;
    var after := AddExercise(db, lesson, x);
    assert after.exercises == db.exercises[db.nextId := Child(lesson, x.core)];
  }

  // One more exercise: the lesson's document gains it, at the end.
  lemma {:induction false} AddedToDocs(db: Database, lesson: Id, x: ExerciseDoc)
    requires ContentTables(db) && lesson in db.lessons && Settled(x.title) && Settled(x.statement)
    requires Filled(x.title) && Filled(x.statement)
    ensures var after := AddExercise(db, lesson, x);
            ExerciseDocs(after, lesson, after.nextId) == ExerciseDocs(db, lesson, db.nextId) + [x]
  {
    hide ContentTables, AddExercise, ExerciseDocOf, SameExercise, ExerciseDocs;
    var e, after := db.nextId, AddExercise(db, lesson, x);
    AddExerciseKeepsContent(db, lesson, x);
    AddedReadsBack(db, lesson, x);
    AddedGrows(db, lesson, x);
    NoOrphans(db);
    BelowNext(db);
    BelowNext(after);
    AddedExercises(db, lesson, x);
    ExercisesAgree(db, after, lesson, e);
    ExerciseDocsBeyond(after, lesson, e + 1, after.nextId);
    LastExerciseDoc(after, lesson, e);
  }

  lemma {:induction false} LastExerciseDoc(db: Database, lesson: Id, e: Id)
    requires e in ExercisesOf(db, lesson)
    ensures ExerciseDocs(db, lesson, e + 1) == ExerciseDocs(db, lesson, e) + [ExerciseDocOf(db, e)]
  {}

  ghost predicate SettledExercises(xs: seq<ExerciseDoc>) {
    forall x | x in xs :: Settled(x.title) && Settled(x.statement) && Filled(x.title) && Filled(x.statement)
  }

  lemma {:induction false} GrowsItself(db: Database)
    ensures Grows(db, db)
  {}

  lemma {:induction false} GrowsMeans(a: Database, b: Database)
    requires Grows(a, b)
    ensures a.nextId <= b.nextId && a.lessons == b.lessons
  {}

  lemma {:induction false} GrowsTransitively(a: Database, b: Database, c: Database)
    requires Grows(a, b) && Grows(b, c)
    ensures Grows(a, c)
  {
    forall e | e in a.exercises ensures SameExercise(a, c, e) {
      assert SameExercise(a, b, e) && SameExercise(b, c, e);
    }
  }

  lemma {:induction false} AddExercisesEffect(db: Database, lesson: Id, xs: seq<ExerciseDoc>)
    requires ContentTables(db) && lesson in db.lessons && SettledExercises(xs)
    ensures var after := AddExercises(db, lesson, xs);
            && ContentTables(after) && Grows(db, after) && after.lessonTexts == db.lessonTexts
            && ExerciseDocs(after, lesson, after.nextId) == ExerciseDocs(db, lesson, db.nextId) + xs
            && (forall l | l != lesson :: ExercisesOf(after, l) == ExercisesOf(db, l))
            && (forall e | e in ExercisesOf(after, lesson) - ExercisesOf(db, lesson) :: db.nextId <= e)
            && (forall e | e in db.exercises :: e in after.exercises && after.exercises[e] == db.exercises[e])
  {
    hide ContentTables, AddExercise, ExerciseDocs, Settled, Filled, SameChildren, SameExercise, Grows;
    if xs == [] {
      assert Grows(db, db) by { GrowsItself(db); }
      assert ExerciseDocs(db, lesson, db.nextId) + xs == ExerciseDocs(db, lesson, db.nextId);
    } else {
      var init, x := xs[..|xs| - 1], xs[|xs| - 1];
      var before := AddExercises(db, lesson, init);
      assert x in xs && forall y | y in init :: y in xs;
      AddExercisesEffect(db, lesson, init);
      GrowsMeans(db, before);
      NoOrphans(before);
      AddExerciseKeepsContent(before, lesson, x);
      AddedGrows(before, lesson, x);
      GrowsTransitively(db, before, AddExercise(before, lesson, x));
      AddedToDocs(before, lesson, x);
      AddedExercises(before, lesson, x);
      var after := AddExercises(db, lesson, xs);
      forall e | e in ExercisesOf(after, lesson) - ExercisesOf(db, lesson) ensures db.nextId <= e {
        assert e in ExercisesOf(before, lesson) - ExercisesOf(db, lesson) || e == before.nextId;
      }
      assert xs == init + [x];
    }
  }

  // ---- the whole ingest against the document map -----------------------------------------------------

  ghost predicate SettledDoc(d: LessonDoc): (settled: bool)
    ensures settled ==> FilledDoc(d)
  {
    FilledDoc(d) && Settled(d.title) && Settled(d.body) && SettledExercises(d.exercises)
  }

  // The lesson row and its prose, before any exercise.
  ghost function Shell(db: Database, d: LessonDoc): Database
    requires FilledDoc(d)
  {
    AddLessonTexts(InsertLesson(db, d), db.nextId, TextRows(d.title, d.body, 2))
  }

  lemma {:induction false} ShellKeepsContent(db: Database, d: LessonDoc)
    requires ContentTables(db) && FilledDoc(d) && d.slug !in Slugs(db)
    ensures ContentTables(Shell(db, d))
  {
    hide TextRows, AppendRows, Children;
    var rows := TextRows(d.title, d.body, 2);
    var one := InsertLesson(db, d);
    NoOrphans(db);
    DistinctTextRows(d.title, d.body);
    AppendedRows(one.lessonTexts, one.nextId, db.nextId, rows);
    AppendKeepsLocales(one.lessonTexts, one.nextId, db.nextId, rows);
    AppendKeepsParents(one.lessonTexts, one.nextId, db.nextId, rows, one.lessons);
  }

  lemma {:induction false} ShellEffect(db: Database, d: LessonDoc)
    requires ContentTables(db) && SettledDoc(d)
    ensures var after, l := Shell(db, d), db.nextId;
            && after.lessons == db.lessons[l := Lesson(d.slug, d.position, d.isPublished)]
            && after.exercises == db.exercises && after.exerciseTexts == db.exerciseTexts && after.tests == db.tests
            && after.submissions == db.submissions && after.progress == db.progress && db.nextId < after.nextId
            && (forall m | m != l :: SameChildren(db.lessonTexts, after.lessonTexts, m))
            && Fill(Titles(Children(after.lessonTexts, l, after.nextId))) == d.title
            && Fill(Markdowns(Children(after.lessonTexts, l, after.nextId))) == d.body
            && ExercisesOf(after, l) == {}
  {
    hide ContentTables, TextRows, AppendRows, Children, Fill, Titles, Markdowns, SameChildren, Settled, Filled;
    var rows := TextRows(d.title, d.body, 2);
    var one := InsertLesson(db, d);
    NoOrphans(db);
    BelowNext(db);
    TextRowsRead(d.title, d.body);
    NoChildren(one.lessonTexts, db.nextId, one.nextId);
    AppendedRows(one.lessonTexts, one.nextId, db.nextId, rows);
    assert [] + rows == rows;
  }

  lemma {:induction false} NoExerciseDocs(db: Database, lesson: Id, n: Id)
    requires ExercisesOf(db, lesson) == {}
    ensures ExerciseDocs(db, lesson, n) == []
  {
    if n > 0 { NoExerciseDocs(db, lesson, n - 1); }
  }

  // A rebuilt lesson reads back as its document.
  lemma {:induction false} RebuiltDoc(db: Database, d: LessonDoc)
    requires ContentTables(db) && SettledDoc(d) && d.slug !in Slugs(db)
    ensures var after := Rebuild(db, d);
            ContentTables(after) && db.nextId in after.lessons && DocOf(after, db.nextId) == d
  {
    hide ContentTables, Fill, Titles, Markdowns, Children, ExerciseDocs, AddExercises, Shell, SameChildren,
         SameExercise, Settled, Filled, SettledExercises, Slugs;
    var shell, l := Shell(db, d), db.nextId;
    RebuildIsShell(db, d);
    ShellKeepsContent(db, d);
    ShellEffect(db, d);
    AddExercisesEffect(shell, l, d.exercises);
    var after := Rebuild(db, d);
    NoExerciseDocs(shell, l, shell.nextId);
    BelowNext(shell);
    ChildrenBeyond(shell.lessonTexts, l, shell.nextId, after.nextId);
    assert [] + d.exercises == d.exercises;
  }

  lemma {:induction false} RebuildIsShell(db: Database, d: LessonDoc)
    requires FilledDoc(d)
    ensures Rebuild(db, d) == AddExercises(Shell(db, d), db.nextId, d.exercises)
  {
    hide TextRows, AddExercises;
  }

  // Every other lesson is untouched by the rebuild.
  lemma {:induction false} RebuildKeepsLesson(db: Database, d: LessonDoc, other: Id)
    requires ContentTables(db) && SettledDoc(d) && d.slug !in Slugs(db) && other in db.lessons
    ensures SameLesson(db, Rebuild(db, d), other)
  {
    hide ContentTables, Fill, Titles, Markdowns, Children, ExerciseDocs, AddExercises, Shell,
         Settled, Filled, SettledExercises, Slugs;
    var shell, l := Shell(db, d), db.nextId;
    RebuildIsShell(db, d);
    NoOrphans(db);
    ShellKeepsContent(db, d);
    ShellEffect(db, d);
    AddExercisesEffect(shell, l, d.exercises);
    assert ExercisesOf(shell, other) == ExercisesOf(db, other);
    forall e | e in ExercisesOf(db, other) ensures SameExercise(db, Rebuild(db, d), e) {
      assert SameExercise(shell, Rebuild(db, d), e);
    }
  }

  lemma {:induction false} RebuildRows(db: Database, d: LessonDoc)
    requires ContentTables(db) && SettledDoc(d) && d.slug !in Slugs(db)
    ensures var after := Rebuild(db, d);
            && after.lessons == db.lessons[db.nextId := Lesson(d.slug, d.position, d.isPublished)]
            && after.submissions == db.submissions && after.progress == db.progress && db.nextId < after.nextId
            && (forall e | e in db.exercises :: e in after.exercises && after.exercises[e] == db.exercises[e])
            && (forall e | e in ExercisesOf(after, db.nextId) :: db.nextId < e)
            && (forall l | l != db.nextId :: ExercisesOf(after, l) == ExercisesOf(db, l))
  {
    hide ContentTables, Fill, Titles, Markdowns, Children, ExerciseDocs, AddExercises, Shell,
         Settled, Filled, SettledExercises, Slugs, SameChildren, SameExercise;
    var shell, l := Shell(db, d), db.nextId;
    RebuildIsShell(db, d);
    ShellKeepsContent(db, d);
    ShellEffect(db, d);
    AddExercisesEffect(shell, l, d.exercises);
    assert forall m :: ExercisesOf(shell, m) == ExercisesOf(db, m);
    var after := Rebuild(db, d);
    forall e | e in ExercisesOf(after, l) ensures l < e {
      assert e in ExercisesOf(after, l) - ExercisesOf(shell, l);
    }
  }

  lemma {:induction false} DropKeepsContent(db: Database, slug: string)
    requires ContentTables(db)
    ensures var after := DropSlug(db, slug);
            ContentTables(after) && slug !in Slugs(after) && Slugs(after) == Slugs(db) - {slug}
            && after.nextId == db.nextId
            && (forall l | l in after.lessons :: l in db.lessons && after.lessons[l] == db.lessons[l])
            && (forall l | l in db.lessons && db.lessons[l].slug != slug ::
                  l in after.lessons && SameLesson(db, after, l))
  {
    var after, existing := DropSlug(db, slug), LessonBySlug(db, slug);
    assert UniqueSlugs(db);
    hide ContentTables, SameLesson;
    if existing.Some? {
      DeleteKeepsContent(db, existing.value);
      forall l | l in db.lessons && db.lessons[l].slug != slug ensures l in after.lessons && SameLesson(db, after, l) {
        DeleteKeepsLesson(db, existing.value, l);
      }
    } else {
      forall l | l in db.lessons ensures SameLesson(db, after, l) { SameLessonItself(db, l); }
    }
    forall x ensures x in Slugs(after) <==> x in Slugs(db) && x != slug {
      if l :| l in db.lessons && db.lessons[l].slug == x && x != slug { assert after.lessons[l].slug == x; }
    }
  }

  lemma {:induction false} SameLessonItself(db: Database, lesson: Id)
    requires lesson in db.lessons
    ensures SameLesson(db, db, lesson)
  {}

  lemma {:induction false} SlugDecides(db: Database, lesson: Id)
    requires UniqueSlugs(db) && lesson in db.lessons
    ensures LessonBySlug(db, db.lessons[lesson].slug) == Some(lesson)
    ensures db.lessons[lesson].slug in Slugs(db) && db.lessons[lesson].slug in Docs(db)
    ensures Docs(db)[db.lessons[lesson].slug] == DocOf(db, lesson)
  {
    hide DocOf;
  }

  lemma {:induction false} DocsKeys(db: Database)
    ensures Docs(db).Keys == Slugs(db)
  {
    hide DocOf;
    forall slug | slug in Slugs(db) ensures LessonBySlug(db, slug).Some? {
      var l :| l in db.lessons && db.lessons[l].slug == slug;
    }
  }

  lemma {:induction false} UniqueSlugsOf(db: Database)
    requires ContentTables(db)
    ensures UniqueSlugs(db)
  {}

  // The ingested document, and every other one, read back.
  lemma {:induction false} IngestedDoc(db: Database, d: LessonDoc)
    requires ContentTables(db) && SettledDoc(d)
    ensures var after := IngestDoc(db, d);
            && ContentTables(after) && Slugs(after) == Slugs(db) + {d.slug}
            && d.slug in Docs(after) && Docs(after)[d.slug] == d
            && LessonBySlug(after, d.slug) == Some(db.nextId)
  {
    hide ContentTables, Slugs, SettledDoc, FilledDoc, DocOf, LessonBySlug, Docs, Rebuild, DropSlug, SameLesson;
    var dropped, after := DropSlug(db, d.slug), IngestDoc(db, d);
    DropKeepsContent(db, d.slug);
    RebuiltDoc(dropped, d);
    RebuildRows(dropped, d);
    UniqueSlugsOf(after);
    SlugDecides(after, db.nextId);
    DocSlug(after, db.nextId);
    SlugsAdded(dropped, after, d);
    assert Slugs(db) - {d.slug} + {d.slug} == Slugs(db) + {d.slug};
  }

  lemma {:induction false} DocSlug(db: Database, lesson: Id)
    requires lesson in db.lessons
    ensures DocOf(db, lesson).slug == db.lessons[lesson].slug
  {}

  lemma {:induction false} SlugsAdded(a: Database, b: Database, d: LessonDoc)
    requires a.nextId !in a.lessons || ContentTables(a)
    requires b.lessons == a.lessons[a.nextId := Lesson(d.slug, d.position, d.isPublished)]
    ensures Slugs(b) == Slugs(a) + {d.slug}
  {
    assert a.nextId !in a.lessons;
    assert b.lessons[a.nextId].slug == d.slug;
    forall x ensures x in Slugs(b) <==> x in Slugs(a) || x == d.slug {
      if l :| l in a.lessons && a.lessons[l].slug == x { assert b.lessons[l].slug == x; }
    }
  }

  lemma {:induction false} OtherDocKept(db: Database, d: LessonDoc, slug: string)
    requires ContentTables(db) && SettledDoc(d) && slug in Slugs(db) && slug != d.slug
    ensures slug in Docs(db) && slug in Docs(IngestDoc(db, d)) && Docs(IngestDoc(db, d))[slug] == Docs(db)[slug]
  {
    var l :| l in db.lessons && db.lessons[l].slug == slug;
    KeepsDoc(db, d, l);
    IngestedDoc(db, d);
    hide ContentTables, IngestDoc, DocOf;
    UniqueSlugsOf(db);
    UniqueSlugsOf(IngestDoc(db, d));
    SlugDecides(db, l);
    SlugDecides(IngestDoc(db, d), l);
  }

  lemma {:induction false} KeepsDoc(db: Database, d: LessonDoc, l: Id)
    requires ContentTables(db) && SettledDoc(d) && l in db.lessons && db.lessons[l].slug != d.slug
    ensures var after := IngestDoc(db, d);
            l in after.lessons && after.lessons[l] == db.lessons[l] && DocOf(after, l) == DocOf(db, l)
  {
    hide ContentTables, Slugs, SettledDoc, FilledDoc, DocOf, Rebuild, DropSlug, KeysBelow;
    var dropped, after := DropSlug(db, d.slug), IngestDoc(db, d);
    DropKeepsContent(db, d.slug);
    RebuildKeepsLesson(dropped, d, l);
    RebuiltDoc(dropped, d);
    BelowNext(db);
    BelowNext(dropped);
    BelowNext(after);
    LessonFrame(db, dropped, l);
    LessonFrame(dropped, after, l);
  }

  /** Ingest is one map update: against the map from slug to document, it sets the ingested slug to the
      ingested document and changes no other entry. */
  lemma {:induction false} IngestIsMapUpdate(db: Database, d: LessonDoc)
    requires ContentTables(db) && SettledDoc(d)
    ensures ContentTables(IngestDoc(db, d)) && Docs(IngestDoc(db, d)) == Docs(db)[d.slug := d]
  {
    hide ContentTables, SettledDoc, FilledDoc, IngestDoc, Docs, Slugs;
    var before, after := Docs(db), Docs(IngestDoc(db, d));
    IngestedDoc(db, d);
    DocsKeys(db);
    DocsKeys(IngestDoc(db, d));
    forall slug | slug in after && slug != d.slug ensures slug in before && after[slug] == before[slug] {
      OtherDocKept(db, d, slug);
    }
  }

  /** From the document as it is authored to the document as it is read: every field of the lesson, of each exercise
      and of each test file, in order, with the defaults for absent keys. */
  lemma {:induction false} IngestedAsWritten(db: Database, raw: RawLesson)
    requires ContentTables(db) && WellFormed(raw)
    ensures SettledDoc(NormaliseLesson(raw))
    ensures var docs := Docs(IngestDoc(db, NormaliseLesson(raw)));
            raw.slug.value in docs && LessonAsWritten(raw, docs[raw.slug.value])
  {
    hide ContentTables, IngestDoc, Docs, LessonAsWritten, SettledDoc;
    NormalisedIsSettled(raw);
    NormalisedLesson(raw);
    IngestIsMapUpdate(db, NormaliseLesson(raw));
  }

  /** Hence ingest is idempotent, and ingests of distinct slugs commute. */
  lemma {:induction false} IngestsAgree(db: Database, d: LessonDoc, x: LessonDoc)
    requires ContentTables(db) && SettledDoc(d) && SettledDoc(x)
    ensures Docs(IngestDoc(IngestDoc(db, d), d)) == Docs(IngestDoc(db, d))
    ensures d.slug != x.slug ==>
              Docs(IngestDoc(IngestDoc(db, d), x)) == Docs(IngestDoc(IngestDoc(db, x), d))
  {
    hide ContentTables, SettledDoc, FilledDoc, IngestDoc, Docs;
    IngestIsMapUpdate(db, d);
    IngestIsMapUpdate(db, x);
    IngestIsMapUpdate(IngestDoc(db, d), d);
    IngestIsMapUpdate(IngestDoc(db, d), x);
    IngestIsMapUpdate(IngestDoc(db, x), d);
    assert d.slug != x.slug ==> Docs(db)[d.slug := d][x.slug := x] == Docs(db)[x.slug := x][d.slug := d];
  }

  // ---- user state -------------------------------------------------------------------------------------

  // The exercises an ingest of this slug throws away.
  ghost function Replaced(db: Database, slug: string): set<Id> {
    var existing := LessonBySlug(db, slug);
    if existing.Some? then ExercisesOf(db, existing.value) else {}
  }

  /** Ingest removes precisely the submissions and progress of the lesson's old exercises, and no reference
      dangles. Every other row is unchanged but for a last submission of one of those exercises, which becomes
      null; where every row's last submission is one of its own exercise, none does. */
  lemma {:induction false} IngestUserState(db: Database, d: LessonDoc)
    requires Valid(db) && SettledDoc(d)
    ensures var after, gone := IngestDoc(db, d), Replaced(db, d.slug);
            && Valid(after)
            && after.submissions == KeptSubmissions(db, gone) && after.progress == KeptProgress(db, gone)
            && (forall u :: SolvedSet(after, u) == SolvedSet(db, u) - gone)
            && (OwnLastSubmission(db) ==>
                  && OwnLastSubmission(after)
                  && after.progress == map p | p in db.progress && db.progress[p].exerciseId !in gone :: db.progress[p])
  {
    hide ContentTables, SettledDoc, FilledDoc, Rebuild, Slugs, SameLesson, LessonBySlug, Unlinked, KeptSubmissions,
         KeptProgress, OwnLastSubmission;
    var dropped, after, gone := DropSlug(db, d.slug), IngestDoc(db, d), Replaced(db, d.slug);
    DropKeepsContent(db, d.slug);
    DropUserState(db, d.slug);
    RebuildRows(dropped, d);
    RebuiltDoc(dropped, d);
    MoreExercises(dropped, after);
    forall u ensures SolvedSet(after, u) == SolvedSet(db, u) - gone { SolvedAfterDrop(db, after, u, gone); }
    if OwnLastSubmission(db) { OwnSubmissionsStay(db, after, gone); }
  }

  lemma {:induction false} DropUserState(db: Database, slug: string)
    requires UserTables(db)
    ensures var after, gone := DropSlug(db, slug), Replaced(db, slug);
            && UserTables(after)
            && after.submissions == KeptSubmissions(db, gone) && after.progress == KeptProgress(db, gone)
  {
    var existing := LessonBySlug(db, slug);
    if existing.Some? { DeleteUserState(db, existing.value); }
  }

  lemma {:induction false} MoreExercises(a: Database, b: Database)
    requires UserTables(a) && a.nextId <= b.nextId && a.submissions == b.submissions && a.progress == b.progress
    requires forall e | e in a.exercises :: e in b.exercises
    ensures UserTables(b)
  {
    forall p | p in b.progress ensures RowReferences(b, b.progress[p]) { assert RowReferences(a, a.progress[p]); }
  }

  lemma {:induction false} SolvedAfterDrop(a: Database, b: Database, user: UserId, gone: set<Id>)
    requires b.progress == KeptProgress(a, gone)
    ensures SolvedSet(b, user) == SolvedSet(a, user) - gone
  {
    forall e | e in SolvedSet(a, user) - gone ensures e in SolvedSet(b, user) {
      var p :| p in a.progress && a.progress[p].userId == user && a.progress[p].isSolved
               && a.progress[p].exerciseId == e;
      assert p in b.progress;
    }
  }

  // ---- two ingests ----------------------------------------------------------------------------------------

  lemma {:induction false} KeptTwice(db: Database, mid: Database, g: set<Id>, h: set<Id>)
    requires mid.submissions == KeptSubmissions(db, g) && mid.progress == KeptProgress(db, g)
    ensures KeptSubmissions(mid, h) == KeptSubmissions(db, g + h) && KeptProgress(mid, h) == KeptProgress(db, g + h)
  {}

  // Another lesson's exercises are neither replaced nor changed.
  lemma {:induction false} ReplacedApart(db: Database, d: LessonDoc, slug: string)
    requires Valid(db) && SettledDoc(d) && slug != d.slug
    ensures Replaced(IngestDoc(db, d), slug) == Replaced(db, slug)
  {
    hide UserTables, SettledDoc, Slugs, IngestDoc, ContentTables, DocOf, LessonBySlug;
    var after, existing := IngestDoc(db, d), LessonBySlug(db, slug);
    IngestedDoc(db, d);
    UniqueSlugsOf(db);
    UniqueSlugsOf(after);
    SlugFinds(db, slug);
    SlugFinds(after, slug);
    if existing.Some? {
      KeepsDoc(db, d, existing.value);
      SlugDecides(after, existing.value);
      LessonsBelow(db, existing.value);
      OtherLessonKept(db, d, 0, existing.value);
    }
  }

  lemma {:induction false} LessonsBelow(db: Database, l: Id)
    requires ContentTables(db) && l in db.lessons
    ensures l != db.nextId
  {}

  lemma {:induction false} SlugFinds(db: Database, slug: string)
    ensures LessonBySlug(db, slug).Some? <==> slug in Slugs(db)
    ensures LessonBySlug(db, slug).Some? ==>
              LessonBySlug(db, slug).value in db.lessons && db.lessons[LessonBySlug(db, slug).value].slug == slug
  {}

  lemma {:induction false} NothingToRemove(db: Database, gone: set<Id>)
    requires forall s | s in db.submissions :: db.submissions[s].exerciseId !in gone
    requires forall p | p in db.progress :: db.progress[p].exerciseId !in gone
    ensures KeptSubmissions(db, gone) == db.submissions && KeptProgress(db, gone) == db.progress
  {}

  lemma {:induction false} UserStateBelow(db: Database)
    requires Valid(db)
    ensures forall s | s in db.submissions :: db.submissions[s].exerciseId < db.nextId
    ensures forall p | p in db.progress :: db.progress[p].exerciseId < db.nextId
  {
    forall p | p in db.progress ensures db.progress[p].exerciseId < db.nextId {
      assert RowReferences(db, db.progress[p]);
    }
  }

  lemma {:induction false} KeptBelow(db: Database, gone: set<Id>)
    requires Valid(db)
    ensures forall s | s in KeptSubmissions(db, gone) :: KeptSubmissions(db, gone)[s].exerciseId < db.nextId
    ensures forall p | p in KeptProgress(db, gone) :: KeptProgress(db, gone)[p].exerciseId < db.nextId
  {
    UserStateBelow(db);
    hide Valid;
  }

  lemma {:induction false} ReplacedIsFresh(db: Database, d: LessonDoc)
    requires ContentTables(db) && SettledDoc(d)
    ensures forall e | e in Replaced(IngestDoc(db, d), d.slug) :: db.nextId < e
  {
    hide ContentTables, SettledDoc, Rebuild, Slugs, SameLesson, LessonBySlug, DropSlug;
    DropKeepsContent(db, d.slug);
    RebuildRows(DropSlug(db, d.slug), d);
    IngestedDoc(db, d);
  }

  // Nothing refers to exercises that were just written.
  lemma {:induction false} FreshUnreferenced(db: Database, d: LessonDoc)
    requires Valid(db) && SettledDoc(d)
    ensures var once := IngestDoc(db, d);
            var added := Replaced(once, d.slug);
            KeptSubmissions(once, added) == once.submissions && KeptProgress(once, added) == once.progress
  {
    hide SettledDoc, IngestDoc, Replaced, KeptSubmissions, KeptProgress, ContentTables, UserTables, SolvedSet;
    IngestUserState(db, d);
    KeptBelow(db, Replaced(db, d.slug));
    ReplacedIsFresh(db, d);
    NothingToRemove(IngestDoc(db, d), Replaced(IngestDoc(db, d), d.slug));
  }

  // The same submissions and progress, and so the same solved exercises of everybody.
  ghost predicate SameUserState(a: Database, b: Database) {
    a.submissions == b.submissions && a.progress == b.progress && forall u :: SolvedSet(a, u) == SolvedSet(b, u)
  }

  lemma {:induction false} TwoIngests(db: Database, d: LessonDoc, x: LessonDoc)
    requires Valid(db) && SettledDoc(d) && SettledDoc(x) && d.slug != x.slug
    ensures var twice, gone := IngestDoc(IngestDoc(db, d), x), Replaced(db, d.slug) + Replaced(db, x.slug);
            twice.submissions == KeptSubmissions(db, gone) && twice.progress == KeptProgress(db, gone)
  {
    hide Valid, SettledDoc, IngestDoc, KeptSubmissions, KeptProgress, Replaced;
    IngestUserState(db, d);
    IngestUserState(IngestDoc(db, d), x);
    ReplacedApart(db, d, x.slug);
    KeptTwice(db, IngestDoc(db, d), Replaced(db, d.slug), Replaced(db, x.slug));
  }

  /** For the users, too: ingesting a document again takes nothing more away, and two lessons may be ingested in
      either order. */
  lemma {:induction false} IngestsAgreeForUsers(db: Database, d: LessonDoc, x: LessonDoc)
    requires Valid(db) && SettledDoc(d) && SettledDoc(x)
    ensures SameUserState(IngestDoc(IngestDoc(db, d), d), IngestDoc(db, d))
    ensures d.slug != x.slug ==> SameUserState(IngestDoc(IngestDoc(db, d), x), IngestDoc(IngestDoc(db, x), d))
  {
    hide Valid, SettledDoc, IngestDoc, KeptSubmissions, KeptProgress, Replaced;
    IngestUserState(db, d);
    IngestUserState(IngestDoc(db, d), d);
    FreshUnreferenced(db, d);
    if d.slug != x.slug {
      TwoIngests(db, d, x);
      TwoIngests(db, x, d);
      assert Replaced(db, d.slug) + Replaced(db, x.slug) == Replaced(db, x.slug) + Replaced(db, d.slug);
    }
  }

  lemma {:induction false} FreshUnsolved(db: Database, d: LessonDoc, user: UserId)
    requires Valid(db) && SettledDoc(d)
    ensures !FullySolved(IngestDoc(db, d), user, db.nextId)
    ensures ExercisesOf(IngestDoc(db, d), db.nextId) !! SolvedSet(IngestDoc(db, d), user)
  {
    hide SettledDoc, FilledDoc, Rebuild, Slugs, SameLesson, LessonBySlug, DropSlug;
    var after := IngestDoc(db, d);
    DropKeepsContent(db, d.slug);
    RebuildRows(DropSlug(db, d.slug), d);
    IngestUserState(db, d);
    forall e | e in SolvedSet(after, user) ensures e < db.nextId {
      assert e in SolvedSet(db, user);
      var p :| p in db.progress && db.progress[p].exerciseId == e;
      assert RowReferences(db, db.progress[p]);
    }
  }

  // Every lesson but the ingested one is as it was, and as solved as it was.
  lemma {:induction false} OtherLessonKept(db: Database, d: LessonDoc, user: UserId, l: Id)
    requires Valid(db) && SettledDoc(d) && l in IngestDoc(db, d).lessons && l != db.nextId
    ensures var after := IngestDoc(db, d);
            && l in db.lessons && after.lessons[l] == db.lessons[l]
            && LessonBySlug(db, d.slug) != Some(l)
            && ExercisesOf(after, l) == ExercisesOf(db, l) && ExercisesOf(db, l) !! Replaced(db, d.slug)
            && (FullySolved(after, user, l) <==> FullySolved(db, user, l))
  {
    hide ContentTables, UserTables, SettledDoc, FilledDoc, Rebuild, Slugs, DropSlug, SolvedSet, SameExercise,
         SameChildren;
    var dropped, after := DropSlug(db, d.slug), IngestDoc(db, d);
    DropKeepsContent(db, d.slug);
    RebuildRows(dropped, d);
    IngestUserState(db, d);
    DroppedSlugGone(dropped, d.slug, l);
    assert SameLesson(db, dropped, l);
  }

  lemma {:induction false} DroppedSlugGone(db: Database, slug: string, l: Id)
    requires slug !in Slugs(db) && l in db.lessons
    ensures db.lessons[l].slug != slug
  {}

  /** After an ingest nobody has the lesson completed, and of the locks exactly this changes: lesson j is locked
      iff it directly follows the ingested one, or its predecessor was not fully solved before. */
  lemma {:induction false} IngestLocksIff(db: Database, d: LessonDoc, user: UserId, ls: seq<Id>, j: nat)
    requires Valid(db) && SettledDoc(d) && Lists(IngestDoc(db, d), ls) && j < |ls|
    ensures var after := IngestDoc(db, d);
            && (LessonBySlug(after, d.slug) == Some(ls[j]) ==> !Completed(after, user, ls[j]))
            && (Locked(after, user, ls, ls[j]) <==>
                  j > 0 && (LessonBySlug(after, d.slug) == Some(ls[j - 1]) || !FullySolved(db, user, ls[j - 1])))
  {
    hide ContentTables, SettledDoc, FilledDoc, IngestDoc, Docs, Slugs, LessonBySlug, Completed, Locked, FullySolved,
         Replaced;
    var after := IngestDoc(db, d);
    IngestUserState(db, d);
    IngestedDoc(db, d);
    FreshUnsolved(db, d, user);
    CountingMeansSolvingAll(after, user, ls[j]);
    LockMeaning(after, user, ls);
    ListedPositions(after, ls);
    if j > 0 && ls[j - 1] != db.nextId { OtherLessonKept(db, d, user, ls[j - 1]); }
  }

  // In the listing after the ingest, this lesson comes directly after the ingested one.
  ghost predicate FollowsIngested(db: Database, d: LessonDoc, ls: seq<Id>, lesson: Id)
    requires FilledDoc(d)
  {
    exists j | 0 < j < |ls| :: ls[j] == lesson && LessonBySlug(IngestDoc(db, d), d.slug) == Some(ls[j - 1])
  }

  // A lesson listed before a solved one, apart from the ingested one, was fully solved.
  lemma {:induction false} SolvedBefore(db: Database, d: LessonDoc, user: UserId, before: seq<Id>, ls: seq<Id>,
                                       e: Id, j: nat)
    requires Valid(db) && SettledDoc(d) && Lists(IngestDoc(db, d), ls)
    requires Lists(db, before) && DistinctPositions(db) && Chain(db, user, before)
    requires 0 < j < |ls| && e in SolvedSet(db, user) && e in ExercisesOf(db, ls[j])
    requires ls[j] != db.nextId && ls[j - 1] != db.nextId
    ensures FullySolved(db, user, ls[j - 1])
  {
    hide ContentTables, SettledDoc, FilledDoc, IngestDoc, FullySolved, Replaced, UserTables, SolvedSet;
    var after := IngestDoc(db, d);
    OtherLessonKept(db, d, user, ls[j]);
    OtherLessonKept(db, d, user, ls[j - 1]);
    ListedPositions(after, ls);
    var a := ListedAt(db, before, ls[j - 1]);
    var b := ListedAt(db, before, ls[j]);
    assert after.lessons[ls[j - 1]].position <= after.lessons[ls[j]].position;
    assert ls[j - 1] != ls[j];
  }

  lemma {:induction false} LockAfterIngest(db: Database, d: LessonDoc, user: UserId, before: seq<Id>, ls: seq<Id>,
                                          e: Id, j: nat)
    requires Valid(db) && SettledDoc(d) && Lists(IngestDoc(db, d), ls)
    requires Lists(db, before) && DistinctPositions(db) && Chain(db, user, before)
    requires e in SolvedSet(IngestDoc(db, d), user) && j < |ls| && e in ExercisesOf(IngestDoc(db, d), ls[j])
    ensures Locked(IngestDoc(db, d), user, ls, ls[j])
            <==> j > 0 && LessonBySlug(IngestDoc(db, d), d.slug) == Some(ls[j - 1])
  {
    hide ContentTables, SettledDoc, FilledDoc, IngestDoc, Docs, Slugs, LessonBySlug, Locked, FullySolved, Replaced,
         Chain, DistinctPositions, SolvedSet, ExercisesOf, UserTables, Published, Lists;
    IngestUserState(db, d);
    IngestedDoc(db, d);
    FreshUnsolved(db, d, user);
    IngestLocksIff(db, d, user, ls, j);
    ListedPositions(IngestDoc(db, d), ls);
    ListedLessons(IngestDoc(db, d), ls);
    assert ls[j] != db.nextId;
    OtherLessonKept(db, d, user, ls[j]);
    if j > 0 && ls[j - 1] != db.nextId { SolvedBefore(db, d, user, before, ls, e, j); }
  }

  lemma {:induction false} ListedLessons(db: Database, ls: seq<Id>)
    requires Lists(db, ls)
    ensures forall i | 0 <= i < |ls| :: ls[i] in db.lessons
  {
    assert forall i | 0 <= i < |ls| :: ls[i] in Published(db);
  }

  lemma {:induction false} RevealLockedIff(db: Database, user: UserId, ls: seq<Id>, e: Id)
    requires e in db.exercises
    ensures Reveal(db, user, ls, e) == Failure(RevealLocked) <==> Locked(db, user, ls, db.exercises[e].parent)
  {
    hide Locked;
  }

  /** What users lose sight of: with positions distinct and the chain intact before the ingest, a solved exercise
      that survives it is refused as locked iff its lesson now directly follows the ingested one. */
  lemma {:induction false} IngestHidesSolvedIff(db: Database, d: LessonDoc, user: UserId, before: seq<Id>, ls: seq<Id>,
                                               e: Id)
    requires Valid(db) && SettledDoc(d) && Lists(IngestDoc(db, d), ls)
    requires Lists(db, before) && DistinctPositions(db) && Chain(db, user, before)
    requires e in SolvedSet(IngestDoc(db, d), user)
    ensures var after := IngestDoc(db, d);
            && e in after.exercises && e in SolvedSet(db, user)
            && (Reveal(after, user, ls, e) == Failure(RevealLocked) <==>
                  FollowsIngested(db, d, ls, after.exercises[e].parent))
  {
    hide ContentTables, SettledDoc, FilledDoc, IngestDoc, Docs, Slugs, LessonBySlug, Locked, FullySolved, Replaced,
         Chain, DistinctPositions, SolvedSet, ExercisesOf, Lists, Reveal;
    var after := IngestDoc(db, d);
    IngestUserState(db, d);
    SolvedExists(after, user, e);
    var lesson := after.exercises[e].parent;
    RevealLockedIff(after, user, ls, e);
    if lesson in Published(after) {
      var j := ListedAt(after, ls, lesson);
      ListedOnce(after, ls, j);
      LockAfterIngest(db, d, user, before, ls, e, j);
    } else {
      ListedPositions(after, ls);
      LockMeaning(after, user, ls);
    }
  }

  lemma {:induction false} ListedOnce(db: Database, ls: seq<Id>, j: nat)
    requires Lists(db, ls) && j < |ls|
    ensures forall i | 0 <= i < |ls| && ls[i] == ls[j] :: i == j
  {}

  lemma {:induction false} SolvedExists(db: Database, user: UserId, e: Id)
    requires UserTables(db) && e in SolvedSet(db, user)
    ensures e in db.exercises && e in ExercisesOf(db, db.exercises[e].parent)
  {
    var p :| p in db.progress && db.progress[p].exerciseId == e;
    assert RowReferences(db, db.progress[p]);
  }
}
