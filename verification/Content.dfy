/** The content tables read back as documents: child rows in key order, prose through the read-side
    locale filling. */
module Content {
  import opened Schema
  import opened Curriculum
  import opened Progression
  import opened Locales

  // ---- child rows in key order ---------------------------------------------------------------

  function Children<T>(table: map<Id, Child<T>>, parent: Id, n: Id): seq<T> {
    if n == 0 then []
    else Children(table, parent, n - 1) +
         if n - 1 in table && table[n - 1].parent == parent then [table[n - 1].value] else []
  }

  // Both tables hold the same rows under this parent.
  ghost predicate SameChildren<T>(a: map<Id, Child<T>>, b: map<Id, Child<T>>, parent: Id) {
    forall id :: (id in a && a[id].parent == parent) == (id in b && b[id].parent == parent)
                 && (id in a && a[id].parent == parent ==> a[id] == b[id])
  }

  lemma {:induction false} ChildrenBeyond<T>(table: map<Id, Child<T>>, parent: Id, n: Id, m: Id)
    requires IdsBelow(table, n) && n <= m
    ensures Children(table, parent, m) == Children(table, parent, n)
  {
    if n < m { ChildrenBeyond(table, parent, n, m - 1); }
  }

  lemma {:induction false} ChildrenAgree<T>(a: map<Id, Child<T>>, b: map<Id, Child<T>>, parent: Id, n: Id)
    requires SameChildren(a, b, parent)
    ensures Children(a, parent, n) == Children(b, parent, n)
  {
    if n > 0 { ChildrenAgree(a, b, parent, n - 1); }
  }

  lemma {:induction false} ChildrenFrame<T>(a: map<Id, Child<T>>, n: Id, b: map<Id, Child<T>>, m: Id, parent: Id)
    requires SameChildren(a, b, parent) && IdsBelow(a, n) && IdsBelow(b, m)
    ensures Children(a, parent, n) == Children(b, parent, m)
  {
    var top := if n <= m then m else n;
    ChildrenBeyond(a, parent, n, top);
    ChildrenBeyond(b, parent, m, top);
    ChildrenAgree(a, b, parent, top);
  }

  // INSERT of consecutive rows under one parent, keys n, n+1, ...
  function AppendRows<T>(table: map<Id, Child<T>>, n: Id, parent: Id, values: seq<T>): map<Id, Child<T>> {
    if values == [] then table
    else AppendRows(table, n, parent, values[..|values| - 1])
           [n + |values| - 1 := Child(parent, values[|values| - 1])]
  }

  lemma {:induction false} AppendedKeys<T>(table: map<Id, Child<T>>, n: Id, parent: Id, values: seq<T>)
    requires IdsBelow(table, n)
    ensures var after := AppendRows(table, n, parent, values);
            && (forall id | id in table :: id in after && after[id] == table[id])
            && (forall id | id in after && id !in table ::
                  n <= id < n + |values| && after[id] == Child(parent, values[id - n]))
  {
    if values != [] { AppendedKeys(table, n, parent, values[..|values| - 1]); }
  }

  lemma {:induction false} AppendedChildren<T>(table: map<Id, Child<T>>, n: Id, parent: Id, values: seq<T>)
    requires IdsBelow(table, n)
    ensures Children(AppendRows(table, n, parent, values), parent, n + |values|) == Children(table, parent, n) + values
  {
    if values != [] {
      var init := values[..|values| - 1];
      AppendedChildren(table, n, parent, init);
      ChildrenAgreeBelow(AppendRows(table, n, parent, init), AppendRows(table, n, parent, values), parent, n + |init|);
      assert values == init + [values[|values| - 1]];
    }
  }

  lemma {:induction false} AppendedRows<T>(table: map<Id, Child<T>>, n: Id, parent: Id, values: seq<T>)
    requires IdsBelow(table, n)
    ensures var after := AppendRows(table, n, parent, values);
            && IdsBelow(after, n + |values|)
            && Children(after, parent, n + |values|) == Children(table, parent, n) + values
            && (forall q | q != parent :: SameChildren(table, after, q))
  {
    hide Children, AppendRows;
    AppendedKeys(table, n, parent, values);
    AppendedChildren(table, n, parent, values);
  }

  lemma {:induction false} ChildrenAgreeBelow<T>(a: map<Id, Child<T>>, b: map<Id, Child<T>>, parent: Id, n: Id)
    requires forall id | id < n :: (id in a <==> id in b) && (id in a ==> a[id] == b[id])
    ensures Children(a, parent, n) == Children(b, parent, n)
  {
    if n > 0 { ChildrenAgreeBelow(a, b, parent, n - 1); }
  }

  // ---- documents --------------------------------------------------------------------------------

  datatype ExerciseDoc = ExerciseDoc(core: Exercise, title: map<string, string>, statement: map<string, string>,
                                     tests: seq<TestFile>)
  datatype LessonDoc = LessonDoc(slug: string, position: int, isPublished: bool, title: map<string, string>,
                                 body: map<string, string>, exercises: seq<ExerciseDoc>)

  function Titles(rows: seq<Translation>): Dict {
    seq(|rows|, i requires 0 <= i < |rows| => (rows[i].locale, rows[i].title))
  }

  function Markdowns(rows: seq<Translation>): Dict {
    seq(|rows|, i requires 0 <= i < |rows| => (rows[i].locale, rows[i].markdown))
  }

  function ExerciseDocOf(db: Database, e: Id): ExerciseDoc
    requires e in db.exercises
  {
    var rows := Children(db.exerciseTexts, e, db.nextId);
    ExerciseDoc(db.exercises[e].value, Fill(Titles(rows)), Fill(Markdowns(rows)), Children(db.tests, e, db.nextId))
  }

  function ExerciseDocs(db: Database, lesson: Id, n: Id): seq<ExerciseDoc> {
    if n == 0 then []
    else ExerciseDocs(db, lesson, n - 1) +
         if n - 1 in ExercisesOf(db, lesson) then [ExerciseDocOf(db, n - 1)] else []
  }

  function DocOf(db: Database, lesson: Id): LessonDoc
    requires lesson in db.lessons
  {
    var row := db.lessons[lesson];
    var rows := Children(db.lessonTexts, lesson, db.nextId);
    LessonDoc(row.slug, row.position, row.isPublished, Fill(Titles(rows)), Fill(Markdowns(rows)),
              ExerciseDocs(db, lesson, db.nextId))
  }

  function Slugs(db: Database): set<string> {
    set l | l in db.lessons :: db.lessons[l].slug
  }

  // The whole curriculum, as a map from slug to document.
  ghost function Docs(db: Database): map<string, LessonDoc> {
    map slug | slug in Slugs(db) && LessonBySlug(db, slug).Some? :: DocOf(db, LessonBySlug(db, slug).value)
  }

  ghost predicate KeysBelow(db: Database) {
    IdsBelow(db.lessonTexts, db.nextId) && IdsBelow(db.exercises, db.nextId)
    && IdsBelow(db.exerciseTexts, db.nextId) && IdsBelow(db.tests, db.nextId)
  }

  // Everything document of exercise e reads.
  ghost predicate SameExercise(a: Database, b: Database, e: Id) {
    && e in a.exercises && e in b.exercises && a.exercises[e].value == b.exercises[e].value
    && SameChildren(a.exerciseTexts, b.exerciseTexts, e) && SameChildren(a.tests, b.tests, e)
  }

  ghost predicate SameLesson(a: Database, b: Database, lesson: Id) {
    && lesson in a.lessons && lesson in b.lessons && a.lessons[lesson] == b.lessons[lesson]
    && SameChildren(a.lessonTexts, b.lessonTexts, lesson)
    && ExercisesOf(a, lesson) == ExercisesOf(b, lesson)
    && (forall e | e in ExercisesOf(a, lesson) :: SameExercise(a, b, e))
  }

  lemma {:induction false} ExerciseFrame(a: Database, b: Database, e: Id)
    requires KeysBelow(a) && KeysBelow(b) && SameExercise(a, b, e)
    ensures ExerciseDocOf(a, e) == ExerciseDocOf(b, e)
  {
    hide Fill, Titles, Markdowns, SameChildren;
    ChildrenFrame(a.exerciseTexts, a.nextId, b.exerciseTexts, b.nextId, e);
    ChildrenFrame(a.tests, a.nextId, b.tests, b.nextId, e);
  }

  lemma {:induction false} ExercisesAgree(a: Database, b: Database, lesson: Id, n: Id)
    requires KeysBelow(a) && KeysBelow(b)
    requires forall e | e < n :: e in ExercisesOf(a, lesson) <==> e in ExercisesOf(b, lesson)
    requires forall e | e in ExercisesOf(a, lesson) && e < n :: SameExercise(a, b, e)
    ensures ExerciseDocs(a, lesson, n) == ExerciseDocs(b, lesson, n)
  {
    hide KeysBelow, SameExercise, ExerciseDocOf;
    if n > 0 {
      ExercisesAgree(a, b, lesson, n - 1);
      if n - 1 in ExercisesOf(a, lesson) { ExerciseFrame(a, b, n - 1); }
    }
  }

  lemma {:induction false} ExerciseDocsBeyond(db: Database, lesson: Id, n: Id, m: Id)
    requires IdsBelow(db.exercises, n) && n <= m
    ensures ExerciseDocs(db, lesson, m) == ExerciseDocs(db, lesson, n)
  {
    if n < m { ExerciseDocsBeyond(db, lesson, n, m - 1); }
  }

  lemma {:induction false} ExerciseDocsFrame(a: Database, b: Database, lesson: Id)
    requires KeysBelow(a) && KeysBelow(b) && ExercisesOf(a, lesson) == ExercisesOf(b, lesson)
    requires forall e | e in ExercisesOf(a, lesson) :: SameExercise(a, b, e)
    ensures ExerciseDocs(a, lesson, a.nextId) == ExerciseDocs(b, lesson, b.nextId)
  {
    hide SameExercise, ExerciseDocs;
    var top := if a.nextId <= b.nextId then b.nextId else a.nextId;
    ExerciseDocsBeyond(a, lesson, a.nextId, top);
    ExerciseDocsBeyond(b, lesson, b.nextId, top);
    ExercisesAgree(a, b, lesson, top);
  }

  lemma {:induction false} LessonFrame(a: Database, b: Database, lesson: Id)
    requires KeysBelow(a) && KeysBelow(b) && SameLesson(a, b, lesson)
    ensures DocOf(a, lesson) == DocOf(b, lesson)
  {
    hide Fill, Titles, Markdowns, SameChildren, SameExercise, ExerciseDocs;
    ChildrenFrame(a.lessonTexts, a.nextId, b.lessonTexts, b.nextId, lesson);
    ExerciseDocsFrame(a, b, lesson);
  }
}
