/** Completion and sequential unlock, derived from two grouped counts and a fold
    (storage/_lessons.py and controllers/lessons.py). */
module Curriculum {
  import opened Schema

  // ---- SELECT ... WHERE is_published ORDER BY position ------------------------------

  function Published(db: Database): set<Id> {
    set l | l in db.lessons && db.lessons[l].isPublished
  }

  // Every answer the database may give: ties in position come back in any order.
  ghost predicate Lists(db: Database, ls: seq<Id>) {
    && (forall i | 0 <= i < |ls| :: ls[i] in Published(db))
    && (forall l | l in Published(db) :: l in ls)
    && (forall i, j | 0 <= i < j < |ls| :: ls[i] != ls[j])
    && (forall i, j | 0 <= i < j < |ls| :: db.lessons[ls[i]].position <= db.lessons[ls[j]].position)
  }

  ghost predicate DistinctPositions(db: Database) {
    forall l, m | l in Published(db) && m in Published(db) && l != m ::
      db.lessons[l].position != db.lessons[m].position
  }

  lemma {:induction false} ListingsAgreeUpTo(db: Database, a: seq<Id>, b: seq<Id>, n: nat)
    requires Lists(db, a) && Lists(db, b) && DistinctPositions(db)
    requires n <= |a|
    ensures n <= |b| && a[..n] == b[..n]
  {
    if n > 0 {
      var k := n - 1;
      ListingsAgreeUpTo(db, a, b, k);
      assert forall i | 0 <= i < k :: a[i] == a[..k][i] == b[..k][i] == b[i];
      assert a[k] in b;
      var i :| 0 <= i < |b| && b[i] == a[k];
      assert k <= i;
      assert b[k] in a;
      var j :| 0 <= j < |a| && a[j] == b[k];
      assert a[k] == b[k];
    }
  }

  lemma {:induction false} ListingIsUnique(db: Database, a: seq<Id>, b: seq<Id>)
    requires Lists(db, a) && Lists(db, b) && DistinctPositions(db)
    ensures a == b
  {
    ListingsAgreeUpTo(db, a, b, |a|);
    ListingsAgreeUpTo(db, b, a, |b|);
    assert a == a[..|a|] && b == b[..|b|];
  }

  lemma {:induction false} SwapTied(db: Database, ls: seq<Id>, i: nat, j: nat)
    requires Lists(db, ls) && i < j < |ls|
    requires db.lessons[ls[i]].position == db.lessons[ls[j]].position
    ensures Lists(db, ls[i := ls[j]][j := ls[i]]) && ls[i := ls[j]][j := ls[i]] != ls
  {
    var other := ls[i := ls[j]][j := ls[i]];
    forall l | l in Published(db) ensures l in other {
      var k :| 0 <= k < |ls| && ls[k] == l;
      assert other[if k == i then j else if k == j then i else k] == l;
    }
  }

  /** The order, and hence every unlock flag, is a function of the database exactly when no two
      published lessons share a position. */
  lemma {:induction false} OrderDeterminedIffPositionsDistinct(db: Database, ls: seq<Id>)
    requires Lists(db, ls)
    ensures (forall other | Lists(db, other) :: other == ls) <==> DistinctPositions(db)
  {
    if DistinctPositions(db) {
      forall other | Lists(db, other) ensures other == ls { ListingIsUnique(db, other, ls); }
    } else {
      var l, m :| l in Published(db) && m in Published(db) && l != m
                  && db.lessons[l].position == db.lessons[m].position;
      var i :| 0 <= i < |ls| && ls[i] == l;
      var j :| 0 <= j < |ls| && ls[j] == m;
      SwapTied(db, ls, if i < j then i else j, if i < j then j else i);
    }
  }

  // ---- the two grouped counts ---------------------------------------------------------

  function ExercisesOf(db: Database, lesson: Id): set<Id> {
    set e | e in db.exercises && db.exercises[e].parent == lesson
  }

  // ---- which ties matter -------------------------------------------------------------

  function Position(db: Database, lesson: Id): int {
    if lesson in db.lessons then db.lessons[lesson].position else 0
  }

  ghost predicate PositionHasWork(db: Database, position: int) {
    exists x | x in Published(db) :: Position(db, x) == position && ExercisesOf(db, x) != {}
  }

  // Every lower position holds a lesson with exercises: some listings let a user get as far as this lesson.
  ghost predicate WithinReach(db: Database, lesson: Id) {
    forall m {:trigger PositionHasWork(db, Position(db, m))} | m in Published(db)
      && Position(db, m) < Position(db, lesson) :: PositionHasWork(db, Position(db, m))
  }

  // No two published lessons share a position at or below that of a lesson with exercises within reach.
  ghost predicate TieFree(db: Database) {
    forall l, m, n | l in Published(db) && m in Published(db) && n in Published(db)
      && ExercisesOf(db, l) != {} && WithinReach(db, l)
      && m != n && Position(db, m) <= Position(db, l) && Position(db, n) <= Position(db, l) ::
      Position(db, m) != Position(db, n)
  }

  // Positions increase strictly up to index k.
  ghost predicate StrictUpTo(db: Database, ls: seq<Id>, k: nat) {
    k < |ls| && forall i, j | 0 <= i < j <= k :: Position(db, ls[i]) < Position(db, ls[j])
  }

  ghost predicate EveryLessonHasExercises(db: Database, ls: seq<Id>) {
    forall k | 0 <= k < |ls| :: ExercisesOf(db, ls[k]) != {}
  }

  lemma {:induction false} ListedPositions(db: Database, ls: seq<Id>)
    requires Lists(db, ls)
    ensures forall i | 0 <= i < |ls| :: ls[i] in Published(db)
    ensures forall i, j | 0 <= i <= j < |ls| :: Position(db, ls[i]) <= Position(db, ls[j])
  {}

  lemma {:induction false} SortedAt(db: Database, ls: seq<Id>, i: nat, j: nat)
    requires Lists(db, ls) && i <= j < |ls|
    ensures Position(db, ls[i]) <= Position(db, ls[j])
  {
    assert ls[i] in Published(db) && ls[j] in Published(db);
  }

  lemma {:induction false} ListedAt(db: Database, ls: seq<Id>, lesson: Id) returns (i: nat)
    requires Lists(db, ls) && lesson in Published(db)
    ensures i < |ls| && ls[i] == lesson
  {
    i :| 0 <= i < |ls| && ls[i] == lesson;
  }

  // Under every listing alike.
  lemma {:induction false} TieFreeIsStrict(db: Database, ls: seq<Id>, k: nat)
    requires Lists(db, ls) && TieFree(db) && k < |ls| && ExercisesOf(db, ls[k]) != {} && WithinReach(db, ls[k])
    ensures StrictUpTo(db, ls, k)
  {
    ListedPositions(db, ls);
    hide Position, ExercisesOf, WithinReach;
    forall i, j | 0 <= i < j <= k ensures Position(db, ls[i]) < Position(db, ls[j]) {
      assert ls[i] != ls[j];
    }
  }

  lemma {:induction false} SameReach(db: Database, l: Id, m: Id)
    requires WithinReach(db, l) && Position(db, m) == Position(db, l)
    ensures WithinReach(db, m)
  {}

  /** Distinct positions leave no tie that could matter; without empty lessons every tie does. */
  lemma {:induction false} TieFreeIffDistinct(db: Database)
    ensures DistinctPositions(db) ==> TieFree(db)
    ensures (forall l | l in Published(db) :: ExercisesOf(db, l) != {}) ==> (TieFree(db) <==> DistinctPositions(db))
  {
    if forall l | l in Published(db) :: ExercisesOf(db, l) != {} {
      forall l | l in Published(db) ensures WithinReach(db, l) {}
      if TieFree(db) {
        forall l, m | l in Published(db) && m in Published(db) && l != m
          ensures db.lessons[l].position != db.lessons[m].position
        {
          assert Position(db, l) == Position(db, m) ==> WithinReach(db, l);
        }
      }
    }
  }

  // ---- the query always has an answer ---------------------------------------------------

  ghost predicate Sorts(db: Database, ids: set<Id>, ls: seq<Id>) {
    && (forall i | 0 <= i < |ls| :: ls[i] in ids)
    && (forall l | l in ids :: l in ls)
    && (forall i, j | 0 <= i < j < |ls| :: ls[i] != ls[j] && Position(db, ls[i]) <= Position(db, ls[j]))
  }

  lemma {:induction false} Lowest(db: Database, ids: set<Id>) returns (l: Id)
    requires ids != {}
    ensures l in ids && forall m | m in ids :: Position(db, l) <= Position(db, m)
  {
    l :| l in ids;
    if ids != {l} {
      var m := Lowest(db, ids - {l});
      if Position(db, m) < Position(db, l) { l := m; }
    }
  }

  lemma {:induction false} Sorted(db: Database, ids: set<Id>) returns (ls: seq<Id>)
    ensures Sorts(db, ids, ls)
  {
    hide Position;
    if ids == {} {
      ls := [];
    } else {
      var l := Lowest(db, ids);
      var rest := Sorted(db, ids - {l});
      ls := [l] + rest;
      forall m | m in ids ensures m in ls { assert m == l || m in rest; }
    }
  }

  lemma {:induction false} SomeListing(db: Database) returns (ls: seq<Id>)
    ensures Lists(db, ls)
  {
    ls := Sorted(db, Published(db));
    assert forall i | 0 <= i < |ls| :: ls[i] in Published(db);
  }

  // ---- other answers of the query -----------------------------------------------------------

  function Swap(ls: seq<Id>, i: nat, j: nat): seq<Id>
    requires i < |ls| && j < |ls|
  {
    ls[i := ls[j]][j := ls[i]]
  }

  lemma {:induction false} SwapLists(db: Database, ls: seq<Id>, i: nat, j: nat)
    requires Lists(db, ls) && i < |ls| && j < |ls| && Position(db, ls[i]) == Position(db, ls[j])
    ensures Lists(db, Swap(ls, i, j))
  {
    if i < j {
      SwapTied(db, ls, i, j);
    } else if j < i {
      SwapTied(db, ls, j, i);
      assert Swap(ls, i, j) == Swap(ls, j, i);
    } else {
      assert Swap(ls, i, j) == ls;
    }
  }

  // Some listing has y directly before m.
  ghost predicate MayPrecede(db: Database, y: Id, m: Id) {
    && y in Published(db) && m in Published(db) && y != m && Position(db, y) <= Position(db, m)
    && forall z | z in Published(db) :: !(Position(db, y) < Position(db, z) < Position(db, m))
  }

  lemma {:induction false} PredecessorMayPrecede(db: Database, order: seq<Id>, i: nat)
    requires Lists(db, order) && 0 < i < |order|
    ensures MayPrecede(db, order[i - 1], order[i])
  {
    ListedPositions(db, order);
    forall z | z in Published(db)
      ensures !(Position(db, order[i - 1]) < Position(db, z) < Position(db, order[i]))
    {
      var a := ListedAt(db, order, z);
      hide Position;
      assert a <= i - 1 || i <= a;
    }
  }

  lemma {:induction false} GroupStart(db: Database, ls: seq<Id>, i: nat) returns (b: nat)
    requires i < |ls|
    ensures b <= i && Position(db, ls[b]) == Position(db, ls[i])
    ensures b == 0 || Position(db, ls[b - 1]) != Position(db, ls[i])
  {
    hide Position;
    if i == 0 || Position(db, ls[i - 1]) != Position(db, ls[i]) { b := i; } else { b := GroupStart(db, ls, i - 1); }
  }

  // Tied lessons come next to each other, either way round, in some listing.
  lemma {:induction false} TiedNeighbours(db: Database, y: Id, m: Id) returns (order: seq<Id>, i: nat)
    requires y in Published(db) && m in Published(db) && y != m && Position(db, y) == Position(db, m)
    ensures Lists(db, order) && 0 < i < |order| && order[i - 1] == y && order[i] == m
  {
    hide Lists, Position;
    var ls := SomeListing(db);
    var a := ListedAt(db, ls, y);
    var b := ListedAt(db, ls, m);
    var lo, hi := if a < b then a else b, if a < b then b else a;
    SortedAt(db, ls, lo, lo + 1);
    SortedAt(db, ls, lo + 1, hi);
    order, i := Swap(ls, lo + 1, hi), lo + 1;
    SwapLists(db, ls, lo + 1, hi);
    if order[lo] == m {
      SwapLists(db, order, lo, lo + 1);
      order := Swap(order, lo, lo + 1);
    }
  }

  lemma {:induction false} GroupNeighbours(db: Database, y: Id, m: Id) returns (order: seq<Id>, i: nat)
    requires MayPrecede(db, y, m) && Position(db, y) < Position(db, m)
    ensures Lists(db, order) && 0 < i < |order| && order[i - 1] == y && order[i] == m
  {
    hide Lists, Position;
    var ls := SomeListing(db);
    ListedPositions(db, ls);
    var a := ListedAt(db, ls, m);
    var j := ListedAt(db, ls, y);
    i := GroupStart(db, ls, a);
    var one := Swap(ls, i, a);
    SwapLists(db, ls, i, a);
    assert Position(db, ls[i - 1]) == Position(db, y);
    SwapLists(db, one, j, i - 1);
    order := Swap(one, j, i - 1);
  }

  lemma {:induction false} SomeNeighbours(db: Database, y: Id, m: Id) returns (order: seq<Id>, i: nat)
    requires MayPrecede(db, y, m)
    ensures Lists(db, order) && 0 < i < |order| && order[i - 1] == y && order[i] == m
  {
    hide Lists;
    if Position(db, y) == Position(db, m) {
      order, i := TiedNeighbours(db, y, m);
    } else {
      order, i := GroupNeighbours(db, y, m);
    }
  }

  // ---- the grouped join -------------------------------------------------------------

  // exercise JOIN progress, restricted to this user's solved rows of one lesson
  function SolvedJoin(db: Database, user: UserId, lesson: Id): set<(Id, Id)> {
    set e, p | e in db.exercises && p in db.progress && db.progress[p].exerciseId == e
               && db.progress[p].userId == user && db.progress[p].isSolved
               && db.exercises[e].parent == lesson :: (e, p)
  }

  datatype Counts = Counts(lessonId: Id, total: nat, solved: nat)

  // Lessons without exercises have no group and so no entry.
  function CountsByLesson(db: Database, user: UserId): map<Id, Counts> {
    map l | l in (set e | e in db.exercises :: db.exercises[e].parent) ::
      Counts(l, |ExercisesOf(db, l)|, |SolvedJoin(db, user, l)|)
  }

  function Lookup<V>(m: map<Id, V>, k: Id): Option<V> {
    if k in m then Some(m[k]) else None
  }

  predicate IsCompleted(counts: Option<Counts>) {
    if counts.None? || counts.value.total == 0 then false else counts.value.solved >= counts.value.total
  }

  predicate Completed(db: Database, user: UserId, lesson: Id) {
    IsCompleted(Lookup(CountsByLesson(db, user), lesson))
  }

  // ---- what completion means ------------------------------------------------------------

  function SolvedSet(db: Database, user: UserId): set<Id> {
    set p | p in db.progress && db.progress[p].userId == user && db.progress[p].isSolved
      :: db.progress[p].exerciseId
  }

  predicate FullySolved(db: Database, user: UserId, lesson: Id) {
    ExercisesOf(db, lesson) != {} && ExercisesOf(db, lesson) <= SolvedSet(db, user)
  }

  lemma {:induction false} SubsetSize<T>(a: set<T>, b: set<T>)
    requires a <= b
    ensures |a| <= |b| && (|a| == |b| ==> a == b)
  {
    assert b == a + (b - a);
    if a != b { assert b - a != {}; }
  }

  lemma {:induction false} ProjectionSize(pairs: set<(Id, Id)>, firsts: set<Id>)
    requires firsts == set x | x in pairs :: x.0
    requires forall x, y | x in pairs && y in pairs && x.0 == y.0 :: x == y
    ensures |pairs| == |firsts|
    decreases pairs
  {
    if pairs != {} {
      var x :| x in pairs;
      var rest := pairs - {x};
      assert firsts - {x.0} == set y | y in rest :: y.0;
      ProjectionSize(rest, firsts - {x.0});
      assert x.0 in firsts;
    }
  }

  lemma {:induction false} JoinFirsts(db: Database, user: UserId, lesson: Id)
    ensures (set x | x in SolvedJoin(db, user, lesson) :: x.0)
            == ExercisesOf(db, lesson) * SolvedSet(db, user)
  {
    var firsts := set x | x in SolvedJoin(db, user, lesson) :: x.0;
    forall e | e in ExercisesOf(db, lesson) * SolvedSet(db, user) ensures e in firsts {
      var p :| p in db.progress && db.progress[p].userId == user && db.progress[p].isSolved
               && db.progress[p].exerciseId == e;
      assert (e, p) in SolvedJoin(db, user, lesson);
    }
  }

  lemma {:induction false} CompletedCounts(db: Database, user: UserId, lesson: Id)
    ensures Completed(db, user, lesson)
            <==> 0 < |ExercisesOf(db, lesson)| <= |SolvedJoin(db, user, lesson)|
  {
    if e :| e in ExercisesOf(db, lesson) {
      assert lesson in CountsByLesson(db, user);
    }
  }

  lemma {:induction false} JoinSize(db: Database, user: UserId, lesson: Id)
    requires UniqueProgress(db)
    ensures |SolvedJoin(db, user, lesson)| == |ExercisesOf(db, lesson) * SolvedSet(db, user)|
  {
    var pairs := SolvedJoin(db, user, lesson);
    JoinFirsts(db, user, lesson);
    assert forall x, y | x in pairs && y in pairs && x.0 == y.0 :: x.1 == y.1;
    ProjectionSize(pairs, ExercisesOf(db, lesson) * SolvedSet(db, user));
  }

  /** The counting form of completion equals its meaning, whatever other users' rows hold. */
  lemma {:induction false} CountingMeansSolvingAll(db: Database, user: UserId, lesson: Id)
    requires UniqueProgress(db)
    ensures |SolvedJoin(db, user, lesson)| <= |ExercisesOf(db, lesson)|
    ensures Completed(db, user, lesson) <==> FullySolved(db, user, lesson)
  {
    var all, solved := ExercisesOf(db, lesson), SolvedSet(db, user);
    JoinSize(db, user, lesson);
    CompletedCounts(db, user, lesson);
    SubsetSize(all * solved, all);
    assert all * solved == all <==> all <= solved;
  }

  // ---- the fold over the ordered lessons --------------------------------------------------

  datatype LessonState = LessonState(lesson: Id, total: nat, solved: nat, isCompleted: bool, isUnlocked: bool)

  function StateAt(ls: seq<Id>, counts: map<Id, Counts>, i: nat): LessonState
    requires i < |ls|
  {
    var c := Lookup(counts, ls[i]);
    LessonState(ls[i], if c.Some? then c.value.total else 0, if c.Some? then c.value.solved else 0,
                IsCompleted(c), i == 0 || IsCompleted(Lookup(counts, ls[i - 1])))
  }

  function States(ls: seq<Id>, counts: map<Id, Counts>): (states: seq<LessonState>)
    ensures |states| == |ls|
    ensures forall i | 0 <= i < |ls| :: states[i] == StateAt(ls, counts, i)
  {
    seq(|ls|, i requires 0 <= i < |ls| => StateAt(ls, counts, i))
  }

  // The running flag of the loop is "the previous lesson was completed".
  method ComputeStates(ls: seq<Id>, counts: map<Id, Counts>) returns (states: seq<LessonState>)
    ensures states == States(ls, counts)
    ensures forall i | 0 <= i < |states| :: states[i].isUnlocked <==> i == 0 || states[i - 1].isCompleted
  {
    ghost var all := States(ls, counts);
    states := [];
    var prevCompleted := true;
    for i := 0 to |ls|
      invariant states == all[..i]
      invariant prevCompleted <==> i == 0 || IsCompleted(Lookup(counts, ls[i - 1]))
    {
      var c := Lookup(counts, ls[i]);
      var completed := IsCompleted(c);
      var state := LessonState(ls[i], if c.Some? then c.value.total else 0,
                               if c.Some? then c.value.solved else 0, completed, prevCompleted);
      assert all[..i + 1] == all[..i] + [all[i]];
      states := states + [state];
      prevCompleted := completed;
    }
  }

  function LessonStates(db: Database, user: UserId, ls: seq<Id>): seq<LessonState> {
    States(ls, CountsByLesson(db, user))
  }

  // next((s for s in states if s.lesson.id == lesson), None)
  function FindState(states: seq<LessonState>, lesson: Id): Option<LessonState> {
    if states == [] then None
    else if states[0].lesson == lesson then Some(states[0])
    else FindState(states[1..], lesson)
  }

  // The lock shared by submission, lesson view and solution reveal: a lesson outside the
  // published chain is never locked.
  predicate Locked(db: Database, user: UserId, ls: seq<Id>, lesson: Id) {
    var state := FindState(LessonStates(db, user, ls), lesson);
    state.Some? && !state.value.isUnlocked
  }

  predicate Unlocked(db: Database, user: UserId, ls: seq<Id>, k: nat) {
    k == 0 || (k <= |ls| && FullySolved(db, user, ls[k - 1]))
  }

  lemma {:induction false} FindStateAt(states: seq<LessonState>, k: nat)
    requires k < |states|
    requires forall i, j | 0 <= i < j < |states| :: states[i].lesson != states[j].lesson
    ensures FindState(states, states[k].lesson) == Some(states[k])
  {
    if k > 0 {
      assert states[1..][k - 1] == states[k];
      FindStateAt(states[1..], k - 1);
    }
  }

  lemma {:induction false} FindStateAbsent(states: seq<LessonState>, lesson: Id)
    requires forall i | 0 <= i < |states| :: states[i].lesson != lesson
    ensures FindState(states, lesson) == None
  {
    if states != [] { FindStateAbsent(states[1..], lesson); }
  }

  /** The lock in terms of solved exercises: lesson k is open iff k is 0 or every exercise of
      lesson k-1 (and there is at least one) is solved; unpublished lessons are open. */
  lemma {:induction false} LockMeaning(db: Database, user: UserId, ls: seq<Id>)
    requires UniqueProgress(db) && Lists(db, ls)
    ensures forall k | 0 <= k < |ls| :: Locked(db, user, ls, ls[k]) <==> !Unlocked(db, user, ls, k)
    ensures forall l | l !in Published(db) :: !Locked(db, user, ls, l)
  {
    var states := LessonStates(db, user, ls);
    forall k | 0 <= k < |ls| ensures Locked(db, user, ls, ls[k]) <==> !Unlocked(db, user, ls, k) {
      FindStateAt(states, k);
      assert states[k].lesson == ls[k];
      if k > 0 { CountingMeansSolvingAll(db, user, ls[k - 1]); }
    }
    forall l | l !in Published(db) ensures !Locked(db, user, ls, l) {
      assert l !in ls;
      FindStateAbsent(states, l);
    }
  }

  /** The listing holds the published lessons, each once, by position, and no other. */
  lemma {:induction false} ListingMeaning(db: Database, ls: seq<Id>)
    requires Lists(db, ls)
    ensures forall l :: l in ls <==> l in db.lessons && db.lessons[l].isPublished
    ensures forall i, j | 0 <= i < j < |ls| :: ls[i] in db.lessons && ls[j] in db.lessons && ls[i] != ls[j]
              && db.lessons[ls[i]].position <= db.lessons[ls[j]].position
  {
    forall l ensures l in ls <==> l in db.lessons && db.lessons[l].isPublished {
      assert l in Published(db) <==> l in ls;
    }
    forall i, j | 0 <= i < j < |ls| ensures ls[i] in db.lessons && ls[j] in db.lessons {
      assert ls[i] in Published(db) && ls[j] in Published(db);
    }
  }

  lemma {:induction false} UnpublishedIsNeverLocked(db: Database, user: UserId, ls: seq<Id>, l: Id)
    requires UniqueProgress(db) && Lists(db, ls) && (l !in db.lessons || !db.lessons[l].isPublished)
    ensures !Locked(db, user, ls, l)
  {
    hide Locked;
    LockMeaning(db, user, ls);
  }

  /** What the lesson states show: how many exercises the lesson has and how many of them this user has solved, none
      of either for a lesson without exercises; completed when all of one or more are solved. */
  lemma {:induction false} StatesShowCounts(db: Database, user: UserId, ls: seq<Id>, k: nat)
    requires UniqueProgress(db) && k < |ls|
    ensures var state, all := LessonStates(db, user, ls)[k], ExercisesOf(db, ls[k]);
            && state.lesson == ls[k] && state.total == |all| && state.solved == |all * SolvedSet(db, user)|
            && (state.isCompleted <==> all != {} && all <= SolvedSet(db, user))
            && (state.isUnlocked <==> k == 0 || LessonStates(db, user, ls)[k - 1].isCompleted)
  {
    hide UniqueProgress;
    var lesson := ls[k];
    JoinSize(db, user, lesson);
    CountingMeansSolvingAll(db, user, lesson);
    CountedIff(db, user, lesson);
  }

  lemma {:induction false} CountedIff(db: Database, user: UserId, lesson: Id)
    ensures lesson in CountsByLesson(db, user) <==> ExercisesOf(db, lesson) != {}
  {
    if lesson in CountsByLesson(db, user) {
      var e :| e in db.exercises && db.exercises[e].parent == lesson;
      assert e in ExercisesOf(db, lesson);
    }
    if ExercisesOf(db, lesson) != {} {
      var e :| e in ExercisesOf(db, lesson);
      assert db.exercises[e].parent in CountsByLesson(db, user);
    }
  }

  /** A lesson is open whatever listing the query returns iff every lesson that may come directly before it is fully
      solved. */
  lemma {:induction false} OpenUnderAnyListingIff(db: Database, user: UserId, m: Id)
    requires UniqueProgress(db) && m in Published(db)
    ensures (forall order | Lists(db, order) :: !Locked(db, user, order, m))
            <==> forall y | MayPrecede(db, y, m) :: FullySolved(db, user, y)
  {
    hide Lists, Locked, MayPrecede, FullySolved, UniqueProgress;
    if forall order | Lists(db, order) :: !Locked(db, user, order, m) {
      forall y | MayPrecede(db, y, m) ensures FullySolved(db, user, y) {
        var order, i := SomeNeighbours(db, y, m);
        LockMeaning(db, user, order);
      }
    }
    if forall y | MayPrecede(db, y, m) :: FullySolved(db, user, y) {
      forall order | Lists(db, order) ensures !Locked(db, user, order, m) {
        var i := ListedAt(db, order, m);
        LockMeaning(db, user, order);
        if i > 0 { PredecessorMayPrecede(db, order, i); }
      }
    }
  }
}
