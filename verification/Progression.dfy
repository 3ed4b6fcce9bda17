/** What sequential unlock guarantees about a user's curriculum, and the reads built on it:
    profile totals, the next-lesson pointer, and the solution reveal. */
module Progression {
  import opened Schema
  import opened Curriculum
  import opened Text

  // A solved exercise of published lesson k means every earlier published lesson is completed.
  ghost predicate Chain(db: Database, user: UserId, ls: seq<Id>) {
    forall e, j, k | e in SolvedSet(db, user) && 0 <= j < k < |ls| && e in ExercisesOf(db, ls[k]) ::
      FullySolved(db, user, ls[j])
  }

  // b is a later state of a curriculum nobody edits.
  ghost predicate Later(a: Database, b: Database) {
    SameCurriculum(a, b) && forall u :: SolvedSet(a, u) <= SolvedSet(b, u)
  }

  lemma {:induction false} UnlockOnlyGrows(a: Database, b: Database, user: UserId, ls: seq<Id>)
    requires Later(a, b)
    ensures forall l :: FullySolved(a, user, l) ==> FullySolved(b, user, l)
    ensures forall k | 0 <= k < |ls| :: Unlocked(a, user, ls, k) ==> Unlocked(b, user, ls, k)
  {
    forall l ensures FullySolved(a, user, l) ==> FullySolved(b, user, l) {
      assert ExercisesOf(a, l) == ExercisesOf(b, l);
    }
  }

  lemma {:induction false} OpenStaysOpen(a: Database, b: Database, user: UserId, ls: seq<Id>, lesson: Id)
    requires UniqueProgress(a) && UniqueProgress(b) && Lists(a, ls) && Lists(b, ls) && Later(a, b)
    requires !Locked(a, user, ls, lesson)
    ensures !Locked(b, user, ls, lesson)
  {
    hide Locked, FullySolved, UniqueProgress;
    LockMeaning(a, user, ls);
    LockMeaning(b, user, ls);
    UnlockOnlyGrows(a, b, user, ls);
    if lesson in Published(b) {
      var k :| 0 <= k < |ls| && ls[k] == lesson;
    }
  }

  // Exercise e may be newly solved only if its lesson, when published, is unlocked.
  ghost predicate Admissible(db: Database, user: UserId, ls: seq<Id>, e: Id) {
    forall k | 0 <= k < |ls| && e in ExercisesOf(db, ls[k]) :: Unlocked(db, user, ls, k)
  }

  // ---- the gate reads some listing, the chain is about this one --------------------------

  // Solved work cannot lie behind an empty lesson.
  lemma {:induction false} NothingBehindUnsolved(db: Database, user: UserId, ls: seq<Id>, j: nat, q: nat)
    requires Chain(db, user, ls) && j < q < |ls| && FullySolved(db, user, ls[q])
    ensures FullySolved(db, user, ls[j])
  {
    var e :| e in ExercisesOf(db, ls[q]);
  }

  // What a listing has just before a lesson lies between that lesson and any of a lower position.
  lemma {:induction false} JustBefore(db: Database, order: seq<Id>, m: nat, lower: Id)
    requires Lists(db, order) && m < |order| && lower in Published(db)
    requires Position(db, lower) < Position(db, order[m])
    ensures m > 0 && order[m - 1] in Published(db) && order[m - 1] != order[m]
    ensures order[m - 1] == lower || Position(db, lower) <= Position(db, order[m - 1])
    ensures Position(db, order[m - 1]) <= Position(db, order[m])
  {
    ListedPositions(db, order);
    var a := ListedAt(db, order, lower);
  }

  lemma {:induction false} SolvedStopsBefore(db: Database, user: UserId, ls: seq<Id>, y: Id, j: nat)
    requires Lists(db, ls) && Chain(db, user, ls) && j < |ls| && y in Published(db) && FullySolved(db, user, y)
    requires !PositionHasWork(db, Position(db, ls[j]))
    ensures Position(db, y) < Position(db, ls[j])
  {
    var q := ListedAt(db, ls, y);
    ListedPositions(db, ls);
    if j < q { NothingBehindUnsolved(db, user, ls, j, q); }
  }

  lemma {:induction false} OpenWhenTieFree(db: Database, user: UserId, ls: seq<Id>, order: seq<Id>, k: nat, m: nat)
    requires Lists(db, ls) && Lists(db, order) && TieFree(db)
    requires 0 < k < |ls| && ExercisesOf(db, ls[k]) != {} && WithinReach(db, ls[k])
    requires m < |order| && order[m] == ls[k] && Unlocked(db, user, order, m)
    ensures FullySolved(db, user, ls[k - 1])
  {
    hide Lists, Position, ExercisesOf, FullySolved, WithinReach, TieFree;
    ListedPositions(db, ls);
    TieFreeIsStrict(db, ls, k);
    JustBefore(db, order, m, ls[k - 1]);
    var q := ListedAt(db, ls, order[m - 1]);
    SolvedHasExercises(db, user, ls[q]);
    if q > k { NoLaterTie(db, ls, k, q); }
  }

  lemma {:induction false} NoLaterTie(db: Database, ls: seq<Id>, k: nat, q: nat)
    requires Lists(db, ls) && TieFree(db) && k < q < |ls|
    requires WithinReach(db, ls[k]) && ExercisesOf(db, ls[q]) != {}
    ensures Position(db, ls[k]) < Position(db, ls[q])
  {
    hide Position, ExercisesOf, WithinReach;
    ListedPositions(db, ls);
    if Position(db, ls[q]) == Position(db, ls[k]) { SameReach(db, ls[k], ls[q]); }
  }

  lemma {:induction false} SolvedHasExercises(db: Database, user: UserId, lesson: Id)
    requires FullySolved(db, user, lesson)
    ensures ExercisesOf(db, lesson) != {}
  {}

  // Whatever listing the gate reads, what it lets through is open in this one, too.
  lemma {:induction false} OpenInAnyOrder(db: Database, user: UserId, ls: seq<Id>, order: seq<Id>, k: nat, m: nat)
    requires Lists(db, ls) && Lists(db, order) && TieFree(db) && Chain(db, user, ls)
    requires k < |ls| && ExercisesOf(db, ls[k]) != {}
    requires m < |order| && order[m] == ls[k] && Unlocked(db, user, order, m)
    ensures Unlocked(db, user, ls, k)
  {
    hide FullySolved, Lists, TieFree, Chain, Position, ExercisesOf;
    if k > 0 && WithinReach(db, ls[k]) {
      OpenWhenTieFree(db, user, ls, order, k, m);
    } else if k > 0 {
      var low :| low in Published(db) && Position(db, low) < Position(db, ls[k])
                 && !PositionHasWork(db, Position(db, low));
      JustBefore(db, order, m, low);
      var j := ListedAt(db, ls, low);
      SolvedStopsBefore(db, user, ls, order[m - 1], j);
    }
  }

  /** As long as ties cannot matter, the listing the gate happens to read does not matter either. */
  lemma {:induction false} AnyOrderAdmits(db: Database, user: UserId, ls: seq<Id>, order: seq<Id>, e: Id)
    requires UniqueProgress(db) && Lists(db, ls) && Lists(db, order) && TieFree(db) && Chain(db, user, ls)
    requires e in db.exercises && !Locked(db, user, order, db.exercises[e].parent)
    ensures Admissible(db, user, ls, e)
  {
    hide TieFree, Chain, Locked, Lists;
    ListedPositions(db, ls);
    LockMeaning(db, user, order);
    forall k | 0 <= k < |ls| && e in ExercisesOf(db, ls[k]) ensures Unlocked(db, user, ls, k) {
      var m := ListedAt(db, order, ls[k]);
      OpenInAnyOrder(db, user, ls, order, k, m);
    }
  }

  /** The chain survives one more solved exercise, provided its lesson is unlocked now. */
  lemma {:induction false} SolvingKeepsChain(a: Database, b: Database, user: UserId, ls: seq<Id>, e: Id)
    requires Chain(a, user, ls) && Later(a, b) && Admissible(a, user, ls, e)
    requires SolvedSet(b, user) <= SolvedSet(a, user) + {e}
    ensures Chain(b, user, ls)
  {
    UnlockOnlyGrows(a, b, user, ls);
    forall x, j, k | x in SolvedSet(b, user) && 0 <= j < k < |ls| && x in ExercisesOf(b, ls[k])
      ensures FullySolved(b, user, ls[j])
    {
      assert x in ExercisesOf(a, ls[k]);
      if x !in SolvedSet(a, user) {
        assert x == e && FullySolved(a, user, ls[k - 1]);
        var y :| y in ExercisesOf(a, ls[k - 1]);
        assert y in SolvedSet(a, user);
        assert FullySolved(a, user, ls[j]);
      }
    }
  }

  lemma {:induction false} NoSolveKeepsChain(a: Database, b: Database, user: UserId, ls: seq<Id>)
    requires Chain(a, user, ls) && Later(a, b) && SolvedSet(b, user) <= SolvedSet(a, user)
    ensures Chain(b, user, ls)
  {
    hide FullySolved, SolvedSet;
    UnlockOnlyGrows(a, b, user, ls);
    assert forall l :: ExercisesOf(b, l) == ExercisesOf(a, l);
  }

  // ---- the frontier -----------------------------------------------------------------------

  function Count(flags: seq<bool>): nat {
    if flags == [] then 0 else Count(flags[..|flags| - 1]) + if flags[|flags| - 1] then 1 else 0
  }

  lemma {:induction false} CountOfPrefix(flags: seq<bool>)
    requires forall j, k | 0 <= j < k < |flags| :: flags[k] ==> flags[j]
    ensures Count(flags) <= |flags|
    ensures forall k | 0 <= k < |flags| :: flags[k] <==> k < Count(flags)
  {
    if flags != [] {
      var init := flags[..|flags| - 1];
      CountOfPrefix(init);
      assert forall k | 0 <= k < |init| :: flags[k] == init[k];
    }
  }

  function CompletedFlags(states: seq<LessonState>): seq<bool> {
    seq(|states|, i requires 0 <= i < |states| => states[i].isCompleted)
  }

  function UnlockedFlags(states: seq<LessonState>): seq<bool> {
    seq(|states|, i requires 0 <= i < |states| => states[i].isUnlocked)
  }

  datatype Profile = Profile(lessonsCompleted: nat, lessonsTotal: nat)

  function GetProfile(db: Database, user: UserId, ls: seq<Id>): Profile {
    var states := LessonStates(db, user, ls);
    Profile(Count(CompletedFlags(states)), |states|)
  }

  lemma {:induction false} CompletedFlagMeaning(db: Database, user: UserId, ls: seq<Id>, k: nat)
    requires UniqueProgress(db) && k < |ls|
    ensures LessonStates(db, user, ls)[k].isCompleted <==> FullySolved(db, user, ls[k])
  {
    CountingMeansSolvingAll(db, user, ls[k]);
  }

  function TrueAt(flags: seq<bool>): set<int> {
    set i | 0 <= i < |flags| && flags[i]
  }

  lemma {:induction false} CountIsSize(flags: seq<bool>)
    ensures Count(flags) == |TrueAt(flags)|
  {
    if flags != [] {
      var init, n := flags[..|flags| - 1], |flags| - 1;
      CountIsSize(init);
      assert TrueAt(flags) == TrueAt(init) + if flags[n] then {n} else {};
      assert n !in TrueAt(init);
    }
  }

  /** The profile's totals: the published lessons, and those of them that the user has fully solved. */
  lemma {:induction false} ProfileMeaning(db: Database, user: UserId, ls: seq<Id>)
    requires UniqueProgress(db) && Lists(db, ls)
    ensures GetProfile(db, user, ls).lessonsTotal == |set l | l in db.lessons && db.lessons[l].isPublished|
    ensures GetProfile(db, user, ls).lessonsCompleted
            == |set k | 0 <= k < |ls| && FullySolved(db, user, ls[k])|
  {
    hide Lists, UniqueProgress, FullySolved, LessonStates;
    ListingSize(db, ls);
    PublishedMeaning(db);
    var flags := CompletedFlags(LessonStates(db, user, ls));
    StatesAreListed(db, user, ls);
    CountIsSize(flags);
    forall k | 0 <= k < |ls| ensures flags[k] <==> FullySolved(db, user, ls[k]) {
      CompletedFlagMeaning(db, user, ls, k);
    }
    assert TrueAt(flags) == set k | 0 <= k < |ls| && FullySolved(db, user, ls[k]);
  }

  lemma {:induction false} PublishedMeaning(db: Database)
    ensures Published(db) == set l | l in db.lessons && db.lessons[l].isPublished
  {}

  lemma {:induction false} StatesAreListed(db: Database, user: UserId, ls: seq<Id>)
    ensures |LessonStates(db, user, ls)| == |ls|
  {}

  lemma {:induction false} CompletedIsPrefix(db: Database, user: UserId, ls: seq<Id>)
    requires UniqueProgress(db) && Chain(db, user, ls)
    ensures var done := GetProfile(db, user, ls).lessonsCompleted;
            && done <= |ls|
            && (forall k | 0 <= k < |ls| :: LessonStates(db, user, ls)[k].isCompleted <==> k < done)
  {
    var states := LessonStates(db, user, ls);
    var flags := CompletedFlags(states);
    forall j, k | 0 <= j < k < |flags| && flags[k] ensures flags[j] {
      CompletedFlagMeaning(db, user, ls, j);
      CompletedFlagMeaning(db, user, ls, k);
      var e :| e in ExercisesOf(db, ls[k]);
      assert e in SolvedSet(db, user);
    }
    CountOfPrefix(flags);
    assert forall k | 0 <= k < |ls| :: flags[k] == states[k].isCompleted;
  }

  lemma {:induction false} CountUpTo(flags: seq<bool>, n: nat)
    requires n <= |flags|
    requires forall k | 0 <= k < |flags| :: flags[k] <==> k < n
    ensures Count(flags) == n
  {
    if flags != [] {
      var init := flags[..|flags| - 1];
      assert forall k | 0 <= k < |init| :: init[k] == flags[k];
      CountUpTo(init, if n == |flags| then n - 1 else n);
    }
  }

  /** Completed lessons are a prefix whose length the profile reports; exactly the lessons up to
      and including the first incomplete one are unlocked. */
  lemma {:induction false} Frontier(db: Database, user: UserId, ls: seq<Id>)
    requires UniqueProgress(db) && Chain(db, user, ls)
    ensures var states := LessonStates(db, user, ls);
            var done := GetProfile(db, user, ls).lessonsCompleted;
            && done <= |ls|
            && (forall k | 0 <= k < |ls| :: states[k].isCompleted <==> k < done)
            && (forall k | 0 <= k < |ls| :: states[k].isUnlocked <==> k <= done)
            && Count(UnlockedFlags(states)) == (if done < |ls| then done + 1 else |ls|)
            && (forall k | 0 <= k < |ls| :: states[k].isUnlocked && !states[k].isCompleted ==> k == done)
  {
    CompletedIsPrefix(db, user, ls);
    var states := LessonStates(db, user, ls);
    var done := GetProfile(db, user, ls).lessonsCompleted;
    forall k | 0 <= k < |ls| ensures states[k].isUnlocked <==> k <= done {
      if k > 0 { assert states[k].isUnlocked == states[k - 1].isCompleted; }
    }
    CountUpTo(UnlockedFlags(states), if done < |ls| then done + 1 else |ls|);
  }

  // ---- next_slug ----------------------------------------------------------------------------

  method NextSlug(db: Database, states: seq<LessonState>, lesson: Id) returns (slug: Option<string>)
    requires forall i | 0 <= i < |states| :: states[i].lesson in db.lessons
    ensures slug == NextSlugOf(db, states, lesson)
  {
    for i := 0 to |states|
      invariant NextSlugOf(db, states, lesson) == NextSlugOf(db, states[i..], lesson)
    {
      assert states[i..][1..] == states[i + 1..];
      if states[i].lesson == lesson {
        return if i + 1 < |states| then Some(db.lessons[states[i + 1].lesson].slug) else None;
      }
    }
    return None;
  }

  function NextSlugOf(db: Database, states: seq<LessonState>, lesson: Id): Option<string>
    requires forall i | 0 <= i < |states| :: states[i].lesson in db.lessons
  {
    if states == [] then None
    else if states[0].lesson != lesson then NextSlugOf(db, states[1..], lesson)
    else if |states| > 1 then Some(db.lessons[states[1].lesson].slug) else None
  }

  lemma {:induction false} NextSlugAt(db: Database, states: seq<LessonState>, k: nat)
    requires forall i | 0 <= i < |states| :: states[i].lesson in db.lessons
    requires forall i, j | 0 <= i < j < |states| :: states[i].lesson != states[j].lesson
    requires k < |states|
    ensures NextSlugOf(db, states, states[k].lesson)
            == if k + 1 < |states| then Some(db.lessons[states[k + 1].lesson].slug) else None
  {
    if k > 0 {
      assert states[1..][k - 1] == states[k];
      NextSlugAt(db, states[1..], k - 1);
    }
  }

  ghost function LessonBySlug(db: Database, slug: string): Option<Id> {
    if l :| l in db.lessons && db.lessons[l].slug == slug then Some(l) else None
  }

  datatype View = Missing | LessonLocked | View(lesson: Id, isCompleted: bool, nextSlug: Option<string>)

  ghost function GetLesson(db: Database, user: UserId, ls: seq<Id>, slug: string): View
    requires Lists(db, ls)
  {
    match LessonBySlug(db, slug)
    case None => Missing
    case Some(lesson) =>
      var states := LessonStates(db, user, ls);
      var state := FindState(states, lesson);
      if state.Some? && !state.value.isUnlocked then LessonLocked
      else View(lesson, state.Some? && state.value.isCompleted, NextSlugOf(db, states, lesson))
  }

  // Each request gets a listing of its own: orders[0] for the first pointer, orders[k] for the k-th lesson read.
  ghost predicate Answers(db: Database, orders: seq<seq<Id>>) {
    forall i | 0 <= i < |orders| :: Lists(db, orders[i])
  }

  // The lessons met by following the next slug, n times over, and where the pointer then stands.
  ghost function Follow(db: Database, user: UserId, orders: seq<seq<Id>>, n: nat): (seq<Id>, Option<string>)
    requires Answers(db, orders) && n < |orders|
  {
    if n == 0 then ([], FirstSlug(db, orders[0])) else
    var (visited, at) := Follow(db, user, orders, n - 1);
    var lesson := if at.None? then None else LessonBySlug(db, at.value);
    if lesson.None? then (visited, None)
    else (visited + [lesson.value], NextSlugOf(db, LessonStates(db, user, orders[n]), lesson.value))
  }

  ghost function FirstSlug(db: Database, order: seq<Id>): Option<string>
    requires Lists(db, order)
  {
    if order == [] then None else Some(db.lessons[order[0]].slug)
  }

  lemma {:induction false} NextOfListed(db: Database, user: UserId, ls: seq<Id>, k: nat)
    requires Lists(db, ls) && UniqueSlugs(db) && k < |ls|
    ensures LessonBySlug(db, db.lessons[ls[k]].slug) == Some(ls[k])
    ensures NextSlugOf(db, LessonStates(db, user, ls), ls[k])
            == if k + 1 < |ls| then Some(db.lessons[ls[k + 1]].slug) else None
  {
    hide CountsByLesson;
    assert ls[k] in Published(db);
    NextSlugAt(db, LessonStates(db, user, ls), k);
  }

  lemma {:induction false} FollowOneListing(db: Database, user: UserId, ls: seq<Id>, orders: seq<seq<Id>>, n: nat)
    requires Lists(db, ls) && UniqueSlugs(db) && Answers(db, orders) && n < |orders|
    requires forall i | 0 <= i < |orders| :: orders[i] == ls
    ensures n <= |ls| ==> Follow(db, user, orders, n).0 == ls[..n]
    ensures n >= |ls| ==> Follow(db, user, orders, n) == (ls, None)
    ensures n < |ls| ==> Follow(db, user, orders, n).1 == Some(db.lessons[ls[n]].slug)
  {
    hide LessonBySlug, NextSlugOf, LessonStates, UniqueSlugs, Lists;
    if n > 0 {
      FollowOneListing(db, user, ls, orders, n - 1);
      if n <= |ls| {
        NextOfListed(db, user, ls, n - 1);
        assert ls[..n] == ls[..n - 1] + [ls[n - 1]];
      }
    }
    assert ls[..|ls|] == ls;
  }

  lemma {:induction false} AnswersAgree(db: Database, ls: seq<Id>, orders: seq<seq<Id>>)
    requires Lists(db, ls) && Answers(db, orders) && DistinctPositions(db)
    ensures forall i | 0 <= i < |orders| :: orders[i] == ls
  {
    hide Lists, DistinctPositions;
    forall i | 0 <= i < |orders| ensures orders[i] == ls { ListingIsUnique(db, orders[i], ls); }
  }

  /** With distinct positions, following next_slug from the first lesson visits the published lessons in order, then
      stops, whatever listing each request gets. */
  lemma {:induction false} NextSlugWalksTheCurriculum(db: Database, user: UserId, ls: seq<Id>, orders: seq<seq<Id>>,
                                                     n: nat)
    requires Lists(db, ls) && UniqueSlugs(db) && Answers(db, orders) && n < |orders| && DistinctPositions(db)
    ensures n <= |ls| ==> Follow(db, user, orders, n).0 == ls[..n]
    ensures n >= |ls| ==> Follow(db, user, orders, n) == (ls, None)
    ensures n < |ls| ==> Follow(db, user, orders, n).1 == Some(db.lessons[ls[n]].slug)
  {
    AnswersAgree(db, ls, orders);
    FollowOneListing(db, user, ls, orders, n);
  }

  // Every walk of enough requests ends having met exactly these lessons, in this order.
  ghost predicate AlwaysWalks(db: Database, user: UserId, ls: seq<Id>) {
    forall orders | Answers(db, orders) && |orders| > |ls| :: Follow(db, user, orders, |ls|).0 == ls
  }

  /** And only with distinct positions: otherwise one and the same curriculum is walked in more than one order. */
  lemma {:induction false} WalkIsDeterminedIff(db: Database, user: UserId, ls: seq<Id>)
    requires Lists(db, ls) && UniqueSlugs(db)
    ensures AlwaysWalks(db, user, ls) <==> DistinctPositions(db)
  {
    hide Lists, UniqueSlugs, DistinctPositions, Follow;
    OrderDeterminedIffPositionsDistinct(db, ls);
    assert ls[..|ls|] == ls;
    if DistinctPositions(db) {
      forall orders | Answers(db, orders) && |orders| > |ls| ensures Follow(db, user, orders, |ls|).0 == ls {
        NextSlugWalksTheCurriculum(db, user, ls, orders, |ls|);
      }
    } else {
      var other :| Lists(db, other) && other != ls;
      ListingsHaveOneLength(db, ls, other);
      var orders := seq(|ls| + 1, i => other);
      assert Answers(db, orders);
      FollowOneListing(db, user, other, orders, |ls|);
    }
  }

  lemma {:induction false} ListingsHaveOneLength(db: Database, a: seq<Id>, b: seq<Id>)
    requires Lists(db, a) && Lists(db, b)
    ensures |a| == |b|
  {
    ListingSize(db, a);
    ListingSize(db, b);
  }

  function Elements(ls: seq<Id>): set<Id> {
    set l | l in ls
  }

  lemma {:induction false} ListingSize(db: Database, ls: seq<Id>)
    requires Lists(db, ls)
    ensures |ls| == |Published(db)|
  {
    assert Elements(ls) == Published(db);
    hide Published, Elements;
    DistinctSize(ls);
  }

  lemma {:induction false} DistinctSize(ls: seq<Id>)
    requires forall i, j | 0 <= i < j < |ls| :: ls[i] != ls[j]
    ensures |ls| == |Elements(ls)|
  {
    if ls != [] {
      var init, last := ls[..|ls| - 1], ls[|ls| - 1];
      DistinctSize(init);
      LastElement(init, last);
      assert ls == init + [last];
      assert last !in init;
    }
  }

  lemma {:induction false} LastElement(init: seq<Id>, last: Id)
    ensures Elements(init + [last]) == Elements(init) + {last}
    ensures last in Elements(init) <==> last in init
  {}

  // The lessons a user gets to read by opening the first one and then, n - 1 times, the next slug of the view; a
  // lesson refused as locked ends it.
  ghost function Walk(db: Database, user: UserId, orders: seq<seq<Id>>, n: nat): (seq<Id>, Option<string>)
    requires Answers(db, orders) && n < |orders|
  {
    if n == 0 then ([], FirstSlug(db, orders[0])) else
    var (visited, at) := Walk(db, user, orders, n - 1);
    if at.None? then (visited, None)
    else match GetLesson(db, user, orders[n], at.value)
         case View(lesson, _, next) => (visited + [lesson], next)
         case _ => (visited, None)
  }

  /** The view of a published lesson: refused iff it is not first and its predecessor has an unsolved exercise or none
      at all; otherwise whether it is fully solved, and the slug listed next. */
  lemma {:induction false} ViewOfListed(db: Database, user: UserId, ls: seq<Id>, k: nat)
    requires Lists(db, ls) && UniqueSlugs(db) && UniqueProgress(db) && k < |ls|
    ensures GetLesson(db, user, ls, db.lessons[ls[k]].slug) ==
              if Unlocked(db, user, ls, k) then
                View(ls[k], FullySolved(db, user, ls[k]),
                     if k + 1 < |ls| then Some(db.lessons[ls[k + 1]].slug) else None)
              else LessonLocked
  {
    hide CountsByLesson, IsCompleted, LessonBySlug, NextSlugOf, UniqueSlugs, FullySolved;
    NextOfListed(db, user, ls, k);
    FindStateAt(LessonStates(db, user, ls), k);
    CompletedFlagMeaning(db, user, ls, k);
    if k > 0 { CompletedFlagMeaning(db, user, ls, k - 1); }
  }

  lemma {:induction false} NextSlugAbsent(db: Database, states: seq<LessonState>, lesson: Id)
    requires forall i | 0 <= i < |states| :: states[i].lesson in db.lessons && states[i].lesson != lesson
    ensures NextSlugOf(db, states, lesson) == None
  {
    if states != [] { NextSlugAbsent(db, states[1..], lesson); }
  }

  /** No lesson with the slug: missing. An unpublished one: read, neither locked nor completed, with no next slug. */
  lemma {:induction false} ViewOffTheChain(db: Database, user: UserId, ls: seq<Id>, slug: string)
    requires Lists(db, ls) && UniqueSlugs(db)
    ensures (forall l | l in db.lessons :: db.lessons[l].slug != slug) <==> GetLesson(db, user, ls, slug) == Missing
    ensures forall l | l in db.lessons && db.lessons[l].slug == slug && !db.lessons[l].isPublished ::
              GetLesson(db, user, ls, slug) == View(l, false, None)
  {
    hide LessonStates, NextSlugOf;
    ListingMeaning(db, ls);
    forall l | l in db.lessons && db.lessons[l].slug == slug && !db.lessons[l].isPublished
      ensures GetLesson(db, user, ls, slug) == View(l, false, None) {
      assert LessonBySlug(db, slug) == Some(l) && l !in ls;
      UnlistedState(db, user, ls, l);
    }
  }

  lemma {:induction false} UnlistedState(db: Database, user: UserId, ls: seq<Id>, l: Id)
    requires Lists(db, ls) && l !in ls
    ensures FindState(LessonStates(db, user, ls), l) == None
    ensures NextSlugOf(db, LessonStates(db, user, ls), l) == None
  {
    hide CountsByLesson, IsCompleted;
    ListingMeaning(db, ls);
    var states := LessonStates(db, user, ls);
    assert forall i | 0 <= i < |states| :: states[i].lesson == ls[i] && ls[i] in ls;
    FindStateAbsent(states, l);
    NextSlugAbsent(db, states, l);
  }

  /** With distinct positions, walking on by next_slug reads exactly the unlocked lessons, in order, whatever listing
      each request gets: those completed and the one after them; the next one is refused. */
  lemma {:induction false} WalkReadsTheUnlocked(db: Database, user: UserId, ls: seq<Id>, orders: seq<seq<Id>>, n: nat)
    requires Lists(db, ls) && UniqueSlugs(db) && UniqueProgress(db) && Chain(db, user, ls)
    requires Answers(db, orders) && n < |orders| && DistinctPositions(db)
    ensures var open := Count(UnlockedFlags(LessonStates(db, user, ls)));
            && open <= |ls|
            && Walk(db, user, orders, n).0 == ls[..if n <= open then n else open]
            && (Walk(db, user, orders, n).1.Some? ==>
                  n < |ls| && n <= open && Walk(db, user, orders, n).1 == Some(db.lessons[ls[n]].slug))
            && (n <= open && n < |ls| ==> Walk(db, user, orders, n).1.Some?)
  {
    hide LessonStates, UniqueSlugs, UniqueProgress, Chain, GetLesson, FullySolved, Lists, DistinctPositions;
    AnswersAgree(db, ls, orders);
    Frontier(db, user, ls);
    if n > 0 {
      WalkReadsTheUnlocked(db, user, ls, orders, n - 1);
      if n <= |ls| {
        ViewOfListed(db, user, ls, n - 1);
        UnlockedFlagMeaning(db, user, ls, n - 1);
        assert ls[..n] == ls[..n - 1] + [ls[n - 1]];
      }
    }
  }

  lemma {:induction false} UnlockedFlagMeaning(db: Database, user: UserId, ls: seq<Id>, k: nat)
    requires UniqueProgress(db) && k < |ls|
    ensures LessonStates(db, user, ls)[k].isUnlocked <==> Unlocked(db, user, ls, k)
  {
    if k > 0 { CompletedFlagMeaning(db, user, ls, k - 1); }
  }

  lemma {:induction false} CompletedViewIsInChain(db: Database, user: UserId, ls: seq<Id>, slug: string)
      returns (k: nat)
    requires Lists(db, ls) && UniqueProgress(db)
    requires var v := GetLesson(db, user, ls, slug); v.View? && v.isCompleted && v.nextSlug.Some?
    ensures k + 1 < |ls| && FullySolved(db, user, ls[k])
    ensures GetLesson(db, user, ls, slug).nextSlug == Some(db.lessons[ls[k + 1]].slug)
  {
    hide CountsByLesson, IsCompleted;
    var v := GetLesson(db, user, ls, slug);
    var states := LessonStates(db, user, ls);
    assert v.lesson in ls by {
      if v.lesson !in ls { FindStateAbsent(states, v.lesson); }
    }
    k :| 0 <= k < |ls| && ls[k] == v.lesson;
    FindStateAt(states, k);
    NextSlugAt(db, states, k);
    CountingMeansSolvingAll(db, user, ls[k]);
  }

  lemma {:induction false} CompletedNext(db: Database, user: UserId, ls: seq<Id>, slug: string) returns (m: Id)
    requires Lists(db, ls) && UniqueSlugs(db) && UniqueProgress(db)
    requires var v := GetLesson(db, user, ls, slug); v.View? && v.isCompleted && v.nextSlug.Some?
    ensures m in Published(db) && !Locked(db, user, ls, m)
    ensures GetLesson(db, user, ls, slug).nextSlug == Some(db.lessons[m].slug)
  {
    hide LessonBySlug, NextSlugOf, LessonStates, UniqueSlugs, Locked, FullySolved;
    var k := CompletedViewIsInChain(db, user, ls, slug);
    m := ls[k + 1];
    LockMeaning(db, user, ls);
    assert Unlocked(db, user, ls, k + 1);
  }

  lemma {:induction false} ViewedIffUnlocked(db: Database, user: UserId, order: seq<Id>, m: Id)
    requires Lists(db, order) && UniqueSlugs(db) && m in db.lessons
    ensures GetLesson(db, user, order, db.lessons[m].slug).View? <==> !Locked(db, user, order, m)
  {
    hide LessonStates, FindState, NextSlugOf;
    assert LessonBySlug(db, db.lessons[m].slug) == Some(m);
  }

  /** With distinct positions, a completed lesson's next pointer is never refused as locked, now or in any later state,
      whatever listing that later request gets. */
  lemma {:induction false} CompletedLessonOpensNext(a: Database, b: Database, user: UserId, ls: seq<Id>,
                                                   other: seq<Id>, slug: string)
    requires Lists(a, ls) && Lists(b, other) && DistinctPositions(a) && UniqueSlugs(a) && Later(a, b)
    requires UniqueProgress(a) && UniqueProgress(b)
    requires var v := GetLesson(a, user, ls, slug); v.View? && v.isCompleted && v.nextSlug.Some?
    ensures GetLesson(b, user, other, GetLesson(a, user, ls, slug).nextSlug.value).View?
  {
    hide GetLesson, Locked, DistinctPositions, UniqueProgress, UniqueSlugs, Lists;
    var m := CompletedNext(a, user, ls, slug);
    ListsLater(a, b, other);
    ListingIsUnique(a, ls, other);
    OpenStaysOpen(a, b, user, ls, m);
    SlugsLater(a, b);
    ViewedIffUnlocked(b, user, other, m);
  }

  lemma {:induction false} ListsLater(a: Database, b: Database, order: seq<Id>)
    requires SameCurriculum(a, b)
    ensures Lists(a, order) <==> Lists(b, order)
  {
    assert Published(a) == Published(b);
  }

  lemma {:induction false} SlugsLater(a: Database, b: Database)
    requires SameCurriculum(a, b) && UniqueSlugs(a)
    ensures UniqueSlugs(b)
  {}

  // The next lesson is read whenever it is asked for, under whatever listing.
  ghost predicate AlwaysOpens(a: Database, user: UserId, slug: string) {
    forall b, other | Later(a, b) && UniqueProgress(b) && Lists(b, other) :: GetLesson(b, user, other, slug).View?
  }

  /** With ties, exactly when every lesson that may come directly before the next one is fully solved. */
  lemma {:induction false} NextAlwaysOpensIff(a: Database, user: UserId, ls: seq<Id>, slug: string, m: Id)
    requires Lists(a, ls) && UniqueSlugs(a) && UniqueProgress(a) && m in Published(a)
    requires var v := GetLesson(a, user, ls, slug); v.View? && v.isCompleted && v.nextSlug == Some(a.lessons[m].slug)
    ensures AlwaysOpens(a, user, a.lessons[m].slug) <==> forall y | MayPrecede(a, y, m) :: FullySolved(a, user, y)
  {
    hide GetLesson, Locked, UniqueProgress, UniqueSlugs, Lists, MayPrecede, FullySolved;
    OpenUnderAnyListingIff(a, user, m);
    var next := a.lessons[m].slug;
    if AlwaysOpens(a, user, next) {
      forall order | Lists(a, order) ensures !Locked(a, user, order, m) {
        assert Later(a, a);
        ViewedIffUnlocked(a, user, order, m);
      }
    }
    if forall order | Lists(a, order) :: !Locked(a, user, order, m) {
      forall b, other | Later(a, b) && UniqueProgress(b) && Lists(b, other)
        ensures GetLesson(b, user, other, next).View?
      {
        ListsLater(a, b, other);
        OpenStaysOpen(a, b, user, other, m);
        SlugsLater(a, b);
        ViewedIffUnlocked(b, user, other, m);
      }
    }
  }

  // ---- progress lookup and solution reveal ------------------------------------------------------

  ghost function RowOf(table: map<Id, Progress>, user: UserId, e: Id): Option<Id> {
    if p :| p in table && table[p].userId == user && table[p].exerciseId == e then Some(p) else None
  }

  ghost function Row(table: map<Id, Progress>, user: UserId, e: Id): Option<Progress> {
    var p := RowOf(table, user, e);
    if p.None? then None else Some(table[p.value])
  }

  lemma {:induction false} RowDecidesSolved(db: Database, user: UserId, e: Id)
    requires UniqueProgress(db)
    ensures e in SolvedSet(db, user)
            <==> Row(db.progress, user, e).Some? && Row(db.progress, user, e).value.isSolved
  {}

  datatype RevealError = ExerciseNotFound | RevealLocked | NotSolved | NoReferenceSolution

  ghost function Reveal(db: Database, user: UserId, ls: seq<Id>, e: Id): Result<string, RevealError> {
    if e !in db.exercises then Failure(ExerciseNotFound)
    else if Locked(db, user, ls, db.exercises[e].parent) then Failure(RevealLocked)
    else
      var row := Row(db.progress, user, e);
      if row.None? || !row.value.isSolved then Failure(NotSolved)
      else
        var code := db.exercises[e].value.solutionCode;
        if code.None? || Blank(code.value) then Failure(NoReferenceSolution) else Success(code.value)
  }

  // A stored reference solution that is more than white space.
  ghost predicate HasSolution(db: Database, e: Id, code: string) {
    && e in db.exercises && db.exercises[e].value.solutionCode == Some(code)
    && exists i :: 0 <= i < |code| && !IsSpace(code[i])
  }

  /** Each answer of the reveal, in any database: not found iff there is no such exercise; locked iff its lesson is;
      not solved iff it is open and this user has not solved it; no solution iff solved with nothing but white space
      stored; and the stored code otherwise. */
  lemma {:induction false} RevealAnswers(db: Database, user: UserId, ls: seq<Id>, e: Id)
    requires UniqueProgress(db)
    ensures Reveal(db, user, ls, e) == Failure(ExerciseNotFound) <==> e !in db.exercises
    ensures Reveal(db, user, ls, e) == Failure(RevealLocked)
            <==> e in db.exercises && Locked(db, user, ls, db.exercises[e].parent)
    ensures Reveal(db, user, ls, e) == Failure(NotSolved)
            <==> e in db.exercises && !Locked(db, user, ls, db.exercises[e].parent) && e !in SolvedSet(db, user)
    ensures forall code :: (Reveal(db, user, ls, e) == Success(code)
              <==> e in db.exercises && !Locked(db, user, ls, db.exercises[e].parent) && e in SolvedSet(db, user)
                   && HasSolution(db, e, code))
  {
    hide Locked, Blank, RowOf, SolvedSet, UniqueProgress, IsSpace;
    RowDecidesSolved(db, user, e);
    forall code { BlankMeaning(code); }
  }

  /** While the chain holds, the reveal answers with the stored code exactly when the user has
      solved the exercise and the code is more than white space; the lock never hides a solved exercise. */
  lemma {:induction false} RevealExactlyWhenSolved(db: Database, user: UserId, ls: seq<Id>, e: Id, code: string)
    requires UniqueProgress(db) && Lists(db, ls) && Chain(db, user, ls)
    ensures Reveal(db, user, ls, e) == Success(code) <==> e in SolvedSet(db, user) && HasSolution(db, e, code)
    ensures e in SolvedSet(db, user) ==> Reveal(db, user, ls, e) != Failure(RevealLocked)
  {
    hide Reveal, Locked, UniqueProgress, HasSolution;
    RevealAnswers(db, user, ls, e);
    if e in db.exercises && e in SolvedSet(db, user) { SolvedIsOpen(db, user, ls, e); }
    HasExercise(db, e, code);
  }

  lemma {:induction false} HasExercise(db: Database, e: Id, code: string)
    ensures HasSolution(db, e, code) ==> e in db.exercises
  {}

  lemma {:induction false} SolvedIsOpen(db: Database, user: UserId, ls: seq<Id>, e: Id)
    requires UniqueProgress(db) && Lists(db, ls) && Chain(db, user, ls)
    requires e in db.exercises && e in SolvedSet(db, user)
    ensures !Locked(db, user, ls, db.exercises[e].parent)
  {
    hide Locked, UniqueProgress;
    LockMeaning(db, user, ls);
    var lesson := db.exercises[e].parent;
    if lesson in Published(db) {
      var k := ListedAt(db, ls, lesson);
      assert e in ExercisesOf(db, ls[k]);
      if k > 0 { assert FullySolved(db, user, ls[k - 1]); }
      assert Unlocked(db, user, ls, k);
    }
  }
}
