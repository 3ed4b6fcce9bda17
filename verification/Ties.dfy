/** Exactly which ties in position break sequential unlock: storage/_lessons.py orders by position alone,
    and the gate looks at the lesson listed just before. */
module Ties {
  import opened Schema
  import opened SandboxResult
  import opened Curriculum
  import opened Progression
  import opened Grading
  import opened Interleaving
  import opened Reachable
  import opened Solo
  import opened Completion

  // ---- one run under two listings -----------------------------------------------------------

  // The request for e is let through, under `order`, once the first n lessons of `ls` are finished.
  ghost predicate OpensAfter(db: Database, ls: seq<Id>, n: nat, order: seq<Id>, m: nat, e: Id) {
    && n <= |ls| && EveryLessonHasExercises(db, ls[..n])
    && e in db.exercises && m < |order| && order[m] == db.exercises[e].parent
    && (m == 0 || order[m - 1] in ls[..n])
  }

  lemma {:induction false} OpenAfterPrefix(db: Database, now: Database, user: UserId, ls: seq<Id>, n: nat,
                                          order: seq<Id>, m: nat, e: Id)
    requires OpensAfter(db, ls, n, order, m, e) && Valid(now) && Lists(now, order) && SameCurriculum(db, now)
    requires Unsolved(now, user, ls[..n]) == {}
    ensures e in now.exercises && !Locked(now, user, order, now.exercises[e].parent)
  {
    hide Locked, Lists, ContentTables;
    LockMeaning(now, user, order);
    if m > 0 {
      var i :| 0 <= i < n && ls[..n][i] == order[m - 1];
      assert ExercisesOf(now, order[m - 1]) == ExercisesOf(db, ls[..n][i]);
      forall x | x in ExercisesOf(now, order[m - 1]) ensures x in SolvedSet(now, user) {
        assert x !in Unsolved(now, user, ls[..n]);
      }
    }
  }

  lemma {:induction false} UnusedIsChained(db: Database, user: UserId, ls: seq<Id>)
    requires Unused(db)
    ensures Valid(db) && Chain(db, user, ls) && SolvedSet(db, user) == {}
  {}

  lemma {:induction false} PassUnder(db: Database, ls: seq<Id>, n: nat, order: seq<Id>, m: nat, user: UserId, e: Id)
      returns (acts: seq<Action>)
    requires Unused(db) && Lists(db, ls) && Lists(db, order) && OpensAfter(db, ls, n, order, m, e)
    ensures var after := Exec(Start(db), acts).db;
            SameCurriculum(db, after) && SolvedSet(after, user) == Unsolved(db, user, ls[..n]) + {e}
  {
    hide Unused, Chain, Exec, Lists, Locked, Script, SolvedSet, Submit, Unsolved, EveryLessonHasExercises,
         ContentTables;
    UnusedIsChained(db, user, ls);
    var rs := CanFinish(db, ls, n, user);
    var first := SerialRunsEmbed(Start(db), ls, rs, 0);
    var s := Exec(Start(db), first);
    var r := Request(user, e, "", PASS, 0);
    SameListing(db, s.db, order);
    OpenAfterPrefix(db, s.db, user, ls, n, order, m, e);
    SoloIsSubmit(s, order, |rs|, r);
    AdmittedIsGraded(s.db, order, r);
    SubmitKeepsConstraints(s.db, order, r);
    SubmitSolves(s.db, order, r);
    PassSolves(s.db, order, r);
    ExecAppend(Start(db), first, Script(order, |rs|, r));
    acts := first + Script(order, |rs|, r);
  }

  // Lesson j is behind the finished ones and has none of its exercises solved.
  lemma {:induction false} UntouchedLesson(db: Database, after: Database, user: UserId, ls: seq<Id>, n: nat, j: nat,
                                          q: nat, e: Id)
    requires Lists(db, ls) && SameCurriculum(db, after) && n <= j < q < |ls| && e in ExercisesOf(db, ls[q])
    requires SolvedSet(after, user) == Unsolved(db, user, ls[..n]) + {e}
    ensures !FullySolved(after, user, ls[j])
  {
    assert ls[j] !in ls[..n];
    assert ExercisesOf(after, ls[j]) == ExercisesOf(db, ls[j]);
    assert forall x | x in ExercisesOf(db, ls[j]) :: x !in SolvedSet(after, user);
  }

  lemma {:induction false} Overtakes(db: Database, ls: seq<Id>, n: nat, order: seq<Id>, m: nat, user: UserId, j: nat,
                                    q: nat, e: Id)
      returns (acts: seq<Action>)
    requires Unused(db) && Lists(db, ls) && Lists(db, order) && OpensAfter(db, ls, n, order, m, e)
    requires n <= j < q < |ls| && e in ExercisesOf(db, ls[q])
    ensures !Chain(Exec(Start(db), acts).db, user, ls)
  {
    hide Unused, Lists, SolvedSet, Unsolved, Exec, OpensAfter, FullySolved;
    acts := PassUnder(db, ls, n, order, m, user, e);
    var after := Exec(Start(db), acts).db;
    UntouchedLesson(db, after, user, ls, n, j, q, e);
    assert e in SolvedSet(after, user) && e in ExercisesOf(after, ls[q]);
  }

  // ---- where the first tie is -----------------------------------------------------------------

  lemma {:induction false} FirstTie(db: Database, ls: seq<Id>, k: nat) returns (t: nat)
    requires Lists(db, ls) && k < |ls| && !StrictUpTo(db, ls, k)
    ensures t < k && StrictUpTo(db, ls, t) && Position(db, ls[t]) == Position(db, ls[t + 1])
  {
    hide Lists, Position;
    ListedPositions(db, ls);
    if StrictUpTo(db, ls, k - 1) { t := k - 1; } else { t := FirstTie(db, ls, k - 1); }
  }

  // The first index whose position lies above that of index t.
  lemma {:induction false} NextGroup(db: Database, ls: seq<Id>, t: nat, k: nat) returns (b: nat)
    requires Lists(db, ls) && t < k < |ls| && Position(db, ls[t]) < Position(db, ls[k])
    ensures t < b <= k && Position(db, ls[b - 1]) == Position(db, ls[t]) < Position(db, ls[b])
  {
    hide Lists, Position;
    ListedPositions(db, ls);
    if Position(db, ls[k - 1]) == Position(db, ls[t]) { b := k; } else { b := NextGroup(db, ls, t, k - 1); }
  }

  lemma {:induction false} WorkAt(db: Database, ls: seq<Id>, j: nat, k: nat) returns (i: nat)
    requires Lists(db, ls) && j < |ls| && k < |ls| && WithinReach(db, ls[k])
    requires Position(db, ls[j]) < Position(db, ls[k])
    ensures i < |ls| && Position(db, ls[i]) == Position(db, ls[j]) && ExercisesOf(db, ls[i]) != {}
  {
    assert ls[j] in Published(db);
    assert PositionHasWork(db, Position(db, ls[j]));
    hide Position, ExercisesOf;
    var x :| x in Published(db) && Position(db, x) == Position(db, ls[j]) && ExercisesOf(db, x) != {};
    i := ListedAt(db, ls, x);
  }

  // Below the first tie every lesson stands alone at its position, so each of them has exercises.
  lemma {:induction false} PrefixHasExercises(db: Database, ls: seq<Id>, t: nat, k: nat)
    requires Lists(db, ls) && t <= k < |ls| && StrictUpTo(db, ls, t) && WithinReach(db, ls[k])
    ensures EveryLessonHasExercises(db, ls[..t])
  {
    hide Lists, Position, ExercisesOf, WithinReach;
    ListedPositions(db, ls);
    forall j | 0 <= j < t ensures ExercisesOf(db, ls[..t][j]) != {} {
      assert Position(db, ls[j]) < Position(db, ls[t]) <= Position(db, ls[k]);
      var i := WorkAt(db, ls, j, k);
      assert i == j;
    }
  }

  // A tied lesson with exercises, listed later, may come first.
  lemma {:induction false} TieOvertaken(db: Database, ls: seq<Id>, t: nat, q: nat, user: UserId)
      returns (acts: seq<Action>)
    requires Unused(db) && Lists(db, ls) && t < q < |ls| && Position(db, ls[t]) == Position(db, ls[q])
    requires EveryLessonHasExercises(db, ls[..t]) && ExercisesOf(db, ls[q]) != {}
    ensures !Chain(Exec(Start(db), acts).db, user, ls)
  {
    hide Unused, Lists, Chain, Exec, Position, EveryLessonHasExercises;
    var e :| e in ExercisesOf(db, ls[q]);
    SwapLists(db, ls, t, q);
    assert t > 0 ==> Swap(ls, t, q)[t - 1] == ls[..t][t - 1];
    acts := Overtakes(db, ls, t, Swap(ls, t, q), t, user, t, q, e);
  }

  // The tied lessons after t have no exercises, so t may come last among them: the next group opens at once.
  lemma {:induction false} TieSkipped(db: Database, ls: seq<Id>, t: nat, b: nat, q: nat, user: UserId)
      returns (acts: seq<Action>)
    requires Unused(db) && Lists(db, ls) && t + 1 < b <= q < |ls|
    requires Position(db, ls[t]) == Position(db, ls[b - 1]) && Position(db, ls[b]) == Position(db, ls[q])
    requires EveryLessonHasExercises(db, ls[..t + 1]) && ExercisesOf(db, ls[q]) != {}
    ensures !Chain(Exec(Start(db), acts).db, user, ls)
  {
    hide Unused, Lists, Chain, Exec, Position, EveryLessonHasExercises;
    var e :| e in ExercisesOf(db, ls[q]);
    var one := Swap(ls, t, b - 1);
    SwapLists(db, ls, t, b - 1);
    SwapLists(db, one, b, q);
    assert Swap(one, b, q)[b - 1] == ls[..t + 1][t];
    acts := Overtakes(db, ls, t + 1, Swap(one, b, q), b, user, t + 1, q, e);
  }

  lemma {:induction false} AloneHasExercises(db: Database, ls: seq<Id>, t: nat, k: nat)
    requires Lists(db, ls) && t < k < |ls| && StrictUpTo(db, ls, t) && WithinReach(db, ls[k])
    requires Position(db, ls[t]) < Position(db, ls[k])
    requires forall q | t < q < |ls| && Position(db, ls[q]) == Position(db, ls[t]) :: ExercisesOf(db, ls[q]) == {}
    ensures EveryLessonHasExercises(db, ls[..t + 1])
  {
    hide Lists, Position, ExercisesOf, WithinReach;
    PrefixHasExercises(db, ls, t, k);
    var i := WorkAt(db, ls, t, k);
    assert i == t;
    var pre := ls[..t + 1];
    forall j | 0 <= j < |pre| ensures ExercisesOf(db, pre[j]) != {} {
      if j < t { assert ls[..t][j] == ls[j]; }
    }
  }

  lemma {:induction false} NextWithExercises(db: Database, ls: seq<Id>, t: nat, b: nat, k: nat) returns (q: nat)
    requires Lists(db, ls) && t < b <= k < |ls| && Position(db, ls[t]) < Position(db, ls[b])
    requires Position(db, ls[b - 1]) == Position(db, ls[t])
    requires ExercisesOf(db, ls[k]) != {} && WithinReach(db, ls[k])
    ensures b <= q < |ls| && Position(db, ls[q]) == Position(db, ls[b]) && ExercisesOf(db, ls[q]) != {}
  {
    hide Lists, Position, ExercisesOf, WithinReach;
    SortedAt(db, ls, b, k);
    if Position(db, ls[b]) == Position(db, ls[k]) {
      q := k;
    } else {
      q := WorkAt(db, ls, b, k);
      if q < b { SortedAt(db, ls, q, b - 1); }
    }
  }

  /** A tie at or before a lesson with exercises that a user can get to lets any user solve an exercise of
      some lesson while one listed before it is not completed. */
  lemma {:induction false} TiedPositionsBreakTheChain(db: Database, ls: seq<Id>, k: nat, user: UserId)
      returns (acts: seq<Action>)
    requires Unused(db) && Lists(db, ls) && k < |ls|
    requires ExercisesOf(db, ls[k]) != {} && WithinReach(db, ls[k]) && !StrictUpTo(db, ls, k)
    ensures !Chain(Exec(Start(db), acts).db, user, ls)
  {
    hide Unused, Lists, Chain, Exec, Position, WithinReach, StrictUpTo, EveryLessonHasExercises;
    ListedPositions(db, ls);
    var t := FirstTie(db, ls, k);
    PrefixHasExercises(db, ls, t, k);
    if q :| t < q < |ls| && Position(db, ls[q]) == Position(db, ls[t]) && ExercisesOf(db, ls[q]) != {} {
      acts := TieOvertaken(db, ls, t, q, user);
    } else {
      AloneHasExercises(db, ls, t, k);
      var b := NextGroup(db, ls, t, k);
      var q := NextWithExercises(db, ls, t, b, k);
      acts := TieSkipped(db, ls, t, b, q, user);
    }
  }

  // A tie that matters shows in some listing.
  lemma {:induction false} TieIsListed(db: Database, l: Id, m: Id, n: Id) returns (ls: seq<Id>, k: nat)
    requires l in Published(db) && m in Published(db) && n in Published(db) && m != n
    requires Position(db, m) == Position(db, n) <= Position(db, l)
    ensures Lists(db, ls) && k < |ls| && ls[k] == l && !StrictUpTo(db, ls, k)
  {
    hide Lists, Position;
    var first := SomeListing(db);
    ListedPositions(db, first);
    var a := ListedAt(db, first, l);
    var i := ListedAt(db, first, m);
    var j := ListedAt(db, first, n);
    var last := if i < j then j else i;
    if last <= a {
      ls, k := first, a;
    } else {
      SwapLists(db, first, a, last);
      ls, k := Swap(first, a, last), last;
    }
    hide StrictUpTo;
    TiedUpTo(db, ls, k, m, n);
  }

  lemma {:induction false} TiedUpTo(db: Database, ls: seq<Id>, k: nat, m: Id, n: Id)
    requires k < |ls| && m != n && Position(db, m) == Position(db, n)
    requires m in ls[..k + 1] && n in ls[..k + 1]
    ensures !StrictUpTo(db, ls, k)
  {
    hide Position;
    var i :| 0 <= i <= k && ls[i] == m;
    var j :| 0 <= j <= k && ls[j] == n;
  }

  /** Sequential unlock - a solved exercise means every lesson listed before is completed, under whatever listing it is
      read - holds in every reachable state of every interleaving if and only if no tie can matter; for a curriculum
      without empty lessons, if and only if positions are distinct. */
  lemma {:induction false} ChainHoldsIffTieFree(db: Database)
    requires Unused(db)
    ensures (forall order | Lists(db, order) :: AlwaysChained(db, order)) <==> TieFree(db)
    ensures (forall l | l in Published(db) :: ExercisesOf(db, l) != {}) ==>
              ((forall order | Lists(db, order) :: AlwaysChained(db, order)) <==> DistinctPositions(db))
  {
    hide Unused, Lists, AlwaysChained, StrictUpTo, DistinctPositions, Position, WithinReach;
    TieFreeIffDistinct(db);
    if TieFree(db) {
      forall order | Lists(db, order) ensures AlwaysChained(db, order) { ReachableChain(db, order); }
    } else {
      var l, m, n := TieThatMatters(db);
      var order, k := TieIsListed(db, l, m, n);
      SomeRunBreaks(db, order, k);
    }
  }

  // In every reachable state of every run, for every user.
  ghost predicate AlwaysChained(db: Database, order: seq<Id>) {
    forall acts, user :: Chain(Exec(Start(db), acts).db, user, order)
  }

  lemma {:induction false} TieThatMatters(db: Database) returns (l: Id, m: Id, n: Id)
    requires !TieFree(db)
    ensures l in Published(db) && m in Published(db) && n in Published(db) && m != n
    ensures ExercisesOf(db, l) != {} && WithinReach(db, l) && Position(db, m) == Position(db, n) <= Position(db, l)
  {
    hide Position, ExercisesOf, WithinReach;
    l, m, n :| l in Published(db) && m in Published(db) && n in Published(db)
               && ExercisesOf(db, l) != {} && WithinReach(db, l)
               && m != n && Position(db, m) <= Position(db, l) && Position(db, n) <= Position(db, l)
               && Position(db, m) == Position(db, n);
  }

  lemma {:induction false} SomeRunBreaks(db: Database, order: seq<Id>, k: nat)
    requires Unused(db) && Lists(db, order) && k < |order|
    requires ExercisesOf(db, order[k]) != {} && WithinReach(db, order[k]) && !StrictUpTo(db, order, k)
    ensures !AlwaysChained(db, order)
  {
    hide Unused, Lists, Chain, Exec, WithinReach, StrictUpTo, ExercisesOf;
    var acts := TiedPositionsBreakTheChain(db, order, k, 0);
    assert !Chain(Exec(Start(db), acts).db, 0, order);
  }

  lemma {:induction false} ReachableChain(db: Database, order: seq<Id>)
    requires Opening(db, order)
    ensures AlwaysChained(db, order)
  {
    hide Opening, Exec, Chain;
    forall acts, user ensures Chain(Exec(Start(db), acts).db, user, order) { RunsKeepInv(db, order, acts); }
  }
}
