/** A learner is never stuck: the curriculum can always be finished, in exactly as many passing
    submissions as there are unsolved exercises, whatever requests are in flight. */
module Completion {
  import opened Schema
  import opened SandboxResult
  import opened Curriculum
  import opened Progression
  import opened Grading
  import opened Interleaving
  import opened Reachable
  import Solo

  // The exercises of these lessons that the user has not solved.
  function Unsolved(db: Database, user: UserId, lessons: seq<Id>): set<Id> {
    set e | e in db.exercises && db.exercises[e].parent in lessons && e !in SolvedSet(db, user)
  }

  // Every request, in turn, passes the gate and is graded PASSED.
  ghost predicate AllPass(db: Database, ls: seq<Id>, rs: seq<Request>)
    decreases |rs|
  {
    rs == [] ||
    var (after, answer) := Submit(db, ls, rs[0]);
    answer.Graded? && answer.status == Passed && AllPass(after, ls, rs[1..])
  }

  lemma {:induction false} ServeCons(db: Database, ls: seq<Id>, r: Request, rs: seq<Request>)
    ensures Serve(db, ls, [r] + rs) == Serve(Submit(db, ls, r).0, ls, rs)
  {
    hide Submit;
    var all := [r] + rs;
    if rs == [] {
      assert all[..0] == [];
      assert Serve(db, ls, all) == Submit(Serve(db, ls, []), ls, r).0;
    } else {
      assert all[..|all| - 1] == [r] + rs[..|rs| - 1];
      ServeCons(db, ls, r, rs[..|rs| - 1]);
    }
  }

  lemma {:induction false} FirstIncomplete(db: Database, user: UserId, ls: seq<Id>, j: nat) returns (k: nat)
    requires j < |ls| && !FullySolved(db, user, ls[j])
    ensures k <= j && !FullySolved(db, user, ls[k]) && Unlocked(db, user, ls, k)
  {
    if j == 0 || FullySolved(db, user, ls[j - 1]) { k := j; } else { k := FirstIncomplete(db, user, ls, j - 1); }
  }

  // An unsolved exercise of the first n lessons that the gate lets through.
  lemma {:induction false} OpenExercise(db: Database, user: UserId, ls: seq<Id>, n: nat) returns (e: Id)
    requires UniqueProgress(db) && Lists(db, ls) && n <= |ls| && EveryLessonHasExercises(db, ls[..n])
    requires Unsolved(db, user, ls[..n]) != {}
    ensures e in Unsolved(db, user, ls[..n]) && !Locked(db, user, ls, db.exercises[e].parent)
  {
    hide Locked, SolvedSet, Lists, UniqueProgress;
    var x :| x in Unsolved(db, user, ls[..n]);
    var j :| 0 <= j < n && ls[..n][j] == db.exercises[x].parent;
    assert x in ExercisesOf(db, ls[j]);
    var k := FirstIncomplete(db, user, ls, j);
    LockMeaning(db, user, ls);
    assert ls[..n][k] == ls[k];
    e :| e in ExercisesOf(db, ls[k]) && e !in SolvedSet(db, user);
  }

  lemma {:induction false} PassShrinksUnsolved(db: Database, ls: seq<Id>, n: nat, user: UserId, e: Id)
    requires Valid(db) && Lists(db, ls) && Chain(db, user, ls) && n <= |ls| && EveryLessonHasExercises(db, ls[..n])
    requires e in Unsolved(db, user, ls[..n]) && !Locked(db, user, ls, db.exercises[e].parent)
    ensures var (after, answer) := Submit(db, ls, Request(user, e, "", Solo.PASS, 0));
            && answer.Graded? && answer.status == Passed && SameCurriculum(db, after)
            && Valid(after) && Lists(after, ls) && Chain(after, user, ls) && EveryLessonHasExercises(after, ls[..n])
            && Unsolved(after, user, ls[..n]) == Unsolved(db, user, ls[..n]) - {e}
            && SolvedSet(after, user) == SolvedSet(db, user) + {e}
  {
    hide Valid, Chain, Locked, Grade, Lists;
    var r := Request(user, e, "", Solo.PASS, 0);
    assert StatusFromResult(Solo.PASS) == Passed;
    var after := Submit(db, ls, r).0;
    SubmitKeepsConstraints(db, ls, r);
    SubmitKeepsChain(db, ls, r, user);
    SubmitSolves(db, ls, r);
    assert forall l :: ExercisesOf(after, l) == ExercisesOf(db, l);
  }

  /** The first n lessons can be finished, and nothing else need be touched. */
  lemma {:induction false} CanFinish(db: Database, ls: seq<Id>, n: nat, user: UserId) returns (rs: seq<Request>)
    requires Valid(db) && Lists(db, ls) && Chain(db, user, ls) && n <= |ls| && EveryLessonHasExercises(db, ls[..n])
    ensures |rs| == |Unsolved(db, user, ls[..n])| && AllPass(db, ls, rs)
    ensures var done := Serve(db, ls, rs);
            && Valid(done) && Lists(done, ls) && SameCurriculum(db, done)
            && Unsolved(done, user, ls[..n]) == {}
            && SolvedSet(done, user) == SolvedSet(db, user) + Unsolved(db, user, ls[..n])
    decreases |Unsolved(db, user, ls[..n])|
  {
    hide Chain, Lists, Submit, Unsolved, Locked, EveryLessonHasExercises, ContentTables, SolvedSet;
    if Unsolved(db, user, ls[..n]) == {} {
      rs := [];
    } else {
      var e := OpenExercise(db, user, ls, n);
      var r := Request(user, e, "", Solo.PASS, 0);
      OpenIsExercise(db, user, ls[..n], e);
      PassShrinksUnsolved(db, ls, n, user, e);
      var rest := CanFinish(Submit(db, ls, r).0, ls, n, user);
      rs := [r] + rest;
      assert rs[1..] == rest;
      ServeCons(db, ls, r, rest);
    }
  }

  lemma {:induction false} OpenIsExercise(db: Database, user: UserId, lessons: seq<Id>, e: Id)
    ensures e in Unsolved(db, user, lessons) ==> e in db.exercises
  {}

  lemma {:induction false} NothingUnsolvedIsCompleted(db: Database, user: UserId, ls: seq<Id>)
    requires UniqueProgress(db) && EveryLessonHasExercises(db, ls) && Unsolved(db, user, ls) == {}
    ensures forall k | 0 <= k < |ls| :: Completed(db, user, ls[k])
  {
    hide Completed;
    forall k | 0 <= k < |ls| ensures Completed(db, user, ls[k]) {
      forall e | e in ExercisesOf(db, ls[k]) ensures e in SolvedSet(db, user) {
        assert e !in Unsolved(db, user, ls);
      }
      CountingMeansSolvingAll(db, user, ls[k]);
    }
  }

  // ---- letting requests in flight finish -------------------------------------------------

  function Writers(s: System): set<Id> {
    set c | c in s.calls && s.calls[c].pc.Written?
  }

  // A request that has written its row can always commit.
  lemma {:induction false} WriterCommits(s: System, c: Id, ls: seq<Id>)
    requires Inv(s, ls) && c in Writers(s)
    ensures var t := Step(s, Commit(c));
            Inv(t, ls) && Later(s.db, t.db) && Writers(t) == Writers(s) - {c}
  {
    hide DbOk, Admissible, StatusFromResult, CommitDb, FreshKeys, Apart, Lists, Locked;
    CommitKeepsInv(s, c, ls);
    StepIsLater(s, Commit(c), ls);
    assert CallOk(s.db, ls, s.calls[c]);
    assert MayCommit(s.db, s.calls[c]);
  }

  lemma {:induction false} WritersCommit(s: System, ls: seq<Id>) returns (drain: seq<Action>)
    requires Inv(s, ls)
    ensures forall a | a in drain :: a.Commit?
    ensures var t := Exec(s, drain);
            Inv(t, ls) && Later(s.db, t.db) && Writers(t) == {}
    decreases |Writers(s)|
  {
    hide Inv, Step, SolvedSet;
    if Writers(s) == {} {
      drain := [];
    } else {
      var c :| c in Writers(s);
      WriterCommits(s, c, ls);
      var rest := WritersCommit(Step(s, Commit(c)), ls);
      drain := [Commit(c)] + rest;
      ExecAppend(s, [Commit(c)], rest);
      ExecOne(s, Commit(c));
      LaterTwice(s.db, Step(s, Commit(c)).db, Exec(s, drain).db);
    }
  }

  lemma {:induction false} ExecOne(s: System, a: Action)
    ensures Exec(s, [a]) == Step(s, a)
  {
    hide Step;
    assert [a][..0] == [];
    assert Exec(s, [a]) == Step(Exec(s, []), a);
  }

  lemma {:induction false} LaterTwice(a: Database, b: Database, c: Database)
    requires Later(a, b) && Later(b, c)
    ensures Later(a, c)
  {
    forall u ensures SolvedSet(a, u) <= SolvedSet(c, u) {
      assert SolvedSet(a, u) <= SolvedSet(b, u) <= SolvedSet(c, u);
    }
  }

  lemma {:induction false} Above(ids: set<Id>) returns (top: Id)
    ensures forall c | c in ids :: c < top
  {
    if ids == {} {
      top := 0;
    } else {
      var c :| c in ids;
      var rest := Above(ids - {c});
      top := if c < rest then rest else c + 1;
      forall x | x in ids ensures x < top { assert x == c || x in ids - {c}; }
    }
  }

  // ---- never stuck ---------------------------------------------------------------------------

  function Commits(acts: seq<Action>): nat {
    if acts == [] then 0 else Commits(acts[..|acts| - 1]) + if acts[|acts| - 1].Commit? then 1 else 0
  }

  lemma {:induction false} StepSolvesAtMostOne(s: System, a: Action, ls: seq<Id>, user: UserId, lessons: seq<Id>)
    requires Inv(s, ls)
    ensures |Unsolved(s.db, user, lessons)| <= |Unsolved(Step(s, a).db, user, lessons)| + if a.Commit? then 1 else 0
  {
    hide DbOk, Chain, Admissible, CommitDb, SolvedSet, SeenStillHolds, FreshKeys, StatusFromResult;
    var after := Step(s, a).db;
    StepIsLater(s, a, ls);
    if a.Commit? && a.c in s.calls && MayCommit(s.db, s.calls[a.c]) {
      assert CallOk(s.db, ls, s.calls[a.c]);
      CommitSolves(s.db, ls, s.calls[a.c]);
      var x := {s.calls[a.c].exercise};
      assert Unsolved(s.db, user, lessons) <= Unsolved(after, user, lessons) + x;
      SubsetSize(Unsolved(s.db, user, lessons), Unsolved(after, user, lessons) + x);
    } else {
      QuietStep(s, a);
      SameRowsSameFacts(s.db, after);
      assert Unsolved(s.db, user, lessons) == Unsolved(after, user, lessons);
    }
  }

  /** No continuation, of whatever requests, solves more exercises than it commits requests. */
  lemma {:induction false} OneSolvePerCommit(db: Database, ls: seq<Id>, acts: seq<Action>, more: seq<Action>,
                                            user: UserId)
    requires Opening(db, ls)
    ensures var s := Exec(Start(db), acts);
            |Unsolved(s.db, user, ls)| <= |Unsolved(Exec(s, more).db, user, ls)| + Commits(more)
  {
    hide Inv, Opening, Step, Unsolved;
    if more != [] {
      var init := more[..|more| - 1];
      OneSolvePerCommit(db, ls, acts, init, user);
      ExecAppend(Start(db), acts, init);
      RunsKeepInv(db, ls, acts + init);
      StepSolvesAtMostOne(Exec(Exec(Start(db), acts), init), more[|more| - 1], ls, user, ls);
    }
  }

  // From a state in which no request is in the middle of writing.
  lemma {:induction false} FinishFrom(s: System, ls: seq<Id>, user: UserId)
      returns (rs: seq<Request>, more: seq<Action>)
    requires Inv(s, ls) && Lists(s.db, ls) && Writers(s) == {} && EveryLessonHasExercises(s.db, ls)
    ensures |rs| == |Unsolved(s.db, user, ls)| && AllPass(s.db, ls, rs)
    ensures Exec(s, more).db == Serve(s.db, ls, rs)
    ensures forall k | 0 <= k < |ls| :: Completed(Exec(s, more).db, user, ls[k])
  {
    hide CallsOk, PairOk, Completed, Unsolved, Exec, Chain, Lists, EveryLessonHasExercises;
    assert ls[..|ls|] == ls;
    assert Chain(s.db, user, ls);
    rs := CanFinish(s.db, ls, |ls|, user);
    var top := Above(s.calls.Keys);
    assert Solo.Free(s, top) by {
      forall c | c in s.calls ensures !s.calls[c].pc.Written? { assert c !in Writers(s); }
    }
    more := Solo.SerialRunsEmbed(s, ls, rs, top);
    var done := Serve(s.db, ls, rs);
    SameExercises(s.db, done, ls);
    NothingUnsolvedIsCompleted(done, user, ls);
  }

  lemma {:induction false} SameExercises(a: Database, b: Database, ls: seq<Id>)
    requires SameCurriculum(a, b) && EveryLessonHasExercises(a, ls)
    ensures EveryLessonHasExercises(b, ls)
  {
    assert forall l :: ExercisesOf(a, l) == ExercisesOf(b, l);
  }

  /** From every reachable state of the interleaved system: once the requests that have written their row
      commit - each of them can - accepted passing submissions, one per exercise of the user still
      unsolved, complete every published lesson; and no continuation does it with fewer commits. */
  lemma {:induction false} CurriculumCanBeFinished(db: Database, ls: seq<Id>, acts: seq<Action>, user: UserId)
      returns (drain: seq<Action>, rs: seq<Request>, more: seq<Action>)
    requires Opening(db, ls) && EveryLessonHasExercises(db, ls)
    ensures forall a | a in drain :: a.Commit?
    ensures var now, mid := Exec(Start(db), acts), Exec(Start(db), acts + drain);
            && |rs| == |Unsolved(mid.db, user, ls)| <= |Unsolved(now.db, user, ls)|
            && AllPass(mid.db, ls, rs) && Exec(mid, more).db == Serve(mid.db, ls, rs)
            && (forall k | 0 <= k < |ls| :: Completed(Exec(mid, more).db, user, ls[k]))
            && (forall other | Unsolved(Exec(mid, other).db, user, ls) == {} :: |rs| <= Commits(other))
  {
    hide Opening, Exec, Inv, Completed, Unsolved, EveryLessonHasExercises, SolvedSet, AllPass, Serve;
    var now := Exec(Start(db), acts);
    RunsKeepInv(db, ls, acts);
    drain := WritersCommit(now, ls);
    ExecAppend(Start(db), acts, drain);
    var mid := Exec(now, drain);
    SameExercises(db, mid.db, ls);
    SameListing(now.db, mid.db, ls);
    rs, more := FinishFrom(mid, ls, user);
    LaterLeavesLess(now.db, mid.db, user, ls);
    forall other | Unsolved(Exec(mid, other).db, user, ls) == {} ensures |rs| <= Commits(other) {
      OneSolvePerCommit(db, ls, acts + drain, other, user);
    }
  }

  lemma {:induction false} LaterLeavesLess(a: Database, b: Database, user: UserId, ls: seq<Id>)
    requires Later(a, b)
    ensures |Unsolved(b, user, ls)| <= |Unsolved(a, user, ls)|
  {
    assert SolvedSet(a, user) <= SolvedSet(b, user);
    SubsetSize(Unsolved(b, user, ls), Unsolved(a, user, ls));
  }
}
