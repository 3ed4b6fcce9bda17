/** What holds in every reachable state of interleaved submissions over a fixed curriculum in which no tie in
    position can matter (Curriculum.TieFree), whatever listing each request gets, and exactly where interleaved runs
    fall short of serial ones. */
module Reachable {
  import opened Schema
  import opened SandboxResult
  import opened Curriculum
  import opened Progression
  import opened Grading
  import opened Interleaving

  ghost predicate FreshStart(db: Database) {
    Unused(db) && TieFree(db)
  }

  // With one answer to the listing query, of possibly many.
  ghost predicate Opening(db: Database, ls: seq<Id>) {
    FreshStart(db) && Lists(db, ls)
  }

  lemma {:induction false} RunsKeepInv(db: Database, ls: seq<Id>, acts: seq<Action>)
    requires Opening(db, ls)
    ensures var s := Exec(Start(db), acts);
            Inv(s, ls) && SameCurriculum(db, s.db) && Lists(s.db, ls) && TieFree(s.db)
  {
    hide Inv, TieFree, Step, Lists;
    if acts != [] {
      var s, a := Exec(Start(db), acts[..|acts| - 1]), acts[|acts| - 1];
      RunsKeepInv(db, ls, acts[..|acts| - 1]);
      StepKeepsInv(s, a, ls);
      StepIsLater(s, a, ls);
      SameTies(s.db, Step(s, a).db);
      SameListing(s.db, Step(s, a).db, ls);
    } else {
      StartIsOk(db, ls);
    }
  }

  lemma {:induction false} SameTies(a: Database, b: Database)
    requires SameCurriculum(a, b) && TieFree(a)
    ensures TieFree(b)
  {
    assert Published(a) == Published(b);
    assert forall l :: ExercisesOf(a, l) == ExercisesOf(b, l) && Position(a, l) == Position(b, l);
    hide ExercisesOf, Position, Published;
    assert forall p :: PositionHasWork(a, p) == PositionHasWork(b, p);
    hide PositionHasWork;
    assert forall l :: WithinReach(a, l) == WithinReach(b, l);
  }

  lemma {:induction false} SameListing(a: Database, b: Database, ls: seq<Id>)
    requires Lists(a, ls) && SameCurriculum(a, b)
    ensures Lists(b, ls)
  {
    assert Published(a) == Published(b);
  }

  lemma {:induction false} RunsKeepCurriculum(s: System, acts: seq<Action>)
    ensures SameCurriculum(s.db, Exec(s, acts).db)
  {
    if acts != [] {
      RunsKeepCurriculum(s, acts[..|acts| - 1]);
      StepKeepsCurriculum(Exec(s, acts[..|acts| - 1]), acts[|acts| - 1]);
    }
    hide Step;
  }

  lemma {:induction false} StepKeepsCurriculum(s: System, a: Action)
    ensures SameCurriculum(s.db, Step(s, a).db)
  {
    hide Lists, Locked, RowOf, RowLocked, CommitDb, MayCommit;
    if a.Commit? && a.c in s.calls && MayCommit(s.db, s.calls[a.c]) {
      CommitKeepsCurriculum(s.db, s.calls[a.c]);
    }
  }

  lemma {:induction false} CommitKeepsCurriculum(db: Database, call: Call)
    requires MayCommit(db, call)
    ensures (call.pc.Finalized? || call.pc.Written?) && SameCurriculum(db, CommitDb(db, call))
  {
    hide StatusFromResult, WriteBack;
  }

  // A listing the query may return now is one it may have returned at the start.
  lemma {:induction false} ListedFromTheStart(db: Database, acts: seq<Action>, order: seq<Id>)
    requires FreshStart(db) && Lists(Exec(Start(db), acts).db, order)
    ensures Opening(db, order)
  {
    hide Lists, Exec, TieFree;
    RunsKeepCurriculum(Start(db), acts);
    SameListing(Exec(Start(db), acts).db, db, order);
  }

  lemma {:induction false} StartIsOk(db: Database, ls: seq<Id>)
    requires Opening(db, ls)
    ensures Inv(Start(db), ls)
  {}

  /** Although the gate is read long before progress is written, and maybe under another listing, a solved exercise
      of the k-th lesson of any listing implies that every lesson before it there reads as completed. */
  lemma {:induction false} SolvedMeansEarlierCompleted(db: Database, acts: seq<Action>, order: seq<Id>,
                                                      user: UserId, e: Id, j: nat, k: nat)
    requires FreshStart(db) && Lists(Exec(Start(db), acts).db, order)
    requires j < k < |order| && e in ExercisesOf(Exec(Start(db), acts).db, order[k])
    requires e in SolvedSet(Exec(Start(db), acts).db, user)
    ensures Completed(Exec(Start(db), acts).db, user, order[j])
  {
    hide FreshStart, Exec, CallsOk, PairOk, Lists;
    ListedFromTheStart(db, acts, order);
    RunsKeepInv(db, order, acts);
    var s := Exec(Start(db), acts);
    assert Chain(s.db, user, order);
    CountingMeansSolvingAll(s.db, user, order[j]);
  }

  // What holds without any chain holds of every run, ties or not.
  lemma {:induction false} ReachableInv(db: Database, acts: seq<Action>)
    requires Unused(db)
    ensures Inv(Exec(Start(db), acts), [])
  {
    hide Inv, Step;
    if acts == [] {
      StartsSound(db);
    } else {
      ReachableInv(db, acts[..|acts| - 1]);
      StepKeepsInv(Exec(Start(db), acts[..|acts| - 1]), acts[|acts| - 1], []);
    }
  }

  lemma {:induction false} StartsSound(db: Database)
    requires Unused(db)
    ensures Inv(Start(db), [])
  {}

  /** In every reachable state: one row per pair, solved exactly when a committed PASSED submission
      exists; attempts between 1 and the number of committed verdicts; the last submission is one of
      them; nothing committed is PENDING. */
  lemma {:induction false} CommittedProgress(db: Database, acts: seq<Action>, user: UserId, e: Id)
    requires Unused(db)
    ensures var now := Exec(Start(db), acts).db;
            && UniqueProgress(now) && NoPending(now)
            && (e in SolvedSet(now, user) <==> PassesOf(now, user, e) != {})
            && (Row(now.progress, user, e).None? <==> VerdictsOf(now, user, e) == {})
            && (Row(now.progress, user, e).Some? ==>
                  var p := Row(now.progress, user, e).value;
                  && 1 <= p.attempts <= |VerdictsOf(now, user, e)|
                  && p.lastSubmissionId.Some? && p.lastSubmissionId.value in VerdictsOf(now, user, e))
  {
    ReachableInv(db, acts);
    var now := Exec(Start(db), acts).db;
    assert PairOk(now, user, e);
    RowDecidesSolved(now, user, e);
  }

  /** The frontier in every reachable state, under whatever listing is read: completed lessons are a prefix of the
      length the profile reports, and the unlocked lessons are that prefix and the one after it. */
  lemma {:induction false} ReachableFrontier(db: Database, acts: seq<Action>, user: UserId, order: seq<Id>)
    requires FreshStart(db) && Lists(Exec(Start(db), acts).db, order)
    ensures var now := Exec(Start(db), acts).db;
            var states, done := LessonStates(now, user, order), GetProfile(now, user, order).lessonsCompleted;
            && done <= |order|
            && (forall k | 0 <= k < |order| :: states[k].isCompleted <==> k < done)
            && (forall k | 0 <= k < |order| :: states[k].isUnlocked <==> k <= done)
            && Count(UnlockedFlags(states)) == if done < |order| then done + 1 else |order|
  {
    hide FreshStart, Exec, CallsOk, PairOk, Lists;
    ListedFromTheStart(db, acts, order);
    RunsKeepInv(db, order, acts);
    var now := Exec(Start(db), acts).db;
    assert Chain(now, user, order);
    Frontier(now, user, order);
  }

  // ---- monotonicity ---------------------------------------------------------------------------

  lemma {:induction false} ExecAppend(s: System, first: seq<Action>, more: seq<Action>)
    ensures Exec(s, first + more) == Exec(Exec(s, first), more)
  {
    if more == [] {
      assert first + more == first;
    } else {
      var all := first + more;
      assert all[..|all| - 1] == first + more[..|more| - 1];
      ExecAppend(s, first, more[..|more| - 1]);
    }
  }

  // No action commits a request of this user.
  ghost predicate QuietFor(s: System, acts: seq<Action>, user: UserId) {
    acts == [] ||
    var t, a := Exec(s, acts[..|acts| - 1]), acts[|acts| - 1];
    QuietFor(s, acts[..|acts| - 1], user)
    && !(a.Commit? && a.c in t.calls && t.calls[a.c].user == user)
  }

  /** Solved, completed and unlocked only grow over a run, and another user's steps leave them alone. */
  lemma {:induction false} ProgressOnlyGrows(db: Database, ls: seq<Id>, acts: seq<Action>, more: seq<Action>,
                                            user: UserId)
    requires Opening(db, ls)
    ensures var s := Exec(Start(db), acts);
            var t := Exec(s, more);
            && Later(s.db, t.db)
            && (forall l :: FullySolved(s.db, user, l) ==> FullySolved(t.db, user, l))
            && (forall k | 0 <= k < |ls| :: Unlocked(s.db, user, ls, k) ==> Unlocked(t.db, user, ls, k))
            && (QuietFor(s, more, user) ==> SolvedSet(t.db, user) == SolvedSet(s.db, user))
  {
    hide Inv, Opening, Step, SolvedSet, FullySolved;
    var s := Exec(Start(db), acts);
    if more != [] {
      var m, a := Exec(s, more[..|more| - 1]), more[|more| - 1];
      ProgressOnlyGrows(db, ls, acts, more[..|more| - 1], user);
      ExecAppend(Start(db), acts, more[..|more| - 1]);
      RunsKeepInv(db, ls, acts + more[..|more| - 1]);
      StepIsLater(m, a, ls);
    }
    UnlockOnlyGrows(s.db, Exec(s, more).db, user, ls);
  }

  lemma {:induction false} EmptyBlocksLater(db: Database, user: UserId, ls: seq<Id>, empty: nat, k: nat)
    requires Chain(db, user, ls) && empty <= k < |ls| && ExercisesOf(db, ls[empty]) == {}
    ensures !FullySolved(db, user, ls[k])
  {
    if empty < k {
      assert forall e | e in ExercisesOf(db, ls[k]) :: e in SolvedSet(db, user) ==> FullySolved(db, user, ls[empty]);
    }
  }

  lemma {:induction false} EmptyLocksLater(db: Database, user: UserId, ls: seq<Id>, empty: nat, k: nat)
    requires UniqueProgress(db) && Lists(db, ls) && Chain(db, user, ls)
    requires empty < k < |ls| && ExercisesOf(db, ls[empty]) == {}
    ensures !Completed(db, user, ls[empty]) && Locked(db, user, ls, ls[k])
  {
    hide Completed, Locked, Chain, FullySolved, Lists, UniqueProgress;
    CountingMeansSolvingAll(db, user, ls[empty]);
    LockMeaning(db, user, ls);
    EmptyBlocksLater(db, user, ls, empty, empty);
    EmptyBlocksLater(db, user, ls, empty, k - 1);
  }

  /** A published lesson without exercises is never completed, so every later one stays locked, in every listing. */
  lemma {:induction false} EmptyLessonLocksTheRest(db: Database, acts: seq<Action>, user: UserId, order: seq<Id>,
                                                  empty: nat, k: nat)
    requires FreshStart(db) && Lists(Exec(Start(db), acts).db, order)
    requires empty < k < |order| && ExercisesOf(Exec(Start(db), acts).db, order[empty]) == {}
    ensures !Completed(Exec(Start(db), acts).db, user, order[empty])
    ensures Locked(Exec(Start(db), acts).db, user, order, order[k])
  {
    hide FreshStart, CallsOk, PairOk, Exec, Chain, Completed, Locked, Lists;
    ListedFromTheStart(db, acts, order);
    RunsKeepInv(db, order, acts);
    EmptyLocksLater(Exec(Start(db), acts).db, user, order, empty, k);
  }

  /** The lock never hides a solved exercise's solution in any reachable state, under any listing. */
  lemma {:induction false} ReachableReveal(db: Database, acts: seq<Action>, user: UserId, order: seq<Id>, e: Id,
                                          code: string)
    requires FreshStart(db) && Lists(Exec(Start(db), acts).db, order)
    ensures var now := Exec(Start(db), acts).db;
            && (Reveal(now, user, order, e) == Success(code)
                <==> e in SolvedSet(now, user) && HasSolution(now, e, code))
            && (e in SolvedSet(now, user) ==> Reveal(now, user, order, e) != Failure(RevealLocked))
  {
    hide FreshStart, Exec, CallsOk, PairOk, Lists;
    ListedFromTheStart(db, acts, order);
    RunsKeepInv(db, order, acts);
    var now := Exec(Start(db), acts).db;
    assert Chain(now, user, order);
    RevealExactlyWhenSolved(now, user, order, e, code);
  }

  // ---- lost updates -----------------------------------------------------------------------------

  // The commit overwrites a counter that is no longer the one its request read.
  predicate StaleCommit(s: System, a: Action) {
    a.Commit? && a.c in s.calls && MayCommit(s.db, s.calls[a.c])
    && s.calls[a.c].pc.Written? && s.calls[a.c].pc.seen.Some?
    && s.db.progress[s.calls[a.c].pc.row].attempts != s.calls[a.c].pc.seen.value.value.attempts
  }

  // Some commit of this pair in the run was stale.
  ghost predicate LostUpdate(s: System, acts: seq<Action>, user: UserId, e: Id) {
    acts != [] &&
    var t, a := Exec(s, acts[..|acts| - 1]), acts[|acts| - 1];
    LostUpdate(s, acts[..|acts| - 1], user, e)
    || (StaleCommit(t, a) && t.calls[a.c].user == user && t.calls[a.c].exercise == e)
  }

  // Once an update is lost, the counter and every reader stay strictly behind the verdicts.
  ghost predicate Tally(s: System, user: UserId, e: Id, lost: bool) {
    var n := |VerdictsOf(s.db, user, e)|;
    && (var p := Row(s.db.progress, user, e);
        p.Some? ==> if lost then p.value.attempts < n else p.value.attempts == n)
    && (lost ==> forall c | c in s.calls && s.calls[c].user == user && s.calls[c].exercise == e
                    && (s.calls[c].pc.Read? || s.calls[c].pc.Written?) ::
                   s.calls[c].pc.seen.Some? ==> s.calls[c].pc.seen.value.value.attempts < n)
    && (lost ==> Row(s.db.progress, user, e).Some?)
  }

  lemma {:induction false} QuietKeepsTally(s: System, a: Action, ls: seq<Id>, user: UserId, e: Id, lost: bool)
    requires Inv(s, ls) && Tally(s, user, e, lost)
    requires !(a.Commit? && a.c in s.calls && MayCommit(s.db, s.calls[a.c]))
    ensures Tally(Step(s, a), user, e, lost)
  {
    hide Inv, VerdictsOf, Lists, Locked, RowLocked, MayCommit, CommitDb;
    var t := Step(s, a);
    QuietStep(s, a);
    SameVerdicts(s.db, t.db, user, e);
    forall c | lost && c in t.calls && t.calls[c].user == user && t.calls[c].exercise == e
               && (t.calls[c].pc.Read? || t.calls[c].pc.Written?)
      ensures t.calls[c].pc.seen.Some? ==> t.calls[c].pc.seen.value.value.attempts < |VerdictsOf(t.db, user, e)| {
      assert c == a.c || t.calls[c] == s.calls[c];
    }
  }

  // The counter a commit leaves behind is one more than the one its request read.
  lemma {:induction false} CommittedAttempts(db: Database, ls: seq<Id>, call: Call, user: UserId, e: Id)
    requires DbOk(db, ls) && CallOk(db, ls, call) && MayCommit(db, call)
    ensures var after := Row(CommitDb(db, call).progress, user, e);
            if call.pc.Written? && user == call.user && e == call.exercise
            then after.Some? && after.value.attempts
                   == 1 + if call.pc.seen.Some? then call.pc.seen.value.value.attempts else 0
            else after == Row(db.progress, user, e)
  {
    hide DbOk, Admissible, StatusFromResult, SeenStillHolds;
    CommitWrites(db, ls, call);
  }

  lemma {:induction false} CommittedCount(db: Database, ls: seq<Id>, call: Call, user: UserId, e: Id)
    requires CallOk(db, ls, call) && MayCommit(db, call)
    ensures |VerdictsOf(CommitDb(db, call), user, e)| == |VerdictsOf(db, user, e)|
              + if call.pc.Written? && user == call.user && e == call.exercise then 1 else 0
  {
    hide Admissible, StatusFromResult, SeenStillHolds, VerdictsOf, CommitDb;
    assert call.pc.sub in Keys(call.pc);
    CommitVerdicts(db, call, user, e);
  }

  // What this request read is the row still there, unless the commit is stale.
  lemma {:induction false} StaleMeans(s: System, c: Id, ls: seq<Id>)
    requires Inv(s, ls) && c in s.calls && MayCommit(s.db, s.calls[c]) && s.calls[c].pc.Written?
    ensures var call := s.calls[c];
            var row := Row(s.db.progress, call.user, call.exercise);
            if call.pc.seen.None? then
              !StaleCommit(s, Commit(c)) && row == None && VerdictsOf(s.db, call.user, call.exercise) == {}
            else row.Some? && call.pc.seen.value.value.attempts <= |VerdictsOf(s.db, call.user, call.exercise)|
                 && (StaleCommit(s, Commit(c)) <==> row.value.attempts != call.pc.seen.value.value.attempts)
  {
    hide Valid, Chain, Lists, Admissible, StatusFromResult, VerdictsOf, PassesOf, Apart;
    assert CallOk(s.db, ls, s.calls[c]);
    assert PairOk(s.db, s.calls[c].user, s.calls[c].exercise);
  }

  lemma {:induction false} CommitKeepsTally(s: System, c: Id, ls: seq<Id>, user: UserId, e: Id, lost: bool)
    requires Inv(s, ls) && Tally(s, user, e, lost) && c in s.calls && MayCommit(s.db, s.calls[c])
    ensures Tally(Step(s, Commit(c)), user, e,
                  lost || (StaleCommit(s, Commit(c)) && s.calls[c].user == user && s.calls[c].exercise == e))
  {
    hide DbOk, VerdictsOf, Lists, Locked, RowLocked, StatusFromResult, Admissible, RowOf, Row, CommitDb,
         StaleCommit, FreshKeys, Apart;
    var call, t := s.calls[c], Step(s, Commit(c));
    assert CallOk(s.db, ls, call);
    CommittedAttempts(s.db, ls, call, user, e);
    CommittedCount(s.db, ls, call, user, e);
    assert t.db == CommitDb(s.db, call);
    if call.pc.Written? { StaleMeans(s, c, ls); }
    assert call.pc.Finalized? ==> !StaleCommit(s, Commit(c)) by { FinalizedIsFresh(s, c); }
    forall d | d in t.calls && (t.calls[d].pc.Read? || t.calls[d].pc.Written?)
      ensures d != c && t.calls[d] == s.calls[d] && CallOk(s.db, ls, s.calls[d]) {}
  }

  lemma {:induction false} FinalizedIsFresh(s: System, c: Id)
    ensures c in s.calls && s.calls[c].pc.Finalized? ==> !StaleCommit(s, Commit(c))
  {}

  lemma {:induction false} RunsKeepTally(db: Database, acts: seq<Action>, user: UserId, e: Id)
    requires Unused(db)
    ensures Tally(Exec(Start(db), acts), user, e, LostUpdate(Start(db), acts, user, e))
  {
    hide Inv, Unused, Step, Tally, StaleCommit, MayCommit;
    if acts == [] {
      StartTally(db, user, e);
    } else {
      var prefix, a := acts[..|acts| - 1], acts[|acts| - 1];
      var s := Exec(Start(db), prefix);
      ReachableInv(db, prefix);
      RunsKeepTally(db, prefix, user, e);
      StepKeepsTally(s, a, [], user, e, LostUpdate(Start(db), prefix, user, e));
    }
  }

  lemma {:induction false} StartTally(db: Database, user: UserId, e: Id)
    requires Unused(db)
    ensures Tally(Start(db), user, e, false)
  {}

  lemma {:induction false} StepKeepsTally(s: System, a: Action, ls: seq<Id>, user: UserId, e: Id, lost: bool)
    requires Inv(s, ls) && Tally(s, user, e, lost)
    ensures Tally(Step(s, a), user, e,
                  lost || (StaleCommit(s, a) && s.calls[a.c].user == user && s.calls[a.c].exercise == e))
  {
    hide Inv, Step, Tally;
    if a.Commit? && a.c in s.calls && MayCommit(s.db, s.calls[a.c]) {
      CommitKeepsTally(s, a.c, ls, user, e, lost);
    } else {
      QuietKeepsTally(s, a, ls, user, e, lost);
    }
  }

  /** Interleaved runs count attempts exactly iff no commit of the pair was stale: a lost update is
      never made up for later. */
  lemma {:induction false} AttemptsExactIffNoLostUpdate(db: Database, acts: seq<Action>, user: UserId, e: Id)
    requires Unused(db)
    requires Row(Exec(Start(db), acts).db.progress, user, e).Some?
    ensures var now := Exec(Start(db), acts).db;
            Row(now.progress, user, e).value.attempts == |VerdictsOf(now, user, e)|
            <==> !LostUpdate(Start(db), acts, user, e)
  {
    RunsKeepTally(db, acts, user, e);
  }

  /** A commit moves solved_at of an already solved row exactly when its request had read the row
      before the solve, passes, and carries another time. */
  lemma {:induction false} SolvedAtMovesIff(s: System, ls: seq<Id>, c: Id)
    requires Inv(s, ls) && c in s.calls && MayCommit(s.db, s.calls[c])
    requires s.calls[c].exercise in SolvedSet(s.db, s.calls[c].user)
    ensures var call := s.calls[c];
            var before := Row(s.db.progress, call.user, call.exercise).value.solvedAt;
            var after := Row(Step(s, Commit(c)).db.progress, call.user, call.exercise);
            && after.Some? && after.value.isSolved
            && (after.value.solvedAt != before <==>
                  call.pc.Written? && !call.pc.seen.value.value.isSolved
                  && StatusFromResult(call.pc.result) == Passed && Some(call.pc.at) != before)
  {
    hide Valid, PairOk, Chain, Lists, Admissible, StatusFromResult, VerdictsOf;
    var call := s.calls[c];
    UniqueOfDbOk(s.db, ls);
    RowDecidesSolved(s.db, call.user, call.exercise);
    assert CallOk(s.db, ls, call);
    CommitWrites(s.db, ls, call);
  }
}
