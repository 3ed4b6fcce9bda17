/** Submit and grade, one request at a time (controllers/submissions.py, storage/_submissions.py,
    storage/_progress.py), and what the progress roll-up accounts for over whole runs. */
module Grading {
  import opened Schema
  import opened SandboxResult
  import opened Curriculum
  import opened Progression
  import opened Text

  // Only a run without a runner error has a verdict.
  function StatusFromResult(result: TestRunResult): (status: Status)
    ensures IsVerdict(status) <==> result.runnerError == ""
    ensures status != Pending
  {
    if result.runnerError != "" then
      if Contains(result.runnerError, "wall-clock") then Timeout else Error
    else if result.passed then Passed else Failed
  }

  predicate IsVerdict(status: Status) {
    status == Passed || status == Failed
  }

  function FirstRow(user: UserId, e: Id, sub: Id, solved: bool, now: Time): Progress {
    Progress(user, e, solved, 1, Some(sub), if solved then Some(now) else None, now)
  }

  // UPDATE of the columns the session changed: computed from the row it had read, applied to the
  // row as it is now. Solved columns are written only by the attempt that saw itself solve first.
  function Bump(seen: Progress, current: Progress, sub: Id, solved: bool, now: Time): Progress {
    var solves := solved && !seen.isSolved;
    current.(attempts := seen.attempts + 1, lastSubmissionId := Some(sub), updatedAt := now,
             isSolved := if solves then true else current.isSolved,
             solvedAt := if solves then Some(now) else current.solvedAt)
  }

  // Upsert by (user, exercise); `key` is the key an INSERT would draw.
  ghost function Record(table: map<Id, Progress>, key: Id, user: UserId, e: Id, sub: Id, solved: bool, now: Time)
    : map<Id, Progress>
  {
    match RowOf(table, user, e)
    case None => table[key := FirstRow(user, e, sub, solved, now)]
    case Some(p) => table[p := Bump(table[p], table[p], sub, solved, now)]
  }

  ghost function RecordAttempt(db: Database, user: UserId, e: Id, sub: Id, solved: bool, now: Time): Database {
    db.(progress := Record(db.progress, db.nextId, user, e, sub, solved, now),
        nextId := if RowOf(db.progress, user, e).None? then db.nextId + 1 else db.nextId)
  }

  function StoreSubmission(db: Database, r: Request): Database {
    db.(submissions := db.submissions[db.nextId :=
          Submission(r.user, r.exercise, r.code, StatusFromResult(r.result), Some(r.result))],
        nextId := db.nextId + 1)
  }

  datatype Request = Request(user: UserId, exercise: Id, code: string, result: TestRunResult, at: Time)

  datatype Answer = NotFound | Forbidden | Graded(submission: Id, status: Status, solved: bool)

  // Everything a graded request writes; a sandbox failure is stored but is not an attempt.
  ghost function Grade(db: Database, r: Request): Database {
    if r.result.runnerError != "" then StoreSubmission(db, r)
    else RecordAttempt(StoreSubmission(db, r), r.user, r.exercise, db.nextId,
                       StatusFromResult(r.result) == Passed, r.at)
  }

  // One whole request, with the sandbox's answer given; the database is the committed one.
  ghost function Submit(db: Database, ls: seq<Id>, r: Request): (Database, Answer) {
    if r.exercise !in db.exercises then (db, NotFound)
    else if Locked(db, r.user, ls, db.exercises[r.exercise].parent) then (db, Forbidden)
    else
      var status := StatusFromResult(r.result);
      (Grade(db, r), Graded(db.nextId, status, status == Passed))
  }

  ghost function Serve(db: Database, ls: seq<Id>, rs: seq<Request>): Database {
    if rs == [] then db else Submit(Serve(db, ls, rs[..|rs| - 1]), ls, rs[|rs| - 1]).0
  }

  // ---- the log of counted attempts, and the roll-up recomputed from it ------------------------

  datatype Attempt = Attempt(user: UserId, exercise: Id, submission: Id, passed: bool, at: Time)

  ghost function Log(db: Database, ls: seq<Id>, rs: seq<Request>): seq<Attempt> {
    if rs == [] then [] else
    var r := rs[|rs| - 1];
    Log(db, ls, rs[..|rs| - 1]) +
    match Submit(Serve(db, ls, rs[..|rs| - 1]), ls, r).1
    case Graded(sub, status, _) =>
      if IsVerdict(status) then [Attempt(r.user, r.exercise, sub, status == Passed, r.at)] else []
    case _ => []
  }

  function Mine(log: seq<Attempt>, user: UserId, e: Id): seq<Attempt> {
    if log == [] then [] else
    var a := log[|log| - 1];
    Mine(log[..|log| - 1], user, e) + if a.user == user && a.exercise == e then [a] else []
  }

  function FirstPass(mine: seq<Attempt>): Option<Time> {
    if mine == [] then None
    else if mine[0].passed then Some(mine[0].at)
    else FirstPass(mine[1..])
  }

  function Rollup(mine: seq<Attempt>, user: UserId, e: Id): Option<Progress> {
    if mine == [] then None else
    var last := mine[|mine| - 1];
    Some(Progress(user, e, FirstPass(mine).Some?, |mine|, Some(last.submission), FirstPass(mine), last.at))
  }

  // The verdicts stored for a pair: what an attempt counter ought to count.
  function VerdictsOf(db: Database, user: UserId, e: Id): set<Id> {
    set s | s in db.submissions && db.submissions[s].userId == user && db.submissions[s].exerciseId == e
            && IsVerdict(db.submissions[s].status)
  }

  function PassesOf(db: Database, user: UserId, e: Id): set<Id> {
    set s | s in VerdictsOf(db, user, e) && db.submissions[s].status == Passed
  }

  ghost predicate Unused(db: Database) {
    Valid(db) && db.submissions == map[] && db.progress == map[]
  }

  ghost predicate NoPending(db: Database) {
    forall s | s in db.submissions :: db.submissions[s].status != Pending
  }

  ghost predicate Accounted(db: Database, user: UserId, e: Id, mine: seq<Attempt>) {
    && Row(db.progress, user, e) == Rollup(mine, user, e)
    && |mine| == |VerdictsOf(db, user, e)|
    && (mine != [] ==> mine[|mine| - 1].submission in VerdictsOf(db, user, e))
    && (mine != [] ==> forall s | s in VerdictsOf(db, user, e) :: s <= mine[|mine| - 1].submission)
    && (FirstPass(mine).Some? <==> PassesOf(db, user, e) != {})
  }

  lemma {:induction false} FirstPassAppend(mine: seq<Attempt>, a: Attempt)
    ensures FirstPass(mine + [a])
            == if FirstPass(mine).Some? then FirstPass(mine) else if a.passed then Some(a.at) else None
  {
    if mine != [] {
      assert (mine + [a])[1..] == mine[1..] + [a];
      FirstPassAppend(mine[1..], a);
    }
  }

  lemma {:induction false} RecordRows(table: map<Id, Progress>, key: Id, user: UserId, e: Id,
                                     sub: Id, solved: bool, now: Time)
    requires UniqueRows(table) && key !in table
    ensures var after := Record(table, key, user, e, sub, solved, now);
            && UniqueRows(after)
            && Row(after, user, e) == (match Row(table, user, e)
                 case None => Some(FirstRow(user, e, sub, solved, now))
                 case Some(p) => Some(Bump(p, p, sub, solved, now)))
            && (forall u, x | u != user || x != e :: Row(after, u, x) == Row(table, u, x))
  {
    var after := Record(table, key, user, e, sub, solved, now);
    var p := RowOf(table, user, e);
    var at := if p.None? then key else p.value;
    assert after[at].userId == user && after[at].exerciseId == e;
    assert RowOf(after, user, e) == Some(at);
    forall u, x | u != user || x != e ensures Row(after, u, x) == Row(table, u, x) {
      var q := RowOf(table, u, x);
      if q.Some? { assert after[q.value] == table[q.value]; }
    }
  }

  lemma {:induction false} StoreKeepsConstraints(db: Database, r: Request)
    requires Valid(db) && r.exercise in db.exercises
    ensures Valid(StoreSubmission(db, r))
  {
    hide ContentTables, StatusFromResult;
    SameContent(db, StoreSubmission(db, r));
    var after := StoreSubmission(db, r);
    assert forall p | p in db.progress :: RowReferences(db, db.progress[p]) && RowReferences(after, db.progress[p]);
  }

  lemma {:induction false} RecordKeepsConstraints(db: Database, user: UserId, e: Id, sub: Id, solved: bool, now: Time)
    requires Valid(db) && e in db.exercises && sub in db.submissions
    ensures Valid(RecordAttempt(db, user, e, sub, solved, now))
  {
    var after := RecordAttempt(db, user, e, sub, solved, now);
    hide ContentTables;
    RecordRows(db.progress, db.nextId, user, e, sub, solved, now);
    SameContent(db, after);
    forall p | p in after.progress ensures RowReferences(after, after.progress[p]) && p < after.nextId {
      if p in db.progress { assert RowReferences(db, db.progress[p]); }
    }
  }

  lemma {:induction false} GradeKeepsConstraints(db: Database, r: Request)
    requires Valid(db) && r.exercise in db.exercises
    ensures Valid(Grade(db, r)) && SameCurriculum(db, Grade(db, r))
  {
    hide ContentTables, UserTables;
    StoreKeepsConstraints(db, r);
    RecordKeepsConstraints(StoreSubmission(db, r), r.user, r.exercise, db.nextId,
                           StatusFromResult(r.result) == Passed, r.at);
  }

  lemma {:induction false} SubmitKeepsConstraints(db: Database, ls: seq<Id>, r: Request)
    requires Valid(db)
    ensures Valid(Submit(db, ls, r).0) && SameCurriculum(db, Submit(db, ls, r).0)
    ensures NoPending(db) ==> NoPending(Submit(db, ls, r).0)
  {
    if r.exercise in db.exercises {
      GradeKeepsConstraints(db, r);
      GradeLeavesNonePending(db, r);
    }
  }

  lemma {:induction false} GradeLeavesNonePending(db: Database, r: Request)
    ensures NoPending(db) ==> NoPending(Grade(db, r))
  {
    hide StatusFromResult;
    assert Grade(db, r).submissions == StoreSubmission(db, r).submissions;
  }

  lemma {:induction false} AddedVerdict(db: Database, after: Database, sub: Id, row: Submission, user: UserId, e: Id)
    requires sub !in db.submissions && after.submissions == db.submissions[sub := row]
    ensures VerdictsOf(after, user, e) == VerdictsOf(db, user, e) +
              if user == row.userId && e == row.exerciseId && IsVerdict(row.status) then {sub} else {}
  {
    var more := if user == row.userId && e == row.exerciseId && IsVerdict(row.status) then {sub} else {};
    forall s ensures s in VerdictsOf(after, user, e) <==> s in VerdictsOf(db, user, e) + more {
      assert s != sub ==> (s in after.submissions <==> s in db.submissions);
    }
  }

  // One more stored submission, seen from every pair.
  lemma {:induction false} AddedSubmission(db: Database, after: Database, sub: Id, row: Submission, user: UserId, e: Id)
    requires sub !in db.submissions && after.submissions == db.submissions[sub := row]
    ensures var counted := user == row.userId && e == row.exerciseId && IsVerdict(row.status);
            && VerdictsOf(after, user, e) == VerdictsOf(db, user, e) + (if counted then {sub} else {})
            && PassesOf(after, user, e)
               == PassesOf(db, user, e) + (if counted && row.status == Passed then {sub} else {})
            && |VerdictsOf(after, user, e)| == |VerdictsOf(db, user, e)| + if counted then 1 else 0
  {
    AddedVerdict(db, after, sub, row, user, e);
    AddedPass(db, after, sub, row, user, e);
    assert sub !in VerdictsOf(db, user, e);
    hide *;
  }

  lemma {:induction false} AddedPass(db: Database, after: Database, sub: Id, row: Submission, user: UserId, e: Id)
    requires sub !in db.submissions && after.submissions == db.submissions[sub := row]
    ensures PassesOf(after, user, e) == PassesOf(db, user, e) +
              if user == row.userId && e == row.exerciseId && row.status == Passed then {sub} else {}
  {
    var more := if user == row.userId && e == row.exerciseId && row.status == Passed then {sub} else {};
    forall s ensures s in PassesOf(after, user, e) <==> s in PassesOf(db, user, e) + more {
      assert s != sub ==> (s in after.submissions <==> s in db.submissions);
    }
  }

  // What one graded request changes, seen from every pair.
  lemma {:induction false} GradeRows(db: Database, r: Request, user: UserId, e: Id)
    requires Valid(db)
    ensures var after, status := Grade(db, r), StatusFromResult(r.result);
            var counted := user == r.user && e == r.exercise && IsVerdict(status);
            && VerdictsOf(after, user, e) == VerdictsOf(db, user, e) + (if counted then {db.nextId} else {})
            && PassesOf(after, user, e)
               == PassesOf(db, user, e) + (if counted && status == Passed then {db.nextId} else {})
            && Row(after.progress, user, e) ==
               if !counted then Row(db.progress, user, e)
               else match Row(db.progress, user, e)
                    case None => Some(FirstRow(user, e, db.nextId, status == Passed, r.at))
                    case Some(p) => Some(Bump(p, p, db.nextId, status == Passed, r.at))
  {
    var stored := StoreSubmission(db, r);
    hide VerdictsOf, PassesOf, ContentTables, StatusFromResult, RowOf;
    RecordRows(db.progress, db.nextId + 1, r.user, r.exercise, db.nextId, StatusFromResult(r.result) == Passed, r.at);
    assert db.nextId !in db.submissions;
    AddedSubmission(db, Grade(db, r), db.nextId, stored.submissions[db.nextId], user, e);
  }

  lemma {:induction false} SameVerdicts(a: Database, b: Database, user: UserId, e: Id)
    requires a.submissions == b.submissions
    ensures VerdictsOf(a, user, e) == VerdictsOf(b, user, e) && PassesOf(a, user, e) == PassesOf(b, user, e)
  {}

  lemma {:induction false} RollupAppend(mine: seq<Attempt>, a: Attempt)
    ensures Rollup(mine + [a], a.user, a.exercise) == (match Rollup(mine, a.user, a.exercise)
              case None => Some(FirstRow(a.user, a.exercise, a.submission, a.passed, a.at))
              case Some(p) => Some(Bump(p, p, a.submission, a.passed, a.at)))
  {
    FirstPassAppend(mine, a);
  }

  lemma {:induction false} VerdictsBelow(db: Database, user: UserId, e: Id)
    requires Valid(db)
    ensures forall s | s in VerdictsOf(db, user, e) :: s < db.nextId
  {}

  lemma {:induction false} AttemptKeepsAccount(db: Database, r: Request, mine: seq<Attempt>)
    requires Valid(db) && IsVerdict(StatusFromResult(r.result)) && Accounted(db, r.user, r.exercise, mine)
    ensures Accounted(Grade(db, r), r.user, r.exercise,
              mine + [Attempt(r.user, r.exercise, db.nextId, StatusFromResult(r.result) == Passed, r.at)])
  {
    hide Grade, StatusFromResult, ContentTables, Rollup, FirstPass, Bump, FirstRow, PassesOf, VerdictsOf;
    VerdictsBelow(db, r.user, r.exercise);
    GradeRows(db, r, r.user, r.exercise);
    var a := Attempt(r.user, r.exercise, db.nextId, StatusFromResult(r.result) == Passed, r.at);
    RollupAppend(mine, a);
    FirstPassAppend(mine, a);
    assert a.passed ==> db.nextId in PassesOf(Grade(db, r), r.user, r.exercise);
  }

  lemma {:induction false} OthersKeepAccount(db: Database, r: Request, user: UserId, e: Id, mine: seq<Attempt>)
    requires Valid(db) && Accounted(db, user, e, mine)
    requires IsVerdict(StatusFromResult(r.result)) ==> user != r.user || e != r.exercise
    ensures Accounted(Grade(db, r), user, e, mine)
  {
    GradeRows(db, r, user, e);
  }

  lemma {:induction false} UnusedIsAccounted(db: Database, user: UserId, e: Id)
    requires Unused(db)
    ensures Valid(db) && NoPending(db) && Accounted(db, user, e, [])
  {}

  lemma {:induction false} SubmitAnswer(db: Database, ls: seq<Id>, r: Request)
    ensures var (after, answer) := Submit(db, ls, r);
            if answer.Graded?
            then after == Grade(db, r) && answer.submission == db.nextId && answer.status == StatusFromResult(r.result)
            else after == db
  {}

  /** Conservation over every serial run from an unused database. */
  lemma {:induction false} RunsAreAccounted(db: Database, ls: seq<Id>, rs: seq<Request>, user: UserId, e: Id)
    requires Unused(db)
    ensures var after := Serve(db, ls, rs);
            Valid(after) && NoPending(after) && SameCurriculum(db, after)
            && Accounted(after, user, e, Mine(Log(db, ls, rs), user, e))
  {
    hide Valid, Submit, Accounted, NoPending, StatusFromResult;
    if rs == [] {
      UnusedIsAccounted(db, user, e);
    } else {
      var before, r := Serve(db, ls, rs[..|rs| - 1]), rs[|rs| - 1];
      var log := Log(db, ls, rs[..|rs| - 1]);
      RunsAreAccounted(db, ls, rs[..|rs| - 1], user, e);
      SubmitKeepsConstraints(before, ls, r);
      SubmitAnswer(before, ls, r);
      var answer := Submit(before, ls, r).1;
      if answer.Graded? && IsVerdict(answer.status) {
        var a := Attempt(r.user, r.exercise, answer.submission, answer.status == Passed, r.at);
        MineAppend(log, a, user, e);
        assert Log(db, ls, rs) == log + [a];
        if user == r.user && e == r.exercise {
          AttemptKeepsAccount(before, r, Mine(log, user, e));
        } else {
          OthersKeepAccount(before, r, user, e, Mine(log, user, e));
        }
      } else {
        assert log + [] == log;
        if answer.Graded? { OthersKeepAccount(before, r, user, e, Mine(log, user, e)); }
      }
    }
  }

  lemma {:induction false} MineAppend(log: seq<Attempt>, a: Attempt, user: UserId, e: Id)
    ensures Mine(log + [a], user, e)
            == if a.user == user && a.exercise == e then Mine(log, user, e) + [a] else Mine(log, user, e)
  {
    assert (log + [a])[..|log|] == log;
    assert Mine(log, user, e) + [] == Mine(log, user, e);
  }

  // An accounted pair in table terms.
  ghost predicate CountsVerdicts(db: Database, user: UserId, e: Id) {
    var verdicts := VerdictsOf(db, user, e);
    match Row(db.progress, user, e)
    case None => verdicts == {}
    case Some(p) =>
      && p.attempts == |verdicts| > 0
      && p.lastSubmissionId.Some? && p.lastSubmissionId.value in verdicts
      && (forall s | s in verdicts :: s <= p.lastSubmissionId.value)
      && (p.isSolved <==> PassesOf(db, user, e) != {})
      && (p.isSolved <==> p.solvedAt.Some?)
  }

  lemma {:induction false} AccountedCounts(db: Database, user: UserId, e: Id, mine: seq<Attempt>)
    requires Accounted(db, user, e, mine)
    ensures CountsVerdicts(db, user, e)
    ensures Row(db.progress, user, e).Some? ==> Row(db.progress, user, e).value.solvedAt == FirstPass(mine)
  {
    hide VerdictsOf, PassesOf, RowOf;
  }

  /** In table terms: a row exists iff a verdict does; attempts counts the verdicts, the last
      submission is the newest of them, and solved means some verdict passed. */
  lemma {:induction false} ProgressCountsVerdicts(db: Database, ls: seq<Id>, rs: seq<Request>, user: UserId, e: Id)
    requires Unused(db)
    ensures var after := Serve(db, ls, rs);
            && CountsVerdicts(after, user, e)
            && (Row(after.progress, user, e).Some? ==>
                  Row(after.progress, user, e).value.solvedAt == FirstPass(Mine(Log(db, ls, rs), user, e)))
  {
    hide CountsVerdicts, Accounted;
    RunsAreAccounted(db, ls, rs, user, e);
    AccountedCounts(Serve(db, ls, rs), user, e, Mine(Log(db, ls, rs), user, e));
  }

  /** A solve is sticky: no later request moves solved_at or takes the solve away, and a sandbox
      failure changes no progress at all. */
  lemma {:induction false} SolveIsSticky(db: Database, ls: seq<Id>, r: Request, user: UserId, e: Id)
    requires Valid(db)
    ensures var row, later := Row(db.progress, user, e), Row(Submit(db, ls, r).0.progress, user, e);
            row.Some? && row.value.isSolved ==>
              later.Some? && later.value.isSolved && later.value.solvedAt == row.value.solvedAt
    ensures r.result.runnerError != "" ==> Submit(db, ls, r).0.progress == db.progress
  {
    hide ContentTables, Submit, Row, StatusFromResult, VerdictsOf, PassesOf;
    SubmitAnswer(db, ls, r);
    GradeRows(db, r, user, e);
  }

  /** Which answer a request gets: not found iff there is no such exercise; forbidden iff its published lesson is not
      the first listed and the one before it is not fully solved; graded otherwise. A refusal changes nothing. */
  lemma {:induction false} SubmitAnswers(db: Database, ls: seq<Id>, r: Request)
    requires Valid(db) && Lists(db, ls)
    ensures var (after, answer) := Submit(db, ls, r);
            && (answer == NotFound <==> r.exercise !in db.exercises)
            && (answer == Forbidden <==> exists k | 0 < k < |ls| ::
                  r.exercise in ExercisesOf(db, ls[k]) && !FullySolved(db, r.user, ls[k - 1]))
            && (answer.Graded? ==> answer.status == StatusFromResult(r.result)
                                   && (answer.solved <==> answer.status == Passed) && after == Grade(db, r))
            && (!answer.Graded? ==> after == db)
  {
    hide ContentTables, UserTables, Locked, Grade, StatusFromResult, FullySolved;
    UniqueIsValid(db);
    LockMeaning(db, r.user, ls);
    if r.exercise in db.exercises {
      var lesson := db.exercises[r.exercise].parent;
      if lesson in Published(db) {
        var k := ListedAt(db, ls, lesson);
        assert r.exercise in ExercisesOf(db, ls[k]);
        forall i | 0 <= i < |ls| && r.exercise in ExercisesOf(db, ls[i]) ensures ls[i] == ls[k] {}
        LessonsListedOnce(db, ls, k);
      } else {
        ListedPositions(db, ls);
        assert forall i | 0 <= i < |ls| :: r.exercise !in ExercisesOf(db, ls[i]);
      }
    }
  }

  lemma {:induction false} UniqueIsValid(db: Database)
    requires Valid(db)
    ensures UniqueProgress(db)
  {}

  lemma {:induction false} LessonsListedOnce(db: Database, ls: seq<Id>, k: nat)
    requires Lists(db, ls) && k < |ls|
    ensures forall i | 0 <= i < |ls| && ls[i] == ls[k] :: i == k
  {}

  // A submission is read back by its owner only.
  function GetSubmission(db: Database, user: UserId, sub: Id): Option<Submission> {
    if sub in db.submissions && db.submissions[sub].userId == user then Some(db.submissions[sub]) else None
  }

  /** A graded submission reads back as submitted and graded after any number of later requests, and
      nobody but its owner ever reads it. */
  lemma {:induction false} SubmissionIsPermanent(db: Database, ls: seq<Id>, r: Request, later: seq<Request>,
                                                reader: UserId)
    requires Valid(db) && Submit(db, ls, r).1.Graded?
    ensures var (after, answer) := Submit(db, ls, r);
            && Valid(Serve(after, ls, later)) && answer.submission < Serve(after, ls, later).nextId
            && GetSubmission(Serve(after, ls, later), reader, answer.submission)
               == if reader == r.user
                  then Some(Submission(r.user, r.exercise, r.code, StatusFromResult(r.result), Some(r.result)))
                  else None
  {
    hide ContentTables, Submit, StatusFromResult;
    SubmitAnswer(db, ls, r);
    if later == [] {
      SubmitKeepsConstraints(db, ls, r);
      GradeStores(db, r);
    } else {
      var before, last := Serve(Submit(db, ls, r).0, ls, later[..|later| - 1]), later[|later| - 1];
      SubmissionIsPermanent(db, ls, r, later[..|later| - 1], reader);
      SubmitKeepsConstraints(before, ls, last);
      SubmitAnswer(before, ls, last);
      GradeStores(before, last);
    }
  }

  lemma {:induction false} GradeStores(db: Database, r: Request)
    ensures Grade(db, r).submissions
            == db.submissions[db.nextId :=
                 Submission(r.user, r.exercise, r.code, StatusFromResult(r.result), Some(r.result))]
    ensures db.nextId < Grade(db, r).nextId
  {
    hide Record, StatusFromResult;
  }

  // ---- the chain over serial runs ----------------------------------------------------------------

  lemma {:induction false} SubmitSaysSolved(db: Database, ls: seq<Id>, r: Request)
    ensures var answer := Submit(db, ls, r).1;
            answer.Graded? ==> answer.solved == (StatusFromResult(r.result) == Passed)
  {}

  lemma {:induction false} SubmitSolves(db: Database, ls: seq<Id>, r: Request)
    requires Valid(db)
    ensures var (after, answer) := Submit(db, ls, r);
            && Later(db, after)
            && (forall u :: SolvedSet(after, u) == SolvedSet(db, u) +
                  if u == r.user && answer.Graded? && answer.solved then {r.exercise} else {})
  {
    hide ContentTables, Submit, Grade, Row, SolvedSet, VerdictsOf, PassesOf;
    SubmitAnswer(db, ls, r);
    SubmitSaysSolved(db, ls, r);
    var (after, answer) := Submit(db, ls, r);
    SubmitKeepsConstraints(db, ls, r);
    forall u ensures SolvedSet(after, u) == SolvedSet(db, u) +
        if u == r.user && answer.Graded? && answer.solved then {r.exercise} else {} {
      forall e ensures e in SolvedSet(after, u) <==>
          e in SolvedSet(db, u) || (u == r.user && answer.Graded? && answer.solved && e == r.exercise) {
        GradeRows(db, r, u, e);
        RowDecidesSolved(db, u, e);
        RowDecidesSolved(after, u, e);
      }
    }
  }

  lemma {:induction false} AdmittedIsAdmissible(db: Database, user: UserId, ls: seq<Id>, e: Id)
    requires Valid(db) && Lists(db, ls) && e in db.exercises && !Locked(db, user, ls, db.exercises[e].parent)
    ensures Admissible(db, user, ls, e)
  {
    LockMeaning(db, user, ls);
  }

  lemma {:induction false} GradedWasAdmitted(db: Database, ls: seq<Id>, r: Request)
    requires Submit(db, ls, r).1.Graded?
    ensures r.exercise in db.exercises && !Locked(db, r.user, ls, db.exercises[r.exercise].parent)
  {}

  lemma {:induction false} SubmitKeepsChain(db: Database, ls: seq<Id>, r: Request, user: UserId)
    requires Valid(db) && Lists(db, ls) && Chain(db, user, ls)
    ensures Chain(Submit(db, ls, r).0, user, ls) && Lists(Submit(db, ls, r).0, ls)
  {
    hide Valid, Submit, Locked, SolvedSet, FullySolved, Chain;
    var (after, answer) := Submit(db, ls, r);
    SubmitSolves(db, ls, r);
    assert Published(after) == Published(db);
    if answer.Graded? && user == r.user {
      GradedWasAdmitted(db, ls, r);
      AdmittedIsAdmissible(db, user, ls, r.exercise);
      SolvingKeepsChain(db, after, user, ls, r.exercise);
    } else {
      NoSolveKeepsChain(db, after, user, ls);
    }
  }
}
