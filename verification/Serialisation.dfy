/** How far an interleaved run is from a serial one: its committed requests, served one at a time in commit
    order, leave the same progress row for a pair exactly when no update of that row was lost. */
module Serialisation {
  import opened Schema
  import opened SandboxResult
  import opened Curriculum
  import opened Progression
  import opened Grading
  import opened Interleaving
  import opened Reachable
  import Solo

  predicate Effective(s: System, a: Action) {
    a.Commit? && a.c in s.calls && MayCommit(s.db, s.calls[a.c])
  }

  // The time of a run without a verdict is never stored.
  function RequestOf(call: Call): Request
    requires call.pc.Finalized? || call.pc.Written?
  {
    Request(call.user, call.exercise, call.code, call.pc.result, if call.pc.Written? then call.pc.at else 0)
  }

  ghost function CommitOrder(s: System, acts: seq<Action>): seq<Request> {
    if acts == [] then [] else
    var t, a := Exec(s, acts[..|acts| - 1]), acts[|acts| - 1];
    CommitOrder(s, acts[..|acts| - 1]) + if Effective(t, a) then [RequestOf(t.calls[a.c])] else []
  }

  // The same row, pointing to the same submission; only the submission's key may differ.
  ghost predicate SameRow(a: Database, b: Database, user: UserId, e: Id) {
    match (Row(a.progress, user, e), Row(b.progress, user, e))
    case (Some(p), Some(q)) =>
      && p.(lastSubmissionId := None) == q.(lastSubmissionId := None)
      && p.lastSubmissionId.Some? && p.lastSubmissionId.value in a.submissions
      && q.lastSubmissionId.Some? && q.lastSubmissionId.value in b.submissions
      && a.submissions[p.lastSubmissionId.value] == b.submissions[q.lastSubmissionId.value]
    case (None, None) => true
    case _ => false
  }

  // ---- what agrees in any case: verdicts, and so solved sets and the gate -----------------------------

  ghost predicate SameVerdictCounts(a: Database, b: Database) {
    forall u, e ::
      |VerdictsOf(a, u, e)| == |VerdictsOf(b, u, e)| && (PassesOf(a, u, e) == {} <==> PassesOf(b, u, e) == {})
  }

  ghost predicate Agree(a: Database, b: Database, ls: seq<Id>) {
    Valid(b) && Lists(b, ls) && SameCurriculum(a, b) && SameVerdictCounts(a, b)
  }

  ghost predicate AllCount(db: Database) {
    forall u, e :: CountsVerdicts(db, u, e)
  }

  lemma {:induction false} SameSolvedSets(a: Database, b: Database, ls: seq<Id>)
    requires DbOk(a, ls) && UniqueProgress(b) && AllCount(b) && SameVerdictCounts(a, b)
    ensures forall u :: SolvedSet(a, u) == SolvedSet(b, u)
  {
    hide Valid, Chain, Lists, SolvedSet, VerdictsOf, PassesOf, NoPending, UniqueProgress;
    UniqueOfDbOk(a, ls);
    assert UniqueProgress(a) by { UniqueIsUnique(a); }
    forall u, e ensures e in SolvedSet(a, u) <==> e in SolvedSet(b, u) {
      assert PairOk(a, u, e) && CountsVerdicts(b, u, e);
      RowDecidesSolved(a, u, e);
      RowDecidesSolved(b, u, e);
    }
  }

  lemma {:induction false} UniqueIsUnique(db: Database)
    requires UniqueRows(db.progress)
    ensures UniqueProgress(db)
  {}

  // What the gate let through long ago it still lets through, in any database with the same solves.
  lemma {:induction false} StillAccepted(a: Database, b: Database, ls: seq<Id>, r: Request)
    requires UniqueProgress(b) && Lists(b, ls) && SameCurriculum(a, b) && SolvedSet(a, r.user) == SolvedSet(b, r.user)
    requires r.exercise in a.exercises && Admissible(a, r.user, ls, r.exercise)
    ensures Submit(b, ls, r).1.Graded? && Submit(b, ls, r).0 == Grade(b, r)
  {
    hide Locked, Grade, UniqueProgress;
    LockMeaning(b, r.user, ls);
    assert forall l :: ExercisesOf(a, l) == ExercisesOf(b, l);
    var lesson := b.exercises[r.exercise].parent;
    if lesson in Published(b) {
      var k := ListedAt(b, ls, lesson);
      assert r.exercise in ExercisesOf(a, ls[k]);
      assert Unlocked(a, r.user, ls, k) && Unlocked(b, r.user, ls, k);
    }
    assert !Locked(b, r.user, ls, lesson);
  }

  lemma {:induction false} GradeCounts(db: Database, r: Request, user: UserId, e: Id)
    requires Valid(db)
    ensures var after, status := Grade(db, r), StatusFromResult(r.result);
            var counted := user == r.user && e == r.exercise && IsVerdict(status);
            && |VerdictsOf(after, user, e)| == |VerdictsOf(db, user, e)| + (if counted then 1 else 0)
            && (PassesOf(after, user, e) == {} <==> PassesOf(db, user, e) == {} && !(counted && status == Passed))
  {
    hide Valid, Grade, VerdictsOf, PassesOf, StatusFromResult, Row;
    GradeRows(db, r, user, e);
    VerdictsBelow(db, user, e);
  }

  lemma {:induction false} CommitKeepsAgreement(s: System, c: Id, ser: Database, ls: seq<Id>)
    requires Inv(s, ls) && Effective(s, Commit(c)) && Agree(s.db, ser, ls) && AllCount(ser)
    ensures var t, r := Step(s, Commit(c)), RequestOf(s.calls[c]);
            Submit(ser, ls, r).0 == Grade(ser, r) && Agree(t.db, Submit(ser, ls, r).0, ls)
  {
    hide DbOk, AllCount, Submit, Grade, CommitDb, Lists, Locked, RowLocked, RowOf, Admissible, SolvedSet, VerdictsOf,
         PassesOf, SeenStillHolds, Apart, StatusFromResult, ContentTables, UserTables;
    var call, t := s.calls[c], Step(s, Commit(c));
    var r := RequestOf(call);
    assert CallOk(s.db, ls, call);
    UniqueOfValid(ser);
    SameSolvedSets(s.db, ser, ls);
    StillAccepted(s.db, ser, ls, r);
    SubmitKeepsConstraints(ser, ls, r);
    StepIsLater(s, Commit(c), ls);
    SameListing(ser, Grade(ser, r), ls);
    assert call.pc.sub in Keys(call.pc);
    forall u, e ensures |VerdictsOf(t.db, u, e)| == |VerdictsOf(Grade(ser, r), u, e)|
                        && (PassesOf(t.db, u, e) == {} <==> PassesOf(Grade(ser, r), u, e) == {}) {
      CommitVerdicts(s.db, call, u, e);
      GradeCounts(ser, r, u, e);
    }
  }

  lemma {:induction false} UniqueOfValid(db: Database)
    requires Valid(db)
    ensures UniqueProgress(db)
  {}

  lemma {:induction false} RunsAgree(db: Database, ls: seq<Id>, acts: seq<Action>)
    requires Opening(db, ls)
    ensures Agree(Exec(Start(db), acts).db, Serve(db, ls, CommitOrder(Start(db), acts)), ls)
    ensures AllCount(Serve(db, ls, CommitOrder(Start(db), acts)))
  {
    hide Inv, Opening, Step, Agree, AllCount, CountsVerdicts, Submit, Effective;
    var rs := CommitOrder(Start(db), acts);
    if acts == [] {
      AgreeAtStart(db, ls);
    } else {
      var init, a := acts[..|acts| - 1], acts[|acts| - 1];
      var s, before := Exec(Start(db), init), CommitOrder(Start(db), init);
      RunsKeepInv(db, ls, init);
      RunsAgree(db, ls, init);
      if Effective(s, a) {
        EffectiveIsCommit(s, a);
        CommitKeepsAgreement(s, a.c, Serve(db, ls, before), ls);
        ServeLast(db, ls, before, RequestOf(s.calls[a.c]));
      } else {
        assert rs == before;
        QuietAgrees(s, a, Serve(db, ls, before), ls);
      }
    }
    ServedCounts(db, ls, rs);
  }

  lemma {:induction false} EffectiveIsCommit(s: System, a: Action)
    requires Effective(s, a)
    ensures a == Commit(a.c) && a.c in s.calls && (s.calls[a.c].pc.Finalized? || s.calls[a.c].pc.Written?)
  {}

  lemma {:induction false} ServeLast(db: Database, ls: seq<Id>, rs: seq<Request>, r: Request)
    ensures Serve(db, ls, rs + [r]) == Submit(Serve(db, ls, rs), ls, r).0
  {
    hide Submit;
    assert (rs + [r])[..|rs|] == rs;
  }

  lemma {:induction false} AgreeAtStart(db: Database, ls: seq<Id>)
    requires Opening(db, ls)
    ensures Agree(db, db, ls)
  {}

  lemma {:induction false} QuietAgrees(s: System, a: Action, ser: Database, ls: seq<Id>)
    requires !Effective(s, a) && Agree(s.db, ser, ls)
    ensures Agree(Step(s, a).db, ser, ls)
  {
    hide Step, VerdictsOf, PassesOf, Lists, ContentTables, UserTables;
    QuietStep(s, a);
    forall u, e ensures VerdictsOf(Step(s, a).db, u, e) == VerdictsOf(s.db, u, e)
                        && PassesOf(Step(s, a).db, u, e) == PassesOf(s.db, u, e) {
      SameVerdicts(s.db, Step(s, a).db, u, e);
    }
  }

  lemma {:induction false} ServedCounts(db: Database, ls: seq<Id>, rs: seq<Request>)
    requires Opening(db, ls)
    ensures AllCount(Serve(db, ls, rs))
  {
    hide CountsVerdicts, Serve;
    forall u, e ensures CountsVerdicts(Serve(db, ls, rs), u, e) { ProgressCountsVerdicts(db, ls, rs, u, e); }
  }

  // ---- what agrees as long as nothing is lost: the row itself -------------------------------------------

  // A request of this pair that has read a row of the current counter has read the current row.
  ghost predicate Current(s: System, user: UserId, e: Id) {
    forall c | c in s.calls && s.calls[c].user == user && s.calls[c].exercise == e
               && (s.calls[c].pc.Read? || s.calls[c].pc.Written?) && s.calls[c].pc.seen.Some? ::
      var row, seen := Row(s.db.progress, user, e), s.calls[c].pc.seen.value.value;
      row.Some? && seen.attempts <= row.value.attempts && (seen.attempts == row.value.attempts ==> seen == row.value)
  }

  lemma {:induction false} QuietKeepsRow(s: System, a: Action, ser: Database, user: UserId, e: Id)
    requires !Effective(s, a) && SameRow(s.db, ser, user, e) && Current(s, user, e)
    ensures SameRow(Step(s, a).db, ser, user, e) && Current(Step(s, a), user, e)
  {
    hide Lists, Locked, RowLocked, MayCommit, CommitDb;
    var t := Step(s, a);
    QuietStep(s, a);
    forall c | c in t.calls && t.calls[c].user == user && t.calls[c].exercise == e
               && (t.calls[c].pc.Read? || t.calls[c].pc.Written?) && t.calls[c].pc.seen.Some?
      ensures var row, seen := Row(t.db.progress, user, e), t.calls[c].pc.seen.value.value;
              row.Some? && seen.attempts <= row.value.attempts
              && (seen.attempts == row.value.attempts ==> seen == row.value)
    {
      assert c == a.c || t.calls[c] == s.calls[c];
    }
  }

  // The row of a pair after a commit, when what it overwrites is what it read.
  lemma {:induction false} CommittedRow(s: System, c: Id, ls: seq<Id>, user: UserId, e: Id)
    requires Inv(s, ls) && Effective(s, Commit(c)) && Current(s, user, e)
    requires StaleCommit(s, Commit(c)) ==> s.calls[c].user != user || s.calls[c].exercise != e
    ensures var call, after := s.calls[c], Step(s, Commit(c)).db;
            var solved := StatusFromResult(call.pc.result) == Passed;
            Row(after.progress, user, e) ==
              if user == call.user && e == call.exercise && call.pc.Written? then
                match Row(s.db.progress, user, e)
                case None => Some(FirstRow(user, e, call.pc.sub, solved, call.pc.at))
                case Some(p) => Some(Bump(p, p, call.pc.sub, solved, call.pc.at))
              else Row(s.db.progress, user, e)
  {
    hide DbOk, Admissible, StatusFromResult, Bump, FirstRow, FreshKeys, Apart, Lists, Locked, RowLocked;
    var call := s.calls[c];
    assert CallOk(s.db, ls, call);
    CommitWrites(s.db, ls, call);
  }

  lemma {:induction false} CommitKeepsCurrent(s: System, c: Id, ls: seq<Id>, user: UserId, e: Id)
    requires Inv(s, ls) && Effective(s, Commit(c)) && Current(s, user, e)
    requires StaleCommit(s, Commit(c)) ==> s.calls[c].user != user || s.calls[c].exercise != e
    ensures Current(Step(s, Commit(c)), user, e)
  {
    hide DbOk, Row, CommitDb, FreshKeys, Knows, StaleCommit, StatusFromResult, Lists, Locked, RowLocked, RowOf;
    var t := Step(s, Commit(c));
    CommittedRow(s, c, ls, user, e);
    assert t.calls == s.calls[c := s.calls[c].(pc := Committed(s.calls[c].pc.sub))];
  }

  // Equal up to the key of the last submission.
  predicate Alike(p: Option<Progress>, q: Option<Progress>) {
    p.Some? == q.Some? && (p.Some? ==> p.value.(lastSubmissionId := None) == q.value.(lastSubmissionId := None))
  }

  lemma {:induction false} BumpAlike(p: Progress, q: Progress, i: Id, j: Id, solved: bool, now: Time)
    requires Alike(Some(p), Some(q))
    ensures Alike(Some(Bump(p, p, i, solved, now)), Some(Bump(q, q, j, solved, now)))
  {
    assert p == q.(lastSubmissionId := p.lastSubmissionId) by {
      assert p.(lastSubmissionId := None).(lastSubmissionId := p.lastSubmissionId) == p;
    }
  }

  // A row that neither side changes goes on pointing to the same submission.
  lemma {:induction false} UntouchedRow(a: Database, b: Database, x: Database, y: Database, user: UserId, e: Id)
    requires SameRow(a, b, user, e)
    requires Row(x.progress, user, e) == Row(a.progress, user, e)
    requires Row(y.progress, user, e) == Row(b.progress, user, e)
    requires forall s | s in a.submissions :: s in x.submissions && x.submissions[s] == a.submissions[s]
    requires forall s | s in b.submissions :: s in y.submissions && y.submissions[s] == b.submissions[s]
    ensures SameRow(x, y, user, e)
  {
    hide Row;
  }

  lemma {:induction false} CommitStores(db: Database, call: Call)
    requires MayCommit(db, call) && call.pc.sub !in db.submissions
    ensures CommitDb(db, call).submissions == db.submissions[call.pc.sub :=
              Submission(call.user, call.exercise, call.code, StatusFromResult(call.pc.result), Some(call.pc.result))]
  {
    hide StatusFromResult, WriteBack;
  }

  lemma {:induction false} CommitKeepsRow(s: System, c: Id, ser: Database, ls: seq<Id>, user: UserId, e: Id)
    requires Inv(s, ls) && Effective(s, Commit(c)) && Current(s, user, e)
    requires Valid(ser) && SameRow(s.db, ser, user, e)
    requires StaleCommit(s, Commit(c)) ==> s.calls[c].user != user || s.calls[c].exercise != e
    ensures SameRow(Step(s, Commit(c)).db, Grade(ser, RequestOf(s.calls[c])), user, e)
  {
    hide DbOk, Row, CommitDb, StaleCommit, Current, StatusFromResult, Lists, Locked, RowLocked, RowOf, ContentTables,
         Grade, Bump, FirstRow, Admissible, SeenStillHolds, Apart, VerdictsOf, PassesOf;
    var call, r := s.calls[c], RequestOf(s.calls[c]);
    var after, served := Step(s, Commit(c)).db, Grade(ser, r);
    assert CallOk(s.db, ls, call);
    assert call.pc.sub in Keys(call.pc);
    CommittedRow(s, c, ls, user, e);
    CommitStores(s.db, call);
    GradeStores(ser, r);
    GradeRows(ser, r, user, e);
    assert after == CommitDb(s.db, call);
    assert ser.nextId !in ser.submissions;
    if user == call.user && e == call.exercise && call.pc.Written? {
      WrittenAlike(s.db, after, ser, served, call, user, e);
    } else {
      UntouchedRow(s.db, ser, after, served, user, e);
    }
  }

  lemma {:induction false} WrittenAlike(a: Database, x: Database, b: Database, y: Database, call: Call,
                                       user: UserId, e: Id)
    requires call.pc.Written? && SameRow(a, b, user, e)
    requires call.pc.sub in x.submissions && b.nextId in y.submissions
    requires x.submissions[call.pc.sub] == y.submissions[b.nextId]
    requires var solved := StatusFromResult(call.pc.result) == Passed;
             && Row(x.progress, user, e) == (match Row(a.progress, user, e)
                  case None => Some(FirstRow(user, e, call.pc.sub, solved, call.pc.at))
                  case Some(p) => Some(Bump(p, p, call.pc.sub, solved, call.pc.at)))
             && Row(y.progress, user, e) == (match Row(b.progress, user, e)
                  case None => Some(FirstRow(user, e, b.nextId, solved, call.pc.at))
                  case Some(q) => Some(Bump(q, q, b.nextId, solved, call.pc.at)))
    ensures SameRow(x, y, user, e)
  {
    hide Row, StatusFromResult;
    var p, q := Row(a.progress, user, e), Row(b.progress, user, e);
    if p.Some? {
      BumpAlike(p.value, q.value, call.pc.sub, b.nextId, StatusFromResult(call.pc.result) == Passed, call.pc.at);
    }
  }

  lemma {:induction false} RunsKeepRow(db: Database, ls: seq<Id>, acts: seq<Action>, user: UserId, e: Id)
    requires Opening(db, ls) && !LostUpdate(Start(db), acts, user, e)
    ensures SameRow(Exec(Start(db), acts).db, Serve(db, ls, CommitOrder(Start(db), acts)), user, e)
    ensures Current(Exec(Start(db), acts), user, e)
  {
    hide Inv, Opening, Step, Agree, AllCount, Submit, Grade, SameRow, Current, StaleCommit, Effective;
    if acts == [] {
      RowAtStart(db, ls, user, e);
    } else {
      var init, a := acts[..|acts| - 1], acts[|acts| - 1];
      var s, before := Exec(Start(db), init), CommitOrder(Start(db), init);
      var ser := Serve(db, ls, before);
      RunsKeepInv(db, ls, init);
      RunsKeepRow(db, ls, init, user, e);
      if Effective(s, a) {
        EffectiveIsCommit(s, a);
        RunsAgree(db, ls, init);
        AgreeIsValid(s.db, ser, ls);
        CommitKeepsAgreement(s, a.c, ser, ls);
        CommitKeepsRow(s, a.c, ser, ls, user, e);
        CommitKeepsCurrent(s, a.c, ls, user, e);
        ServeLast(db, ls, before, RequestOf(s.calls[a.c]));
      } else {
        assert CommitOrder(Start(db), acts) == before;
        QuietKeepsRow(s, a, ser, user, e);
      }
    }
  }

  lemma {:induction false} RowAtStart(db: Database, ls: seq<Id>, user: UserId, e: Id)
    requires Opening(db, ls)
    ensures SameRow(db, db, user, e) && Current(Start(db), user, e)
  {}

  lemma {:induction false} AgreeIsValid(a: Database, b: Database, ls: seq<Id>)
    requires Agree(a, b, ls)
    ensures Valid(b)
  {}

  // ---- the theorem ------------------------------------------------------------------------------------

  lemma {:induction false} BehindIsDifferent(a: Database, b: Database, user: UserId, e: Id)
    requires SameVerdictCounts(a, b) && CountsVerdicts(b, user, e)
    requires Row(a.progress, user, e).Some? && Row(a.progress, user, e).value.attempts < |VerdictsOf(a, user, e)|
    ensures !SameRow(a, b, user, e)
  {
    hide VerdictsOf, PassesOf, RowOf;
  }

  /** Any interleaved run against the serial run of its committed requests in commit order: everybody has solved
      the same exercises and every pair has as many verdicts; and a pair has the same progress row, up to
      the key of the submission it points to, if and only if no update of it was lost. */
  lemma {:induction false} SerialIffNoLostUpdate(db: Database, ls: seq<Id>, acts: seq<Action>, user: UserId, e: Id)
    requires Opening(db, ls)
    ensures var now, served := Exec(Start(db), acts).db, Serve(db, ls, CommitOrder(Start(db), acts));
            && SolvedSet(now, user) == SolvedSet(served, user)
            && |VerdictsOf(now, user, e)| == |VerdictsOf(served, user, e)|
            && (SameRow(now, served, user, e) <==> !LostUpdate(Start(db), acts, user, e))
  {
    hide Opening, Exec, Serve, CommitOrder, LostUpdate, SameRow, CountsVerdicts, Valid, Lists, SolvedSet, DbOk, CallsOk;
    var now, served := Exec(Start(db), acts).db, Serve(db, ls, CommitOrder(Start(db), acts));
    RunsKeepInv(db, ls, acts);
    RunsAgree(db, ls, acts);
    UniqueOfValid(served);
    SameSolvedSets(now, served, ls);
    if LostUpdate(Start(db), acts, user, e) {
      Solo.UnusedOfOpening(db, ls);
      Solo.LostIsBehind(db, acts, user, e);
      BehindIsDifferent(now, served, user, e);
    } else {
      RunsKeepRow(db, ls, acts, user, e);
    }
  }
}
