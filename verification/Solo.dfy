/** The interleaved system contains the serial one: a request that runs without interruption does
    exactly what Submit does. Two that overlap can do something no serial run can. */
module Solo {
  import opened Schema
  import opened SandboxResult
  import opened Curriculum
  import opened Progression
  import opened Grading
  import opened Interleaving
  import opened Reachable

  // Everything up to and including the SELECT of the progress row.
  function ReadScript(ls: seq<Id>, c: Id, r: Request): seq<Action> {
    [Arrive(c, r.user, r.exercise, r.code), ReadGate(c, ls), InsertPending(c), RunSandbox(c, r.result), Finalize(c),
     ReadProgress(c)]
  }

  function Script(ls: seq<Id>, c: Id, r: Request): seq<Action> {
    ReadScript(ls, c, r) + [WriteProgress(c, r.at), Commit(c)]
  }

  lemma {:induction false} ExecTwo(s: System, a: Action, b: Action)
    ensures Exec(s, [a, b]) == Step(Step(s, a), b)
  {
    hide Step;
    assert [a, b][..1] == [a];
    assert [a][..0] == [];
    assert Exec(s, [a]) == Step(Exec(s, []), a);
  }

  lemma {:induction false} ExecReadScript(s: System, ls: seq<Id>, c: Id, r: Request)
    ensures var s1 := Step(Step(s, Arrive(c, r.user, r.exercise, r.code)), ReadGate(c, ls));
            var s2 := Step(Step(s1, InsertPending(c)), RunSandbox(c, r.result));
            Exec(s, ReadScript(ls, c, r)) == Step(Step(s2, Finalize(c)), ReadProgress(c))
  {
    hide Step;
    var a, b, d := [Arrive(c, r.user, r.exercise, r.code), ReadGate(c, ls)],
                   [InsertPending(c), RunSandbox(c, r.result)], [Finalize(c), ReadProgress(c)];
    assert ReadScript(ls, c, r) == a + b + d;
    ExecAppend(s, a + b, d);
    ExecAppend(s, a, b);
    ExecTwo(s, a[0], a[1]);
    ExecTwo(Exec(s, a), b[0], b[1]);
    ExecTwo(Exec(s, a + b), d[0], d[1]);
  }

  ghost function SeenNow(db: Database, r: Request): Option<Seen> {
    var p := RowOf(db.progress, r.user, r.exercise);
    if p.None? then None else Some(Seen(p.value, db.progress[p.value]))
  }

  // An admitted request, run alone up to its read.
  lemma {:induction false} RunToRead(s: System, ls: seq<Id>, c: Id, r: Request)
    requires c !in s.calls && Lists(s.db, ls)
    requires r.exercise in s.db.exercises && !Locked(s.db, r.user, ls, s.db.exercises[r.exercise].parent)
    ensures Exec(s, ReadScript(ls, c, r)) ==
            System(s.db.(nextId := s.db.nextId + 1), s.calls[c := Call(r.user, r.exercise, r.code,
              if r.result.runnerError == "" then Read(s.db.nextId, r.result, SeenNow(s.db, r))
              else Finalized(s.db.nextId, r.result))])
  {
    hide Lists, Locked, RowLocked, MayCommit, CommitDb, RowOf, StatusFromResult, ReadScript;
    ExecReadScript(s, ls, c, r);
    var s1 := Step(s, Arrive(c, r.user, r.exercise, r.code));
    assert s1 == s.(calls := s.calls[c := Call(r.user, r.exercise, r.code, Arrived)]);
    var s2 := Step(s1, ReadGate(c, ls));
    assert s2.calls[c].pc == Admitted && s2.db == s.db;
    var s3 := Step(s2, InsertPending(c));
    assert s3.calls[c].pc == Inserted(s.db.nextId) && s3.db == s.db.(nextId := s.db.nextId + 1);
    var s4 := Step(s3, RunSandbox(c, r.result));
    var s5 := Step(s4, Finalize(c));
    assert s5.calls[c].pc == Finalized(s.db.nextId, r.result) && s5.db == s3.db;
    var s6 := Step(s5, ReadProgress(c));
    assert s6.calls[c := s6.calls[c]] == s.calls[c := s6.calls[c]];
  }

  // A refused request changes no row.
  lemma {:induction false} RunToRefusal(s: System, ls: seq<Id>, c: Id, r: Request)
    requires c !in s.calls && Lists(s.db, ls)
    requires r.exercise in s.db.exercises ==> Locked(s.db, r.user, ls, s.db.exercises[r.exercise].parent)
    ensures Exec(s, Script(ls, c, r)) ==
            s.(calls := s.calls[c := Call(r.user, r.exercise, r.code, Refused(Submit(s.db, ls, r).1))])
  {
    hide Lists, Locked, RowLocked, CommitDb, RowOf, Grade, StatusFromResult, ReadScript;
    ExecReadScript(s, ls, c, r);
    var s1 := Step(s, Arrive(c, r.user, r.exercise, r.code));
    assert s1 == s.(calls := s.calls[c := Call(r.user, r.exercise, r.code, Arrived)]);
    var s2 := Step(s1, ReadGate(c, ls));
    assert s2.calls[c].pc == Refused(Submit(s.db, ls, r).1) && s2.db == s.db;
    assert s2.calls == s.calls[c := s2.calls[c]];
    RefusedStays(s2, c, r);
    ExecAppend(s, ReadScript(ls, c, r), [WriteProgress(c, r.at), Commit(c)]);
    ExecTwo(s2, WriteProgress(c, r.at), Commit(c));
  }

  lemma {:induction false} RefusedStays(s: System, c: Id, r: Request)
    requires c in s.calls && s.calls[c].pc.Refused?
    ensures Step(s, InsertPending(c)) == Step(s, RunSandbox(c, r.result)) == Step(s, Finalize(c))
            == Step(s, ReadProgress(c)) == Step(s, WriteProgress(c, r.at)) == Step(s, Commit(c)) == s
  {
    hide RowLocked, RowOf, StatusFromResult;
  }

  /** A request whose progress row nobody holds, run without interruption, is one serial Submit. */
  lemma {:induction false} SoloIsSubmit(s: System, ls: seq<Id>, c: Id, r: Request)
    requires c !in s.calls && Lists(s.db, ls)
    requires forall d | d in s.calls && s.calls[d].pc.Written? ::
               s.calls[d].user != r.user || s.calls[d].exercise != r.exercise
    ensures var (after, answer) := Submit(s.db, ls, r);
            Exec(s, Script(ls, c, r)) == System(after, s.calls[c := Call(r.user, r.exercise, r.code,
              if answer.Graded? then Committed(answer.submission) else Refused(answer))])
  {
    if r.exercise !in s.db.exercises || Locked(s.db, r.user, ls, s.db.exercises[r.exercise].parent) {
      RunToRefusal(s, ls, c, r);
    } else {
      RunToRead(s, ls, c, r);
      var t := Exec(s, ReadScript(ls, c, r));
      ExecAppend(s, ReadScript(ls, c, r), [WriteProgress(c, r.at), Commit(c)]);
      ExecTwo(t, WriteProgress(c, r.at), Commit(c));
      WriteAndCommit(s, t, c, r);
    }
  }

  lemma {:induction false} WriteAndCommit(s: System, t: System, c: Id, r: Request)
    requires c !in s.calls
    requires forall d | d in s.calls && s.calls[d].pc.Written? ::
               s.calls[d].user != r.user || s.calls[d].exercise != r.exercise
    requires t == System(s.db.(nextId := s.db.nextId + 1), s.calls[c := Call(r.user, r.exercise, r.code,
              if r.result.runnerError == "" then Read(s.db.nextId, r.result, SeenNow(s.db, r))
              else Finalized(s.db.nextId, r.result))])
    ensures Step(Step(t, WriteProgress(c, r.at)), Commit(c))
            == System(Grade(s.db, r), s.calls[c := Call(r.user, r.exercise, r.code, Committed(s.db.nextId))])
  {
    hide StatusFromResult, Lists, Locked, Step, Bump, FirstRow, RowOf;
    assert !RowLocked(t, c);
    if r.result.runnerError == "" {
      WriteThenCommit(s.db, t, c, r);
    } else {
      CommitUncounted(s.db, t, c, r);
    }
    assert t.calls[c := Call(r.user, r.exercise, r.code, Committed(s.db.nextId))]
           == s.calls[c := Call(r.user, r.exercise, r.code, Committed(s.db.nextId))];
  }

  lemma {:induction false} CommitUncounted(db: Database, t: System, c: Id, r: Request)
    requires r.result.runnerError != "" && t.db == db.(nextId := db.nextId + 1)
    requires c in t.calls && t.calls[c] == Call(r.user, r.exercise, r.code, Finalized(db.nextId, r.result))
    ensures Step(Step(t, WriteProgress(c, r.at)), Commit(c))
            == System(Grade(db, r), t.calls[c := Call(r.user, r.exercise, r.code, Committed(db.nextId))])
  {
    hide StatusFromResult, Lists, Locked, RowLocked, RowOf;
    assert Step(t, WriteProgress(c, r.at)) == t;
  }

  lemma {:induction false} WriteThenCommit(db: Database, t: System, c: Id, r: Request)
    requires r.result.runnerError == "" && t.db == db.(nextId := db.nextId + 1)
    requires c in t.calls && !RowLocked(t, c)
    requires t.calls[c] == Call(r.user, r.exercise, r.code, Read(db.nextId, r.result, SeenNow(db, r)))
    ensures Step(Step(t, WriteProgress(c, r.at)), Commit(c))
            == System(Grade(db, r), t.calls[c := Call(r.user, r.exercise, r.code, Committed(db.nextId))])
  {
    hide StatusFromResult, Lists, Locked, RowLocked, Bump, FirstRow;
    var p := RowOf(db.progress, r.user, r.exercise);
    var w := Written(db.nextId, r.result, SeenNow(db, r), if p.None? then db.nextId + 1 else p.value, r.at);
    var u := Step(t, WriteProgress(c, r.at));
    assert u.calls == t.calls[c := Call(r.user, r.exercise, r.code, w)];
    assert u.db == db.(nextId := db.nextId + if p.None? then 2 else 1);
    assert WriteBack(db.progress, u.calls[c], w)
           == Record(db.progress, db.nextId + 1, r.user, r.exercise, db.nextId,
                     StatusFromResult(r.result) == Passed, r.at);
  }

  // No request holds a row, and c and everything above it is unused as a request id.
  ghost predicate Free(s: System, c: Id) {
    forall d | d in s.calls :: d < c && !s.calls[d].pc.Written?
  }

  /** Every serial run is an interleaved run, from any state in which no request is mid-write. */
  lemma {:induction false} SerialRunsEmbed(s: System, ls: seq<Id>, rs: seq<Request>, c: Id) returns (acts: seq<Action>)
    requires Valid(s.db) && Lists(s.db, ls) && Free(s, c)
    ensures Exec(s, acts).db == Serve(s.db, ls, rs) && Free(Exec(s, acts), c + |rs|)
    ensures Valid(Serve(s.db, ls, rs)) && Lists(Serve(s.db, ls, rs), ls)
  {
    hide Valid, Lists, Submit, Script;
    if rs == [] {
      acts := [];
    } else {
      var r := rs[|rs| - 1];
      var init := SerialRunsEmbed(s, ls, rs[..|rs| - 1], c);
      var t, d := Exec(s, init), c + |rs| - 1;
      SoloIsSubmit(t, ls, d, r);
      SubmitKeepsConstraints(t.db, ls, r);
      SameListing(t.db, Submit(t.db, ls, r).0, ls);
      ExecAppend(s, init, Script(ls, d, r));
      acts := init + Script(ls, d, r);
    }
  }

  // ---- what overlapping requests can do ------------------------------------------------------------

  const PASS := TestRunResult(true, 1, 1, 0, [TestResult("t", PassedTest, "")], "", "", "")
  const FAIL := TestRunResult(false, 1, 0, 1, [TestResult("t", FailedTest, "")], "", "", "")

  // Requests 1 and 2 have both read the unsolved row p that request 0 left behind.
  ghost predicate BothRead(s: System, user: UserId, e: Id, p: Id) {
    && s.calls.Keys == {0, 1, 2} && !s.calls[0].pc.Written?
    && UniqueRows(s.db.progress) && RowOf(s.db.progress, user, e) == Some(p) && p in s.db.progress
    && s.db.progress[p].attempts == 1 && !s.db.progress[p].isSolved
    && (forall c | c == 1 || c == 2 :: ReaderOf(s.calls[c], user, e, Seen(p, s.db.progress[p])))
  }

  predicate ReaderOf(call: Call, user: UserId, e: Id, x: Seen) {
    call.user == user && call.exercise == e && call.pc.Read? && call.pc.result == PASS && call.pc.seen == Some(x)
  }

  lemma {:induction false} FailedOnce(db: Database, ls: seq<Id>, user: UserId, e: Id)
    requires Opening(db, ls) && e in db.exercises && !Locked(db, user, ls, db.exercises[e].parent)
    ensures var s := Exec(Start(db), Script(ls, 0, Request(user, e, "", FAIL, 0)));
            && s.calls.Keys == {0} && s.calls[0].pc.Committed? && SameCurriculum(db, s.db)
            && UniqueProgress(s.db) && Lists(s.db, ls)
            && !Locked(s.db, user, ls, s.db.exercises[e].parent)
            && Row(s.db.progress, user, e).Some? && Row(s.db.progress, user, e).value.attempts == 1
            && !Row(s.db.progress, user, e).value.isSolved
  {
    hide Submit, Grade, Valid, Chain, PairOk, Locked, Lists, Exec, Script;
    var r := Request(user, e, "", FAIL, 0);
    var s := Exec(Start(db), Script(ls, 0, r));
    SoloIsSubmit(Start(db), ls, 0, r);
    SubmitAnswer(db, ls, r);
    AdmittedIsGraded(db, ls, r);
    RunsKeepInv(db, ls, Script(ls, 0, r));
    InvFacts(s, ls);
    GradeRows(db, r, user, e) by { ValidOfOpening(db, ls); }
    RunsLater(db, ls, Script(ls, 0, r));
    InvFacts(Start(db), ls) by { StartIsOk(db, ls); }
    OpenStaysOpen(db, s.db, user, ls, db.exercises[e].parent);
    NoRowAtOpening(db, ls, user, e);
  }

  lemma {:induction false} NoRowAtOpening(db: Database, ls: seq<Id>, user: UserId, e: Id)
    requires Opening(db, ls)
    ensures Row(db.progress, user, e) == None && Valid(db)
  {}

  lemma {:induction false} ValidOfOpening(db: Database, ls: seq<Id>)
    requires Opening(db, ls)
    ensures Valid(db)
  {}

  lemma {:induction false} AdmittedIsGraded(db: Database, ls: seq<Id>, r: Request)
    requires r.exercise in db.exercises && !Locked(db, r.user, ls, db.exercises[r.exercise].parent)
    ensures Submit(db, ls, r).1.Graded?
  {}

  lemma {:induction false} InvFacts(s: System, ls: seq<Id>)
    requires Inv(s, ls)
    ensures UniqueProgress(s.db)
  {}

  lemma {:induction false} RunsLater(db: Database, ls: seq<Id>, acts: seq<Action>)
    requires Opening(db, ls)
    ensures Later(db, Exec(Start(db), acts).db)
  {
    assert [] + acts == acts;
    ProgressOnlyGrows(db, ls, [], acts, 0);
  }

  lemma {:induction false} BothHaveRead(db: Database, ls: seq<Id>, user: UserId, e: Id) returns (p: Id)
    requires Opening(db, ls) && e in db.exercises && !Locked(db, user, ls, db.exercises[e].parent)
    ensures BothRead(Exec(Start(db), Begun(ls, user, e)), user, e, p)
  {
    hide Opening, Locked, Lists, RowOf, Script, ReadScript;
    var fail, one, two := Request(user, e, "", FAIL, 0), Request(user, e, "", PASS, 1), Request(user, e, "", PASS, 2);
    var s := Exec(Start(db), Script(ls, 0, fail));
    FailedOnce(db, ls, user, e);
    p := RowOf(s.db.progress, user, e).value;
    RunToRead(s, ls, 1, one);
    var t := Exec(s, ReadScript(ls, 1, one));
    NextIdOnly(s.db, t.db, user, ls, e);
    RunToRead(t, ls, 2, two);
    ExecAppend(Start(db), Script(ls, 0, fail), ReadScript(ls, 1, one));
    ExecAppend(Start(db), Script(ls, 0, fail) + ReadScript(ls, 1, one), ReadScript(ls, 2, two));
    RowKey(s.db.progress, user, e);
  }

  lemma {:induction false} RowKey(table: map<Id, Progress>, user: UserId, e: Id)
    ensures RowOf(table, user, e).Some? ==> RowOf(table, user, e).value in table
  {}

  lemma {:induction false} NextIdOnly(a: Database, b: Database, user: UserId, ls: seq<Id>, e: Id)
    requires b == a.(nextId := b.nextId) && Lists(a, ls) && UniqueProgress(a) && e in a.exercises
    requires !Locked(a, user, ls, a.exercises[e].parent)
    ensures Lists(b, ls) && !Locked(b, user, ls, b.exercises[e].parent)
  {
    hide Locked;
    assert Published(a) == Published(b);
    assert Later(a, b);
    OpenStaysOpen(a, b, user, ls, a.exercises[e].parent);
  }

  function Begun(ls: seq<Id>, user: UserId, e: Id): seq<Action> {
    Script(ls, 0, Request(user, e, "", FAIL, 0)) + ReadScript(ls, 1, Request(user, e, "", PASS, 1))
      + ReadScript(ls, 2, Request(user, e, "", PASS, 2))
  }

  // One of the two writes back and commits; the other still waits with what it read.
  lemma {:induction false} Writes(s: System, c: Id, at: Time, user: UserId, e: Id, x: Seen)
    requires c in s.calls && ReaderOf(s.calls[c], user, e, x) && !RowLocked(s, c)
    requires UniqueRows(s.db.progress) && RowOf(s.db.progress, user, e) == Some(x.row) && x.row in s.db.progress
    ensures var t := Step(Step(s, WriteProgress(c, at)), Commit(c));
            && t.calls == s.calls[c := t.calls[c]] && t.calls[c].pc.Committed?
            && UniqueRows(t.db.progress) && RowOf(t.db.progress, user, e) == Some(x.row) && x.row in t.db.progress
            && t.db.progress[x.row] == Bump(x.value, s.db.progress[x.row], s.calls[c].pc.sub, true, at)
    ensures StaleCommit(Step(s, WriteProgress(c, at)), Commit(c)) <==> s.db.progress[x.row].attempts != x.value.attempts
  {
    hide RowOf, Lists, Locked, RowLocked;
    var call := s.calls[c];
    var w := Written(call.pc.sub, PASS, Some(x), x.row, at);
    var u := Step(s, WriteProgress(c, at));
    assert u == Move(s, c, w);
    assert StatusFromResult(PASS) == Passed;
    WriteBackRows(s.db.progress, u.calls[c], w);
  }

  /** For every curriculum and every open exercise there is a run in which the attempt counter falls
      behind and solved_at, already set, moves. No serial run does either. */
  lemma {:induction false} OverlapLosesAnUpdate(db: Database, ls: seq<Id>, user: UserId, e: Id)
      returns (first: seq<Action>, more: seq<Action>)
    requires Opening(db, ls) && e in db.exercises && !Locked(db, user, ls, db.exercises[e].parent)
    ensures var before, after := Exec(Start(db), first).db, Exec(Start(db), first + more).db;
            && Row(before.progress, user, e).Some? && Row(before.progress, user, e).value.solvedAt == Some(1)
            && Row(after.progress, user, e).Some? && Row(after.progress, user, e).value.solvedAt == Some(2)
            && Row(after.progress, user, e).value.attempts < |VerdictsOf(after, user, e)|
  {
    hide Opening, Step, StaleCommit, Begun, Locked, RowOf;
    first, more := Begun(ls, user, e) + [WriteProgress(1, 1), Commit(1)], [WriteProgress(2, 2), Commit(2)];
    var p := BothHaveRead(db, ls, user, e);
    var s, t := Exec(Start(db), Begun(ls, user, e)), Exec(Start(db), first);
    ExecAppend(Start(db), Begun(ls, user, e), [WriteProgress(1, 1), Commit(1)]);
    ExecTwo(s, WriteProgress(1, 1), Commit(1));
    Writes(s, 1, 1, user, e, Seen(p, s.db.progress[p]));
    ExecAppend(Start(db), first, more);
    ExecTwo(t, WriteProgress(2, 2), Commit(2));
    Writes(t, 2, 2, user, e, Seen(p, s.db.progress[p]));
    LastCommitStale(Start(db), first, 2, 2, user, e);
    UnusedOfOpening(db, ls);
    LostIsBehind(db, first + more, user, e);
  }

  lemma {:induction false} LastCommitStale(s: System, first: seq<Action>, c: Id, at: Time, user: UserId, e: Id)
    requires var t := Exec(s, first);
             c in t.calls && t.calls[c].user == user && t.calls[c].exercise == e && t.calls[c].pc.Read?
             && StaleCommit(Step(t, WriteProgress(c, at)), Commit(c))
    ensures LostUpdate(s, first + [WriteProgress(c, at), Commit(c)], user, e)
  {
    hide StaleCommit, RowLocked, RowOf, Lists, Locked, LostUpdate, Exec;
    var all, pre := first + [WriteProgress(c, at), Commit(c)], first + [WriteProgress(c, at)];
    assert all[..|all| - 1] == pre && all[|all| - 1] == Commit(c);
    assert pre[..|pre| - 1] == first && pre[|pre| - 1] == WriteProgress(c, at);
    LastStep(s, pre);
    var u := Step(Exec(s, first), WriteProgress(c, at));
    assert c in u.calls && u.calls[c].user == user && u.calls[c].exercise == e;
    LostAtLast(s, all, user, e);
  }

  lemma {:induction false} LastStep(s: System, acts: seq<Action>)
    requires acts != []
    ensures Exec(s, acts) == Step(Exec(s, acts[..|acts| - 1]), acts[|acts| - 1])
  {}

  lemma {:induction false} LostAtLast(s: System, acts: seq<Action>, user: UserId, e: Id)
    requires acts != []
    requires var t, a := Exec(s, acts[..|acts| - 1]), acts[|acts| - 1];
             StaleCommit(t, a) && t.calls[a.c].user == user && t.calls[a.c].exercise == e
    ensures LostUpdate(s, acts, user, e)
  {}

  lemma {:induction false} UnusedOfOpening(db: Database, ls: seq<Id>)
    requires Opening(db, ls)
    ensures Unused(db)
  {}

  lemma {:induction false} LostIsBehind(db: Database, acts: seq<Action>, user: UserId, e: Id)
    requires Unused(db) && LostUpdate(Start(db), acts, user, e)
    ensures var now := Exec(Start(db), acts).db;
            Row(now.progress, user, e).Some? && Row(now.progress, user, e).value.attempts < |VerdictsOf(now, user, e)|
  {
    RunsKeepTally(db, acts, user, e);
  }

  lemma {:induction false} PassSolves(db: Database, ls: seq<Id>, r: Request)
    requires r.result == PASS && Submit(db, ls, r).1.Graded?
    ensures Submit(db, ls, r).1.solved
  {
    assert StatusFromResult(PASS) == Passed;
  }
}
