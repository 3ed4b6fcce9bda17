/** How requests end, whatever runs beside them: what a commit writes, and that a request which fails, by a unique
    violation or otherwise, leaves no trace. */
module Outcomes {
  import opened Schema
  import opened SandboxResult
  import opened Curriculum
  import opened Progression
  import opened Grading
  import opened Interleaving
  import opened Reachable

  // ---- a request moves on through its statements ----------------------------------------------------------

  function Stage(pc: Pc): nat {
    match pc
    case Arrived => 0
    case Admitted => 1
    case Inserted(_) => 2
    case Ran(_, _) => 3
    case Finalized(_, _) => 4
    case Read(_, _, _) => 5
    case Written(_, _, _, _, _) => 6
    case _ => 7
  }

  // What it has come by - its key, the sandbox's result, the row it read - it keeps.
  predicate Carries(pc: Pc, next: Pc) {
    && (InFlight(pc) && (InFlight(next) || next.Committed?) ==> next.sub == pc.sub)
    && (InFlight(pc) && !pc.Inserted? && InFlight(next) ==> !next.Inserted? && next.result == pc.result)
    && (pc.Read? && next.Written? ==> next.seen == pc.seen)
  }

  /** Only a request's own action moves it, always on by one statement or to its end; who asked, for which exercise,
      with which code never changes, and its key, its sandbox result and the row it read are carried along. */
  lemma {:induction false} RequestMovesOn(s: System, a: Action, c: Id)
    requires c in s.calls
    ensures c in Step(s, a).calls
    ensures var call, next := s.calls[c], Step(s, a).calls[c];
            && next == call.(pc := next.pc) && Carries(call.pc, next.pc)
            && (next != call ==> a.c == c && (Stage(next.pc) == Stage(call.pc) + 1 || !Open(next.pc)))
            && (next != call && next.pc.Committed? ==> call.pc.Written? || call.pc.result.runnerError != "")
            && (next.pc.Refused? && next != call ==> call.pc.Arrived?)
  {
    hide Lists, Locked, RowOf, RowLocked, CommitDb;
  }

  // ---- nothing is left of a request that did not commit --------------------------------------------------

  // A drawn key that no row has and no request holds any more.
  ghost predicate Lapsed(s: System, key: Id) {
    && key < s.db.nextId && key !in s.db.submissions
    && forall d | d in s.calls :: key !in Keys(s.calls[d].pc)
  }

  // A step draws no key but the next one.
  lemma {:induction false} KeysDrawn(s: System, a: Action, d: Id)
    requires d in Step(s, a).calls
    ensures d !in s.calls ==> Keys(Step(s, a).calls[d].pc) == {}
    ensures d in s.calls ==> Keys(Step(s, a).calls[d].pc) <= Keys(s.calls[d].pc) + {s.db.nextId}
    ensures s.db.nextId <= Step(s, a).db.nextId
  {
    hide Lists, Locked, RowOf, RowLocked, MayCommit;
    if a.Commit? && a.c in s.calls && MayCommit(s.db, s.calls[a.c]) { CommitKeepsNextId(s.db, s.calls[a.c]); }
    hide CommitDb;
  }

  lemma {:induction false} CommitKeepsNextId(db: Database, call: Call)
    requires MayCommit(db, call)
    ensures call.pc.Finalized? || call.pc.Written?
    ensures CommitDb(db, call).nextId == db.nextId
    ensures forall key | key in CommitDb(db, call).submissions :: key in db.submissions || key in Keys(call.pc)
  {
    hide StatusFromResult, WriteBack;
  }

  lemma {:induction false} SubmissionsAdded(s: System, a: Action, key: Id)
    requires key in Step(s, a).db.submissions && key !in s.db.submissions
    ensures a.Commit? && a.c in s.calls && key in Keys(s.calls[a.c].pc)
  {
    hide CommitDb, Lists, Locked, RowOf, RowLocked;
    if a.Commit? && a.c in s.calls && MayCommit(s.db, s.calls[a.c]) {
      CommitKeepsNextId(s.db, s.calls[a.c]);
    } else {
      QuietStep(s, a);
    }
  }

  lemma {:induction false} StepKeepsLapsed(s: System, a: Action, key: Id)
    requires Lapsed(s, key)
    ensures Lapsed(Step(s, a), key)
  {
    hide Step, Keys;
    var t := Step(s, a);
    forall d | d in t.calls ensures key !in Keys(t.calls[d].pc) { KeysDrawn(s, a, d); }
    NextKeyGrows(s, a);
    if key in t.db.submissions { SubmissionsAdded(s, a, key); }
  }

  lemma {:induction false} NextKeyGrows(s: System, a: Action)
    ensures s.db.nextId <= Step(s, a).db.nextId
  {
    if a.c in s.calls {
      EveryCallStays(s, a);
      KeysDrawn(s, a, a.c);
    }
  }

  lemma {:induction false} EveryCallStays(s: System, a: Action)
    ensures forall c | c in s.calls :: c in Step(s, a).calls
  {
    hide Lists, Locked, RowOf, RowLocked, CommitDb, MayCommit;
  }

  lemma {:induction false} LapsedForGood(s: System, more: seq<Action>, key: Id)
    requires Lapsed(s, key)
    ensures Lapsed(Exec(s, more), key)
  {
    hide Step, Lapsed;
    if more != [] {
      LapsedForGood(s, more[..|more| - 1], key);
      StepKeepsLapsed(Exec(s, more[..|more| - 1]), more[|more| - 1], key);
    }
  }

  /** A request that was refused, failed or has committed stays so. */
  lemma {:induction false} EndIsFinal(s: System, more: seq<Action>, c: Id)
    requires c in s.calls && !Open(s.calls[c].pc)
    ensures c in Exec(s, more).calls && Exec(s, more).calls[c] == s.calls[c]
  {
    hide Step;
    if more != [] {
      EndIsFinal(s, more[..|more| - 1], c);
      EndedStep(Exec(s, more[..|more| - 1]), more[|more| - 1], c);
    }
  }

  lemma {:induction false} EndedStep(s: System, a: Action, c: Id)
    requires c in s.calls && !Open(s.calls[c].pc)
    ensures c in Step(s, a).calls && Step(s, a).calls[c] == s.calls[c]
  {
    hide Lists, Locked, RowOf, RowLocked, CommitDb;
  }

  // The key of a request in flight is its own.
  lemma {:induction false} OwnKey(s: System, c: Id, t: System)
    requires Inv(s, []) && c in s.calls && InFlight(s.calls[c].pc)
    requires t.calls == s.calls[c := s.calls[c].(pc := Aborted)] && t.db == s.db
    ensures Lapsed(t, s.calls[c].pc.sub)
  {
    hide DbOk, Knows;
    assert CallOk(s.db, [], s.calls[c]);
    assert s.calls[c].pc.sub in Keys(s.calls[c].pc);
    forall d | d in t.calls ensures s.calls[c].pc.sub !in Keys(t.calls[d].pc) {
      if d != c { assert Apart(s.calls[c], s.calls[d]); }
    }
  }

  /** An open request can fail at any point before its commit. Then the database is as it was, the request stays
      failed, and the submission it had inserted is never seen by anyone. */
  lemma {:induction false} FailureLeavesNoTrace(db: Database, acts: seq<Action>, c: Id, more: seq<Action>)
    requires Unused(db)
    requires var s := Exec(Start(db), acts); c in s.calls && Open(s.calls[c].pc)
    ensures var s := Exec(Start(db), acts);
            var t := Step(s, Abort(c));
            && t.db == s.db && t.calls == s.calls[c := s.calls[c].(pc := Aborted)]
            && c in Exec(t, more).calls && Exec(t, more).calls[c].pc == Aborted
            && (InFlight(s.calls[c].pc) ==> s.calls[c].pc.sub !in Exec(t, more).db.submissions)
  {
    hide Exec, Inv;
    ReachableInv(db, acts);
    var s := Exec(Start(db), acts);
    var t := Step(s, Abort(c));
    EndIsFinal(t, more, c);
    if InFlight(s.calls[c].pc) {
      OwnKey(s, c, t);
      LapsedForGood(t, more, s.calls[c].pc.sub);
    }
  }

  // ---- the first submission that comes second ---------------------------------------------------------------

  // It has read "no row", and there is one now; or it has failed.
  ghost predicate Doomed(s: System, c: Id, user: UserId, e: Id, sub: Id) {
    && c in s.calls && s.calls[c].user == user && s.calls[c].exercise == e
    && Row(s.db.progress, user, e).Some?
    && ((s.calls[c].pc.Read? && s.calls[c].pc.seen.None? && s.calls[c].pc.sub == sub) || s.calls[c].pc.Aborted?)
    && (s.calls[c].pc.Aborted? ==> Lapsed(s, sub))
  }

  lemma {:induction false} RowsStay(s: System, a: Action, user: UserId, e: Id)
    requires Inv(s, []) && Row(s.db.progress, user, e).Some?
    ensures Row(Step(s, a).db.progress, user, e).Some?
  {
    hide DbOk, CommitDb, Row, Lists, Locked, RowLocked, RowOf, FreshKeys, Knows;
    if a.Commit? && a.c in s.calls && MayCommit(s.db, s.calls[a.c]) {
      assert CallOk(s.db, [], s.calls[a.c]);
      CommittedAttempts(s.db, [], s.calls[a.c], user, e);
    } else {
      QuietStep(s, a);
    }
  }

  // Its only own moves are to wait, to fail on the unique constraint, or to fail otherwise.
  lemma {:induction false} DoomedMove(s: System, a: Action, c: Id)
    requires c in s.calls && s.calls[c].pc.Read? && s.calls[c].pc.seen.None?
    requires s.calls[c].pc.result.runnerError == "" && Row(s.db.progress, s.calls[c].user, s.calls[c].exercise).Some?
    ensures var t := Step(s, a);
            && c in t.calls && (t.calls[c] == s.calls[c]
                || (t.calls == s.calls[c := s.calls[c].(pc := Aborted)] && t.db == s.db))
  {
    hide Lists, Locked, RowLocked, CommitDb;
  }

  lemma {:induction false} StepKeepsDoomed(s: System, a: Action, c: Id, user: UserId, e: Id, sub: Id)
    requires Inv(s, []) && Doomed(s, c, user, e, sub)
    ensures Doomed(Step(s, a), c, user, e, sub)
  {
    hide Row, Lapsed, Step, Apart, DbOk, FreshKeys;
    RowsStay(s, a, user, e);
    assert CallOk(s.db, [], s.calls[c]);
    if s.calls[c].pc.Aborted? {
      EndedStep(s, a, c);
      StepKeepsLapsed(s, a, sub);
    } else {
      DoomedMove(s, a, c);
      if Step(s, a).calls[c] != s.calls[c] { OwnKey(s, c, Step(s, a)); }
    }
  }

  lemma {:induction false} DoomedForGood(s: System, more: seq<Action>, c: Id, user: UserId, e: Id, sub: Id)
    requires Inv(s, []) && Doomed(s, c, user, e, sub)
    ensures Inv(Exec(s, more), []) && Doomed(Exec(s, more), c, user, e, sub)
  {
    hide Step, Doomed, Inv;
    if more != [] {
      var t, a := Exec(s, more[..|more| - 1]), more[|more| - 1];
      DoomedForGood(s, more[..|more| - 1], c, user, e, sub);
      StepKeepsInv(t, a, []);
      StepKeepsDoomed(t, a, c, user, e, sub);
    }
  }

  /** Of two first submissions to an exercise that have both read "no row", the one that comes second fails: in no
      continuation does it commit, and its submission is never stored. */
  lemma {:induction false} SecondFirstAttemptFails(db: Database, acts: seq<Action>, c: Id, more: seq<Action>)
    requires Unused(db)
    requires var s := Exec(Start(db), acts);
             c in s.calls && s.calls[c].pc.Read? && s.calls[c].pc.seen.None?
             && Row(s.db.progress, s.calls[c].user, s.calls[c].exercise).Some?
    ensures var s, t := Exec(Start(db), acts), Exec(Exec(Start(db), acts), more);
            && c in t.calls && !t.calls[c].pc.Committed? && s.calls[c].pc.sub !in t.db.submissions
  {
    hide Exec, Row, Lapsed;
    ReachableInv(db, acts);
    var s := Exec(Start(db), acts);
    var call, t := s.calls[c], Exec(s, more);
    DoomedForGood(s, more, c, call.user, call.exercise, call.pc.sub);
    DoomedIsUnseen(t, c, call.user, call.exercise, call.pc.sub);
  }

  lemma {:induction false} DoomedIsUnseen(s: System, c: Id, user: UserId, e: Id, sub: Id)
    requires Inv(s, []) && Doomed(s, c, user, e, sub)
    ensures !s.calls[c].pc.Committed? && sub !in s.db.submissions
  {
    hide DbOk, Row, Knows, Apart;
    assert CallOk(s.db, [], s.calls[c]);
    if s.calls[c].pc.Read? { assert sub in Keys(s.calls[c].pc); }
  }

  // ---- what a request that goes through writes ------------------------------------------------------------------

  // The row after an attempt: counted from the row the request had read, the solve kept or set now.
  predicate RowWritten(seen: Option<Seen>, current: Option<Progress>, user: UserId, e: Id, sub: Id, solved: bool,
                       at: Time, after: Option<Progress>)
  {
    && after.Some? && after.value.userId == user && after.value.exerciseId == e
    && after.value.lastSubmissionId == Some(sub) && after.value.updatedAt == at
    && after.value.attempts == 1 + (if seen.Some? then seen.value.value.attempts else 0)
    && (after.value.isSolved <==> solved || (current.Some? && current.value.isSolved))
    && after.value.solvedAt ==
         if solved && (seen.Some? ==> !seen.value.value.isSolved) then Some(at)
         else if current.Some? then current.value.solvedAt else None
  }

  lemma {:induction false} PairRow(table: map<Id, Progress>, user: UserId, e: Id)
    ensures RowOf(table, user, e).Some? <==> Row(table, user, e).Some?
    ensures Row(table, user, e).Some? ==>
              && RowOf(table, user, e).value in table && table[RowOf(table, user, e).value] == Row(table, user, e).value
              && Row(table, user, e).value.userId == user && Row(table, user, e).value.exerciseId == e
  {}

  // The write of a request that nobody holds up, and its commit.
  ghost function WriteAndCommit(s: System, c: Id, at: Time): System {
    Step(Step(s, WriteProgress(c, at)), Commit(c))
  }

  lemma {:induction false} WriteTakes(s: System, c: Id, at: Time)
    requires c in s.calls && s.calls[c].pc.Read? && !RowLocked(s, c)
    requires s.calls[c].pc.seen.Some? || Row(s.db.progress, s.calls[c].user, s.calls[c].exercise).None?
    ensures var t, pc := Step(s, WriteProgress(c, at)), s.calls[c].pc;
            && t.db == s.db.(nextId := t.db.nextId)
            && t.calls == s.calls[c := s.calls[c].(pc := Written(pc.sub, pc.result, pc.seen,
                 if pc.seen.Some? then pc.seen.value.row else s.db.nextId, at))]
  {
    hide Lists, Locked, RowLocked, CommitDb;
  }

  lemma {:induction false} CommitTakes(s: System, c: Id)
    requires Inv(s, []) && c in s.calls && s.calls[c].pc.Written?
    ensures MayCommit(s.db, s.calls[c])
    ensures Step(s, Commit(c))
            == System(CommitDb(s.db, s.calls[c]), s.calls[c := s.calls[c].(pc := Committed(s.calls[c].pc.sub))])
  {
    hide DbOk, Lists, Locked, RowLocked, FreshKeys;
    assert CallOk(s.db, [], s.calls[c]);
  }

  lemma {:induction false} CommittedTables(db: Database, call: Call)
    requires DbOk(db, []) && CallOk(db, [], call) && call.pc.Written? && MayCommit(db, call)
    ensures var after, solved := CommitDb(db, call), StatusFromResult(call.pc.result) == Passed;
            && after.submissions == db.submissions[call.pc.sub := Submission(call.user, call.exercise, call.code,
                 StatusFromResult(call.pc.result), Some(call.pc.result))]
            && RowWritten(call.pc.seen, Row(db.progress, call.user, call.exercise), call.user, call.exercise,
                 call.pc.sub, solved, call.pc.at, Row(after.progress, call.user, call.exercise))
            && (forall u, e | u != call.user || e != call.exercise ::
                  Row(after.progress, u, e) == Row(db.progress, u, e))
  {
    hide DbOk, StatusFromResult, FreshKeys, Admissible, Lists, Locked;
    CommitWrites(db, [], call);
    PairRow(db.progress, call.user, call.exercise);
  }

  /** Any other request whose row nobody holds goes through when it writes and commits: its verdict is stored under
      its key, its pair's row counts one attempt more than it had read, a solve is kept or set now, and no other
      submission or row changes. */
  lemma {:induction false} AttemptGoesThrough(db: Database, acts: seq<Action>, c: Id, at: Time)
    requires Unused(db)
    requires var s := Exec(Start(db), acts);
             c in s.calls && s.calls[c].pc.Read? && !RowLocked(s, c)
             && (s.calls[c].pc.seen.Some? || Row(s.db.progress, s.calls[c].user, s.calls[c].exercise).None?)
    ensures var s := Exec(Start(db), acts);
            var call, t := s.calls[c], WriteAndCommit(s, c, at);
            var pc, status := call.pc, StatusFromResult(call.pc.result);
            && t.calls == s.calls[c := call.(pc := Committed(pc.sub))] && pc.sub !in s.db.submissions
            && t.db.submissions
               == s.db.submissions[pc.sub := Submission(call.user, call.exercise, call.code, status, Some(pc.result))]
            && RowWritten(pc.seen, Row(s.db.progress, call.user, call.exercise), call.user, call.exercise, pc.sub,
                 status == Passed, at, Row(t.db.progress, call.user, call.exercise))
            && (forall u, e | u != call.user || e != call.exercise ::
                  Row(t.db.progress, u, e) == Row(s.db.progress, u, e))
  {
    hide Exec, Step, Inv, RowWritten, StatusFromResult, Row, RowLocked, CommitDb, Unused, DbOk, CallOk, MayCommit;
    ReachableInv(db, acts);
    var s := Exec(Start(db), acts);
    var u := Step(s, WriteProgress(c, at));
    WriteTakes(s, c, at);
    StepKeepsInv(s, WriteProgress(c, at), []);
    CommitTakes(u, c);
    WrittenFacts(u, c);
    CommittedTables(u.db, u.calls[c]);
    FreshSub(s, c);
    var t, sub := WriteAndCommit(s, c, at), s.calls[c].pc.sub;
    assert u.db.progress == s.db.progress && u.db.submissions == s.db.submissions;
    assert u.calls[c := u.calls[c].(pc := Committed(sub))] == s.calls[c := s.calls[c].(pc := Committed(sub))];
  }

  lemma {:induction false} WrittenFacts(s: System, c: Id)
    requires Inv(s, []) && c in s.calls
    ensures DbOk(s.db, []) && CallOk(s.db, [], s.calls[c])
  {}

  lemma {:induction false} FreshSub(s: System, c: Id)
    requires Inv(s, []) && c in s.calls && InFlight(s.calls[c].pc)
    ensures s.calls[c].pc.sub !in s.db.submissions
  {
    assert CallOk(s.db, [], s.calls[c]);
    assert s.calls[c].pc.sub in Keys(s.calls[c].pc);
  }

  /** A request waits exactly while another one has written the row of the same pair and not yet ended. */
  lemma {:induction false} WaitsIff(s: System, c: Id, at: Time)
    requires c in s.calls && s.calls[c].pc.Read?
    ensures Step(s, WriteProgress(c, at)) == s <==> exists d | d in s.calls ::
              d != c && s.calls[d].pc.Written? && s.calls[d].user == s.calls[c].user
              && s.calls[d].exercise == s.calls[c].exercise
  {
    hide Lists, Locked, RowOf;
    var t := Step(s, WriteProgress(c, at));
    if RowLocked(s, c) {
      assert t == s;
    } else {
      assert t.calls[c].pc.Written? || t.calls[c].pc.Aborted?;
      assert t != s;
      assert forall d | d in s.calls :: !(d != c && s.calls[d].pc.Written? && SamePair(s.calls[c], s.calls[d]));
    }
  }

  /** A request whose sandbox run failed commits its submission and touches no row. */
  lemma {:induction false} UncountedGoesThrough(s: System, c: Id)
    requires c in s.calls && s.calls[c].pc.Finalized? && s.calls[c].pc.result.runnerError != ""
    ensures var call, t := s.calls[c], Step(s, Commit(c));
            && t.calls == s.calls[c := call.(pc := Committed(call.pc.sub))]
            && t.db == s.db.(submissions := s.db.submissions[call.pc.sub := Submission(call.user, call.exercise,
                 call.code, StatusFromResult(call.pc.result), Some(call.pc.result))])
  {
    hide Lists, Locked, RowOf, RowLocked, StatusFromResult, WriteBack;
  }
}
