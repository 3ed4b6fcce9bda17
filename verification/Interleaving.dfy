/** Any number of submission requests, each its own READ COMMITTED transaction, interleaved
    statement by statement. `db` is the committed database; a request's uncommitted rows live in
    its program counter. Sequences are not transactional, so nextId moves at once. */
module Interleaving {
  import opened Schema
  import opened SandboxResult
  import opened Curriculum
  import opened Progression
  import opened Grading

  // The progress row a request has read.
  datatype Seen = Seen(row: Id, value: Progress)

  datatype Pc =
    | Arrived
    | Admitted                                            // gate read and passed
    | Inserted(sub: Id)                                   // PENDING row, uncommitted
    | Ran(sub: Id, result: TestRunResult)                 // sandbox has answered
    | Finalized(sub: Id, result: TestRunResult)
    | Read(sub: Id, result: TestRunResult, seen: Option<Seen>)
    | Written(sub: Id, result: TestRunResult, seen: Option<Seen>, row: Id, at: Time)  // holds the row lock
    | Committed(sub: Id)
    | Aborted
    | Refused(answer: Answer)

  datatype Call = Call(user: UserId, exercise: Id, code: string, pc: Pc)
  datatype System = System(db: Database, calls: map<Id, Call>)

  datatype Action =
    | Arrive(c: Id, user: UserId, exercise: Id, code: string)
    | ReadGate(c: Id, order: seq<Id>)          // order: whatever listing the query returns
    | InsertPending(c: Id)
    | RunSandbox(c: Id, result: TestRunResult)
    | Finalize(c: Id)
    | ReadProgress(c: Id)
    | WriteProgress(c: Id, at: Time)
    | Commit(c: Id)
    | Abort(c: Id)                             // any failure before the commit

  predicate Open(pc: Pc) {
    !pc.Committed? && !pc.Aborted? && !pc.Refused?
  }

  function Move(s: System, c: Id, pc: Pc): System
    requires c in s.calls
  {
    s.(calls := s.calls[c := s.calls[c].(pc := pc)])
  }

  function Draw(s: System): System {
    s.(db := s.db.(nextId := s.db.nextId + 1))
  }

  predicate SamePair(a: Call, b: Call) {
    a.user == b.user && a.exercise == b.exercise
  }

  // Another transaction has written this (user, exercise) row and not yet ended.
  predicate RowLocked(s: System, c: Id)
    requires c in s.calls
  {
    exists d | d in s.calls :: d != c && s.calls[d].pc.Written? && SamePair(s.calls[c], s.calls[d])
  }

  function StoreVerdict(db: Database, call: Call, sub: Id, result: TestRunResult): Database {
    db.(submissions := db.submissions[sub :=
      Submission(call.user, call.exercise, call.code, StatusFromResult(result), Some(result))])
  }

  function WriteBack(table: map<Id, Progress>, call: Call, w: Pc): map<Id, Progress>
    requires w.Written? && (w.seen.Some? ==> w.row in table)
  {
    var solved := StatusFromResult(w.result) == Passed;
    table[w.row := match w.seen
      case None => FirstRow(call.user, call.exercise, w.sub, solved, w.at)
      case Some(x) => Bump(x.value, table[w.row], w.sub, solved, w.at)]
  }

  function CommitDb(db: Database, call: Call): Database
    requires call.pc.Finalized? || call.pc.Written?
    requires call.pc.Written? && call.pc.seen.Some? ==> call.pc.row in db.progress
  {
    var stored := StoreVerdict(db, call, call.pc.sub, call.pc.result);
    if call.pc.Finalized? then stored else stored.(progress := WriteBack(db.progress, call, call.pc))
  }

  // A call ends without recording progress only when the sandbox failed.
  predicate MayCommit(db: Database, call: Call) {
    (call.pc.Finalized? && call.pc.result.runnerError != "")
    || (call.pc.Written? && (call.pc.seen.Some? ==> call.pc.row in db.progress))
  }

  // An action that is not enabled leaves the system as it is.
  ghost function Step(s: System, a: Action): System {
    if a.Arrive? then
      if a.c in s.calls then s else s.(calls := s.calls[a.c := Call(a.user, a.exercise, a.code, Arrived)])
    else if a.c !in s.calls then s
    else
      var call := s.calls[a.c];
      match a
      case ReadGate(c, order) =>
        if !call.pc.Arrived? || !Lists(s.db, order) then s
        else if call.exercise !in s.db.exercises then Move(s, c, Refused(NotFound))
        else if Locked(s.db, call.user, order, s.db.exercises[call.exercise].parent) then Move(s, c, Refused(Forbidden))
        else Move(s, c, Admitted)
      case InsertPending(c) =>
        if !call.pc.Admitted? then s
        else if call.exercise !in s.db.exercises then Move(s, c, Aborted)   // its foreign key
        else Draw(Move(s, c, Inserted(s.db.nextId)))
      case RunSandbox(c, result) =>
        if call.pc.Inserted? then Move(s, c, Ran(call.pc.sub, result)) else s
      case Finalize(c) =>
        if call.pc.Ran? then Move(s, c, Finalized(call.pc.sub, call.pc.result)) else s
      case ReadProgress(c) =>
        if !call.pc.Finalized? || call.pc.result.runnerError != "" then s
        else
          var p := RowOf(s.db.progress, call.user, call.exercise);
          var seen := if p.None? then None else Some(Seen(p.value, s.db.progress[p.value]));
          Move(s, c, Read(call.pc.sub, call.pc.result, seen))
      case WriteProgress(c, at) =>
        if !call.pc.Read? || RowLocked(s, c) then s
        else if call.pc.seen.Some? then
          Move(s, c, Written(call.pc.sub, call.pc.result, call.pc.seen, call.pc.seen.value.row, at))
        else if RowOf(s.db.progress, call.user, call.exercise).Some? then
          Move(s, c, Aborted)                    // uq_progress_user_exercise
        else Draw(Move(s, c, Written(call.pc.sub, call.pc.result, None, s.db.nextId, at)))
      case Commit(c) =>
        if MayCommit(s.db, call) then Move(s.(db := CommitDb(s.db, call)), c, Committed(call.pc.sub)) else s
      case Abort(c) =>
        if Open(call.pc) then Move(s, c, Aborted) else s
  }

  ghost function Exec(s: System, acts: seq<Action>): System {
    if acts == [] then s else Step(Exec(s, acts[..|acts| - 1]), acts[|acts| - 1])
  }

  function Start(db: Database): System {
    System(db, map[])
  }

  // ---- the invariant -----------------------------------------------------------------------

  predicate InFlight(pc: Pc) {
    pc.Inserted? || pc.Ran? || pc.Finalized? || pc.Read? || pc.Written?
  }

  // The keys a request has drawn and not yet committed.
  function Keys(pc: Pc): set<Id> {
    if pc.Written? && pc.seen.None? then {pc.sub, pc.row}
    else if InFlight(pc) then {pc.sub} else {}
  }

  ghost predicate FreshKeys(db: Database, pc: Pc) {
    forall k | k in Keys(pc) :: k < db.nextId && k !in db.submissions && k !in db.progress
  }

  // What a request still knows to be true of the row it read.
  ghost predicate SeenStillHolds(db: Database, user: UserId, e: Id, x: Seen) {
    && RowOf(db.progress, user, e) == Some(x.row) && x.row in db.progress
    && 1 <= x.value.attempts <= |VerdictsOf(db, user, e)|
    && (x.value.isSolved ==> db.progress[x.row].isSolved)
  }

  // What an admitted request knows to be true of the committed database.
  ghost predicate Knows(db: Database, ls: seq<Id>, call: Call) {
    var pc := call.pc;
    && (InFlight(pc) ==> call.exercise in db.exercises)
    && (pc.Admitted? || InFlight(pc) ==> Admissible(db, call.user, ls, call.exercise))
    && (pc.Read? || pc.Written? ==> pc.result.runnerError == "")
    && ((pc.Read? || pc.Written?) && pc.seen.Some? ==> SeenStillHolds(db, call.user, call.exercise, pc.seen.value))
    && (pc.Written? && pc.seen.Some? ==> pc.row == pc.seen.value.row)
    && (pc.Written? && pc.seen.None? ==> RowOf(db.progress, call.user, call.exercise) == None)
  }

  ghost predicate CallOk(db: Database, ls: seq<Id>, call: Call) {
    FreshKeys(db, call.pc) && Knows(db, ls, call)
  }

  predicate Apart(a: Call, b: Call) {
    Keys(a.pc) !! Keys(b.pc) && !(a.pc.Written? && b.pc.Written? && SamePair(a, b))
  }

  ghost predicate PairOk(db: Database, user: UserId, e: Id) {
    match Row(db.progress, user, e)
    case None => VerdictsOf(db, user, e) == {}
    case Some(p) =>
      && 1 <= p.attempts <= |VerdictsOf(db, user, e)|
      && p.lastSubmissionId.Some? && p.lastSubmissionId.value in VerdictsOf(db, user, e)
      && (p.isSolved <==> PassesOf(db, user, e) != {})
      && (p.isSolved <==> p.solvedAt.Some?)
  }

  // ls is the listing the chain is about; the empty one leaves what holds without any chain.
  ghost predicate DbOk(db: Database, ls: seq<Id>) {
    && Valid(db) && NoPending(db)
    && (forall u, e :: PairOk(db, u, e))
    && (forall u :: Chain(db, u, ls))
  }

  ghost predicate CallsOk(s: System, ls: seq<Id>) {
    && (forall c | c in s.calls :: CallOk(s.db, ls, s.calls[c]))
    && (forall c, d | c in s.calls && d in s.calls && c != d :: Apart(s.calls[c], s.calls[d]))
  }

  ghost predicate Inv(s: System, ls: seq<Id>) {
    DbOk(s.db, ls) && CallsOk(s, ls)
  }

  // ---- steps that commit nothing --------------------------------------------------------------

  // The same rows; the sequence may have moved on.
  ghost predicate SameRows(a: Database, b: Database) {
    SameCurriculum(a, b) && a.submissions == b.submissions && a.progress == b.progress && a.nextId <= b.nextId
  }

  lemma {:induction false} SameRowsSameFacts(a: Database, b: Database)
    requires SameRows(a, b)
    ensures forall u, e :: VerdictsOf(a, u, e) == VerdictsOf(b, u, e) && PassesOf(a, u, e) == PassesOf(b, u, e)
    ensures forall u :: SolvedSet(a, u) == SolvedSet(b, u)
    ensures forall l :: ExercisesOf(a, l) == ExercisesOf(b, l)
    ensures Published(a) == Published(b)
  {
    forall u, e ensures VerdictsOf(a, u, e) == VerdictsOf(b, u, e) && PassesOf(a, u, e) == PassesOf(b, u, e) {
      SameVerdicts(a, b, u, e);
    }
  }

  lemma {:induction false} SameRowsKeepDb(a: Database, b: Database, ls: seq<Id>)
    requires SameRows(a, b) && DbOk(a, ls)
    ensures DbOk(b, ls)
  {
    hide ContentTables, VerdictsOf, PassesOf, SolvedSet, ExercisesOf;
    SameRowsSameFacts(a, b);
    SameContent(a, b);
    assert forall p | p in b.progress :: RowReferences(a, b.progress[p]);
    forall u, e ensures PairOk(b, u, e) { assert PairOk(a, u, e); }
    forall u ensures Chain(b, u, ls) {
      assert Chain(a, u, ls);
      assert forall l :: FullySolved(a, u, l) == FullySolved(b, u, l);
    }
  }

  lemma {:induction false} SameRowsKeepCall(a: Database, b: Database, ls: seq<Id>, call: Call)
    requires SameRows(a, b) && CallOk(a, ls, call)
    ensures CallOk(b, ls, call)
  {
    SameRowsSameFacts(a, b);
    assert forall l :: FullySolved(a, call.user, l) == FullySolved(b, call.user, l);
    assert forall k | 0 <= k < |ls| :: Unlocked(a, call.user, ls, k) == Unlocked(b, call.user, ls, k);
  }

  lemma {:induction false} ReplaceCall(s: System, t: System, c: Id, call: Call, ls: seq<Id>)
    requires Inv(s, ls) && SameRows(s.db, t.db) && t.calls == s.calls[c := call]
    requires CallOk(t.db, ls, call)
    requires forall d | d in s.calls && d != c :: Apart(call, s.calls[d])
    ensures Inv(t, ls)
  {
    hide DbOk, CallOk;
    SameRowsKeepDb(s.db, t.db, ls);
    forall d | d in t.calls ensures CallOk(t.db, ls, t.calls[d]) {
      if d != c { SameRowsKeepCall(s.db, t.db, ls, s.calls[d]); }
    }
    forall d, e | d in t.calls && e in t.calls && d != e ensures Apart(t.calls[d], t.calls[e]) {
      if d != c && e != c { assert Apart(s.calls[d], s.calls[e]); }
      if e == c { assert Apart(call, s.calls[d]); }
    }
  }

  lemma {:induction false} MoveKeepsInv(s: System, c: Id, pc: Pc, ls: seq<Id>)
    requires Inv(s, ls) && c in s.calls
    requires Knows(s.db, ls, s.calls[c].(pc := pc))
    requires Keys(pc) <= Keys(s.calls[c].pc)
    requires pc.Written? ==> !RowLocked(s, c)
    ensures Inv(Move(s, c, pc), ls)
  {
    hide DbOk, Knows;
    assert CallOk(s.db, ls, s.calls[c]);
    forall d | d in s.calls && d != c ensures Apart(s.calls[c].(pc := pc), s.calls[d]) {
      assert Apart(s.calls[c], s.calls[d]);
    }
    ReplaceCall(s, Move(s, c, pc), c, s.calls[c].(pc := pc), ls);
  }

  // A request that draws the next key, for its submission or for a new progress row.
  lemma {:induction false} DrawKeepsInv(s: System, c: Id, pc: Pc, ls: seq<Id>)
    requires Inv(s, ls) && c in s.calls
    requires Knows(Draw(s).db, ls, s.calls[c].(pc := pc))
    requires Keys(pc) <= Keys(s.calls[c].pc) + {s.db.nextId}
    requires pc.Written? ==> !RowLocked(s, c)
    ensures Inv(Draw(Move(s, c, pc)), ls)
  {
    hide PairOk, Chain, ContentTables, Lists, NoPending, Knows;
    assert CallOk(s.db, ls, s.calls[c]);
    forall d | d in s.calls && d != c ensures Apart(s.calls[c].(pc := pc), s.calls[d]) {
      assert Apart(s.calls[c], s.calls[d]);
      assert CallOk(s.db, ls, s.calls[d]);
    }
    ReplaceCall(s, Draw(Move(s, c, pc)), c, s.calls[c].(pc := pc), ls);
  }

  lemma {:induction false} GateKeepsInv(s: System, c: Id, order: seq<Id>, ls: seq<Id>)
    requires Inv(s, ls) && (ls == [] || (Lists(s.db, ls) && TieFree(s.db)))
    ensures Inv(Step(s, ReadGate(c, order)), ls)
  {
    hide TieFree, Valid, PairOk, Chain, Admissible, Locked, SeenStillHolds, Apart;
    if c in s.calls && s.calls[c].pc.Arrived? && Lists(s.db, order) {
      var call := s.calls[c];
      UniqueOfDbOk(s.db, ls);
      if call.exercise in s.db.exercises && !Locked(s.db, call.user, order, s.db.exercises[call.exercise].parent) {
        if ls == [] {
          NothingListed(s.db, call.user, call.exercise);
        } else {
          AnyOrderAdmits(s.db, call.user, ls, order, call.exercise);
        }
        MoveKeepsInv(s, c, Admitted, ls);
      } else {
        MoveKeepsInv(s, c, Refused(if call.exercise in s.db.exercises then Forbidden else NotFound), ls);
      }
    }
  }

  lemma {:induction false} NothingListed(db: Database, user: UserId, e: Id)
    ensures Admissible(db, user, [], e) && Chain(db, user, [])
  {}

  lemma {:induction false} InsertKeepsInv(s: System, c: Id, ls: seq<Id>)
    requires Inv(s, ls)
    ensures Inv(Step(s, InsertPending(c)), ls)
  {
    hide DbOk, SeenStillHolds, Admissible, Apart;
    if c in s.calls && s.calls[c].pc.Admitted? {
      assert CallOk(s.db, ls, s.calls[c]);
      if s.calls[c].exercise in s.db.exercises {
        SameRowsKeepCall(s.db, Draw(s).db, ls, s.calls[c]);
        DrawKeepsInv(s, c, Inserted(s.db.nextId), ls);
      } else {
        MoveKeepsInv(s, c, Aborted, ls);
      }
    }
  }

  lemma {:induction false} ReadKeepsInv(s: System, c: Id, ls: seq<Id>)
    requires Inv(s, ls)
    ensures Inv(Step(s, ReadProgress(c)), ls)
  {
    hide Valid, Chain, Apart, PassesOf, VerdictsOf;
    if c in s.calls && s.calls[c].pc.Finalized? && s.calls[c].pc.result.runnerError == "" {
      var call := s.calls[c];
      assert CallOk(s.db, ls, call);
      assert PairOk(s.db, call.user, call.exercise);
      var p := RowOf(s.db.progress, call.user, call.exercise);
      var seen := if p.None? then None else Some(Seen(p.value, s.db.progress[p.value]));
      MoveKeepsInv(s, c, Read(call.pc.sub, call.pc.result, seen), ls);
    }
  }

  lemma {:induction false} WriteKeepsInv(s: System, c: Id, at: Time, ls: seq<Id>)
    requires Inv(s, ls)
    ensures Inv(Step(s, WriteProgress(c, at)), ls)
  {
    hide DbOk, Admissible, Apart, SeenStillHolds;
    if c in s.calls && s.calls[c].pc.Read? && !RowLocked(s, c) {
      var call := s.calls[c];
      assert CallOk(s.db, ls, call);
      if call.pc.seen.Some? {
        MoveKeepsInv(s, c, Written(call.pc.sub, call.pc.result, call.pc.seen, call.pc.seen.value.row, at), ls);
      } else if RowOf(s.db.progress, call.user, call.exercise).Some? {
        MoveKeepsInv(s, c, Aborted, ls);
      } else {
        SameRowsKeepCall(s.db, Draw(s).db, ls, call);
        DrawKeepsInv(s, c, Written(call.pc.sub, call.pc.result, None, s.db.nextId, at), ls);
      }
    }
  }

  lemma {:induction false} LocalStepsKeepInv(s: System, a: Action, ls: seq<Id>)
    requires Inv(s, ls) && (a.Arrive? || a.RunSandbox? || a.Finalize? || a.Abort?)
    ensures Inv(Step(s, a), ls)
  {
    hide DbOk, Admissible, SeenStillHolds, StatusFromResult, RowOf, Locked, Lists, RowLocked, MayCommit, CommitDb;
    if a.Arrive? {
      if a.c !in s.calls {
        ReplaceCall(s, Step(s, a), a.c, Call(a.user, a.exercise, a.code, Arrived), ls);
      }
    } else if a.c in s.calls {
      var call := s.calls[a.c];
      assert CallOk(s.db, ls, call);
      if a.RunSandbox? && call.pc.Inserted? { MoveKeepsInv(s, a.c, Ran(call.pc.sub, a.result), ls); }
      if a.Finalize? && call.pc.Ran? { MoveKeepsInv(s, a.c, Finalized(call.pc.sub, call.pc.result), ls); }
      if a.Abort? && Open(call.pc) { MoveKeepsInv(s, a.c, Aborted, ls); }
    }
  }

  // ---- the commit --------------------------------------------------------------------------------

  // How the written row reads afterwards, and that no other row changed.
  lemma {:induction false} WriteBackRows(table: map<Id, Progress>, call: Call, w: Pc)
    requires UniqueRows(table) && w.Written?
    requires w.seen.None? ==> w.row !in table && RowOf(table, call.user, call.exercise) == None
    requires w.seen.Some? ==> w.row in table && RowOf(table, call.user, call.exercise) == Some(w.row)
    ensures var after := WriteBack(table, call, w);
            && UniqueRows(after) && RowOf(after, call.user, call.exercise) == Some(w.row)
            && (forall u, e | u != call.user || e != call.exercise ::
                  RowOf(after, u, e) == RowOf(table, u, e) && Row(after, u, e) == Row(table, u, e))
  {
    var after := WriteBack(table, call, w);
    assert after[w.row].userId == call.user && after[w.row].exerciseId == call.exercise;
    forall u, e | u != call.user || e != call.exercise
      ensures RowOf(after, u, e) == RowOf(table, u, e) && Row(after, u, e) == Row(table, u, e) {
      var q := RowOf(table, u, e);
      if q.Some? { assert after[q.value] == table[q.value]; }
    }
  }

  predicate CountsFor(call: Call, result: TestRunResult, user: UserId, e: Id) {
    call.user == user && call.exercise == e && IsVerdict(StatusFromResult(result))
  }

  lemma {:induction false} CommitVerdicts(db: Database, call: Call, user: UserId, e: Id)
    requires MayCommit(db, call) && call.pc.sub !in db.submissions
    ensures var after, counts := CommitDb(db, call), CountsFor(call, call.pc.result, user, e);
            && VerdictsOf(after, user, e) == VerdictsOf(db, user, e) + (if counts then {call.pc.sub} else {})
            && PassesOf(after, user, e) == PassesOf(db, user, e) +
                 (if counts && StatusFromResult(call.pc.result) == Passed then {call.pc.sub} else {})
            && |VerdictsOf(after, user, e)| == |VerdictsOf(db, user, e)| + if counts then 1 else 0
  {
    hide StatusFromResult, VerdictsOf, PassesOf, WriteBack;
    var after := CommitDb(db, call);
    AddedSubmission(db, after, call.pc.sub, after.submissions[call.pc.sub], user, e);
  }

  lemma {:induction false} CommitKeepsOwnPair(db: Database, call: Call)
    requires UniqueRows(db.progress) && PairOk(db, call.user, call.exercise)
    requires MayCommit(db, call) && call.pc.Written? && call.pc.result.runnerError == ""
    requires call.pc.sub !in db.submissions
    requires if call.pc.seen.Some? then
               call.pc.row == call.pc.seen.value.row && SeenStillHolds(db, call.user, call.exercise, call.pc.seen.value)
             else call.pc.row !in db.progress && RowOf(db.progress, call.user, call.exercise) == None
    ensures PairOk(CommitDb(db, call), call.user, call.exercise)
  {
    hide StatusFromResult, VerdictsOf;
    CommitVerdicts(db, call, call.user, call.exercise);
    WriteBackRows(db.progress, call, call.pc);
    var after := CommitDb(db, call);
    assert StatusFromResult(call.pc.result) == Passed ==> call.pc.sub in PassesOf(after, call.user, call.exercise);
  }

  lemma {:induction false} CommitKeepsPair(db: Database, ls: seq<Id>, call: Call, user: UserId, e: Id)
    requires DbOk(db, ls) && CallOk(db, ls, call) && MayCommit(db, call)
    ensures PairOk(CommitDb(db, call), user, e)
  {
    hide Valid, Chain, Lists, Admissible, StatusFromResult, VerdictsOf, PassesOf, SeenStillHolds, CommitDb;
    UniqueOfDbOk(db, ls);
    assert PairOk(db, user, e);
    assert call.pc.sub in Keys(call.pc);
    if call.pc.Written? && user == call.user && e == call.exercise {
      assert call.pc.seen.None? ==> call.pc.row in Keys(call.pc);
      CommitKeepsOwnPair(db, call);
    } else {
      CommitVerdicts(db, call, user, e);
      CommitWrites(db, ls, call);
    }
  }

  lemma {:induction false} CommitKeepsTables(db: Database, call: Call)
    requires Valid(db) && NoPending(db) && FreshKeys(db, call.pc) && MayCommit(db, call)
    requires call.exercise in db.exercises
    requires call.pc.Written? ==> RowOf(db.progress, call.user, call.exercise)
                                  == if call.pc.seen.Some? then Some(call.pc.row) else None
    ensures var after := CommitDb(db, call);
            Valid(after) && NoPending(after) && SameCurriculum(db, after) && Published(db) == Published(after)
  {
    hide ContentTables, StatusFromResult, WriteBack, RowOf, UserTables;
    var after := CommitDb(db, call);
    assert call.pc.sub in Keys(call.pc);
    SameContent(db, after);
    CommitKeepsUserTables(db, call);
    assert StatusFromResult(call.pc.result) != Pending;
  }

  lemma {:induction false} CommitKeepsUserTables(db: Database, call: Call)
    requires UserTables(db) && FreshKeys(db, call.pc) && MayCommit(db, call) && call.exercise in db.exercises
    requires call.pc.Written? ==> RowOf(db.progress, call.user, call.exercise)
                                  == if call.pc.seen.Some? then Some(call.pc.row) else None
    ensures UserTables(CommitDb(db, call))
  {
    hide StatusFromResult, WriteBack, RowOf;
    var after := CommitDb(db, call);
    assert call.pc.sub in Keys(call.pc);
    if call.pc.Written? {
      assert call.pc.seen.None? ==> call.pc.row in Keys(call.pc);
      RowOfMeans(db.progress, call);
      WriteBackRows(db.progress, call, call.pc);
      OtherRows(db.progress, call, call.pc);
      WrittenRow(db.progress, call, call.pc);
    }
    forall p | p in after.progress ensures RowReferences(after, after.progress[p]) && p < after.nextId {
      if p in db.progress { assert RowReferences(db, db.progress[p]); }
    }
  }

  lemma {:induction false} RowOfMeans(table: map<Id, Progress>, call: Call)
    ensures var p := RowOf(table, call.user, call.exercise);
            p.Some? ==> p.value in table && table[p.value].exerciseId == call.exercise
  {}

  lemma {:induction false} OtherRows(table: map<Id, Progress>, call: Call, w: Pc)
    requires w.Written? && (w.seen.Some? ==> w.row in table)
    ensures forall p | p in WriteBack(table, call, w) && p != w.row ::
              p in table && WriteBack(table, call, w)[p] == table[p]
  {
    hide StatusFromResult;
  }

  lemma {:induction false} WrittenRow(table: map<Id, Progress>, call: Call, w: Pc)
    requires w.Written? && (w.seen.Some? ==> w.row in table && table[w.row].exerciseId == call.exercise)
    ensures WriteBack(table, call, w)[w.row].exerciseId == call.exercise
    ensures WriteBack(table, call, w)[w.row].lastSubmissionId == Some(w.sub)
  {
    hide StatusFromResult;
  }

  lemma {:induction false} CommitKeepsValid(db: Database, ls: seq<Id>, call: Call)
    requires DbOk(db, ls) && CallOk(db, ls, call) && MayCommit(db, call)
    ensures var after := CommitDb(db, call);
            Valid(after) && NoPending(after) && SameCurriculum(db, after)
  {
    hide Valid, PairOk, Chain, NoPending, CommitDb;
    CommitKeepsTables(db, call);
  }

  // Who gains a solved exercise: at most this user, at most this exercise.
  // The commit touches this pair's row and no other.
  lemma {:induction false} CommitWrites(db: Database, ls: seq<Id>, call: Call)
    requires DbOk(db, ls) && CallOk(db, ls, call) && MayCommit(db, call)
    ensures var after := CommitDb(db, call).progress;
            && (call.pc.Written? ==> RowOf(after, call.user, call.exercise) == Some(call.pc.row))
            && (forall u, e | !call.pc.Written? || u != call.user || e != call.exercise ::
                  RowOf(after, u, e) == RowOf(db.progress, u, e) && Row(after, u, e) == Row(db.progress, u, e))
  {
    hide Valid, PairOk, Chain, NoPending, Lists, Admissible, StatusFromResult;
    UniqueOfDbOk(db, ls);
    if call.pc.Written? {
      assert call.pc.seen.None? ==> call.pc.row in Keys(call.pc);
      WriteBackRows(db.progress, call, call.pc);
    }
  }

  lemma {:induction false} CommitRows(db: Database, ls: seq<Id>, call: Call, user: UserId, e: Id)
    requires DbOk(db, ls) && CallOk(db, ls, call) && MayCommit(db, call)
    ensures var before, after := Row(db.progress, user, e), Row(CommitDb(db, call).progress, user, e);
            if user == call.user && e == call.exercise
            then before.Some? && before.value.isSolved ==> after.Some? && after.value.isSolved
            else after == before
  {
    hide DbOk, Admissible, StatusFromResult;
    CommitWrites(db, ls, call);
  }

  lemma {:induction false} UniqueOfDbOk(db: Database, ls: seq<Id>)
    requires DbOk(db, ls)
    ensures UniqueRows(db.progress)
  {}

  lemma {:induction false} CommitSolves(db: Database, ls: seq<Id>, call: Call)
    requires DbOk(db, ls) && CallOk(db, ls, call) && MayCommit(db, call)
    ensures var after := CommitDb(db, call);
            && Later(db, after)
            && (forall u :: SolvedSet(after, u) <= SolvedSet(db, u) + if u == call.user then {call.exercise} else {})
  {
    hide PairOk, Chain, NoPending, Lists, Admissible, CommitDb, CallOk;
    var after := CommitDb(db, call);
    CommitKeepsValid(db, ls, call);
    forall u, e ensures (e in SolvedSet(db, u) ==> e in SolvedSet(after, u))
        && (e in SolvedSet(after, u) ==> e in SolvedSet(db, u) || (u == call.user && e == call.exercise)) {
      CommitRows(db, ls, call, u, e);
      RowDecidesSolved(db, u, e);
      RowDecidesSolved(after, u, e);
    }
  }

  lemma {:induction false} CommitKeepsDb(db: Database, ls: seq<Id>, call: Call)
    requires DbOk(db, ls) && CallOk(db, ls, call) && MayCommit(db, call)
    ensures DbOk(CommitDb(db, call), ls)
  {
    hide CallOk, CommitDb, Chain, PairOk, Valid, NoPending, Lists;
    var after := CommitDb(db, call);
    CommitKeepsValid(db, ls, call);
    forall u, e ensures PairOk(after, u, e) { CommitKeepsPair(db, ls, call, u, e); }
    forall u ensures Chain(after, u, ls) { CommitKeepsChain(db, ls, call, u); }
  }

  lemma {:induction false} CommitKeepsChain(db: Database, ls: seq<Id>, call: Call, user: UserId)
    requires DbOk(db, ls) && CallOk(db, ls, call) && MayCommit(db, call)
    ensures Chain(CommitDb(db, call), user, ls)
  {
    hide PairOk, Valid, NoPending, CommitDb;
    var after := CommitDb(db, call);
    CommitSolves(db, ls, call);
    assert Chain(db, user, ls);
    if user == call.user {
      SolvingKeepsChain(db, after, user, ls, call.exercise);
    } else {
      NoSolveKeepsChain(db, after, user, ls);
    }
  }

  lemma {:induction false} CommitKeepsAdmissible(db: Database, ls: seq<Id>, call: Call, user: UserId, e: Id)
    requires DbOk(db, ls) && CallOk(db, ls, call) && MayCommit(db, call) && Admissible(db, user, ls, e)
    ensures Admissible(CommitDb(db, call), user, ls, e)
  {
    hide DbOk, CallOk, CommitDb, FullySolved;
    var after := CommitDb(db, call);
    CommitSolves(db, ls, call);
    UnlockOnlyGrows(db, after, user, ls);
    assert forall l :: ExercisesOf(after, l) == ExercisesOf(db, l);
  }

  lemma {:induction false} CommitKeepsKeys(db: Database, call: Call, pc: Pc)
    requires MayCommit(db, call) && FreshKeys(db, pc) && Keys(call.pc) !! Keys(pc)
    requires call.pc.Written? && call.pc.seen.None? ==> call.pc.row in Keys(call.pc)
    ensures FreshKeys(CommitDb(db, call), pc)
  {
    hide StatusFromResult;
    assert call.pc.sub in Keys(call.pc);
  }

  // Another request's view of its row outlives this commit: verdicts only accumulate, solves stick.
  lemma {:induction false} CommitKeepsSeen(db: Database, ls: seq<Id>, call: Call, user: UserId, e: Id, x: Seen)
    requires DbOk(db, ls) && CallOk(db, ls, call) && MayCommit(db, call)
    requires SeenStillHolds(db, user, e, x)
    ensures SeenStillHolds(CommitDb(db, call), user, e, x)
  {
    hide Valid, PairOk, Chain, NoPending, Lists, Admissible, StatusFromResult, VerdictsOf, PassesOf;
    assert call.pc.sub in Keys(call.pc);
    CommitVerdicts(db, call, user, e);
    CommitRows(db, ls, call, user, e);
    CommitWrites(db, ls, call);
  }

  lemma {:induction false} CommitKeepsOther(db: Database, ls: seq<Id>, call: Call, other: Call)
    requires DbOk(db, ls) && CallOk(db, ls, call) && MayCommit(db, call)
    requires CallOk(db, ls, other) && Apart(call, other)
    ensures CallOk(CommitDb(db, call), ls, other)
  {
    hide DbOk, Admissible, SeenStillHolds, FreshKeys, StatusFromResult, WriteBack;
    var after, pc := CommitDb(db, call), other.pc;
    CommitKeepsKeys(db, call, pc);
    if pc.Admitted? || InFlight(pc) { CommitKeepsAdmissible(db, ls, call, other.user, other.exercise); }
    if (pc.Read? || pc.Written?) && pc.seen.Some? {
      CommitKeepsSeen(db, ls, call, other.user, other.exercise, pc.seen.value);
    }
    CommitWrites(db, ls, call);
  }

  lemma {:induction false} CommitKeepsInv(s: System, c: Id, ls: seq<Id>)
    requires Inv(s, ls)
    ensures Inv(Step(s, Commit(c)), ls)
  {
    hide DbOk, Admissible, SeenStillHolds, CommitDb, StatusFromResult, RowOf, Locked, Lists, RowLocked;
    if c in s.calls && MayCommit(s.db, s.calls[c]) {
      var call, t := s.calls[c], Step(s, Commit(c));
      assert CallOk(s.db, ls, call);
      CommitKeepsDb(s.db, ls, call);
      forall d | d in t.calls ensures CallOk(t.db, ls, t.calls[d]) {
        if d != c {
          assert Apart(call, s.calls[d]);
          CommitKeepsOther(s.db, ls, call, s.calls[d]);
        }
      }
      assert t.calls == s.calls[c := call.(pc := Committed(call.pc.sub))];
      forall d, e | d in t.calls && e in t.calls && d != e ensures Apart(t.calls[d], t.calls[e]) {
        assert Apart(s.calls[d], s.calls[e]);
      }
    }
  }

  lemma {:induction false} StepKeepsInv(s: System, a: Action, ls: seq<Id>)
    requires Inv(s, ls) && (ls == [] || (Lists(s.db, ls) && TieFree(s.db)))
    ensures Inv(Step(s, a), ls)
  {
    match a
    case ReadGate(c, order) => GateKeepsInv(s, c, order, ls);
    case InsertPending(c) => InsertKeepsInv(s, c, ls);
    case ReadProgress(c) => ReadKeepsInv(s, c, ls);
    case WriteProgress(c, at) => WriteKeepsInv(s, c, at, ls);
    case Commit(c) => CommitKeepsInv(s, c, ls);
    case _ => LocalStepsKeepInv(s, a, ls);
  }

  lemma {:induction false} StepIsLater(s: System, a: Action, ls: seq<Id>)
    requires Inv(s, ls)
    ensures Later(s.db, Step(s, a).db)
    ensures forall u :: SolvedSet(Step(s, a).db, u) == SolvedSet(s.db, u)
                        || (a.Commit? && a.c in s.calls && s.calls[a.c].user == u)
  {
    if a.Commit? && a.c in s.calls && MayCommit(s.db, s.calls[a.c]) {
      assert CallOk(s.db, ls, s.calls[a.c]);
      CommitSolves(s.db, ls, s.calls[a.c]);
    } else {
      QuietStep(s, a);
      SameRowsSameFacts(s.db, Step(s, a).db);
    }
  }

  lemma {:induction false} QuietStep(s: System, a: Action)
    requires !(a.Commit? && a.c in s.calls && MayCommit(s.db, s.calls[a.c]))
    ensures SameRows(s.db, Step(s, a).db)
  {
    hide Lists, Locked, RowOf, RowLocked;
  }
}
