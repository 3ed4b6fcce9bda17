/** Submissions in flight while lessons are re-ingested: an ingest is one more transaction among the requests. */
module Editing {
  import opened Schema
  import opened SandboxResult
  import opened Curriculum
  import opened Progression
  import opened Grading
  import opened Content
  import opened Ingest
  import opened Interleaving
  import opened Reachable
  import opened History

  datatype Turn = Act(action: Action) | Edit(doc: LessonDoc)

  // A PENDING row, though uncommitted, holds the key of its exercise, so the DELETE of the ingest waits for it. A
  // request that has not inserted yet finds the exercise gone: InsertPending violates its foreign key.
  predicate Waits(s: System, gone: set<Id>) {
    exists c | c in s.calls :: InFlight(s.calls[c].pc) && s.calls[c].exercise in gone
  }

  ghost function Take(s: System, turn: Turn): System
    requires turn.Edit? ==> SettledDoc(turn.doc)
  {
    match turn
    case Act(a) => Step(s, a)
    case Edit(d) => if Waits(s, Replaced(s.db, d.slug)) then s else s.(db := IngestDoc(s.db, d))
  }

  /** An ingest beside requests takes effect, as one update of the document map, iff none of them has a submission for
      a replaced exercise in its open transaction; until then it changes nothing. */
  lemma {:induction false} EditTakesEffectIff(s: System, d: LessonDoc)
    requires ContentTables(s.db) && SettledDoc(d)
    ensures var t := Take(s, Edit(d));
            var free := forall c | c in s.calls && s.calls[c].exercise in Replaced(s.db, d.slug) ::
                          s.calls[c].pc.Arrived? || s.calls[c].pc.Admitted? || !Open(s.calls[c].pc);
            && (free <==> t.db == IngestDoc(s.db, d)) && (free ==> Docs(t.db) == Docs(s.db)[d.slug := d])
            && (!free ==> t == s) && t.calls == s.calls
  {
    hide ContentTables, SettledDoc, IngestDoc, Docs, Replaced;
    IngestIsMapUpdate(s.db, d);
    IngestDrawsKeys(s.db, d);
  }

  lemma {:induction false} IngestDrawsKeys(db: Database, d: LessonDoc)
    requires ContentTables(db) && SettledDoc(d)
    ensures db.nextId < IngestDoc(db, d).nextId
  {
    hide ContentTables, SettledDoc, Rebuild, Slugs, SameLesson, LessonBySlug;
    DropKeepsContent(db, d.slug);
    RebuildRows(DropSlug(db, d.slug), d);
  }

  /** A request that passed the gate and finds its exercise replaced fails at its insert, and nothing is stored. */
  lemma {:induction false} LateInsertFails(s: System, c: Id)
    requires c in s.calls && s.calls[c].pc.Admitted? && s.calls[c].exercise !in s.db.exercises
    ensures var t := Step(s, InsertPending(c)); t.db == s.db && t.calls == s.calls[c := s.calls[c].(pc := Aborted)]
  {}

  ghost predicate AllSettled(turns: seq<Turn>) {
    forall t | t in turns && t.Edit? :: SettledDoc(t.doc)
  }

  ghost function Play(s: System, turns: seq<Turn>): System
    requires AllSettled(turns)
  {
    if turns == [] then s else Take(Play(s, turns[..|turns| - 1]), turns[|turns| - 1])
  }

  // ---- an ingest keeps what requests rely on, chain apart --------------------------------------------------

  lemma {:induction false} KeptExercises(db: Database, d: LessonDoc)
    requires ContentTables(db) && SettledDoc(d)
    ensures var after, gone := IngestDoc(db, d), Replaced(db, d.slug);
            && db.nextId <= after.nextId
            && (forall e | e in db.exercises && e !in gone ::
                  e in after.exercises && after.exercises[e] == db.exercises[e])
            && (forall e | e in after.exercises && e < db.nextId :: e in db.exercises && e !in gone)
  {
    hide ContentTables, SettledDoc, Rebuild, Slugs, SameLesson, LessonBySlug;
    var dropped, after := DropSlug(db, d.slug), IngestDoc(db, d);
    DropKeepsContent(db, d.slug);
    RebuildRows(dropped, d);
    forall e | e in after.exercises && e < db.nextId ensures e in dropped.exercises {
      var l := after.exercises[e].parent;
      assert e in ExercisesOf(after, l);
      if l != dropped.nextId { assert e in ExercisesOf(dropped, l); }
    }
  }

  // What a pair looks like after an ingest.
  lemma {:induction false} PairAfterIngest(db: Database, d: LessonDoc, user: UserId, e: Id)
    requires Valid(db) && OwnLastSubmission(db) && SettledDoc(d)
    ensures var after, gone := IngestDoc(db, d), Replaced(db, d.slug);
            && Row(after.progress, user, e) == (if e in gone then None else Row(db.progress, user, e))
            && RowOf(after.progress, user, e) == (if e in gone then None else RowOf(db.progress, user, e))
            && VerdictsOf(after, user, e) == (if e in gone then {} else VerdictsOf(db, user, e))
            && PassesOf(after, user, e) == (if e in gone then {} else PassesOf(db, user, e))
  {
    hide ContentTables, SettledDoc, IngestDoc, OwnLastSubmission, VerdictsOf, PassesOf, Replaced, SolvedSet,
         KeptSubmissions, Row, RowOf;
    var after, gone := IngestDoc(db, d), Replaced(db, d.slug);
    IngestUserState(db, d);
    RestrictedRows(db.progress, after.progress, gone, user, e);
    RestrictedKeys(db.progress, after.progress, gone, user, e);
    KeptIsRestricted(db, gone);
    RestrictedVerdicts(db, after, gone, user, e);
  }

  lemma {:induction false} RestrictedKeys(before: map<Id, Progress>, after: map<Id, Progress>, gone: set<Id>,
                                         user: UserId, e: Id)
    requires UniqueRows(before)
    requires after == map p | p in before && before[p].exerciseId !in gone :: before[p]
    ensures RowOf(after, user, e) == if e in gone then None else RowOf(before, user, e)
  {
    var p := RowOf(before, user, e);
    if p.Some? && e !in gone { assert p.value in after; }
  }

  lemma {:induction false} DbOwnsSubmissions(db: Database)
    requires DbOk(db, [])
    ensures Valid(db) && OwnLastSubmission(db)
  {
    hide VerdictsOf, PassesOf, Chain, ContentTables, RowOf, OwnLastSubmission;
    forall u, e | Row(db.progress, u, e).Some?
      ensures var p := Row(db.progress, u, e).value;
              p.lastSubmissionId.Some? && p.lastSubmissionId.value in VerdictsOf(db, u, e) {
      assert PairOk(db, u, e);
    }
    PairsOwnSubmissions(db);
  }

  lemma {:induction false} IngestKeepsDb(db: Database, d: LessonDoc)
    requires DbOk(db, []) && SettledDoc(d)
    ensures DbOk(IngestDoc(db, d), [])
  {
    hide Valid, SettledDoc, IngestDoc, OwnLastSubmission, VerdictsOf, PassesOf, Replaced, Chain, NoPending, Row, RowOf;
    var after := IngestDoc(db, d);
    DbOwnsSubmissions(db);
    IngestLeavesNonePending(db, d);
    forall u, e ensures PairOk(after, u, e) {
      assert PairOk(db, u, e);
      PairAfterIngest(db, d, u, e);
    }
    forall u ensures Chain(after, u, []) { NothingListed(after, u, 0); }
  }

  lemma {:induction false} KeptRow(db: Database, d: LessonDoc, p: Id)
    requires Valid(db) && OwnLastSubmission(db) && SettledDoc(d)
    requires p in db.progress && db.progress[p].exerciseId !in Replaced(db, d.slug)
    ensures p in IngestDoc(db, d).progress && IngestDoc(db, d).progress[p] == db.progress[p]
  {
    hide Valid, SettledDoc, IngestDoc, OwnLastSubmission, Replaced, SolvedSet, KeptSubmissions, KeptProgress;
    IngestUserState(db, d);
  }

  lemma {:induction false} NoNewKeys(db: Database, d: LessonDoc, pc: Pc)
    requires Valid(db) && SettledDoc(d) && FreshKeys(db, pc)
    ensures FreshKeys(IngestDoc(db, d), pc)
  {
    hide Valid, SettledDoc, IngestDoc, OwnLastSubmission, Replaced, SolvedSet;
    IngestUserState(db, d);
    KeptExercises(db, d) by { ContentOfValid(db); }
  }

  lemma {:induction false} ContentOfValid(db: Database)
    requires Valid(db)
    ensures ContentTables(db)
  {}

  lemma {:induction false} IngestKeepsCall(db: Database, d: LessonDoc, call: Call)
    requires DbOk(db, []) && SettledDoc(d) && CallOk(db, [], call)
    requires InFlight(call.pc) ==> call.exercise !in Replaced(db, d.slug)
    ensures CallOk(IngestDoc(db, d), [], call)
  {
    hide DbOk, Valid, SettledDoc, IngestDoc, OwnLastSubmission, VerdictsOf, PassesOf, Replaced, FreshKeys, Row,
         RowOf, Admissible;
    var after, pc := IngestDoc(db, d), call.pc;
    DbOwnsSubmissions(db);
    ContentOfValid(db);
    NoNewKeys(db, d, pc);
    KeptExercises(db, d);
    NothingListed(after, call.user, call.exercise);
    PairAfterIngest(db, d, call.user, call.exercise);
    if (pc.Read? || pc.Written?) && pc.seen.Some? {
      RowIsOfPair(db.progress, call.user, call.exercise);
      KeptRow(db, d, pc.seen.value.row);
    }
  }

  lemma {:induction false} RowIsOfPair(table: map<Id, Progress>, user: UserId, e: Id)
    ensures RowOf(table, user, e).Some? ==>
              RowOf(table, user, e).value in table && table[RowOf(table, user, e).value].exerciseId == e
  {}

  lemma {:induction false} EditKeepsInv(s: System, d: LessonDoc)
    requires Inv(s, []) && SettledDoc(d)
    ensures Inv(Take(s, Edit(d)), [])
  {
    hide DbOk, CallOk, SettledDoc, IngestDoc, Replaced, Apart;
    if !Waits(s, Replaced(s.db, d.slug)) {
      IngestKeepsDb(s.db, d);
      forall c | c in s.calls ensures CallOk(IngestDoc(s.db, d), [], s.calls[c]) {
        IngestKeepsCall(s.db, d, s.calls[c]);
      }
    }
  }

  lemma {:induction false} PlayKeepsInv(db: Database, turns: seq<Turn>)
    requires Unused(db) && AllSettled(turns)
    ensures Inv(Play(Start(db), turns), [])
  {
    hide Unused, Inv, Step, SettledDoc, IngestDoc, Replaced;
    if turns == [] {
      UnusedIsSound(db);
    } else {
      var s, turn := Play(Start(db), turns[..|turns| - 1]), turns[|turns| - 1];
      PlayKeepsInv(db, turns[..|turns| - 1]);
      match turn
      case Act(a) => StepKeepsInv(s, a, []);
      case Edit(d) =>
        assert turn in turns;
        EditKeepsInv(s, d);
    }
  }

  lemma {:induction false} UnusedIsSound(db: Database)
    requires Unused(db)
    ensures Inv(Start(db), [])
  {}

  // ---- lost updates ---------------------------------------------------------------------------------------

  // Some commit of this pair was stale since its exercise was last replaced.
  ghost predicate Lost(s: System, turns: seq<Turn>, user: UserId, e: Id)
    requires AllSettled(turns)
  {
    turns != [] &&
    var t := Play(s, turns[..|turns| - 1]);
    match turns[|turns| - 1]
    case Act(a) => Lost(s, turns[..|turns| - 1], user, e)
                   || (StaleCommit(t, a) && t.calls[a.c].user == user && t.calls[a.c].exercise == e)
    case Edit(d) => Lost(s, turns[..|turns| - 1], user, e)
                    && (e in Replaced(t.db, d.slug) ==> Waits(t, Replaced(t.db, d.slug)))
  }

  lemma {:induction false} EditKeepsTally(s: System, d: LessonDoc, user: UserId, e: Id, lost: bool)
    requires Inv(s, []) && SettledDoc(d) && Tally(s, user, e, lost) && !Waits(s, Replaced(s.db, d.slug))
    ensures Tally(Take(s, Edit(d)), user, e, lost && e !in Replaced(s.db, d.slug))
  {
    hide DbOk, CallsOk, SettledDoc, IngestDoc, Replaced, VerdictsOf, PassesOf, Row, RowOf;
    DbOwnsSubmissions(s.db);
    PairAfterIngest(s.db, d, user, e);
  }

  lemma {:induction false} PlayKeepsTally(db: Database, turns: seq<Turn>, user: UserId, e: Id)
    requires Unused(db) && AllSettled(turns)
    ensures Tally(Play(Start(db), turns), user, e, Lost(Start(db), turns, user, e))
  {
    hide Unused, Inv, Step, SettledDoc, IngestDoc, Replaced, Tally, StaleCommit, Waits;
    if turns == [] {
      UnusedTally(db, user, e);
    } else {
      var init, turn := turns[..|turns| - 1], turns[|turns| - 1];
      var s := Play(Start(db), init);
      PlayKeepsInv(db, init);
      PlayKeepsTally(db, init, user, e);
      match turn
      case Act(a) => StepKeepsTally(s, a, [], user, e, Lost(Start(db), init, user, e));
      case Edit(d) =>
        assert turn in turns;
        if !Waits(s, Replaced(s.db, d.slug)) { EditKeepsTally(s, d, user, e, Lost(Start(db), init, user, e)); }
    }
  }

  lemma {:induction false} UnusedTally(db: Database, user: UserId, e: Id)
    requires Unused(db)
    ensures Tally(Start(db), user, e, false)
  {}

  /** Over every interleaving of requests and ingests, in every state: all keys and references are good and nothing
      committed is PENDING; a pair has a row iff it has a verdict, solved iff one passed, with a last submission among
      them; and attempts is their number iff no update of the row was lost since its exercise was last replaced. */
  lemma {:induction false} EditedRunsAreSound(db: Database, turns: seq<Turn>, user: UserId, e: Id)
    requires Unused(db) && AllSettled(turns)
    ensures var now := Play(Start(db), turns).db;
            && Valid(now) && NoPending(now) && OwnLastSubmission(now) && PairOk(now, user, e)
            && (Row(now.progress, user, e).Some? ==>
                  (Row(now.progress, user, e).value.attempts == |VerdictsOf(now, user, e)|
                   <==> !Lost(Start(db), turns, user, e)))
  {
    hide Unused, Play, Lost, CallsOk, Valid, OwnLastSubmission, VerdictsOf, PassesOf, RowOf;
    PlayKeepsInv(db, turns);
    PlayKeepsTally(db, turns, user, e);
    DbOwnsSubmissions(Play(Start(db), turns).db);
  }

  // ---- what survives of sequential unlock ---------------------------------------------------------------------

  // Published lessons of the start that were never re-ingested: an ingest gives a lesson a new key.
  function Untouched(start: Database, now: Database): set<Id> {
    set l | l in Published(start) && l in now.lessons
  }

  // Every untouched lesson of a lower position is fully solved.
  ghost predicate Vouched(db: Database, user: UserId, e: Id, kept: set<Id>) {
    e in db.exercises && db.exercises[e].parent in Published(db) ==>
      forall m | m in kept && Position(db, m) < Position(db, db.exercises[e].parent) :: FullySolved(db, user, m)
  }

  ghost predicate SameLessons(start: Database, now: Database) {
    && start.nextId <= now.nextId
    && forall l | l in start.lessons && l in now.lessons :: now.lessons[l] == start.lessons[l]
  }

  ghost predicate Chained(s: System, start: Database) {
    && SameLessons(start, s.db)
    && (forall u, e | e in SolvedSet(s.db, u) :: Vouched(s.db, u, e, Untouched(start, s.db)))
    && (forall c | c in s.calls && (s.calls[c].pc.Admitted? || InFlight(s.calls[c].pc)) ::
          && s.calls[c].exercise < s.db.nextId
          && Vouched(s.db, s.calls[c].user, s.calls[c].exercise, Untouched(start, s.db)))
  }

  // With distinct positions, whatever the gate lets through has every untouched lower lesson behind it.
  lemma {:induction false} GateVouches(db: Database, start: Database, user: UserId, order: seq<Id>, e: Id)
    requires Valid(db) && Lists(db, order) && DistinctPositions(db) && e in db.exercises
    requires !Locked(db, user, order, db.exercises[e].parent) && SameLessons(start, db)
    requires forall x | x in SolvedSet(db, user) :: Vouched(db, user, x, Untouched(start, db))
    ensures Vouched(db, user, e, Untouched(start, db))
  {
    hide Locked, ContentTables, UserTables, FullySolved, Lists;
    var lesson, kept := db.exercises[e].parent, Untouched(start, db);
    if lesson in Published(db) {
      LockMeaning(db, user, order) by { hide *; UniqueOf(db); }
      ListedPositions(db, order);
      var i := ListedAt(db, order, lesson);
      forall m | m in kept && Position(db, m) < Position(db, lesson) ensures FullySolved(db, user, m) {
        JustBefore(db, order, i, m);
        if order[i - 1] != m {
          StrictlyBetween(db, m, order[i - 1]);
          SolvedVouches(db, user, order[i - 1], kept, m);
        }
      }
    }
  }

  lemma {:induction false} UniqueOf(db: Database)
    requires Valid(db)
    ensures UniqueProgress(db)
  {}

  lemma {:induction false} StrictlyBetween(db: Database, m: Id, y: Id)
    requires DistinctPositions(db) && m in Published(db) && y in Published(db) && m != y
    requires Position(db, m) <= Position(db, y)
    ensures Position(db, m) < Position(db, y)
  {}

  // A fully solved lesson has a solved exercise, and that one vouches.
  lemma {:induction false} SolvedVouches(db: Database, user: UserId, y: Id, kept: set<Id>, m: Id)
    requires FullySolved(db, user, y) && y in Published(db) && m in kept && Position(db, m) < Position(db, y)
    requires forall x | x in SolvedSet(db, user) :: Vouched(db, user, x, kept)
    ensures FullySolved(db, user, m)
  {
    var x :| x in ExercisesOf(db, y);
    assert x in SolvedSet(db, user);
    assert Vouched(db, user, x, kept);
  }

  lemma {:induction false} VouchedLater(a: Database, b: Database, user: UserId, e: Id, kept: set<Id>)
    requires Vouched(a, user, e, kept) && Later(a, b)
    ensures Vouched(b, user, e, kept)
  {
    UnlockOnlyGrows(a, b, user, []);
    assert Published(a) == Published(b);
    assert forall l :: Position(a, l) == Position(b, l);
  }

  lemma {:induction false} ActKeepsChained(s: System, a: Action, start: Database)
    requires Inv(s, []) && Chained(s, start) && DistinctPositions(s.db)
    ensures Chained(Step(s, a), start)
  {
    hide DbOk, CallsOk, SolvedSet, Vouched, Step, DistinctPositions;
    var t, kept := Step(s, a), Untouched(start, s.db);
    StepKeepsCurriculum(s, a);
    StepIsLater(s, a, []);
    NextIdGrows(s, a);
    assert Untouched(start, t.db) == kept;
    forall u, e | e in SolvedSet(t.db, u) ensures Vouched(t.db, u, e, kept) {
      NewlySolved(s, a, u, e);
      VouchedLater(s.db, t.db, u, e, kept);
    }
    forall c | c in t.calls && (t.calls[c].pc.Admitted? || InFlight(t.calls[c].pc))
      ensures t.calls[c].exercise < t.db.nextId && Vouched(t.db, t.calls[c].user, t.calls[c].exercise, kept)
    {
      var user, e := t.calls[c].user, t.calls[c].exercise;
      CallGoesOn(s, a, c);
      if s.calls[c].pc.Arrived? {
        ValidOfInv(s);
        GateVouches(s.db, start, user, a.order, e);
        ExercisesBelow(s.db, e);
      }
      VouchedLater(s.db, t.db, user, e, kept);
    }
  }

  lemma {:induction false} ValidOfInv(s: System)
    requires Inv(s, [])
    ensures Valid(s.db)
  {}

  lemma {:induction false} ExercisesBelow(db: Database, e: Id)
    requires Valid(db) && e in db.exercises
    ensures e < db.nextId
  {}

  lemma {:induction false} NextIdGrows(s: System, a: Action)
    ensures s.db.nextId <= Step(s, a).db.nextId
  {
    hide Lists, Locked, RowOf, RowLocked, StatusFromResult, WriteBack;
  }

  // An admitted request was admitted before, or has just passed the gate.
  lemma {:induction false} CallGoesOn(s: System, a: Action, c: Id)
    requires c in Step(s, a).calls && (Step(s, a).calls[c].pc.Admitted? || InFlight(Step(s, a).calls[c].pc))
    ensures var call := Step(s, a).calls[c];
            && c in s.calls && s.calls[c].user == call.user && s.calls[c].exercise == call.exercise
            && (s.calls[c].pc.Admitted? || InFlight(s.calls[c].pc)
                || (s.calls[c].pc.Arrived? && a.ReadGate? && Lists(s.db, a.order) && call.exercise in s.db.exercises
                    && !Locked(s.db, call.user, a.order, s.db.exercises[call.exercise].parent)))
  {
    hide Lists, Locked, RowOf, RowLocked, MayCommit, CommitDb;
  }

  // Whoever gains a solved exercise gains that of a request in flight.
  lemma {:induction false} NewlySolved(s: System, a: Action, user: UserId, e: Id)
    requires Inv(s, []) && e in SolvedSet(Step(s, a).db, user)
    ensures e in SolvedSet(s.db, user)
            || (a.Commit? && a.c in s.calls && InFlight(s.calls[a.c].pc)
                && s.calls[a.c].user == user && s.calls[a.c].exercise == e)
  {
    hide DbOk, SolvedSet, CommitDb, FreshKeys, Admissible, SeenStillHolds, Lists, Locked, RowLocked, RowOf;
    if a.Commit? && a.c in s.calls && MayCommit(s.db, s.calls[a.c]) {
      assert CallOk(s.db, [], s.calls[a.c]);
      CommitSolves(s.db, [], s.calls[a.c]);
    } else {
      QuietStep(s, a);
      SameRowsSameFacts(s.db, Step(s, a).db);
    }
  }

  // An ingest carries a voucher over, unless the exercise goes.
  lemma {:induction false} VouchedAfterIngest(db: Database, d: LessonDoc, start: Database, user: UserId, e: Id)
    requires Valid(db) && SettledDoc(d) && e < db.nextId && SameLessons(start, db) && ContentTables(start)
    requires Vouched(db, user, e, Untouched(start, db))
    ensures Vouched(IngestDoc(db, d), user, e, Untouched(start, IngestDoc(db, d)))
  {
    hide ContentTables, UserTables, SettledDoc, IngestDoc, Replaced, FullySolved, LessonBySlug;
    var after := IngestDoc(db, d);
    KeptExercises(db, d);
    if e in after.exercises && after.exercises[e].parent in Published(after) {
      var lesson := after.exercises[e].parent;
      assert e in ExercisesOf(after, lesson) && e in db.exercises && after.exercises[e] == db.exercises[e];
      ParentBelow(db, e);
      OtherLessonKept(db, d, user, lesson);
      forall m | m in Untouched(start, after) && Position(after, m) < Position(after, lesson)
        ensures FullySolved(after, user, m)
      {
        LessonsBelowStart(start, db, m);
        OtherLessonKept(db, d, user, m);
        assert m in Untouched(start, db);
      }
    }
  }

  lemma {:induction false} ParentBelow(db: Database, e: Id)
    requires ContentTables(db) && e in db.exercises
    ensures db.exercises[e].parent != db.nextId
  {}

  lemma {:induction false} LessonsBelowStart(start: Database, now: Database, l: Id)
    requires ContentTables(start) && SameLessons(start, now) && l in start.lessons
    ensures l != now.nextId
  {}

  lemma {:induction false} EditKeepsChained(s: System, d: LessonDoc, start: Database)
    requires Inv(s, []) && Chained(s, start) && ContentTables(start) && SettledDoc(d)
    ensures Chained(Take(s, Edit(d)), start)
  {
    hide DbOk, CallsOk, SettledDoc, IngestDoc, Replaced, SolvedSet, Vouched, ContentTables, Waits, Untouched;
    if !Waits(s, Replaced(s.db, d.slug)) {
      var after := IngestDoc(s.db, d);
      ValidOfInv(s);
      IngestKeepsLessons(s.db, d, start);
      IngestUserState(s.db, d);
      forall u, e | e in SolvedSet(after, u) ensures Vouched(after, u, e, Untouched(start, after)) {
        SolvedExists(s.db, u, e);
        ExercisesBelow(s.db, e);
        VouchedAfterIngest(s.db, d, start, u, e);
      }
      forall c | c in s.calls && (s.calls[c].pc.Admitted? || InFlight(s.calls[c].pc))
        ensures s.calls[c].exercise < after.nextId
                && Vouched(after, s.calls[c].user, s.calls[c].exercise, Untouched(start, after))
      {
        VouchedAfterIngest(s.db, d, start, s.calls[c].user, s.calls[c].exercise);
      }
    }
  }

  lemma {:induction false} IngestKeepsLessons(db: Database, d: LessonDoc, start: Database)
    requires Valid(db) && SettledDoc(d) && SameLessons(start, db) && ContentTables(start)
    ensures SameLessons(start, IngestDoc(db, d)) && db.nextId <= IngestDoc(db, d).nextId
  {
    hide ContentTables, UserTables, SettledDoc, IngestDoc, Replaced, FullySolved, LessonBySlug;
    KeptExercises(db, d);
    forall l | l in start.lessons && l in IngestDoc(db, d).lessons
      ensures IngestDoc(db, d).lessons[l] == start.lessons[l]
    {
      LessonsBelowStart(start, db, l);
      OtherLessonKept(db, d, 0, l);
    }
  }

  // No ingest of the history leaves two published lessons at one position.
  ghost predicate AlwaysDistinct(s: System, turns: seq<Turn>)
    requires AllSettled(turns)
  {
    DistinctPositions(Play(s, turns).db) && (turns == [] || AlwaysDistinct(s, turns[..|turns| - 1]))
  }

  lemma {:induction false} PlayKeepsChained(db: Database, turns: seq<Turn>)
    requires Unused(db) && AllSettled(turns) && AlwaysDistinct(Start(db), turns)
    ensures Chained(Play(Start(db), turns), db)
  {
    hide Unused, Inv, Step, SettledDoc, Take, Chained, DistinctPositions;
    ContentOfValid(db) by { UnusedIsValid(db); }
    if turns == [] {
      UnusedIsVouched(db);
    } else {
      var init, turn := turns[..|turns| - 1], turns[|turns| - 1];
      var s := Play(Start(db), init);
      PlayKeepsInv(db, init);
      PlayKeepsChained(db, init);
      match turn
      case Act(a) =>
        ActIsStep(s, a);
        NowDistinct(Start(db), init);
        ActKeepsChained(s, a, db);
      case Edit(d) =>
        assert turn in turns;
        EditKeepsChained(s, d, db);
    }
  }

  lemma {:induction false} NowDistinct(s: System, turns: seq<Turn>)
    requires AllSettled(turns) && AlwaysDistinct(s, turns)
    ensures DistinctPositions(Play(s, turns).db)
  {}

  lemma {:induction false} ActIsStep(s: System, a: Action)
    ensures Take(s, Act(a)) == Step(s, a)
  {}

  lemma {:induction false} UnusedIsValid(db: Database)
    requires Unused(db)
    ensures Valid(db)
  {}

  lemma {:induction false} UnusedIsVouched(db: Database)
    requires Unused(db)
    ensures Chained(Start(db), db)
  {
    assert forall u :: SolvedSet(db, u) == {};
  }

  /** What survives of sequential unlock when lessons are re-ingested under users at work: as long as no ingest leaves a
      tie, a solved exercise of a published lesson still means that every published lesson of a lower position that was
      not itself re-ingested is completed - even for requests admitted before an ingest and committed after it. */
  lemma {:induction false} ChainSurvivesForUntouched(db: Database, turns: seq<Turn>, user: UserId, e: Id, m: Id)
    requires Unused(db) && AllSettled(turns) && AlwaysDistinct(Start(db), turns)
    requires var now := Play(Start(db), turns).db;
             && e in SolvedSet(now, user) && e in now.exercises && now.exercises[e].parent in Published(now)
             && m in Published(db) && m in now.lessons && Position(now, m) < Position(now, now.exercises[e].parent)
    ensures Completed(Play(Start(db), turns).db, user, m)
  {
    hide Unused, Play, AlwaysDistinct, CallsOk, PairOk, SolvedSet, Completed, FullySolved;
    var now := Play(Start(db), turns).db;
    PlayKeepsInv(db, turns);
    PlayKeepsChained(db, turns);
    assert Vouched(now, user, e, Untouched(db, now));
    assert m in Untouched(db, now);
    CountingMeansSolvingAll(now, user, m);
  }
}
