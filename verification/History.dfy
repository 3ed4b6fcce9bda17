/** Serial histories that mix submissions and ingests: the account of progress survives the replacement
    of lessons. */
module History {
  import opened Schema
  import opened Curriculum
  import opened Progression
  import opened Grading
  import opened Content
  import opened Ingest
  import opened Interleaving
  import opened Reachable

  datatype Event = Submitted(order: seq<Id>, request: Request) | Ingested(doc: LessonDoc)

  // What ingest writes is normalised first (Ingest.NormalisedIsSettled).
  ghost predicate Normalised(events: seq<Event>) {
    forall x | x in events && x.Ingested? :: SettledDoc(x.doc)
  }

  ghost function Happen(db: Database, event: Event): Database
    requires event.Ingested? ==> FilledDoc(event.doc)
  {
    match event
    case Submitted(order, r) => Submit(db, order, r).0
    case Ingested(doc) => IngestDoc(db, doc)
  }

  ghost function Replay(db: Database, events: seq<Event>): Database
    requires Normalised(events)
  {
    if events == [] then db else Happen(Replay(db, events[..|events| - 1]), events[|events| - 1])
  }

  // The counted attempts of a pair since its exercise was last replaced.
  ghost function Surviving(db: Database, events: seq<Event>, user: UserId, e: Id): seq<Attempt>
    requires Normalised(events)
  {
    if events == [] then [] else
    var before, mine := Replay(db, events[..|events| - 1]), Surviving(db, events[..|events| - 1], user, e);
    match events[|events| - 1]
    case Submitted(order, r) => mine + Counted(before, order, r, user, e)
    case Ingested(doc) => if e in Replaced(before, doc.slug) then [] else mine
  }

  ghost function Counted(db: Database, order: seq<Id>, r: Request, user: UserId, e: Id): seq<Attempt> {
    var answer := Submit(db, order, r).1;
    if user == r.user && e == r.exercise && answer.Graded? && IsVerdict(answer.status)
    then [Attempt(user, e, answer.submission, answer.status == Passed, r.at)] else []
  }

  // ---- every row's last submission is one of its own exercise ------------------------------------

  lemma {:induction false} PairsOwnSubmissions(db: Database)
    requires UniqueProgress(db)
    requires forall u, e :: Row(db.progress, u, e).Some? ==>
               var p := Row(db.progress, u, e).value;
               p.lastSubmissionId.Some? && p.lastSubmissionId.value in VerdictsOf(db, u, e)
    ensures OwnLastSubmission(db)
  {
    forall p | p in db.progress && db.progress[p].lastSubmissionId.Some?
      ensures db.progress[p].lastSubmissionId.value in db.submissions
              && db.submissions[db.progress[p].lastSubmissionId.value].exerciseId == db.progress[p].exerciseId
    {
      var row := db.progress[p];
      assert RowOf(db.progress, row.userId, row.exerciseId) == Some(p);
      assert Row(db.progress, row.userId, row.exerciseId) == Some(row);
    }
  }

  lemma {:induction false} StoreKeepsOwn(db: Database, r: Request)
    requires UserTables(db) && OwnLastSubmission(db)
    ensures OwnLastSubmission(StoreSubmission(db, r))
  {
    hide StatusFromResult, UserTables;
    assert db.nextId !in db.submissions by { SubmissionsBelow(db); }
  }

  lemma {:induction false} SubmissionsBelow(db: Database)
    requires UserTables(db)
    ensures db.nextId !in db.submissions
  {}

  lemma {:induction false} RecordKeepsOwn(db: Database, user: UserId, e: Id, sub: Id, solved: bool, now: Time)
    requires OwnLastSubmission(db) && sub in db.submissions && db.submissions[sub].exerciseId == e
    ensures OwnLastSubmission(RecordAttempt(db, user, e, sub, solved, now))
  {}

  lemma {:induction false} SubmitKeepsOwnSubmissions(db: Database, ls: seq<Id>, r: Request)
    requires Valid(db) && OwnLastSubmission(db)
    ensures OwnLastSubmission(Submit(db, ls, r).0)
  {
    hide ContentTables, UserTables, Submit, OwnLastSubmission, Record;
    SubmitAnswer(db, ls, r);
    StoreKeepsOwn(db, r);
    RecordKeepsOwn(StoreSubmission(db, r), r.user, r.exercise, db.nextId, StatusFromResult(r.result) == Passed, r.at);
  }

  lemma {:induction false} RunsKeepOwnSubmissions(db: Database, acts: seq<Action>)
    requires Unused(db)
    ensures Valid(Exec(Start(db), acts).db) && OwnLastSubmission(Exec(Start(db), acts).db)
  {
    ReachableInv(db, acts);
    var now := Exec(Start(db), acts).db;
    hide Exec, VerdictsOf, PassesOf, Chain, CallsOk, ContentTables, RowOf, OwnLastSubmission;
    forall u, e | Row(now.progress, u, e).Some?
      ensures var p := Row(now.progress, u, e).value;
              p.lastSubmissionId.Some? && p.lastSubmissionId.value in VerdictsOf(now, u, e) {
      assert PairOk(now, u, e);
    }
    PairsOwnSubmissions(now);
  }

  // An ingest that nulls no reference and touches no row but the replaced exercises'.
  ghost predicate RemovesOnly(db: Database, after: Database, gone: set<Id>) {
    && Valid(after)
    && after.submissions == (map s | s in db.submissions && db.submissions[s].exerciseId !in gone :: db.submissions[s])
    && after.progress == (map p | p in db.progress && db.progress[p].exerciseId !in gone :: db.progress[p])
    && (forall u :: SolvedSet(after, u) == SolvedSet(db, u) - gone)
  }

  /** In every state that interleaved submissions reach, an ingest removes exactly the rows of the replaced
      exercises: ON DELETE SET NULL never fires. */
  lemma {:induction false} IngestAfterAnyRun(db: Database, acts: seq<Action>, d: LessonDoc)
    requires Unused(db) && SettledDoc(d)
    ensures var now := Exec(Start(db), acts).db;
            RemovesOnly(now, IngestDoc(now, d), Replaced(now, d.slug)) && OwnLastSubmission(IngestDoc(now, d))
  {
    hide Unused, Exec, SettledDoc, FilledDoc, IngestDoc, Valid, OwnLastSubmission, SolvedSet;
    RunsKeepOwnSubmissions(db, acts);
    IngestUserState(Exec(Start(db), acts).db, d);
  }

  // ---- the account over mixed histories -------------------------------------------------------------

  lemma {:induction false} RestrictedRows(before: map<Id, Progress>, after: map<Id, Progress>, gone: set<Id>,
                                         user: UserId, e: Id)
    requires UniqueRows(before)
    requires after == map p | p in before && before[p].exerciseId !in gone :: before[p]
    ensures Row(after, user, e) == if e in gone then None else Row(before, user, e)
  {
    var p := RowOf(before, user, e);
    if p.Some? && e !in gone { assert p.value in after; }
  }

  lemma {:induction false} RestrictedVerdicts(db: Database, after: Database, gone: set<Id>, user: UserId, e: Id)
    requires after.submissions
             == map s | s in db.submissions && db.submissions[s].exerciseId !in gone :: db.submissions[s]
    ensures VerdictsOf(after, user, e) == if e in gone then {} else VerdictsOf(db, user, e)
    ensures PassesOf(after, user, e) == if e in gone then {} else PassesOf(db, user, e)
  {
    hide StatusFromResult;
    assert e !in gone ==> forall s :: s in VerdictsOf(after, user, e) <==> s in VerdictsOf(db, user, e);
  }

  lemma {:induction false} IngestKeepsAccount(db: Database, d: LessonDoc, user: UserId, e: Id, mine: seq<Attempt>)
    requires Valid(db) && OwnLastSubmission(db) && SettledDoc(d) && Accounted(db, user, e, mine)
    ensures Accounted(IngestDoc(db, d), user, e, if e in Replaced(db, d.slug) then [] else mine)
  {
    hide ContentTables, SettledDoc, FilledDoc, IngestDoc, OwnLastSubmission, Row, VerdictsOf, PassesOf, Replaced,
         KeptSubmissions, SolvedSet;
    var after, gone := IngestDoc(db, d), Replaced(db, d.slug);
    IngestUserState(db, d);
    RestrictedRows(db.progress, after.progress, gone, user, e);
    KeptIsRestricted(db, gone);
    RestrictedVerdicts(db, after, gone, user, e);
  }

  lemma {:induction false} KeptIsRestricted(db: Database, gone: set<Id>)
    ensures KeptSubmissions(db, gone)
            == map s | s in db.submissions && db.submissions[s].exerciseId !in gone :: db.submissions[s]
  {}

  lemma {:induction false} SubmitKeepsAccount(db: Database, order: seq<Id>, r: Request, user: UserId, e: Id,
                                             mine: seq<Attempt>)
    requires Valid(db) && Accounted(db, user, e, mine)
    ensures Accounted(Submit(db, order, r).0, user, e, mine + Counted(db, order, r, user, e))
  {
    hide Valid, Submit, Accounted, StatusFromResult;
    SubmitAnswer(db, order, r);
    assert mine + [] == mine;
    var answer := Submit(db, order, r).1;
    if answer.Graded? {
      if user == r.user && e == r.exercise && IsVerdict(answer.status) {
        AttemptKeepsAccount(db, r, mine);
      } else {
        OthersKeepAccount(db, r, user, e, mine);
      }
    }
  }

  lemma {:induction false} IngestLeavesNonePending(db: Database, d: LessonDoc)
    requires Valid(db) && NoPending(db) && SettledDoc(d)
    ensures Valid(IngestDoc(db, d)) && NoPending(IngestDoc(db, d))
  {
    hide Valid, SettledDoc, FilledDoc, IngestDoc;
    IngestUserState(db, d);
  }

  /** Conservation over every serial history of submissions and ingests: a pair's row is the roll-up of the
      attempts counted since its exercise was last replaced - attempts, newest submission, first pass - and is gone
      with the exercise; nothing is left PENDING and no reference dangles. */
  lemma {:induction false} HistoriesAreAccounted(db: Database, events: seq<Event>, user: UserId, e: Id)
    requires Unused(db) && Normalised(events)
    ensures var now := Replay(db, events);
            && Valid(now) && NoPending(now) && OwnLastSubmission(now)
            && Accounted(now, user, e, Surviving(db, events, user, e)) && CountsVerdicts(now, user, e)
  {
    hide Valid, Submit, IngestDoc, Accounted, CountsVerdicts, NoPending, OwnLastSubmission, SettledDoc, FilledDoc,
         Replaced, Counted;
    if events == [] {
      UnusedIsAccounted(db, user, e);
      UnusedOwnsSubmissions(db);
    } else {
      var init := events[..|events| - 1];
      var before, mine := Replay(db, init), Surviving(db, init, user, e);
      HistoriesAreAccounted(db, init, user, e);
      match events[|events| - 1]
      case Submitted(order, r) =>
        SubmitKeepsConstraints(before, order, r);
        SubmitKeepsOwnSubmissions(before, order, r);
        SubmitKeepsAccount(before, order, r, user, e, mine);
      case Ingested(doc) =>
        assert events[|events| - 1] in events;
        IngestUserState(before, doc);
        IngestLeavesNonePending(before, doc);
        IngestKeepsAccount(before, doc, user, e, mine);
    }
    AccountedCounts(Replay(db, events), user, e, Surviving(db, events, user, e));
  }

  lemma {:induction false} UnusedOwnsSubmissions(db: Database)
    requires Unused(db)
    ensures OwnLastSubmission(db)
  {}

  /** Hence an ingest anywhere in such a history removes exactly the rows of the replaced exercises. */
  lemma {:induction false} IngestInAnyHistory(db: Database, events: seq<Event>, d: LessonDoc)
    requires Unused(db) && Normalised(events) && SettledDoc(d)
    ensures var now := Replay(db, events);
            RemovesOnly(now, IngestDoc(now, d), Replaced(now, d.slug))
  {
    hide Unused, Replay, SettledDoc, FilledDoc, IngestDoc, Valid, OwnLastSubmission, SolvedSet, Accounted;
    HistoriesAreAccounted(db, events, 0, 0);
    IngestUserState(Replay(db, events), d);
  }
}
