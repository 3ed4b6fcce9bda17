/** From pytest reports to a stored status: the collector and payload of the in-container runner
    (run_tests.py), the client's parser (sandbox.py, _parse) and the status mapping. */
module Verdict {
  import opened Schema
  import opened SandboxResult
  import opened Text
  import opened Channel
  import opened Curriculum
  import opened Grading

  datatype Phase = Setup | Call | Teardown
  datatype Reported = DidPass | DidFail | DidSkip

  // What pytest reports, in order. An xfail is reported as a skip, an unexpected strict pass as a failure; a module
  // that skips itself is a skipped collection, and its tests are never reported.
  datatype Event =
    | TestReport(nodeid: string, phase: Phase, reported: Reported, longrepr: string)
    | CollectReport(reported: Reported, longrepr: string)

  function Shorten(text: string): string {
    if |text| <= 4000 then text else text[..4000] + "\n... [truncated]"
  }

  // ---- the runner's side ------------------------------------------------------------------------

  // The entry a report adds, if it adds one.
  function EntryOf(e: Event): seq<TestResult> {
    if e.TestReport? && (e.phase == Call || e.reported == DidFail) then
      [TestResult(e.nodeid,
                  if e.reported == DidPass then PassedTest else if e.phase != Call then ErrorTest else FailedTest,
                  if e.reported == DidPass then "" else Shorten(e.longrepr))]
    else []
  }

  function LoadErrorOf(e: Event): seq<string> {
    if e.CollectReport? && e.reported == DidFail then [Shorten(e.longrepr)] else []
  }

  function Entries(session: seq<Event>): seq<TestResult> {
    if session == [] then [] else Entries(session[..|session| - 1]) + EntryOf(session[|session| - 1])
  }

  function LoadErrors(session: seq<Event>): seq<string> {
    if session == [] then [] else LoadErrors(session[..|session| - 1]) + LoadErrorOf(session[|session| - 1])
  }

  class Collector {
    var tests: seq<TestResult>
    var collectionErrors: seq<string>

    constructor ()
      ensures tests == [] && collectionErrors == []
    {
      tests, collectionErrors := [], [];
    }

    method LogReport(report: Event)
      requires report.TestReport?
      modifies this`tests
      ensures tests == old(tests) + EntryOf(report)
    {
      if report.phase == Call || report.reported == DidFail {
        var outcome;
        if report.reported == DidPass { outcome := PassedTest; }
        else if report.phase != Call { outcome := ErrorTest; }
        else { outcome := FailedTest; }
        var message := if report.reported == DidPass then "" else Shorten(report.longrepr);
        tests := tests + [TestResult(report.nodeid, outcome, message)];
      }
    }

    method CollectReport(report: Event)
      requires report.CollectReport?
      modifies this`collectionErrors
      ensures collectionErrors == old(collectionErrors) + LoadErrorOf(report)
    {
      if report.reported == DidFail {
        collectionErrors := collectionErrors + [Shorten(report.longrepr)];
      }
    }

    // pytest calling the plugin for each report of a session.
    method Observe(session: seq<Event>)
      requires tests == [] && collectionErrors == []
      modifies this
      ensures tests == Entries(session) && collectionErrors == LoadErrors(session)
    {
      for i := 0 to |session|
        invariant tests == Entries(session[..i]) && collectionErrors == LoadErrors(session[..i])
      {
        assert session[..i + 1][..i] == session[..i];
        if session[i].TestReport? { LogReport(session[i]); } else { CollectReport(session[i]); }
      }
      assert session[..|session|] == session;
    }
  }

  datatype Payload = Payload(passed: bool, exitCode: int, tests: seq<TestResult>, stdout: string, runnerError: string)

  const LOAD_PREFIX := "Your code could not be loaded:\n"
  const NO_TESTS := "no tests collected (check the test filename)"

  function PayloadOf(session: seq<Event>, exitCode: int): Payload {
    var tests, errors := Entries(session), LoadErrors(session);
    Payload(exitCode == 0 && tests != [] && errors == [], exitCode, tests, "",
            if errors != [] then LOAD_PREFIX + errors[0] else if tests == [] then NO_TESTS else "")
  }

  // The body of main after pytest has returned.
  method BuildPayload(session: seq<Event>, exitCode: int) returns (payload: Payload)
    ensures payload == PayloadOf(session, exitCode)
  {
    var collector := new Collector();
    collector.Observe(session);
    var passed := exitCode == 0 && |collector.tests| > 0;
    var runnerError;
    if collector.collectionErrors != [] {
      passed := false;
      runnerError := LOAD_PREFIX + collector.collectionErrors[0];
    } else if collector.tests == [] {
      runnerError := NO_TESTS;
    } else {
      runnerError := "";
    }
    return Payload(passed, exitCode, collector.tests, "", runnerError);
  }

  // ---- the client's side ---------------------------------------------------------------------------

  function Capture(s: string): string {
    if |s| <= 20000 then s else s[..20000]
  }

  function RunnerError(message: string, stdout: string, stderr: string): TestRunResult {
    TestRunResult(false, 0, 0, 0, [], Capture(stdout), Capture(stderr), message)
  }

  function CountPassed(tests: seq<TestResult>): (n: nat)
    ensures n <= |tests|
    ensures n == |tests| <==> forall t | t in tests :: t.outcome == PassedTest
  {
    if tests == [] then 0
    else
      assert tests == [tests[0]] + tests[1..];
      CountPassed(tests[1..]) + if tests[0].outcome == PassedTest then 1 else 0
  }

  // The entries that passed.
  function PassedAt(tests: seq<TestResult>): set<nat> {
    set i: nat | i < |tests| && tests[i].outcome == PassedTest
  }

  lemma {:induction false} CountPassedAppend(tests: seq<TestResult>, t: TestResult)
    ensures CountPassed(tests + [t]) == CountPassed(tests) + if t.outcome == PassedTest then 1 else 0
  {
    if tests == [] {
      assert [] + [t] == [t];
      assert CountPassed([t][1..]) == 0;
    } else {
      assert (tests + [t])[1..] == tests[1..] + [t];
      CountPassedAppend(tests[1..], t);
    }
  }

  lemma {:induction false} PassedAtAppend(tests: seq<TestResult>, t: TestResult)
    ensures |PassedAt(tests + [t])| == |PassedAt(tests)| + if t.outcome == PassedTest then 1 else 0
  {
    assert PassedAt(tests + [t]) == PassedAt(tests) + if t.outcome == PassedTest then {|tests|} else {};
    assert |tests| !in PassedAt(tests);
  }

  /** The count is the number of entries that passed, for sessions passed in part, too. */
  lemma {:induction false} CountPassedMeaning(tests: seq<TestResult>)
    ensures CountPassed(tests) == |PassedAt(tests)|
  {
    if tests != [] {
      var init, last := tests[..|tests| - 1], tests[|tests| - 1];
      hide CountPassed, PassedAt;
      CountPassedMeaning(init);
      CountPassedAppend(init, last);
      PassedAtAppend(init, last);
      assert tests == init + [last];
    }
  }

  const CRASH_HINT := " (likely crashed or was killed)"
  const NO_PAYLOAD := "runner produced no result payload" + CRASH_HINT
  const BAD_JSON := "runner emitted invalid JSON"

  function ResultOf(p: Payload, stderr: string): TestRunResult {
    if p.runnerError != "" then RunnerError(p.runnerError, p.stdout, stderr)
    else TestRunResult(p.passed, |p.tests|, CountPassed(p.tests), |p.tests| - CountPassed(p.tests), p.tests,
                       Capture(p.stdout), Capture(stderr), "")
  }

  // decode is json.loads with the fields read out of the object; None is a JSONDecodeError.
  function Parse(stdout: string, stderr: string, decode: string -> Option<Payload>): TestRunResult {
    var raw := Extract(stdout);
    if raw.None? then RunnerError(NO_PAYLOAD, stdout, stderr)
    else
      var payload := decode(raw.value);
      if payload.None? then RunnerError(BAD_JSON, stdout, stderr)
      else ResultOf(payload.value, stderr)
  }

  // The status stored for a session whose output reached the client.
  function SessionStatus(session: seq<Event>, exitCode: int): Status {
    StatusFromResult(ResultOf(PayloadOf(session, exitCode), ""))
  }

  // ---- what the stored status means -------------------------------------------------------------------

  predicate Failing(e: Event) {
    e.reported == DidFail
  }

  // pytest exits with 0 iff it ran something and nothing failed; skips do not fail.
  predicate PytestExit(session: seq<Event>, exitCode: int) {
    exitCode == 0 <==> (exists e | e in session :: e.TestReport?) && (forall e | e in session :: !Failing(e))
  }

  // What PASSED is meant to say: some test body ran, and nothing that was collected or run did other than pass.
  predicate EveryTestPassed(session: seq<Event>) {
    (exists e | e in session :: e.TestReport? && e.phase == Call) && forall e | e in session :: e.reported == DidPass
  }

  // Something was skipped - at collection, in a fixture, by a marker or in a test body - beside a test body that ran.
  predicate SkipBesideATest(session: seq<Event>) {
    && (forall e | e in session :: !Failing(e))
    && (exists e | e in session :: e.TestReport? && e.phase == Call)
    && (exists e | e in session :: e.reported == DidSkip)
  }

  // What the stored entries say.
  predicate AllGreen(session: seq<Event>) {
    LoadErrors(session) == [] && Entries(session) != [] && forall t | t in Entries(session) :: t.outcome == PassedTest
  }

  // A test body that skipped or xfailed in a session without failures.
  predicate MaskedSkip(session: seq<Event>) {
    (forall e | e in session :: !Failing(e))
    && exists e | e in session :: e.TestReport? && e.phase == Call && e.reported == DidSkip
  }

  lemma {:induction false} EntriesMeaning(session: seq<Event>)
    ensures forall e, t | e in session && t in EntryOf(e) :: t in Entries(session)
    ensures forall t | t in Entries(session) :: exists e :: e in session && t in EntryOf(e)
    ensures LoadErrors(session) == [] <==> forall e | e in session :: LoadErrorOf(e) == []
  {
    if session != [] {
      var init, last := session[..|session| - 1], session[|session| - 1];
      EntriesMeaning(init);
      assert session == init + [last];
      forall t | t in Entries(session) ensures exists e :: e in session && t in EntryOf(e) {
        if t in Entries(init) {
          var e :| e in init && t in EntryOf(e);
          assert e in session;
        } else {
          assert last in session && t in EntryOf(last);
        }
      }
    }
  }

  lemma {:induction false} EntryMeaning(e: Event)
    ensures EntryOf(e) == [] || EntryOf(e)[0] in EntryOf(e)
    ensures EntryOf(e) != [] <==> e.TestReport? && (e.phase == Call || e.reported == DidFail)
    ensures forall t | t in EntryOf(e) :: t.outcome == PassedTest <==> e.phase == Call && e.reported == DidPass
  {}

  /** What a report records: at most one entry, under the test's name. A body that passes is "passed" without a
      message; a body that does not, be it by a skip, is "failed"; a fixture that fails is "error"; both with the
      beginning of the report's text. */
  lemma {:induction false} RecordedOutcome(e: Event)
    ensures |EntryOf(e)| <= 1
    ensures e.CollectReport? ==> EntryOf(e) == []
    ensures e.TestReport? ==>
              && (e.phase == Call && e.reported == DidPass ==> EntryOf(e) == [TestResult(e.nodeid, PassedTest, "")])
              && (e.phase == Call && e.reported != DidPass ==>
                    EntryOf(e) == [TestResult(e.nodeid, FailedTest, Shorten(e.longrepr))])
              && (e.phase != Call && e.reported == DidFail ==>
                    EntryOf(e) == [TestResult(e.nodeid, ErrorTest, Shorten(e.longrepr))])
              && (e.phase != Call && e.reported != DidFail ==> EntryOf(e) == [])
  {
    hide Shorten;
  }

  /** What a failed collection records: the beginning of its text; any other collection nothing. */
  lemma {:induction false} RecordedLoadError(e: Event)
    ensures LoadErrorOf(e) == if e.CollectReport? && e.reported == DidFail then [Shorten(e.longrepr)] else []
  {}

  /** Entries come in the order of the reports, and so do load errors. */
  lemma {:induction false} RecordedInOrder(a: seq<Event>, b: seq<Event>)
    ensures Entries(a + b) == Entries(a) + Entries(b)
    ensures |a| == 1 ==> Entries(a) == EntryOf(a[0])
  {
    hide EntryOf;
    if b == [] {
      assert a + b == a;
      if |a| == 1 { assert a[..0] == []; }
    } else {
      var init, last := b[..|b| - 1], b[|b| - 1];
      RecordedInOrder(a, init);
      assert (a + b)[..|a + b| - 1] == a + init;
    }
  }

  lemma {:induction false} LoadErrorsInOrder(a: seq<Event>, b: seq<Event>)
    ensures LoadErrors(a + b) == LoadErrors(a) + LoadErrors(b)
    ensures |a| == 1 ==> LoadErrors(a) == LoadErrorOf(a[0])
  {
    hide LoadErrorOf;
    if b == [] {
      assert a + b == a;
      if |a| == 1 { assert a[..0] == []; }
    } else {
      var init, last := b[..|b| - 1], b[|b| - 1];
      LoadErrorsInOrder(a, init);
      assert (a + b)[..|a + b| - 1] == a + init;
    }
  }

  /** A long text is cut to its first 4000 characters and marked; any other is kept. */
  lemma {:induction false} ShortenMeaning(text: string)
    ensures |text| <= 4000 ==> Shorten(text) == text
    ensures |text| > 4000 ==> Shorten(text) == text[..4000] + "\n... [truncated]" && |Shorten(text)| == 4016
  {}

  lemma {:induction false} CaptureMeaning(s: string)
    ensures Capture(s) <= s && (|s| <= 20000 ==> Capture(s) == s) && (|s| > 20000 ==> |Capture(s)| == 20000)
  {}

  lemma {:induction false} GreenMeaning(session: seq<Event>)
    ensures AllGreen(session) <==>
              && (exists e | e in session :: e.TestReport? && e.phase == Call)
              && (forall e | e in session :: !Failing(e))
              && (forall e | e in session :: e.TestReport? && e.phase == Call ==> e.reported == DidPass)
  {
    hide Entries, LoadErrors, EntryOf;
    EntriesMeaning(session);
    forall e { EntryMeaning(e); }
    if AllGreen(session) {
      var t := Entries(session)[0];
      assert t in Entries(session);
      var e :| e in session && t in EntryOf(e);
      assert e.TestReport? && e.phase == Call;
      forall x | x in session ensures !Failing(x) && (x.TestReport? && x.phase == Call ==> x.reported == DidPass) {
        if EntryOf(x) != [] { assert EntryOf(x)[0] in Entries(session); }
        assert LoadErrorOf(x) == [];
      }
    }
    if (exists e | e in session :: e.TestReport? && e.phase == Call)
       && (forall e | e in session :: !Failing(e))
       && (forall e | e in session :: e.TestReport? && e.phase == Call ==> e.reported == DidPass) {
      var e :| e in session && e.TestReport? && e.phase == Call;
      assert EntryOf(e)[0] in Entries(session);
    }
  }

  lemma {:induction false} StatusMeaning(session: seq<Event>, exitCode: int)
    ensures SessionStatus(session, exitCode) == Passed
            <==> exitCode == 0 && Entries(session) != [] && LoadErrors(session) == []
    ensures IsVerdict(SessionStatus(session, exitCode)) <==> Entries(session) != [] && LoadErrors(session) == []
  {
    hide Entries, LoadErrors, CountPassed;
  }

  /** Given pytest's exit code, PASSED says what it is meant to say - every test passed - exactly when nothing was
      skipped beside a test body that ran. */
  lemma {:induction false} VerdictIff(session: seq<Event>, exitCode: int)
    requires PytestExit(session, exitCode)
    ensures (SessionStatus(session, exitCode) == Passed <==> EveryTestPassed(session)) <==> !SkipBesideATest(session)
  {
    hide Entries, LoadErrors, EntryOf, SessionStatus;
    StatusMeaning(session, exitCode);
    EntriesNonEmpty(session);
    EntriesMeaning(session);
    if forall e | e in session :: !Failing(e) {
      assert forall e | e in session :: LoadErrorOf(e) == [];
      assert forall e | e in session :: e.reported == DidPass || e.reported == DidSkip;
    }
  }

  /** The stored entries tell less: PASSED goes with entries that are all "passed" exactly when no test body
      skipped in a session without failures. */
  lemma {:induction false} EntriesVerdictIff(session: seq<Event>, exitCode: int)
    requires PytestExit(session, exitCode)
    ensures (SessionStatus(session, exitCode) == Passed <==> AllGreen(session)) <==> !MaskedSkip(session)
  {
    hide Entries, LoadErrors, EntryOf, SessionStatus, AllGreen;
    StatusMeaning(session, exitCode);
    GreenMeaning(session);
    EntriesNonEmpty(session);
    EntriesMeaning(session);
    if forall e | e in session :: !Failing(e) {
      assert forall e | e in session :: LoadErrorOf(e) == [];
      assert forall e | e in session && e.TestReport? && e.phase == Call ::
          e.reported == DidPass || e.reported == DidSkip;
    }
  }

  /** For instance: one test whose body skips is stored as PASSED, and recorded as failed. */
  lemma {:induction false} SkippedTestPasses(nodeid: string, reason: string)
    ensures var session := [TestReport(nodeid, Call, DidSkip, reason)];
            && PytestExit(session, 0) && MaskedSkip(session)
            && SessionStatus(session, 0) == Passed && !EveryTestPassed(session) && !AllGreen(session)
            && Entries(session) == [TestResult(nodeid, FailedTest, Shorten(reason))]
  {
    var session := [TestReport(nodeid, Call, DidSkip, reason)];
    assert session[0] in session;
    assert session[..0] == [];
    StatusMeaning(session, 0);
    assert Entries(session)[0] in Entries(session);
  }

  lemma {:induction false} TwoReports(a: Event, b: Event)
    ensures Entries([a, b]) == EntryOf(a) + EntryOf(b) && LoadErrors([a, b]) == LoadErrorOf(a) + LoadErrorOf(b)
  {
    hide EntryOf, LoadErrorOf;
    assert [a, b][..1] == [a] && [a][..0] == [];
    assert Entries([a]) == [] + EntryOf(a) && LoadErrors([a]) == [] + LoadErrorOf(a);
    assert [] + EntryOf(a) == EntryOf(a) && [] + LoadErrorOf(a) == LoadErrorOf(a);
  }

  /** And a test skipped before its body leaves no entry at all: PASSED, with every entry passed. */
  lemma {:induction false} UnrunTestPasses(first: string, second: string, reason: string)
    ensures var session := [TestReport(first, Call, DidPass, ""), TestReport(second, Setup, DidSkip, reason)];
            && PytestExit(session, 0) && SkipBesideATest(session) && !MaskedSkip(session)
            && SessionStatus(session, 0) == Passed && !EveryTestPassed(session)
            && Entries(session) == [TestResult(first, PassedTest, "")]
  {
    hide Shorten, Entries, LoadErrors, SessionStatus;
    var session := [TestReport(first, Call, DidPass, ""), TestReport(second, Setup, DidSkip, reason)];
    assert session[0] in session && session[1] in session;
    TwoReports(session[0], session[1]);
    assert Entries(session) == [TestResult(first, PassedTest, "")] + [];
    StatusMeaning(session, 0);
  }

  lemma {:induction false} EntriesNonEmpty(session: seq<Event>)
    ensures Entries(session) != []
            <==> exists e | e in session :: e.TestReport? && (e.phase == Call || e.reported == DidFail)
  {
    hide Entries, LoadErrors, EntryOf;
    EntriesMeaning(session);
    forall e { EntryMeaning(e); }
    if e :| e in session && e.TestReport? && (e.phase == Call || e.reported == DidFail) {
      assert EntryOf(e)[0] in Entries(session);
    }
    if Entries(session) != [] {
      var t := Entries(session)[0];
      assert t in Entries(session);
      var e :| e in session && t in EntryOf(e);
    }
  }

  /** The counts of a graded session: every entry is counted once, passed and failed exactly, and a session
      counted as all passed is one whose entries all passed. */
  lemma {:induction false} CountsAddUp(session: seq<Event>, exitCode: int, stderr: string)
    ensures var r := ResultOf(PayloadOf(session, exitCode), stderr);
            && r.passedCount + r.failedCount == r.total == |r.tests| && r.passedCount == |PassedAt(r.tests)|
            && (r.failedCount == 0 <==> forall t | t in r.tests :: t.outcome == PassedTest)
            && (r.runnerError == "" ==> r.tests == Entries(session) != [])
  {
    hide Entries, LoadErrors;
    CountPassedMeaning(ResultOf(PayloadOf(session, exitCode), stderr).tests);
  }

  /** What is stored of a session: its entries, PASSED by the exit code alone; or, when something failed to load,
      the first error behind a fixed line, and else the hint that there were no tests, with no entries at all. The
      container's stderr is kept from its beginning. */
  lemma {:induction false} StoredResult(session: seq<Event>, exitCode: int, stderr: string)
    ensures var r, errors := ResultOf(PayloadOf(session, exitCode), stderr), LoadErrors(session);
            && r.stdout == "" && r.stderr <= stderr && (|stderr| <= 20000 ==> r.stderr == stderr)
            && (errors == [] && Entries(session) != [] ==>
                  r.runnerError == "" && r.tests == Entries(session) && (r.passed <==> exitCode == 0))
            && (errors != [] ==>
                  !r.passed && r.tests == [] && r.runnerError == "Your code could not be loaded:\n" + errors[0])
            && (errors == [] && Entries(session) == [] ==>
                  && !r.passed && r.tests == []
                  && r.runnerError == "no tests collected (check the test filename)")
            && (PayloadOf(session, exitCode).passed <==> r.passed)
  {
    hide Entries, LoadErrors, CountPassed;
    CaptureMeaning(stderr);
  }

  /** A session that failed to load, or ran no test, is never an attempt: whatever the exit code, the stored
      submission leaves every progress row as it was. */
  lemma {:induction false} UnloadableIsNoAttempt(db: Database, ls: seq<Id>, user: UserId, e: Id, code: string, at: Time,
                                                session: seq<Event>, exitCode: int)
    requires LoadErrors(session) != [] || Entries(session) == []
    ensures var r := Request(user, e, code, ResultOf(PayloadOf(session, exitCode), ""), at);
            && Submit(db, ls, r).0.progress == db.progress
            && (Submit(db, ls, r).1.Graded? ==> Submit(db, ls, r).1.status in {Error, Timeout})
  {
    hide Entries, LoadErrors, Locked, CountPassed, VerdictsOf;
    StatusMeaning(session, exitCode);
  }

  // ---- TIMEOUT and its look-alikes ------------------------------------------------------------------------

  function WallClockError(seconds: string): TestRunResult {
    RunnerError("execution exceeded " + seconds + "s wall-clock limit", "", "")
  }

  lemma {:induction false} OccursAfter(before: string, m: string, after: string)
    ensures Contains(before + m + after, m)
  {
    assert (before + m + after)[|before|..|before| + |m|] == m;
    assert OccursAt(before + m + after, m, |before|);
  }

  lemma {:induction false} WallClockIsTimeout(seconds: string)
    ensures StatusFromResult(WallClockError(seconds)) == Timeout
  {
    var before, after := "execution exceeded " + seconds + "s ", " limit";
    OccursAfter(before, "wall-clock", after);
    assert before + "wall-clock" + after == "execution exceeded " + seconds + "s wall-clock limit";
  }

  lemma {:induction false} NoHyphenNoMatch(text: string)
    requires forall k | 0 <= k < |text| :: text[k] != '-'
    ensures !Contains(text, "wall-clock")
  {
    if i :| 0 <= i <= |text| && OccursAt(text, "wall-clock", i) {
      var found := text[i..i + |"wall-clock"|];
      assert found[4] == text[i + 4];
    }
  }

  // None of the fixed messages looks like a wall-clock kill.
  lemma {:induction false} FixedMessages()
    ensures !Contains(NO_PAYLOAD, "wall-clock") && !Contains(BAD_JSON, "wall-clock")
    ensures !Contains(NO_TESTS, "wall-clock")
    ensures NO_PAYLOAD != "" && BAD_JSON != "" && NO_TESTS != ""
  {
    hide Contains;
    assert forall k | 0 <= k < |CRASH_HINT| :: CRASH_HINT[k] != '-';
    NoHyphenNoMatch(NO_PAYLOAD);
    NoHyphenNoMatch(BAD_JSON);
    NoHyphenNoMatch(NO_TESTS);
  }

  lemma {:induction false} RunnerErrorIsError(message: string, stdout: string, stderr: string)
    requires message != "" && !Contains(message, "wall-clock")
    ensures var r := RunnerError(message, stdout, stderr);
            && StatusFromResult(r) == Error && !r.passed && r.tests == [] && r.runnerError == message
            && r.stdout <= stdout && r.stderr <= stderr
            && (|stdout| <= 20000 ==> r.stdout == stdout) && (|stderr| <= 20000 ==> r.stderr == stderr)
  {
    hide Contains, Capture;
    CaptureMeaning(stdout);
    CaptureMeaning(stderr);
  }

  // The message of output without a payload, and of one that does not decode.
  function Unreadable(stdout: string): string {
    if Extract(stdout).None? then "runner produced no result payload" + " (likely crashed or was killed)"
    else "runner emitted invalid JSON"
  }

  /** Output without a readable payload, and a session without tests, are stored as ERROR; the former with the beginning
      of stdout and stderr. */
  lemma {:induction false} UnreadableIsError(stdout: string, stderr: string, decode: string -> Option<Payload>,
                                             session: seq<Event>, exitCode: int)
    ensures (Extract(stdout) == None || decode(Extract(stdout).value) == None) ==>
              var r := Parse(stdout, stderr, decode);
              && StatusFromResult(r) == Error && !r.passed && r.tests == [] && r.runnerError == Unreadable(stdout)
              && r.stdout <= stdout && r.stderr <= stderr
              && (|stdout| <= 20000 ==> r.stdout == stdout) && (|stderr| <= 20000 ==> r.stderr == stderr)
    ensures LoadErrors(session) == [] && Entries(session) == [] ==> SessionStatus(session, exitCode) == Error
  {
    FixedMessages();
    MessageTexts(stdout);
    hide Contains, Extract, Entries, LoadErrors, CountPassed, RunnerError, StatusFromResult, Unreadable,
         NO_PAYLOAD, BAD_JSON, NO_TESTS;
    RunnerErrorIsError(NO_PAYLOAD, stdout, stderr);
    RunnerErrorIsError(BAD_JSON, stdout, stderr);
    RunnerErrorIsError(NO_TESTS, "", "");
  }

  lemma {:induction false} MessageTexts(stdout: string)
    ensures Unreadable(stdout) == if Extract(stdout).None? then NO_PAYLOAD else BAD_JSON
  {
    hide Extract;
  }

  /** A code that fails to load is stored as TIMEOUT, not ERROR, exactly when its traceback mentions
      "wall-clock". */
  lemma {:induction false} LoadErrorReadsAsTimeoutIff(session: seq<Event>, exitCode: int)
    requires LoadErrors(session) != []
    ensures SessionStatus(session, exitCode)
            == if Contains(LoadErrors(session)[0], "wall-clock") then Timeout else Error
  {
    hide Entries, LoadErrors, CountPassed;
    LoadPrefixHasNoW();
    PrefixAddsNoMatch(LOAD_PREFIX, "wall-clock", LoadErrors(session)[0]);
  }

  /** For instance. */
  lemma {:induction false} LoadErrorReadsAsTimeout(exitCode: int)
    ensures SessionStatus([CollectReport(DidFail, "wall-clock")], exitCode) == Timeout
  {
    var session := [CollectReport(DidFail, "wall-clock")];
    assert session[..0] == [];
    assert LoadErrors(session) == ["wall-clock"];
    LoadErrorReadsAsTimeoutIff(session, exitCode);
    OccursAfter("", "wall-clock", "");
    assert "" + "wall-clock" + "" == "wall-clock";
    hide Contains, SessionStatus;
  }

  // A prefix without the first character of m cannot begin an occurrence of m.
  lemma {:induction false} PrefixAddsNoMatch(prefix: string, m: string, text: string)
    requires m != "" && forall k | 0 <= k < |prefix| :: prefix[k] != m[0]
    ensures Contains(prefix + text, m) <==> Contains(text, m)
  {
    hide OccursAt, Contains;
    var s, n := prefix + text, |prefix|;
    ContainsMeans(s, m);
    ContainsMeans(text, m);
    if i :| OccursAt(s, m, i) {
      OccursMeans(s, m, i);
      OccursBounds(s, m, i);
      assert s[i] == m[0] && n <= i;
      forall k | i - n <= k < i - n + |m| ensures text[k] == m[k - (i - n)] { assert text[k] == s[n + k]; }
      OccursIf(text, m, i - n);
    }
    if i :| OccursAt(text, m, i) {
      OccursMeans(text, m, i);
      OccursBounds(text, m, i);
      OccursIf(s, m, n + i);
    }
  }

  lemma {:induction false} OccursBounds(s: string, m: string, i: int)
    requires OccursAt(s, m, i)
    ensures 0 <= i && i + |m| <= |s|
  {}

  lemma {:induction false} LoadPrefixHasNoW()
    ensures forall k | 0 <= k < |LOAD_PREFIX| :: LOAD_PREFIX[k] != "wall-clock"[0]
  {}

  // ---- end to end -----------------------------------------------------------------------------------------

  /** Across the channel, for any encoding json can undo: with no marker but the runner's own, the client has the
      session's payload, and the stored status says every test passed exactly when nothing was skipped beside one. */
  lemma {:induction false} EndToEnd(session: seq<Event>, exitCode: int, encode: Payload -> string,
                                    decode: string -> Option<Payload>, noise: string, tail: string, stderr: string)
    requires var text := encode(PayloadOf(session, exitCode));
             decode(Strip(text)) == Some(PayloadOf(session, exitCode)) && !Contains(text, RESULT_END)
    requires !Contains(noise, RESULT_BEGIN) && !Contains(noise, RESULT_END)
    requires PytestExit(session, exitCode)
    ensures var stdout := Output(noise, encode(PayloadOf(session, exitCode)), tail);
            && Parse(stdout, stderr, decode) == ResultOf(PayloadOf(session, exitCode), stderr)
            && ((StatusFromResult(Parse(stdout, stderr, decode)) == Passed <==> EveryTestPassed(session))
                <==> !SkipBesideATest(session))
  {
    hide Output, Extract, Contains, PayloadOf, EveryTestPassed, SkipBesideATest, PytestExit, StatusFromResult,
         Strip;
    FramingRoundTrip(noise, encode(PayloadOf(session, exitCode)), tail);
    VerdictIff(session, exitCode);
    StderrIsIrrelevant(PayloadOf(session, exitCode), stderr);
  }

  // ---- markers that are not the runner's --------------------------------------------------------------------

  lemma {:induction false} FrameHasBoth(before: string, text: string, after: string)
    ensures Contains(Output(before, text, after), RESULT_BEGIN) && Contains(Output(before, text, after), RESULT_END)
  {
    hide RESULT_BEGIN, RESULT_END, Output, Contains;
    Layout(before, text, after);
    ContainsMeans(Output(before, text, after), RESULT_BEGIN);
    ContainsMeans(Output(before, text, after), RESULT_END);
  }

  /** A frame already on stdout when the runner prints its own decides the result: the session has no influence,
      and PASSED is stored iff the earlier payload says so. */
  lemma {:induction false} EarlierFrameDecides(before: string, earlier: Payload, between: string, session: seq<Event>,
                                               exitCode: int, encode: Payload -> string,
                                               decode: string -> Option<Payload>, tail: string, stderr: string)
    requires !Contains(before, RESULT_BEGIN) && !Contains(before, RESULT_END)
    requires decode(Strip(encode(earlier))) == Some(earlier) && !Contains(encode(earlier), RESULT_END)
    ensures var stdout := Output(Output(before, encode(earlier), between), encode(PayloadOf(session, exitCode)), tail);
            && Parse(stdout, stderr, decode) == ResultOf(earlier, stderr)
            && (StatusFromResult(Parse(stdout, stderr, decode)) == Passed <==>
                  earlier.runnerError == "" && earlier.passed)
  {
    hide Output, Extract, Contains, PayloadOf, Strip, Capture, CountPassed;
    var noise := Output(before, encode(earlier), between);
    FrameHasBoth(before, encode(earlier), between);
    NoiseWithBothWins(noise, encode(PayloadOf(session, exitCode)), tail);
    FramingRoundTrip(before, encode(earlier), between);
  }

  /** An end marker on stdout before any begin marker hides the runner's own: ERROR, whatever the session. */
  lemma {:induction false} EarlierEndIsError(session: seq<Event>, exitCode: int, encode: Payload -> string,
                                             decode: string -> Option<Payload>, noise: string, tail: string,
                                             stderr: string)
    requires !Contains(noise, RESULT_BEGIN) && Contains(noise, RESULT_END)
    ensures StatusFromResult(Parse(Output(noise, encode(PayloadOf(session, exitCode)), tail), stderr, decode)) == Error
  {
    hide Output, Extract, Contains, PayloadOf, Capture, CountPassed, StatusFromResult, ResultOf;
    NoisyEndIsNone(noise, encode(PayloadOf(session, exitCode)), tail);
    UnreadableIsError(Output(noise, encode(PayloadOf(session, exitCode)), tail), stderr, decode, [], 0);
  }

  /** A begin marker on stdout before the runner's and no end marker: what is decoded is the text from that marker on,
      the runner's begin marker and payload included; ERROR if the decoder rejects it. */
  lemma {:induction false} EarlierBeginDecides(session: seq<Event>, exitCode: int, encode: Payload -> string,
                                               decode: string -> Option<Payload>, noise: string, tail: string,
                                               stderr: string)
    requires Contains(noise, RESULT_BEGIN) && !Contains(noise, RESULT_END)
    ensures var text := encode(PayloadOf(session, exitCode));
            var heard := decode(Strip(AfterBegin(noise) + RESULT_BEGIN + Body(text)));
            var result := Parse(Output(noise, text, tail), stderr, decode);
            && (heard.Some? ==> result == ResultOf(heard.value, stderr))
            && (heard.None? ==> StatusFromResult(result) == Error)
  {
    hide Output, Extract, Contains, PayloadOf, Strip, Capture, CountPassed, StatusFromResult, ResultOf, AfterBegin,
         Body;
    var text := encode(PayloadOf(session, exitCode));
    ExtractIsHeard(noise, text, tail);
    UnreadableIsError(Output(noise, text, tail), stderr, decode, [], 0);
  }

  /** A payload that quotes the end marker - pytest echoes what a failing test printed - is cut off there; what is
      stored is what the decoder makes of the cut text, and ERROR if it rejects it, whatever the session. */
  lemma {:induction false} QuotedMarkerDecides(session: seq<Event>, exitCode: int, encode: Payload -> string,
                                               decode: string -> Option<Payload>, noise: string, tail: string,
                                               stderr: string)
    requires Contains(encode(PayloadOf(session, exitCode)), RESULT_END)
    requires !Contains(noise, RESULT_BEGIN) && !Contains(noise, RESULT_END)
    ensures var text := encode(PayloadOf(session, exitCode));
            var cut := decode(Strip(text[..CutAt(text)]));
            var result := Parse(Output(noise, text, tail), stderr, decode);
            && (cut.Some? ==> result == ResultOf(cut.value, stderr))
            && (cut.None? ==> StatusFromResult(result) == Error)
  {
    hide Output, Extract, Contains, PayloadOf, Strip, Capture, CountPassed, StatusFromResult, ResultOf, CutAt;
    var text := encode(PayloadOf(session, exitCode));
    QuotedEndCuts(noise, text, tail);
    UnreadableIsError(Output(noise, text, tail), stderr, decode, [], 0);
  }

  lemma {:induction false} StderrIsIrrelevant(p: Payload, stderr: string)
    ensures StatusFromResult(ResultOf(p, stderr)) == StatusFromResult(ResultOf(p, ""))
  {
    hide Contains;
  }
}
