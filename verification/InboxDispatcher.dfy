/** The Heimdall inbox dispatcher (runHeimdallInboxDispatcherPass): workers claim pending rows under a
    row lock, record failures against a retry budget with backoff, and execute what they mark. */
module InboxDispatcher {
  import opened Wrappers

  /** Microseconds, as Postgres keeps timestamps.  NOW() is the start of the transaction. */
  type Time = int

  const SECOND := 1_000_000
  const MAX_FAILURES := 10
  const BACKOFF_STEP := 10 * SECOND
  const BACKOFF_CAP := 300 * SECOND

  datatype Row = Row(receivedAt: Time, processedAt: Option<Time>, failureCount: nat, lastAttempt: Option<Time>)

  datatype Worker =
    | Idle
    | Begun(now: Time)
    | Claimed(row: nat, now: Time)
    | Failing(row: nat, now: Time)
    | Prepared(row: nat, now: Time)
    | Marked(row: nat)

  /** The table, the workers, and two histories: the rows whose run was started, and for each row the
      times of its recorded failures. */
  datatype State = State(rows: seq<Row>, workers: map<nat, Worker>, executed: seq<nat>, failedAt: seq<seq<Time>>)

  datatype Action =
    | Receive(receivedAt: Time)               // the writer inserts a row
    | Begin(w: nat, now: Time, open: bool)    // emergency lock, broker gate, BEGIN
    | Claim(w: nat, row: Option<nat>)         // SELECT ... FOR UPDATE SKIP LOCKED LIMIT 1
    | Prepare(w: nat, prepared: bool)         // PrepareAndInsertWorkflowRun
    | Record(w: nat, committed: bool)         // the failure update and its commit
    | Mark(w: nat, committed: bool)           // the processed update and its commit
    | Launch(w: nat, live: bool)              // broker re-check and the goroutine
    | Crash(w: nat)

  function At(s: State, w: nat): Worker {
    if w in s.workers then s.workers[w] else Idle
  }

  function Move(s: State, w: nat, pc: Worker): State {
    s.(workers := s.workers[w := pc])
  }

  /** The worker holds the lock of a row. */
  predicate Holds(pc: Worker, r: nat) {
    (pc.Claimed? || pc.Failing? || pc.Prepared?) && pc.row == r
  }

  predicate LockedRow(s: State, r: nat) {
    exists w :: w in s.workers && Holds(s.workers[w], r)
  }

  /** LEAST(10 * GREATEST(failure_count, 1), 300) seconds. */
  function Backoff(failures: nat): Time {
    var linear := BACKOFF_STEP * (if failures > 1 then failures else 1);
    if linear < BACKOFF_CAP then linear else BACKOFF_CAP
  }

  predicate Eligible(row: Row, now: Time) {
    && row.processedAt.None? && row.failureCount < MAX_FAILURES
    && (row.lastAttempt.Some? ==> row.lastAttempt.value < now - Backoff(row.failureCount))
  }

  /** The selected row is eligible, not locked, and none such was received earlier. */
  predicate Oldest(s: State, now: Time, r: nat) {
    && r < |s.rows| && Eligible(s.rows[r], now) && !LockedRow(s, r)
    && forall q :: 0 <= q < |s.rows| && Eligible(s.rows[q], now) && !LockedRow(s, q) ==> s.rows[r].receivedAt <= s.rows[q].receivedAt
  }

  predicate NothingPending(s: State, now: Time) {
    forall q :: 0 <= q < |s.rows| && Eligible(s.rows[q], now) ==> LockedRow(s, q)
  }

  function FailedOnce(row: Row, now: Time): Row {
    row.(failureCount := row.failureCount + 1, lastAttempt := Some(now))
  }

  function Processed(row: Row, now: Time): Row {
    row.(processedAt := Some(now), lastAttempt := Some(now))
  }

  function Step(s: State, a: Action): State {
    match a
    case Receive(at) => s.(rows := s.rows + [Row(at, None, 0, None)], failedAt := s.failedAt + [[]])
    case Begin(w, now, open) => if open && At(s, w).Idle? then Move(s, w, Begun(now)) else s
    case Claim(w, row) =>
      if !At(s, w).Begun? then s
      else if row.Some? && Oldest(s, At(s, w).now, row.value) then Move(s, w, Claimed(row.value, At(s, w).now))
      else if row.None? && NothingPending(s, At(s, w).now) then Move(s, w, Idle)
      else s
    case Prepare(w, prepared) =>
      (match At(s, w)
       case Claimed(r, now) => Move(s, w, if prepared then Prepared(r, now) else Failing(r, now))
       case _ => s)
    case Record(w, committed) =>
      (match At(s, w)
       case Failing(r, now) =>
         if committed && r < |s.rows| && r < |s.failedAt|
         then Move(s, w, Idle).(rows := s.rows[r := FailedOnce(s.rows[r], now)], failedAt := s.failedAt[r := s.failedAt[r] + [now]])
         else Move(s, w, Idle)
       case _ => s)
    case Mark(w, committed) =>
      (match At(s, w)
       case Prepared(r, now) =>
         if committed && r < |s.rows| then Move(s, w, Marked(r)).(rows := s.rows[r := Processed(s.rows[r], now)])
         else Move(s, w, Idle)
       case _ => s)
    case Launch(w, live) =>
      (match At(s, w)
       case Marked(r) => if live then Move(s, w, Idle).(executed := s.executed + [r]) else Move(s, w, Idle)
       case _ => s)
    case Crash(w) => Move(s, w, Idle)
  }

  function Exec(s: State, acts: seq<Action>): State {
    if acts == [] then s else Step(Exec(s, acts[..|acts| - 1]), acts[|acts| - 1])
  }

  const INIT := State([], map[], [], [])

  // ---- What every run keeps -----------------------------------------------------------

  ghost predicate NoRepeats(ids: seq<nat>) {
    forall i, j :: 0 <= i < j < |ids| ==> ids[i] != ids[j]
  }

  /** Each failure lies more than the backoff of its predecessors behind the one before. */
  ghost predicate Spaced(times: seq<Time>) {
    forall k :: 1 <= k < |times| ==> Gap(times, k)
  }

  predicate Gap(times: seq<Time>, k: nat)
    requires 1 <= k < |times|
  {
    times[k - 1] + Backoff(k) < times[k]
  }

  ghost predicate RowInv(row: Row, times: seq<Time>) {
    && |times| == row.failureCount <= MAX_FAILURES && Spaced(times)
    && (row.processedAt.None? ==> row.lastAttempt == if times == [] then None else Some(times[|times| - 1]))
    && (row.processedAt.Some? ==> row.failureCount < MAX_FAILURES)
  }

  ghost predicate WorkerInv(s: State, pc: Worker) {
    match pc
    case Claimed(r, now) => r < |s.rows| && Eligible(s.rows[r], now)
    case Failing(r, now) => r < |s.rows| && Eligible(s.rows[r], now)
    case Prepared(r, now) => r < |s.rows| && Eligible(s.rows[r], now)
    case Marked(r) => r < |s.rows| && s.rows[r].processedAt.Some? && r !in s.executed
    case _ => true
  }

  /** No two workers hold, or are about to execute, the same row. */
  ghost predicate Exclusive(s: State) {
    forall w, v :: w in s.workers && v in s.workers && w != v ==> Apart(s.workers[w], s.workers[v])
  }

  predicate Apart(p: Worker, q: Worker) {
    Engaged(p) && Engaged(q) ==> p.row != q.row
  }

  predicate Engaged(p: Worker) {
    p.Claimed? || p.Failing? || p.Prepared? || p.Marked?
  }

  ghost predicate Inv(s: State) {
    && |s.failedAt| == |s.rows|
    && (forall r :: 0 <= r < |s.rows| ==> RowInv(s.rows[r], s.failedAt[r]))
    && (forall w :: w in s.workers ==> WorkerInv(s, s.workers[w]))
    && Exclusive(s)
    && NoRepeats(s.executed)
    && (forall r :: r in s.executed ==> r < |s.rows| && s.rows[r].processedAt.Some?)
  }

  // ---- Steps --------------------------------------------------------------------------

  /** A step that only moves its own worker, to a place where its claims hold. */
  lemma MoveKeeps(s: State, w: nat, pc: Worker)
    requires Inv(s) && WorkerInv(s, pc)
    requires Engaged(pc) ==> forall v :: v in s.workers && v != w ==> Apart(s.workers[v], pc) && Apart(pc, s.workers[v])
    ensures Inv(Move(s, w, pc))
  {
    hide RowInv, Eligible;
    var t := Move(s, w, pc);
    forall v | v in t.workers ensures WorkerInv(t, t.workers[v]) {
      if v != w {
        assert WorkerInv(s, s.workers[v]);
      }
    }
  }

  lemma ClaimKeeps(s: State, w: nat, r: nat)
    requires Inv(s) && At(s, w).Begun? && Oldest(s, At(s, w).now, r)
    ensures Inv(Move(s, w, Claimed(r, At(s, w).now)))
  {
    forall v | v in s.workers && v != w ensures Apart(s.workers[v], Claimed(r, At(s, w).now)) {
      assert !Holds(s.workers[v], r);
      assert WorkerInv(s, s.workers[v]);
    }
    MoveKeeps(s, w, Claimed(r, At(s, w).now));
  }

  /** Changing a row that only worker `w` is engaged with. */
  lemma UpdateKeeps(s: State, w: nat, r: nat, row: Row, times: seq<Time>, pc: Worker)
    requires Inv(s) && w in s.workers && Engaged(s.workers[w]) && s.workers[w].row == r && r < |s.rows|
    requires RowInv(row, times) && s.rows[r].processedAt.None?
    requires pc.Idle? || (pc == Marked(r) && row.processedAt.Some?)
    ensures Inv(Move(s, w, pc).(rows := s.rows[r := row], failedAt := s.failedAt[r := times]))
  {
    hide RowInv, Eligible;
    var t := Move(s, w, pc).(rows := s.rows[r := row], failedAt := s.failedAt[r := times]);
    assert r !in s.executed;
    forall v | v in t.workers ensures WorkerInv(t, t.workers[v]) {
      if v != w {
        assert WorkerInv(s, s.workers[v]) && Apart(s.workers[v], s.workers[w]);
      }
    }
    forall v, u | v in t.workers && u in t.workers && v != u ensures Apart(t.workers[v], t.workers[u]) {
      assert v != w && u != w ==> Apart(s.workers[v], s.workers[u]);
      assert v != w ==> Apart(s.workers[v], s.workers[w]);
      assert u != w ==> Apart(s.workers[w], s.workers[u]);
    }
  }

  lemma FailureIsSpaced(row: Row, times: seq<Time>, now: Time)
    requires RowInv(row, times) && Eligible(row, now)
    ensures RowInv(FailedOnce(row, now), times + [now])
  {
    var longer := times + [now];
    forall k | 1 <= k < |longer| ensures Gap(longer, k) {
      if k < |times| {
        assert Gap(times, k);
      }
    }
  }

  lemma StepKeepsInv(s: State, a: Action)
    requires Inv(s)
    ensures Inv(Step(s, a))
  {
    match a
    case Receive(at) => ReceiveKeeps(s, at);
    case Begin(w, now, open) => if open && At(s, w).Idle? { MoveKeeps(s, w, Begun(now)); }
    case Crash(w) => MoveKeeps(s, w, Idle);
    case Claim(w, row) =>
      if At(s, w).Begun? {
        hide Oldest, NothingPending;
        if row.Some? && Oldest(s, At(s, w).now, row.value) {
          ClaimKeeps(s, w, row.value);
        } else if row.None? && NothingPending(s, At(s, w).now) {
          MoveKeeps(s, w, Idle);
        }
      }
    case _ => EngagedKeeps(s, a);
  }

  lemma ReceiveKeeps(s: State, at: Time)
    requires Inv(s)
    ensures Inv(Step(s, Receive(at)))
  {
    hide Eligible;
    var t := Step(s, Receive(at));
    forall r | 0 <= r < |t.rows| ensures RowInv(t.rows[r], t.failedAt[r]) {
      assert r < |s.rows| ==> RowInv(s.rows[r], s.failedAt[r]);
    }
    forall w | w in t.workers ensures WorkerInv(t, t.workers[w]) {
      assert WorkerInv(s, s.workers[w]);
    }
  }

  lemma EngagedKeeps(s: State, a: Action)
    requires Inv(s) && (a.Prepare? || a.Record? || a.Mark? || a.Launch?)
    ensures Inv(Step(s, a))
  {
    var w := a.w;
    if w in s.workers {
      var pc := s.workers[w];
      assert WorkerInv(s, pc);
      assert forall v :: v in s.workers && v != w ==> Apart(s.workers[v], pc) && Apart(pc, s.workers[v]);
      if a.Prepare? && pc.Claimed? {
        MoveKeeps(s, w, if a.prepared then Prepared(pc.row, pc.now) else Failing(pc.row, pc.now));
      } else if a.Record? && pc.Failing? {
        RecordKeeps(s, w, a.committed);
      } else if a.Mark? && pc.Prepared? {
        MarkKeeps(s, w, a.committed);
      } else if a.Launch? && pc.Marked? {
        LaunchKeeps(s, w, a.live);
      }
    }
  }

  lemma RecordKeeps(s: State, w: nat, committed: bool)
    requires Inv(s) && w in s.workers && s.workers[w].Failing?
    ensures Inv(Step(s, Record(w, committed)))
  {
    var Failing(r, now) := s.workers[w];
    assert WorkerInv(s, s.workers[w]);
    if committed {
      FailureIsSpaced(s.rows[r], s.failedAt[r], now);
      UpdateKeeps(s, w, r, FailedOnce(s.rows[r], now), s.failedAt[r] + [now], Idle);
    } else {
      MoveKeeps(s, w, Idle);
    }
  }

  lemma MarkKeeps(s: State, w: nat, committed: bool)
    requires Inv(s) && w in s.workers && s.workers[w].Prepared?
    ensures Inv(Step(s, Mark(w, committed)))
  {
    var Prepared(r, now) := s.workers[w];
    assert WorkerInv(s, s.workers[w]);
    if committed {
      UpdateKeeps(s, w, r, Processed(s.rows[r], now), s.failedAt[r], Marked(r));
      assert s.failedAt[r := s.failedAt[r]] == s.failedAt;
    } else {
      MoveKeeps(s, w, Idle);
    }
  }

  lemma LaunchKeeps(s: State, w: nat, live: bool)
    requires Inv(s) && w in s.workers && s.workers[w].Marked?
    ensures Inv(Step(s, Launch(w, live)))
  {
    hide RowInv, Eligible;
    var r := s.workers[w].row;
    assert WorkerInv(s, s.workers[w]);
    MoveKeeps(s, w, Idle);
    var t := Step(s, Launch(w, live));
    forall v | v in t.workers ensures WorkerInv(t, t.workers[v]) {
      if v != w {
        assert WorkerInv(s, s.workers[v]) && Apart(s.workers[v], s.workers[w]);
      }
    }
  }

  lemma {:induction false} RunKeepsInv(acts: seq<Action>)
    ensures Inv(Exec(INIT, acts))
  {
    if acts != [] {
      hide Inv, Step;
      RunKeepsInv(acts[..|acts| - 1]);
      StepKeepsInv(Exec(INIT, acts[..|acts| - 1]), acts[|acts| - 1]);
    }
  }

  // ---- The promises -------------------------------------------------------------------

  predicate IsPending(row: Row) {
    row.processedAt.None? && row.failureCount < MAX_FAILURES
  }

  predicate IsProcessed(row: Row) {
    row.processedAt.Some?
  }

  predicate IsExhausted(row: Row) {
    row.processedAt.None? && row.failureCount == MAX_FAILURES
  }

  /** In every run over any number of workers a row is executed at most once, and only once it is
      marked processed; a row is pending, processed or exhausted, and never two of these. */
  lemma RowsExecutedOnce(acts: seq<Action>)
    ensures var s := Exec(INIT, acts);
            && NoRepeats(s.executed)
            && (forall r :: r in s.executed ==> r < |s.rows| && IsProcessed(s.rows[r]))
            && forall row :: row in s.rows ==>
                 && row.failureCount <= MAX_FAILURES
                 && (IsPending(row) || IsProcessed(row) || IsExhausted(row))
                 && !(IsPending(row) && IsProcessed(row)) && !(IsPending(row) && IsExhausted(row)) && !(IsProcessed(row) && IsExhausted(row))
  {
    hide Exec;
    RunKeepsInv(acts);
    var s := Exec(INIT, acts);
    forall row | row in s.rows ensures row.failureCount <= MAX_FAILURES {
      var r :| 0 <= r < |s.rows| && s.rows[r] == row;
      assert RowInv(s.rows[r], s.failedAt[r]);
    }
  }

  /** Settled rows stay settled: no step unmarks a processed row, revives an exhausted one, lowers a
      failure count, or starts a second run of a row. */
  lemma SettledForGood(acts: seq<Action>, a: Action, r: nat)
    requires r < |Exec(INIT, acts).rows|
    ensures var s := Exec(INIT, acts);
            var t := Step(s, a);
            && r < |t.rows| && s.rows[r].failureCount <= t.rows[r].failureCount
            && (IsProcessed(s.rows[r]) ==> t.rows[r] == s.rows[r])
            && (IsExhausted(s.rows[r]) ==> t.rows[r] == s.rows[r])
            && (r in s.executed ==> t.executed == s.executed || t.executed[|s.executed|] != r)
  {
    hide Exec, RowInv;
    RunKeepsInv(acts);
    var s := Exec(INIT, acts);
    if !a.Receive? && a.w in s.workers {
      assert WorkerInv(s, s.workers[a.w]);
    }
  }

  /** Within the budget the five-minute cap is never the binding term. */
  lemma CapNeverBinds(failures: nat)
    requires failures < MAX_FAILURES
    ensures Backoff(failures) == BACKOFF_STEP * (if failures > 1 then failures else 1) < BACKOFF_CAP
  {
  }

  lemma {:induction false} SpacedSum(times: seq<Time>, k: nat)
    requires Spaced(times) && 1 <= k < |times| <= MAX_FAILURES
    ensures times[0] + 5 * k * (k + 1) * SECOND < times[k]
  {
    CapNeverBinds(k);
    assert Gap(times, k);
    if k > 1 {
      SpacedSum(times, k - 1);
      assert 5 * (k - 1) * k * SECOND + 10 * k * SECOND == 5 * k * (k + 1) * SECOND;
    }
  }

  /** In every run, recorded failure k+1 of a row comes more than 5k(k+1) seconds after the first; the
      budget of ten is used up no sooner than 450 seconds after the first failure. */
  lemma FailuresAreSpread(acts: seq<Action>, r: nat, k: nat)
    requires var s := Exec(INIT, acts); r < |s.rows| && r < |s.failedAt| && 1 <= k < |s.failedAt[r]|
    ensures var s := Exec(INIT, acts);
            && s.failedAt[r][0] + 5 * k * (k + 1) * SECOND < s.failedAt[r][k]
            && (IsExhausted(s.rows[r]) ==> |s.failedAt[r]| == MAX_FAILURES && s.failedAt[r][0] + 450 * SECOND < s.failedAt[r][MAX_FAILURES - 1])
  {
    hide Exec;
    RunKeepsInv(acts);
    var s := Exec(INIT, acts);
    assert RowInv(s.rows[r], s.failedAt[r]);
    SpacedSum(s.failedAt[r], k);
    if IsExhausted(s.rows[r]) {
      SpacedSum(s.failedAt[r], MAX_FAILURES - 1);
    }
  }

  // ---- Rows are retried until the budget is used up -----------------------------------

  /** The row may be tried now: not processed, budget left, and ten seconds per failure gone by. */
  predicate MayTry(row: Row, now: Time) {
    && row.processedAt.None? && row.failureCount < 10
    && (row.lastAttempt.None? || row.lastAttempt.value + 10_000_000 * (if row.failureCount > 1 then row.failureCount else 1) < now)
  }

  lemma EligibleMayTry(row: Row, now: Time)
    ensures Eligible(row, now) <==> MayTry(row, now)
  {
  }

  /** One row, idle worker `w`, and n failures 200 seconds apart. */
  ghost predicate FailedSoFar(s: State, w: nat, n: nat) {
    && s.rows == [Row(0, None, n, if n == 0 then None else Some(200 * n * SECOND))]
    && |s.failedAt| == 1 && |s.failedAt[0]| == n && s.executed == []
    && s.workers == map[w := Idle]
  }

  lemma ClaimsIt(s: State, w: nat, n: nat)
    requires FailedSoFar(s, w, n) && n < 10
    ensures var now := 200 * (n + 1) * SECOND;
            Step(Step(s, Begin(w, now, true)), Claim(w, Some(0))) == s.(workers := map[w := Claimed(0, now)])
  {
    var now := 200 * (n + 1) * SECOND;
    var begun := s.(workers := map[w := Begun(now)]);
    assert map[w := Idle][w := Begun(now)] == map[w := Begun(now)];
    assert Step(s, Begin(w, now, true)) == begun;
    EligibleMayTry(s.rows[0], now);
    assert Oldest(begun, now, 0);
    assert map[w := Begun(now)][w := Claimed(0, now)] == map[w := Claimed(0, now)];
  }

  lemma {:induction false} FailsAgain(acts: seq<Action>, w: nat, n: nat) returns (longer: seq<Action>)
    requires FailedSoFar(Exec(INIT, acts), w, n) && n < 10
    ensures FailedSoFar(Exec(INIT, longer), w, n + 1)
  {
    hide Exec;
    var now, s := 200 * (n + 1) * SECOND, Exec(INIT, acts);
    ClaimsIt(s, w, n);
    var a1 := acts + [Begin(w, now, true)];
    Snoc(INIT, acts, Begin(w, now, true));
    var a2 := a1 + [Claim(w, Some(0))];
    Snoc(INIT, a1, Claim(w, Some(0)));
    var a3 := a2 + [Prepare(w, false)];
    Snoc(INIT, a2, Prepare(w, false));
    OwnStep(Exec(INIT, a2), map[], w, Claimed(0, now), Prepare(w, false));
    longer := a3 + [Record(w, true)];
    Snoc(INIT, a3, Record(w, true));
    OwnStep(Exec(INIT, a3), map[], w, Failing(0, now), Record(w, true));
    hide Step;
  }

  /** A row can fail any number of times within the budget ... */
  lemma {:induction false} RetriedRun(w: nat, n: nat) returns (acts: seq<Action>)
    requires n <= 10
    ensures FailedSoFar(Exec(INIT, acts), w, n)
  {
    if n == 0 {
      acts := [] + [Receive(0)] + [Crash(w)];
      Empty(INIT);
      Snoc(INIT, [], Receive(0));
      Snoc(INIT, [] + [Receive(0)], Crash(w));
    } else {
      acts := RetriedRun(w, n - 1);
      acts := FailsAgain(acts, w, n - 1);
    }
  }

  /** ... after the tenth failure it is exhausted ... */
  lemma ExhaustedRun(w: nat) returns (acts: seq<Action>)
    ensures var s := Exec(INIT, acts);
            |s.rows| == 1 && s.rows[0].failureCount == 10 && s.rows[0].processedAt.None? && |s.failedAt| == 1 && |s.failedAt[0]| == 10 && IsExhausted(s.rows[0])
  {
    acts := RetriedRun(w, 10);
    hide Exec;
  }

  /** ... and before that it can still be executed. */
  lemma ExecutedRun(w: nat, n: nat) returns (acts: seq<Action>)
    requires n < 10
    ensures var s := Exec(INIT, acts); |s.rows| == 1 && s.rows[0].failureCount == n && s.rows[0].processedAt.Some? && s.executed == [0]
  {
    var a0 := RetriedRun(w, n);
    hide Exec;
    var now, s := 200 * (n + 1) * SECOND, Exec(INIT, a0);
    ClaimsIt(s, w, n);
    var a1 := a0 + [Begin(w, now, true)];
    Snoc(INIT, a0, Begin(w, now, true));
    var a2 := a1 + [Claim(w, Some(0))];
    Snoc(INIT, a1, Claim(w, Some(0)));
    var a3 := a2 + [Prepare(w, true)];
    Snoc(INIT, a2, Prepare(w, true));
    OwnStep(Exec(INIT, a2), map[], w, Claimed(0, now), Prepare(w, true));
    var a4 := a3 + [Mark(w, true)];
    Snoc(INIT, a3, Mark(w, true));
    OwnStep(Exec(INIT, a3), map[], w, Prepared(0, now), Mark(w, true));
    acts := a4 + [Launch(w, true)];
    Snoc(INIT, a4, Launch(w, true));
    OwnStep(Exec(INIT, a4), map[], w, Marked(0), Launch(w, true));
    hide Step;
  }

  // ---- One pass as the code runs it ---------------------------------------------------

  lemma Snoc(s: State, acts: seq<Action>, a: Action)
    ensures Exec(s, acts + [a]) == Step(Exec(s, acts), a)
  {
    assert (acts + [a])[..|acts|] == acts;
  }

  lemma Empty(s: State)
    ensures Exec(s, []) == s
  {
  }

  /** The steps of one worker, the others standing still. */
  lemma OwnStep(s: State, others: map<nat, Worker>, w: nat, pc: Worker, a: Action)
    requires s.workers == others[w := pc] && !a.Receive? && a.w == w && |s.failedAt| == |s.rows|
    ensures pc.Idle? && a.Begin? && a.open ==> Step(s, a) == s.(workers := others[w := Begun(a.now)])
    ensures pc.Begun? && a.Claim? && a.row.Some? && Oldest(s, pc.now, a.row.value) ==>
              Step(s, a) == s.(workers := others[w := Claimed(a.row.value, pc.now)])
    ensures pc.Begun? && a.Claim? && a.row.None? && NothingPending(s, pc.now) ==> Step(s, a) == s.(workers := others[w := Idle])
    ensures pc.Claimed? && a.Prepare? ==>
              Step(s, a) == s.(workers := others[w := if a.prepared then Prepared(pc.row, pc.now) else Failing(pc.row, pc.now)])
    ensures pc.Failing? && a.Record? && pc.row < |s.rows| ==>
              Step(s, a) ==
              if a.committed
              then s.(workers := others[w := Idle], rows := s.rows[pc.row := FailedOnce(s.rows[pc.row], pc.now)],
                      failedAt := s.failedAt[pc.row := s.failedAt[pc.row] + [pc.now]])
              else s.(workers := others[w := Idle])
    ensures pc.Prepared? && a.Mark? && pc.row < |s.rows| ==>
              Step(s, a) ==
              if a.committed
              then s.(workers := others[w := Marked(pc.row)], rows := s.rows[pc.row := Processed(s.rows[pc.row], pc.now)])
              else s.(workers := others[w := Idle])
    ensures pc.Marked? && a.Launch? ==>
              Step(s, a) == s.(workers := others[w := Idle], executed := if a.live then s.executed + [pc.row] else s.executed)
  {
    hide Oldest, NothingPending;
    var q := At(Step(s, a), w);
    assert others[w := pc][w := q] == others[w := q];
  }

  /** An oldest eligible row nobody else holds, or none if there is no such row. */
  ghost predicate Claims(rows: seq<Row>, now: Time, held: set<nat>, r: Option<nat>) {
    && (r.Some? ==> r.value < |rows| && Eligible(rows[r.value], now) && r.value !in held)
    && (r.Some? ==> forall q :: 0 <= q < |rows| && Eligible(rows[q], now) && q !in held ==>
                      rows[r.value].receivedAt <= rows[q].receivedAt)
    && (r.None? ==> forall q :: 0 <= q < |rows| && Eligible(rows[q], now) ==> q in held)
  }

  /** The inbox table and what was started from it. */
  class InboxTable {
    var rows: seq<Row>
    var executed: seq<nat>
    ghost var failedAt: seq<seq<Time>>

    /** The table while worker `w` stands at `pc` and the others where they are. */
    ghost function View(others: map<nat, Worker>, w: nat, pc: Worker): State
      reads this
    {
      State(rows, others[w := pc], executed, failedAt)
    }

    /** The claiming query: the oldest eligible row nobody else holds. */
    method SelectPending(now: Time, held: set<nat>) returns (r: Option<nat>)
      ensures Claims(rows, now, held, r)
      ensures r.Some? <==> exists q :: 0 <= q < |rows| && q !in held && MayTry(rows[q], now)
      ensures r.Some? ==> r.value < |rows| && r.value !in held && MayTry(rows[r.value], now)
    {
      forall q | 0 <= q < |rows| ensures Eligible(rows[q], now) <==> MayTry(rows[q], now) {
        EligibleMayTry(rows[q], now);
      }
      hide MayTry, Eligible;
      r := None;
      for i := 0 to |rows|
        invariant r.Some? ==> r.value < i && Eligible(rows[r.value], now) && r.value !in held
        invariant r.Some? ==> forall q :: 0 <= q < i && Eligible(rows[q], now) && q !in held ==>
                                rows[r.value].receivedAt <= rows[q].receivedAt
        invariant r.None? ==> forall q :: 0 <= q < i && Eligible(rows[q], now) ==> q in held
      {
        if Eligible(rows[i], now) && i !in held && (r.None? || rows[i].receivedAt < rows[r.value].receivedAt) {
          r := Some(i);
        }
      }
    }

    /** runHeimdallInboxDispatcherPass: its effect on the table is a run of the steps of worker `w`.  The
        claimed row is marked processed if its run was prepared, or charged with a failure if not. */
    method RunHeimdallInboxDispatcherPass(w: nat, now: Time, open: bool, held: set<nat>, prepared: bool, committed: bool,
                                          live: bool, ghost others: map<nat, Worker>)
      returns (ghost acts: seq<Action>, row: Option<nat>)
      requires |failedAt| == |rows| && w !in others
      requires forall r :: r in held <==> exists v :: v in others && Holds(others[v], r)
      modifies this
      ensures Exec(old(View(others, w, Idle)), acts) == View(others, w, Idle)
      ensures forall a :: a in acts ==> !a.Receive? && a.w == w
      ensures if open then Claims(old(rows), now, held, row) else row.None?
      ensures row.Some? <==> open && exists q :: 0 <= q < |old(rows)| && q !in held && MayTry(old(rows)[q], now)
      ensures row.Some? ==> row.value < |old(rows)| && MayTry(old(rows)[row.value], now)
      ensures rows == if row.None? || !committed then old(rows)
                      else
                        var was := old(rows)[row.value];
                        old(rows)[row.value := if prepared then was.(processedAt := Some(now), lastAttempt := Some(now))
                                               else was.(failureCount := was.failureCount + 1, lastAttempt := Some(now))]
      ensures executed == if row.Some? && prepared && committed && live then old(executed) + [row.value] else old(executed)
    {
      ghost var s0 := View(others, w, Idle);
      Empty(s0);
      hide Exec, Eligible, Step, MayTry;
      acts, row := [], None;
      if !open {
        return;
      }
      OwnStep(s0, others, w, Idle, Begin(w, now, open));
      Snoc(s0, acts, Begin(w, now, open));
      acts := acts + [Begin(w, now, open)];
      row := SelectPending(now, held);
      ghost var begun := View(others, w, Begun(now));
      LocksHeld(begun, others, w, held);
      assert row.Some? ==> Oldest(begun, now, row.value);
      assert row.None? ==> NothingPending(begun, now);
      hide Oldest, NothingPending, LockedRow;
      OwnStep(begun, others, w, Begun(now), Claim(w, row));
      Snoc(s0, acts, Claim(w, row));
      acts := acts + [Claim(w, row)];
      if row.None? {
        return;
      }
      var r := row.value;
      OwnStep(View(others, w, Claimed(r, now)), others, w, Claimed(r, now), Prepare(w, prepared));
      Snoc(s0, acts, Prepare(w, prepared));
      acts := acts + [Prepare(w, prepared)];
      if !prepared {
        OwnStep(View(others, w, Failing(r, now)), others, w, Failing(r, now), Record(w, committed));
        Snoc(s0, acts, Record(w, committed));
        acts := acts + [Record(w, committed)];
        if committed {
          rows := rows[r := FailedOnce(rows[r], now)];
          failedAt := failedAt[r := failedAt[r] + [now]];
        }
        return;
      }
      OwnStep(View(others, w, Prepared(r, now)), others, w, Prepared(r, now), Mark(w, committed));
      Snoc(s0, acts, Mark(w, committed));
      acts := acts + [Mark(w, committed)];
      if !committed {
        return;
      }
      rows := rows[r := Processed(rows[r], now)];
      OwnStep(View(others, w, Marked(r)), others, w, Marked(r), Launch(w, live));
      Snoc(s0, acts, Launch(w, live));
      acts := acts + [Launch(w, live)];
      if live {
        executed := executed + [r];
      }
    }
  }

  lemma LocksHeld(s: State, others: map<nat, Worker>, w: nat, held: set<nat>)
    requires w !in others && s.workers == others[w := At(s, w)] && At(s, w).Begun?
    requires forall r :: r in held <==> exists v :: v in others && Holds(others[v], r)
    ensures forall r :: LockedRow(s, r) <==> r in held
  {
    forall r ensures LockedRow(s, r) <==> r in held {
      if r in held {
        var v :| v in others && Holds(others[v], r);
        assert v in s.workers && Holds(s.workers[v], r);
      }
      if LockedRow(s, r) {
        var v :| v in s.workers && Holds(s.workers[v], r);
        assert v in others && Holds(others[v], r);
      }
    }
  }
}
