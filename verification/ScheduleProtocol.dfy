/** processScheduledWorkflow run by many workers over one stored schedule row: every interleaving
    of their steps, with crashes, refusals and failed transactions anywhere in between. */
module ScheduleProtocol {
  import opened ScheduleTick
  import opened Text
  import opened Wrappers

  const HOUR := 3600 * SECOND

  datatype Config = Config(next: Schedule, policy: string, startAt: Option<Instant>, endAt: Option<Instant>)

  /** Where a worker stands in its pass. */
  datatype Worker =
    | Idle
    | Read(seen: Option<Instant>, now: Instant)
    | Chosen(seen: Option<Instant>, now: Instant, tick: Instant)
    | Admitted(seen: Option<Instant>, now: Instant, tick: Instant)
    | Committed(tick: Instant)

  /** The stored cursor, the workers, and the history of committed and launched ticks. */
  datatype State = State(stored: Option<Instant>, workers: map<nat, Worker>, commits: seq<Instant>, launched: seq<Instant>)

  datatype Action =
    | Load(w: nat, now: Instant, locked: bool)      // emergency lock, then GetWorkflowScheduleState
    | Choose(w: nat, selection: Selection)          // selectWorkflowScheduleTick and end_at
    | Gate(w: nat, admitted: bool)                  // capacity owner and broker gate
    | Commit(w: nat, committed: bool)               // the transaction around UpsertWorkflowScheduleState
    | Launch(w: nat, started: bool)                 // broker re-check and dispatchScheduledRun
    | Crash(w: nat)

  function At(s: State, w: nat): Worker {
    if w in s.workers then s.workers[w] else Idle
  }

  function Move(s: State, w: nat, pc: Worker): State {
    s.(workers := s.workers[w := pc])
  }

  /** The instant a pass counts from: the stored tick, else start_at, else one hour ago. */
  function Baseline(cfg: Config, seen: Option<Instant>, now: Instant): Instant {
    if seen.Some? && seen.value != NO_TIME then seen.value
    else if cfg.startAt.Some? && cfg.startAt.value != NO_TIME then cfg.startAt.value
    else now - HOUR
  }

  /** The pass is not after end_at. */
  predicate InWindow(cfg: Config, now: Instant) {
    cfg.endAt.Some? ==> now <= cfg.endAt.value
  }

  /** UpsertWorkflowScheduleState: insert, or advance only a strictly older row. */
  predicate Wins(stored: Option<Instant>, tick: Instant) {
    stored.None? || stored.value < tick
  }

  /** One step of one worker.  A step that is not possible where the worker stands changes nothing. */
  ghost function Step(cfg: Config, ticks: iset<Instant>, s: State, a: Action): State {
    match (a, At(s, a.w))
    case (Load(w, now, locked), Idle) =>
      if locked then s else Move(s, w, Read(s.stored, now))
    case (Choose(w, r), Read(seen, now)) =>
      if !Selects(cfg.next, ticks, Baseline(cfg, seen, now), now, cfg.policy, r) then s
      else if r.Due? && InWindow(cfg, now) then Move(s, w, Chosen(seen, now, r.tick))
      else Move(s, w, Idle)
    case (Gate(w, admitted), Chosen(seen, now, tick)) =>
      Move(s, w, if admitted then Admitted(seen, now, tick) else Idle)
    case (Commit(w, committed), Admitted(seen, now, tick)) =>
      if committed && Wins(s.stored, tick)
      then Move(s, w, Committed(tick)).(stored := Some(tick), commits := s.commits + [tick])
      else Move(s, w, Idle)
    case (Launch(w, started), Committed(tick)) =>
      if started then Move(s, w, Idle).(launched := s.launched + [tick]) else Move(s, w, Idle)
    case (Crash(w), _) => Move(s, w, Idle)
    case _ => s
  }

  /** The state after any sequence of steps of any workers. */
  ghost function Exec(cfg: Config, ticks: iset<Instant>, s: State, acts: seq<Action>): State {
    if acts == [] then s
    else Step(cfg, ticks, Exec(cfg, ticks, s, acts[..|acts| - 1]), acts[|acts| - 1])
  }

  /** A fresh history over a persisted cursor, if there is one. */
  function Init(stored: Option<Instant>): State {
    State(stored, map[], [], [])
  }

  // ---- Safety over every run ----------------------------------------------------------

  ghost predicate Increasing(ts: seq<Instant>) {
    forall i, j :: 0 <= i < j < |ts| ==> ts[i] < ts[j]
  }

  ghost predicate NoRepeats(ts: seq<Instant>) {
    forall i, j :: 0 <= i < j < |ts| ==> ts[i] != ts[j]
  }

  /** What every run keeps. */
  ghost predicate Inv(cfg: Config, ticks: iset<Instant>, origin: Option<Instant>, s: State) {
    && Increasing(s.commits)
    && (forall t :: t in s.commits ==> t in ticks && (origin.Some? ==> origin.value < t))
    && s.stored == (if s.commits == [] then origin else Some(s.commits[|s.commits| - 1]))
    && NoRepeats(s.launched)
    && (forall t :: t in s.launched ==> t in s.commits)
    && (forall w :: w in s.workers ==> WorkerInv(cfg, ticks, origin, s, s.workers[w]))
    && (forall w, v :: w in s.workers && v in s.workers && w != v && s.workers[w].Committed? && s.workers[v].Committed? ==>
          s.workers[w].tick != s.workers[v].tick)
  }

  ghost predicate WorkerInv(cfg: Config, ticks: iset<Instant>, origin: Option<Instant>, s: State, pc: Worker) {
    match pc
    case Idle => true
    case Read(seen, now) => Was(seen, origin, s.commits)
    case Chosen(seen, now, tick) => Was(seen, origin, s.commits) && Picked(cfg, ticks, seen, now, tick)
    case Admitted(seen, now, tick) => Was(seen, origin, s.commits) && Picked(cfg, ticks, seen, now, tick)
    case Committed(tick) => tick in s.commits && tick !in s.launched
  }

  /** What a pass read is a value the stored cursor has had. */
  predicate Was(seen: Option<Instant>, origin: Option<Instant>, commits: seq<Instant>) {
    seen == origin || (seen.Some? && seen.value in commits)
  }

  /** The tick a pass with this view holds is a due occurrence; under catch_up it is the very next one. */
  ghost predicate Picked(cfg: Config, ticks: iset<Instant>, seen: Option<Instant>, now: Instant, tick: Instant) {
    && tick in ticks && tick <= now && InWindow(cfg, now) && now != NO_TIME && Baseline(cfg, seen, now) != NO_TIME
    && (Normalize(cfg.policy) == "catch_up" ==> tick == cfg.next(Baseline(cfg, seen, now)))
  }

  lemma SelectionIsPicked(cfg: Config, ticks: iset<Instant>, seen: Option<Instant>, now: Instant, r: Selection)
    requires Cron(cfg.next, ticks) && r.Due? && InWindow(cfg, now)
    requires Selects(cfg.next, ticks, Baseline(cfg, seen, now), now, cfg.policy, r)
    ensures Picked(cfg, ticks, seen, now, r.tick)
  {
    assert Next(cfg.next, ticks, Baseline(cfg, seen, now));
  }

  lemma {:induction false} StepKeepsInv(cfg: Config, ticks: iset<Instant>, origin: Option<Instant>, s: State, a: Action)
    requires Cron(cfg.next, ticks) && Inv(cfg, ticks, origin, s)
    ensures Inv(cfg, ticks, origin, Step(cfg, ticks, s, a))
  {
    hide Cron, Selects, Normalize, Picked, Baseline;
    match (a, At(s, a.w))
    case (Choose(w, r), Read(seen, now)) =>
      if Selects(cfg.next, ticks, Baseline(cfg, seen, now), now, cfg.policy, r) && r.Due? && InWindow(cfg, now) {
        SelectionIsPicked(cfg, ticks, seen, now, r);
      }
    case (Commit(w, committed), Admitted(seen, now, tick)) =>
      if committed && Wins(s.stored, tick) {
        CommitKeepsInv(cfg, ticks, origin, s, w, seen, now, tick);
      }
    case _ =>
  }

  lemma CommitKeepsInv(cfg: Config, ticks: iset<Instant>, origin: Option<Instant>, s: State, w: nat,
                       seen: Option<Instant>, now: Instant, tick: Instant)
    requires Inv(cfg, ticks, origin, s) && At(s, w) == Admitted(seen, now, tick) && Wins(s.stored, tick)
    ensures Inv(cfg, ticks, origin, Move(s, w, Committed(tick)).(stored := Some(tick), commits := s.commits + [tick]))
  {
    hide Normalize, Baseline;
    assert WorkerInv(cfg, ticks, origin, s, s.workers[w]);
    assert tick in ticks;
    hide Picked;
    var commits := s.commits + [tick];
    forall t | t in s.commits ensures t < tick {
      var i :| 0 <= i < |s.commits| && s.commits[i] == t;
      assert s.commits[i] <= s.commits[|s.commits| - 1];
    }
    assert origin.Some? ==> origin.value < tick by {
      assert s.commits != [] ==> s.commits[|s.commits| - 1] in s.commits;
    }
    forall i, j | 0 <= i < j < |commits| ensures commits[i] < commits[j] {
      assert commits[i] == s.commits[i] && commits[i] in s.commits;
    }
    var s' := Move(s, w, Committed(tick)).(stored := Some(tick), commits := commits);
    forall v | v in s'.workers ensures WorkerInv(cfg, ticks, origin, s', s'.workers[v]) {
      if v != w {
        assert WorkerInv(cfg, ticks, origin, s, s.workers[v]);
      }
    }
  }

  lemma {:induction false} RunKeepsInv(cfg: Config, ticks: iset<Instant>, origin: Option<Instant>, acts: seq<Action>)
    requires Cron(cfg.next, ticks)
    ensures Inv(cfg, ticks, origin, Exec(cfg, ticks, Init(origin), acts))
  {
    hide Inv, Cron, Step;
    if acts == [] {
      InitInv(cfg, ticks, origin);
    } else {
      RunKeepsInv(cfg, ticks, origin, acts[..|acts| - 1]);
      StepKeepsInv(cfg, ticks, origin, Exec(cfg, ticks, Init(origin), acts[..|acts| - 1]), acts[|acts| - 1]);
    }
  }

  lemma InitInv(cfg: Config, ticks: iset<Instant>, origin: Option<Instant>)
    ensures Inv(cfg, ticks, origin, Init(origin))
  {
  }

  /** In every run each occurrence is committed at most once, committed ticks strictly increase past
      the persisted cursor, and a run is launched at most once per tick, only for a committed one. */
  lemma TicksCommittedOnce(cfg: Config, ticks: iset<Instant>, origin: Option<Instant>, acts: seq<Action>)
    requires Cron(cfg.next, ticks)
    ensures var s := Exec(cfg, ticks, Init(origin), acts);
            && Increasing(s.commits) && NoRepeats(s.launched)
            && (forall t :: t in s.commits ==> t in ticks && (origin.Some? ==> origin.value < t))
            && (forall t :: t in s.launched ==> t in s.commits)
  {
    hide Exec, Cron;
    RunKeepsInv(cfg, ticks, origin, acts);
  }

  /** No run commits a tick by a pass that began after end_at, and no launch follows one. */
  lemma NothingAfterEnd(cfg: Config, ticks: iset<Instant>, origin: Option<Instant>, acts: seq<Action>, a: Action, end: Instant)
    requires Cron(cfg.next, ticks) && cfg.endAt == Some(end)
    ensures var s := Exec(cfg, ticks, Init(origin), acts);
            var t := Step(cfg, ticks, s, a);
            t.commits != s.commits ==> a.Commit? && At(s, a.w).Admitted? && At(s, a.w).tick <= At(s, a.w).now <= end
  {
    hide Exec, Cron;
    RunKeepsInv(cfg, ticks, origin, acts);
    var s := Exec(cfg, ticks, Init(origin), acts);
    if a.Commit? && a.w in s.workers {
      assert WorkerInv(cfg, ticks, origin, s, s.workers[a.w]);
    }
  }

  // ---- catch_up loses no tick ---------------------------------------------------------

  /** The instant a never-fired workflow counts from, when it does not depend on who asks when. */
  function Anchor(cfg: Config, origin: Option<Instant>): Option<Instant> {
    if origin.Some? && origin.value != NO_TIME then origin
    else if cfg.startAt.Some? && cfg.startAt.value != NO_TIME then cfg.startAt
    else None
  }

  /** Exactly the occurrences that follow the anchor, one after the other. */
  ghost predicate Consecutive(next: Schedule, anchor: Instant, commits: seq<Instant>) {
    forall i :: 0 <= i < |commits| ==> commits[i] == next(Before(anchor, commits, i))
  }

  /** What the i-th commit follows. */
  function Before(anchor: Instant, commits: seq<Instant>, i: nat): Instant
    requires i <= |commits|
  {
    if i == 0 then anchor else commits[i - 1]
  }

  lemma TickIsNext(cfg: Config, ticks: iset<Instant>, t: Instant)
    requires Cron(cfg.next, ticks) && t in ticks
    ensures t != NO_TIME && cfg.next(t - 1) == t
  {
    assert Next(cfg.next, ticks, t - 1);
  }

  /** Counting from the anchor or an earlier commit, Next passes the last commit only if that is
      the one counted from. */
  lemma PastTheLast(cfg: Config, ticks: iset<Instant>, commits: seq<Instant>, anchor: Instant, base: Instant)
    requires Cron(cfg.next, ticks) && Increasing(commits) && forall t :: t in commits ==> t in ticks
    requires Consecutive(cfg.next, anchor, commits) && (base == anchor || base in commits)
    requires commits != [] ==> commits[|commits| - 1] < cfg.next(base)
    ensures base == Before(anchor, commits, |commits|)
  {
    assert Next(cfg.next, ticks, base);
    if commits != [] {
      var last := commits[|commits| - 1];
      assert last in commits && commits[0] <= last;
      assert commits[0] == cfg.next(anchor);
      if base in commits {
        var i :| 0 <= i < |commits| && commits[i] == base;
        assert commits[i] <= last;
      }
    }
  }

  /** A pass that wins under catch_up saw the cursor as it still is, so it commits the next tick. */
  lemma WinnerIsNext(cfg: Config, ticks: iset<Instant>, origin: Option<Instant>, s: State, w: nat)
    requires Cron(cfg.next, ticks) && Inv(cfg, ticks, origin, s) && Anchor(cfg, origin).Some?
    requires Normalize(cfg.policy) == "catch_up" && At(s, w).Admitted? && Wins(s.stored, At(s, w).tick)
    requires Consecutive(cfg.next, Anchor(cfg, origin).value, s.commits)
    ensures At(s, w).tick == cfg.next(Before(Anchor(cfg, origin).value, s.commits, |s.commits|))
  {
    hide Normalize, Cron, Consecutive, Increasing, NoRepeats;
    var pc := At(s, w);
    assert WorkerInv(cfg, ticks, origin, s, pc);
    var base := Baseline(cfg, pc.seen, pc.now);
    if pc.seen.Some? && pc.seen.value in s.commits {
      TickIsNext(cfg, ticks, pc.seen.value);
    }
    PastTheLast(cfg, ticks, s.commits, Anchor(cfg, origin).value, base);
  }

  lemma {:induction false} RunIsConsecutive(cfg: Config, ticks: iset<Instant>, origin: Option<Instant>, acts: seq<Action>)
    requires Cron(cfg.next, ticks) && Normalize(cfg.policy) == "catch_up" && Anchor(cfg, origin).Some?
    ensures Consecutive(cfg.next, Anchor(cfg, origin).value, Exec(cfg, ticks, Init(origin), acts).commits)
  {
    hide Normalize, Cron, Selects, Inv;
    if acts != [] {
      var front, a := acts[..|acts| - 1], acts[|acts| - 1];
      var s := Exec(cfg, ticks, Init(origin), front);
      RunIsConsecutive(cfg, ticks, origin, front);
      RunKeepsInv(cfg, ticks, origin, front);
      if a.Commit? && At(s, a.w).Admitted? && Wins(s.stored, At(s, a.w).tick) {
        WinnerIsNext(cfg, ticks, origin, s, a.w);
      }
      var commits := Step(cfg, ticks, s, a).commits;
      assert commits == s.commits || commits == s.commits + [At(s, a.w).tick];
      forall i | 0 <= i < |commits| ensures commits[i] == cfg.next(Before(Anchor(cfg, origin).value, commits, i)) {
        assert Before(Anchor(cfg, origin).value, commits, i) == Before(Anchor(cfg, origin).value, s.commits, i);
      }
    }
  }

  /** No occurrence is missing between two committed ones. */
  ghost predicate Gapless(next: Schedule, commits: seq<Instant>) {
    forall i :: 1 <= i < |commits| ==> commits[i] == next(Before(0, commits, i))
  }

  lemma Snoc(cfg: Config, ticks: iset<Instant>, s: State, acts: seq<Action>, a: Action)
    ensures Exec(cfg, ticks, s, acts + [a]) == Step(cfg, ticks, Exec(cfg, ticks, s, acts), a)
  {
    assert (acts + [a])[..|acts|] == acts;
  }

  /** Within the window there is an instant from which a pass counting from one hour before passes over the
      occurrence after `a`. */
  ghost predicate PassesOver(cfg: Config, a: Instant, now: Instant) {
    && InWindow(cfg, now) && now != NO_TIME && now - HOUR != NO_TIME
    && cfg.next(a) <= now - HOUR && cfg.next(now - HOUR) <= now
  }

  ghost predicate Skippable(cfg: Config, ticks: iset<Instant>, origin: Option<Instant>) {
    exists a, now :: a in ticks && (origin.Some? ==> origin.value < a) && PassesOver(cfg, a, now)
  }

  /** Counting from "one hour ago", a pass at `tick + 1h - 1ns` picks exactly that tick. */
  lemma HourAgoPicks(cfg: Config, ticks: iset<Instant>, seen: Option<Instant>, tick: Instant)
    requires Cron(cfg.next, ticks) && Normalize(cfg.policy) == "catch_up" && Anchor(cfg, seen).None? && tick in ticks
    ensures Selects(cfg.next, ticks, Baseline(cfg, seen, tick - 1 + HOUR), tick - 1 + HOUR, cfg.policy, Due(tick, cfg.next(tick)))
  {
    hide Normalize;
    TickIsNext(cfg, ticks, tick);
    assert NO_TIME % SECOND == 0 && HOUR % SECOND == 0;
    assert (tick - 1) % SECOND != 0;
  }

  lemma OverPicks(cfg: Config, ticks: iset<Instant>, seen: Option<Instant>, a: Instant, now: Instant)
    requires Cron(cfg.next, ticks) && Normalize(cfg.policy) == "catch_up" && Anchor(cfg, seen).None? && PassesOver(cfg, a, now)
    ensures var c := cfg.next(now - HOUR);
            && a < cfg.next(a) < c
            && Selects(cfg.next, ticks, Baseline(cfg, seen, now), now, cfg.policy, Due(c, cfg.next(c)))
  {
    hide Normalize;
    assert Next(cfg.next, ticks, a) && Next(cfg.next, ticks, now - HOUR);
  }

  /** Without an anchor catch_up can skip: two workers that both saw no stored tick commit `a` and a
      later `c`, and the occurrence in between is never fired. */
  lemma UnanchoredSkips(cfg: Config, ticks: iset<Instant>, origin: Option<Instant>) returns (acts: seq<Action>)
    requires Cron(cfg.next, ticks) && Normalize(cfg.policy) == "catch_up"
    requires Anchor(cfg, origin).None? && Skippable(cfg, ticks, origin)
    ensures !Gapless(cfg.next, Exec(cfg, ticks, Init(origin), acts).commits)
  {
    var a, late :| a in ticks && (origin.Some? ==> origin.value < a) && PassesOver(cfg, a, late);
    var c, early := cfg.next(late - HOUR), a - 1 + HOUR;
    HourAgoPicks(cfg, ticks, origin, a);
    OverPicks(cfg, ticks, origin, a, late);
    assert Wins(origin, a) && InWindow(cfg, early) && InWindow(cfg, late);
    hide *;
    var s := Init(origin);
    acts := [];
    Empty(cfg, ticks, s);
    acts := Both(cfg, ticks, s, acts, Load(0, early, false), Load(1, late, false));
    LoadBoth(cfg, ticks, origin, early, late);
    acts := Both(cfg, ticks, s, acts, Choose(0, Due(a, cfg.next(a))), Choose(1, Due(c, cfg.next(c))));
    ChooseBoth(cfg, ticks, origin, early, late, a, c);
    acts := Both(cfg, ticks, s, acts, Gate(0, true), Gate(1, true));
    GateBoth(cfg, ticks, origin, early, late, a, c);
    acts := Both(cfg, ticks, s, acts, Commit(0, true), Commit(1, true));
    CommitBoth(cfg, ticks, origin, early, late, a, c);
    NotGapless(cfg.next, a, c);
  }

  lemma NotGapless(next: Schedule, a: Instant, c: Instant)
    requires c != next(a)
    ensures !Gapless(next, [a, c])
  {
    assert [a, c][1] == c;
  }

  lemma Both(cfg: Config, ticks: iset<Instant>, s: State, acts: seq<Action>, one: Action, two: Action) returns (longer: seq<Action>)
    ensures Exec(cfg, ticks, s, longer) == Step(cfg, ticks, Step(cfg, ticks, Exec(cfg, ticks, s, acts), one), two)
  {
    Snoc(cfg, ticks, s, acts, one);
    Snoc(cfg, ticks, s, acts + [one], two);
    longer := acts + [one] + [two];
  }

  function Pair(origin: Option<Instant>, zero: Worker, one: Worker): State {
    State(origin, map[0 := zero, 1 := one], [], [])
  }

  lemma LoadBoth(cfg: Config, ticks: iset<Instant>, origin: Option<Instant>, early: Instant, late: Instant)
    ensures Step(cfg, ticks, Step(cfg, ticks, Init(origin), Load(0, early, false)), Load(1, late, false)) ==
            Pair(origin, Read(origin, early), Read(origin, late))
  {
  }

  lemma ChooseBoth(cfg: Config, ticks: iset<Instant>, origin: Option<Instant>, early: Instant, late: Instant, a: Instant, c: Instant)
    requires InWindow(cfg, early) && InWindow(cfg, late)
    requires Selects(cfg.next, ticks, Baseline(cfg, origin, early), early, cfg.policy, Due(a, cfg.next(a)))
    requires Selects(cfg.next, ticks, Baseline(cfg, origin, late), late, cfg.policy, Due(c, cfg.next(c)))
    ensures Step(cfg, ticks, Step(cfg, ticks, Pair(origin, Read(origin, early), Read(origin, late)),
                                  Choose(0, Due(a, cfg.next(a)))), Choose(1, Due(c, cfg.next(c)))) ==
            Pair(origin, Chosen(origin, early, a), Chosen(origin, late, c))
  {
    hide Selects, Baseline;
  }

  lemma GateBoth(cfg: Config, ticks: iset<Instant>, origin: Option<Instant>, early: Instant, late: Instant, a: Instant, c: Instant)
    ensures Step(cfg, ticks, Step(cfg, ticks, Pair(origin, Chosen(origin, early, a), Chosen(origin, late, c)),
                                  Gate(0, true)), Gate(1, true)) ==
            Pair(origin, Admitted(origin, early, a), Admitted(origin, late, c))
  {
  }

  lemma CommitBoth(cfg: Config, ticks: iset<Instant>, origin: Option<Instant>, early: Instant, late: Instant, a: Instant, c: Instant)
    requires Wins(origin, a) && a < c
    ensures Step(cfg, ticks, Step(cfg, ticks, Pair(origin, Admitted(origin, early, a), Admitted(origin, late, c)),
                                  Commit(0, true)), Commit(1, true)).commits == [a, c]
  {
  }

  /** Where nothing can be passed over, a pass that wins commits the occurrence after the last. */
  lemma UnskippableNext(cfg: Config, ticks: iset<Instant>, origin: Option<Instant>, s: State, w: nat)
    requires Cron(cfg.next, ticks) && Inv(cfg, ticks, origin, s) && Anchor(cfg, origin).None?
    requires Normalize(cfg.policy) == "catch_up" && !Skippable(cfg, ticks, origin)
    requires At(s, w).Admitted? && Wins(s.stored, At(s, w).tick) && s.commits != []
    ensures At(s, w).tick == cfg.next(s.commits[|s.commits| - 1])
  {
    hide Normalize, NoRepeats;
    var pc, last := At(s, w), s.commits[|s.commits| - 1];
    assert WorkerInv(cfg, ticks, origin, s, pc);
    assert last in s.commits && last in ticks && (origin.Some? ==> origin.value < last);
    var base := Baseline(cfg, pc.seen, pc.now);
    assert Next(cfg.next, ticks, base) && Next(cfg.next, ticks, last);
    if pc.seen.Some? && pc.seen.value in s.commits {
      var i :| 0 <= i < |s.commits| && s.commits[i] == pc.seen.value;
      assert s.commits[i] <= last;
      TickIsNext(cfg, ticks, pc.seen.value);
    } else {
      assert base == pc.now - HOUR;
      assert !PassesOver(cfg, last, pc.now);
    }
  }

  lemma {:induction false} UnskippableRun(cfg: Config, ticks: iset<Instant>, origin: Option<Instant>, acts: seq<Action>)
    requires Cron(cfg.next, ticks) && Normalize(cfg.policy) == "catch_up"
    requires Anchor(cfg, origin).None? && !Skippable(cfg, ticks, origin)
    ensures Gapless(cfg.next, Exec(cfg, ticks, Init(origin), acts).commits)
  {
    hide Normalize, Cron, Selects, Inv, Skippable;
    if acts != [] {
      var front, a := acts[..|acts| - 1], acts[|acts| - 1];
      var s := Exec(cfg, ticks, Init(origin), front);
      UnskippableRun(cfg, ticks, origin, front);
      RunKeepsInv(cfg, ticks, origin, front);
      if a.Commit? && At(s, a.w).Admitted? && Wins(s.stored, At(s, a.w).tick) && s.commits != [] {
        UnskippableNext(cfg, ticks, origin, s, a.w);
      }
      var commits := Step(cfg, ticks, s, a).commits;
      assert commits == s.commits || commits == s.commits + [At(s, a.w).tick];
      forall i | 1 <= i < |commits| ensures commits[i] == cfg.next(Before(0, commits, i)) {
        assert Before(0, commits, i) == Before(0, s.commits, i);
      }
    }
  }

  /** Under catch_up no run leaves a gap exactly when the workflow has a persisted tick or a start_at to
      count from, or its window leaves no room to pass over an occurrence. */
  lemma GaplessIffAnchored(cfg: Config, ticks: iset<Instant>, origin: Option<Instant>)
    requires Cron(cfg.next, ticks) && Normalize(cfg.policy) == "catch_up"
    ensures Anchor(cfg, origin).Some? || !Skippable(cfg, ticks, origin) <==>
            forall acts :: Gapless(cfg.next, Exec(cfg, ticks, Init(origin), acts).commits)
  {
    hide Normalize, Cron, Exec, Skippable;
    if Anchor(cfg, origin).Some? {
      forall acts ensures Gapless(cfg.next, Exec(cfg, ticks, Init(origin), acts).commits) {
        RunIsConsecutive(cfg, ticks, origin, acts);
        var commits := Exec(cfg, ticks, Init(origin), acts).commits;
        forall i | 1 <= i < |commits| ensures commits[i] == cfg.next(Before(0, commits, i)) {
          assert Before(0, commits, i) == Before(Anchor(cfg, origin).value, commits, i);
        }
      }
    } else if Skippable(cfg, ticks, origin) {
      var acts := UnanchoredSkips(cfg, ticks, origin);
    } else {
      forall acts ensures Gapless(cfg.next, Exec(cfg, ticks, Init(origin), acts).commits) {
        UnskippableRun(cfg, ticks, origin, acts);
      }
    }
  }

  /** Room for a gap, in terms of the occurrences: one with two more behind it, the first of them an hour
      before end_at and the second not after it. */
  ghost predicate Roomy(cfg: Config, ticks: iset<Instant>, origin: Option<Instant>) {
    exists a :: a in ticks && (origin.Some? ==> origin.value < a) && Fits(cfg, a)
  }

  ghost predicate Fits(cfg: Config, a: Instant) {
    InWindow(cfg, cfg.next(a) + HOUR) && InWindow(cfg, cfg.next(cfg.next(a)))
  }

  /** For schedules after Go's year 1 that is exactly when an occurrence can be passed over; without end_at
      it always is. */
  lemma SkippableIffRoomy(cfg: Config, ticks: iset<Instant>, origin: Option<Instant>)
    requires Cron(cfg.next, ticks) && forall u :: u in ticks ==> NO_TIME < u
    ensures Skippable(cfg, ticks, origin) <==> Roomy(cfg, ticks, origin)
    ensures cfg.endAt.None? ==> Roomy(cfg, ticks, origin)
  {
    if Roomy(cfg, ticks, origin) {
      var a :| a in ticks && (origin.Some? ==> origin.value < a) && Fits(cfg, a);
      var b := cfg.next(a);
      var c := cfg.next(b);
      var now := if b + HOUR < c then c else b + HOUR;
      assert Next(cfg.next, ticks, a) && Next(cfg.next, ticks, b) && Next(cfg.next, ticks, now - HOUR);
      assert PassesOver(cfg, a, now);
    }
    if Skippable(cfg, ticks, origin) {
      var a, now :| a in ticks && (origin.Some? ==> origin.value < a) && PassesOver(cfg, a, now);
      assert Next(cfg.next, ticks, cfg.next(a)) && Next(cfg.next, ticks, now - HOUR);
      assert Fits(cfg, a);
    }
    if cfg.endAt.None? {
      var from := if origin.Some? then origin.value else 0;
      assert Next(cfg.next, ticks, from);
      assert Fits(cfg, cfg.next(from));
    }
  }

  // ---- One pass as the code runs it ---------------------------------------------------

  /** The stored row of one scheduled workflow, with the history the theorems speak about. */
  class ScheduleRow {
    var stored: Option<Instant>
    var commits: seq<Instant>
    var launched: seq<Instant>

    ghost function View(workers: map<nat, Worker>): State
      reads this
    {
      State(stored, workers, commits, launched)
    }

    /** The transaction: the upsert wins or loses, and the commit may still fail. */
    method UpsertWorkflowScheduleState(tick: Instant, committed: bool) returns (won: bool)
      modifies this`stored, this`commits
      ensures won == (committed && Wins(old(stored), tick))
      ensures stored == (if won then Some(tick) else old(stored))
      ensures commits == (if won then old(commits) + [tick] else old(commits))
    {
      won := committed && Wins(stored, tick);
      if won {
        stored, commits := Some(tick), commits + [tick];
      }
    }

    /** processScheduledWorkflow.  The environment decides the lock, the gates, the transaction and
        the launch; what the pass does to the row is a run of its worker's steps.  Unless something on
        the way refuses it, the selected tick is committed and launched. */
    method ProcessScheduledWorkflow(cfg: Config, ghost ticks: iset<Instant>, w: nat, now: Instant,
                                    locked: bool, admitted: bool, committed: bool, started: bool)
      returns (ghost acts: seq<Action>, won: bool, selection: Selection)
      requires IsInt64(Unix(now)) && IsInt64(Unix(Baseline(cfg, stored, now)))
      modifies this
      ensures forall a :: a in acts ==> a.w == w
      ensures Cron(cfg.next, ticks) && !locked ==> Selects(cfg.next, ticks, Baseline(cfg, old(stored), now), now, cfg.policy, selection)
      ensures won <==> && !locked && selection.Due? && !(cfg.endAt.Some? && cfg.endAt.value < now)
                       && admitted && committed && Wins(old(stored), selection.tick)
      ensures Cron(cfg.next, ticks) && won && Normalize(cfg.policy) == "catch_up" ==>
                selection.tick == cfg.next(
                  if old(stored).Some? && old(stored).value != NO_TIME then old(stored).value
                  else if cfg.startAt.Some? && cfg.startAt.value != NO_TIME then cfg.startAt.value
                  else now - 3600 * 1_000_000_000)
      ensures stored == (if won then Some(selection.tick) else old(stored))
      ensures commits == (if won then old(commits) + [selection.tick] else old(commits))
      ensures launched == (if won && started then old(launched) + [selection.tick] else old(launched))
      ensures Cron(cfg.next, ticks) ==> Exec(cfg, ticks, old(View(map[w := Idle])), acts) == View(map[w := Idle])
    {
      hide Cron, Selects, Exec, Normalize, Baseline;
      ghost var start := View(map[w := Idle]);
      acts, won, selection := [], false, NotDue(now);
      assert Exec(cfg, ticks, start, acts) == start by { Empty(cfg, ticks, start); }
      if locked {
        return;
      }
      var seen := stored;
      Snoc(cfg, ticks, start, acts, Load(w, now, false));
      acts := acts + [Load(w, now, false)];
      ghost var probes: nat;
      selection, probes := SelectWorkflowScheduleTick(cfg.next, ticks, Baseline(cfg, seen, now), now, cfg.policy);
      SelectedNext(cfg, ticks, seen, now, selection);
      Snoc(cfg, ticks, start, acts, Choose(w, selection));
      acts := acts + [Choose(w, selection)];
      if !selection.Due? || !InWindow(cfg, now) {
        return;
      }
      Snoc(cfg, ticks, start, acts, Gate(w, admitted));
      acts := acts + [Gate(w, admitted)];
      if !admitted {
        return;
      }
      Snoc(cfg, ticks, start, acts, Commit(w, committed));
      acts := acts + [Commit(w, committed)];
      won := UpsertWorkflowScheduleState(selection.tick, committed);
      if !won {
        return;
      }
      Snoc(cfg, ticks, start, acts, Launch(w, started));
      acts := acts + [Launch(w, started)];
      if started {
        launched := launched + [selection.tick];
      }
    }
  }

  lemma SelectedNext(cfg: Config, ticks: iset<Instant>, seen: Option<Instant>, now: Instant, r: Selection)
    ensures Selects(cfg.next, ticks, Baseline(cfg, seen, now), now, cfg.policy, r) && r.Due? && Normalize(cfg.policy) == "catch_up" ==>
              r.tick == cfg.next(
                if seen.Some? && seen.value != NO_TIME then seen.value
                else if cfg.startAt.Some? && cfg.startAt.value != NO_TIME then cfg.startAt.value
                else now - 3600 * 1_000_000_000)
  {
    hide Normalize;
  }

  lemma Empty(cfg: Config, ticks: iset<Instant>, s: State)
    ensures Exec(cfg, ticks, s, []) == s
  {
  }
}
