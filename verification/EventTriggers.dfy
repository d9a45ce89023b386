/** The event-trigger loop (runWorkflowEventTriggersPass, processMatchedTrigger,
    emitWorkflowEventMatched): leader-locked passes over an append-only event log, deduplicated by the
    workflow.event.matched record, with a crash possible between any two steps. */
module EventTriggers {
  import opened Wrappers

  /** One (workflow manifest, event) pair. */
  datatype Match = Match(manifest: string, event: nat)

  /** A log entry; a workflow.event.matched entry names the pair it records. */
  datatype Event = Event(id: nat, body: string, record: Option<Match>)

  datatype Trigger = Trigger(manifest: string, spec: string)

  /** eventMatchesTrigger. */
  type Matcher = (Event, Trigger) -> bool

  /** How a loaded pair was left behind; every other end of processMatchedTrigger is a lock refusal. */
  datatype Outcome = NonMatch | Duplicate | Matched | Failed

  /** Where processMatchedTrigger stands for the current pair. */
  datatype Phase = Examining | Cleared | Fresh | Recorded

  /** A running pass: the loaded triggers, the pulled stretch log[from..to], and the outcomes so far,
      complete for the events in `done` and partial for the next one. */
  datatype Pass =
    | Loaded(triggers: seq<Trigger>)
    | Scanning(triggers: seq<Trigger>, from: nat, to: nat, done: seq<seq<Outcome>>, row: seq<Outcome>, phase: Phase)

  /** A batch the saved cursor has passed. */
  datatype Ack = Ack(triggers: seq<Trigger>, from: nat, to: nat, rows: seq<seq<Outcome>>)

  datatype State = State(
    log: seq<Event>,
    cursor: nat,
    leader: Option<nat>,
    passes: map<nat, Pass>,
    dispatched: seq<Match>,
    reported: seq<Match>,
    acks: seq<Ack>)

  datatype Verdict = Locked | Refused | Clear
  datatype EmitResult = Committed | RolledBack | CommittedUnseen
  datatype DispatchResult = NoBroker | PrepareFailed | Started

  datatype Action =
    | Append(body: string)                      // anything else writes to the log
    | Acquire(w: nat, triggers: seq<Trigger>)   // advisory lock and loadEventTriggerWorkflows
    | Pull(w: nat)                              // cursor and PullEvents
    | Examine(w: nat, verdict: Verdict)         // match, emergency lock, capacity owner
    | Dedup(w: nat, readable: bool)             // HasWorkflowEventMatched
    | Emit(w: nat, result: EmitResult)          // emitWorkflowEventMatched
    | Dispatch(w: nat, outcome: DispatchResult) // broker check, run row, dispatch
    | Save(w: nat, saved: bool)                 // SaveWorkflowEventTriggerCursor
    | Crash(w: nat)
    | LoseSession(w: nat)                       // the lock's session dies, the pass does not notice

  const BATCH := 100

  predicate HasRecord(log: seq<Event>, m: Match) {
    exists e :: e in log && e.record == Some(m)
  }

  function Emitted(s: State, m: Match): State {
    s.(log := s.log + [Event(|s.log|, "workflow.event.matched", Some(m))])
  }

  /** The pass is over: its lock, if still held, is released. */
  function Release(s: State, w: nat): State {
    s.(passes := s.passes - {w}, leader := if s.leader == Some(w) then None else s.leader)
  }

  /** The pass stands at a pair of its batch and triggers. */
  predicate AtPair(s: State, p: Pass) {
    && p.Scanning? && p.from + |p.done| < p.to <= |s.log| && |p.row| < |p.triggers|
  }

  function EventAt(s: State, p: Pass): Event
    requires AtPair(s, p)
  {
    s.log[p.from + |p.done|]
  }

  function TriggerAt(s: State, p: Pass): Trigger
    requires AtPair(s, p)
  {
    p.triggers[|p.row|]
  }

  function PairAt(s: State, p: Pass): Match
    requires AtPair(s, p)
  {
    Match(TriggerAt(s, p).manifest, EventAt(s, p).id)
  }

  /** The pass with the current pair left behind, on to the next trigger or the next event. */
  function Advance(p: Pass, o: Outcome): Pass
    requires p.Scanning?
  {
    var row := p.row + [o];
    if |row| == |p.triggers| then p.(done := p.done + [row], row := [], phase := Examining)
    else p.(row := row, phase := Examining)
  }

  function Settle(s: State, w: nat, p: Pass, o: Outcome): State
    requires AtPair(s, p)
  {
    var next := s.(passes := s.passes[w := Advance(p, o)]);
    if o == Failed then next.(reported := s.reported + [PairAt(s, p)]) else next
  }

  function Goto(s: State, w: nat, p: Pass, phase: Phase): State
    requires p.Scanning?
  {
    s.(passes := s.passes[w := p.(phase := phase)])
  }

  /** One step of the worker running a pass. */
  function PassStep(matches: Matcher, s: State, p: Pass, a: Action): State
    requires !a.Append?
  {
    match a
    case Pull(w) =>
      if !p.Loaded? then s
      else if p.triggers == [] || s.cursor >= |s.log| then Release(s, w)
      else
        var to := if s.cursor + BATCH < |s.log| then s.cursor + BATCH else |s.log|;
        s.(passes := s.passes[w := Scanning(p.triggers, s.cursor, to, [], [], Examining)])
    case Examine(w, verdict) =>
      if !AtPair(s, p) || p.phase != Examining then s
      else if !matches(EventAt(s, p), TriggerAt(s, p)) then Settle(s, w, p, NonMatch)
      else (match verdict
            case Locked => Release(s, w)
            case Refused => Settle(s, w, p, Failed)
            case Clear => Goto(s, w, p, Cleared))
    case Dedup(w, readable) =>
      if !AtPair(s, p) || p.phase != Cleared then s
      else if !readable then Settle(s, w, p, Failed)
      else if HasRecord(s.log, PairAt(s, p)) then Settle(s, w, p, Duplicate)
      else Goto(s, w, p, Fresh)
    case Emit(w, result) =>
      if !AtPair(s, p) || p.phase != Fresh then s
      else (match result
            case Committed => Goto(Emitted(s, PairAt(s, p)), w, p, Recorded)
            case RolledBack => Settle(s, w, p, Failed)
            case CommittedUnseen => Settle(Emitted(s, PairAt(s, p)), w, p, Failed))
    case Dispatch(w, outcome) =>
      if !AtPair(s, p) || p.phase != Recorded then s
      else (match outcome
            case NoBroker => Settle(s, w, p, Matched)
            case PrepareFailed => Settle(s, w, p, Failed)
            case Started => Settle(s, w, p, Matched).(dispatched := s.dispatched + [PairAt(s, p)]))
    case Save(w, saved) =>
      if !p.Scanning? || p.from + |p.done| != p.to then s
      else if saved then Release(s, w).(cursor := p.to, acks := s.acks + [Ack(p.triggers, p.from, p.to, p.done)])
      else Release(s, w)
    case _ => s
  }

  /** One step of anyone.  A step that is not possible changes nothing. */
  function Step(matches: Matcher, s: State, a: Action): State {
    match a
    case Append(body) => s.(log := s.log + [Event(|s.log|, body, None)])
    case Acquire(w, triggers) =>
      if s.leader.Some? || w in s.passes then s
      else s.(leader := Some(w), passes := s.passes[w := Loaded(triggers)])
    case Crash(w) => Release(s, w)
    case LoseSession(w) => if s.leader == Some(w) then s.(leader := None) else s
    case _ => if a.w in s.passes then PassStep(matches, s, s.passes[a.w], a) else s
  }

  function Exec(matches: Matcher, s: State, acts: seq<Action>): State {
    if acts == [] then s
    else Step(matches, Exec(matches, s, acts[..|acts| - 1]), acts[|acts| - 1])
  }

  const INIT := State([], 0, None, map[], [], [], [])

  // ---- What every run keeps -----------------------------------------------------------

  ghost predicate NoRepeats(ms: seq<Match>) {
    forall i, j :: 0 <= i < j < |ms| ==> ms[i] != ms[j]
  }

  /** The evidence for an outcome: no match, a committed record, or a reported failure. */
  ghost predicate Justified(matches: Matcher, log: seq<Event>, reported: seq<Match>, t: Trigger, e: Event, o: Outcome) {
    match o
    case NonMatch => !matches(e, t)
    case Duplicate => HasRecord(log, Match(t.manifest, e.id))
    case Matched => HasRecord(log, Match(t.manifest, e.id))
    case Failed => Match(t.manifest, e.id) in reported
  }

  ghost predicate RowOk(matches: Matcher, log: seq<Event>, reported: seq<Match>, triggers: seq<Trigger>, e: Event, row: seq<Outcome>) {
    |row| <= |triggers| && forall j :: 0 <= j < |row| ==> Justified(matches, log, reported, triggers[j], e, row[j])
  }

  /** Complete, justified rows for the events log[from..from+|rows|]. */
  ghost predicate RowsOk(matches: Matcher, log: seq<Event>, reported: seq<Match>, triggers: seq<Trigger>, from: nat, rows: seq<seq<Outcome>>) {
    && from + |rows| <= |log|
    && forall i :: 0 <= i < |rows| ==>
         |rows[i]| == |triggers| && RowOk(matches, log, reported, triggers, log[from + i], rows[i])
  }

  /** An acknowledged batch holds the event. */
  ghost predicate Covered(acks: seq<Ack>, i: nat) {
    exists ack :: ack in acks && ack.from <= i < ack.to
  }

  ghost predicate CoveredTo(acks: seq<Ack>, n: nat) {
    forall i :: 0 <= i < n ==> Covered(acks, i)
  }

  /** Everything before the stretch of a pass is acknowledged, and all the pass left behind is justified. */
  ghost predicate ScanOk(matches: Matcher, s: State, p: Pass) {
    p.Scanning? ==>
      && CoveredTo(s.acks, p.from) && p.from + |p.done| <= p.to <= |s.log|
      && |p.row| < |p.triggers|
      && (p.from + |p.done| == p.to ==> p.row == [] && p.phase == Examining)
      && RowsOk(matches, s.log, s.reported, p.triggers, p.from, p.done)
      && (AtPair(s, p) ==> RowOk(matches, s.log, s.reported, p.triggers, EventAt(s, p), p.row))
  }

  /** A pass about to dispatch has recorded the pair. */
  ghost predicate PhaseOk(s: State, p: Pass) {
    AtPair(s, p) && p.phase == Recorded ==> HasRecord(s.log, PairAt(s, p))
  }

  ghost predicate AckOk(matches: Matcher, s: State, ack: Ack) {
    ack.from + |ack.rows| == ack.to && RowsOk(matches, s.log, s.reported, ack.triggers, ack.from, ack.rows)
  }

  ghost predicate PassOk(matches: Matcher, s: State, p: Pass) {
    ScanOk(matches, s, p) && PhaseOk(s, p)
  }

  /** Kept by every step, however many passes overlap. */
  ghost predicate Inv(matches: Matcher, s: State) {
    && s.cursor <= |s.log| && CoveredTo(s.acks, s.cursor)
    && (forall w :: w in s.passes ==> PassOk(matches, s, s.passes[w]))
    && (forall m :: m in s.dispatched ==> HasRecord(s.log, m))
    && (forall ack :: ack in s.acks ==> AckOk(matches, s, ack))
  }

  // ---- Growth keeps evidence ----------------------------------------------------------

  lemma RecordKept(log: seq<Event>, more: seq<Event>, m: Match)
    requires HasRecord(log, m)
    ensures HasRecord(log + more, m)
  {
    var e :| e in log && e.record == Some(m);
    assert e in log + more;
  }

  lemma RowKept(matches: Matcher, log: seq<Event>, more: seq<Event>, reported: seq<Match>, extra: seq<Match>,
                triggers: seq<Trigger>, e: Event, row: seq<Outcome>)
    requires RowOk(matches, log, reported, triggers, e, row)
    ensures RowOk(matches, log + more, reported + extra, triggers, e, row)
  {
    hide HasRecord;
    forall j | 0 <= j < |row| ensures Justified(matches, log + more, reported + extra, triggers[j], e, row[j]) {
      if HasRecord(log, Match(triggers[j].manifest, e.id)) {
        RecordKept(log, more, Match(triggers[j].manifest, e.id));
      }
      assert Justified(matches, log, reported, triggers[j], e, row[j]);
    }
  }

  lemma RowsKept(matches: Matcher, log: seq<Event>, more: seq<Event>, reported: seq<Match>, extra: seq<Match>,
                 triggers: seq<Trigger>, from: nat, rows: seq<seq<Outcome>>)
    requires RowsOk(matches, log, reported, triggers, from, rows)
    ensures RowsOk(matches, log + more, reported + extra, triggers, from, rows)
  {
    hide RowOk;
    forall i | 0 <= i < |rows| ensures RowOk(matches, log + more, reported + extra, triggers, (log + more)[from + i], rows[i]) {
      RowKept(matches, log, more, reported, extra, triggers, log[from + i], rows[i]);
    }
  }

  /** `t` is later than `s`: log, report and acknowledgements have only grown. */
  ghost predicate Grown(s: State, t: State) {
    s.log <= t.log && s.reported <= t.reported && s.acks <= t.acks
  }

  lemma CoveredStays(acks: seq<Ack>, more: seq<Ack>, n: nat)
    requires acks <= more && CoveredTo(acks, n)
    ensures CoveredTo(more, n)
  {
    forall i | 0 <= i < n ensures Covered(more, i) {
      assert Covered(acks, i);
      var ack :| ack in acks && ack.from <= i < ack.to;
      assert ack in more;
    }
  }

  lemma Tails(s: State, t: State) returns (more: seq<Event>, extra: seq<Match>)
    requires Grown(s, t)
    ensures t.log == s.log + more && t.reported == s.reported + extra
  {
    more, extra := t.log[|s.log|..], t.reported[|s.reported|..];
  }

  lemma GrownPass(matches: Matcher, s: State, t: State, p: Pass)
    requires Grown(s, t) && PassOk(matches, s, p)
    ensures PassOk(matches, t, p)
  {
    hide RowsOk, RowOk, CoveredTo, HasRecord;
    if p.Scanning? {
      var more, extra := Tails(s, t);
      CoveredStays(s.acks, t.acks, p.from);
      RowsKept(matches, s.log, more, s.reported, extra, p.triggers, p.from, p.done);
      if AtPair(s, p) {
        assert EventAt(t, p) == EventAt(s, p) && PairAt(t, p) == PairAt(s, p);
        RowKept(matches, s.log, more, s.reported, extra, p.triggers, EventAt(s, p), p.row);
        if p.phase == Recorded {
          RecordKept(s.log, more, PairAt(s, p));
        }
      }
    }
  }

  lemma GrownAck(matches: Matcher, s: State, t: State, ack: Ack)
    requires Grown(s, t) && AckOk(matches, s, ack)
    ensures AckOk(matches, t, ack)
  {
    hide RowsOk;
    var more, extra := Tails(s, t);
    RowsKept(matches, s.log, more, s.reported, extra, ack.triggers, ack.from, ack.rows);
  }

  /** A later state keeps the invariant when what is new in it does. */
  lemma GrownInv(matches: Matcher, s: State, t: State)
    requires Inv(matches, s) && Grown(s, t)
    requires t.cursor == s.cursor || (t.cursor <= |t.log| && CoveredTo(t.acks, t.cursor))
    requires forall w :: w in t.passes ==> (w in s.passes && t.passes[w] == s.passes[w]) || PassOk(matches, t, t.passes[w])
    requires forall m :: m in t.dispatched ==> m in s.dispatched || HasRecord(t.log, m)
    requires forall ack :: ack in t.acks ==> ack in s.acks || AckOk(matches, t, ack)
    ensures Inv(matches, t)
  {
    hide PassOk, AckOk, CoveredTo, HasRecord;
    CoveredStays(s.acks, t.acks, s.cursor);
    forall w | w in t.passes ensures PassOk(matches, t, t.passes[w]) {
      if w in s.passes && t.passes[w] == s.passes[w] {
        GrownPass(matches, s, t, s.passes[w]);
      }
    }
    forall m | m in t.dispatched ensures HasRecord(t.log, m) {
      if m in s.dispatched {
        var more, extra := Tails(s, t);
        RecordKept(s.log, more, m);
      }
    }
    forall ack | ack in t.acks ensures AckOk(matches, t, ack) {
      if ack in s.acks {
        GrownAck(matches, s, t, ack);
      }
    }
  }

  // ---- Steps --------------------------------------------------------------------------

  lemma ReleaseKeeps(matches: Matcher, s: State, w: nat)
    requires Inv(matches, s)
    ensures Inv(matches, Release(s, w))
  {
    hide Inv, PassOk, AckOk, HasRecord, CoveredTo;
    GrownInv(matches, s, Release(s, w));
  }

  /** Leaving a pair behind with a justified outcome. */
  lemma SettleKeeps(matches: Matcher, s: State, base: State, w: nat, p: Pass, o: Outcome, more: seq<Event>)
    requires Inv(matches, s) && w in s.passes && s.passes[w] == p && AtPair(s, p)
    requires base == s.(log := s.log + more)
    requires o != Failed ==> Justified(matches, base.log, base.reported, TriggerAt(s, p), EventAt(s, p), o)
    ensures Inv(matches, Settle(base, w, p, o))
  {
    hide HasRecord, CoveredTo, AckOk, RowsOk, RowOk;
    assert AtPair(base, p) && PairAt(base, p) == PairAt(s, p);
    var t := Settle(base, w, p, o);
    assert Grown(s, t);
    assert PassOk(matches, s, p);
    GrownPass(matches, s, t, p);
    AdvanceScan(matches, t, p, o);
    hide PassOk, Advance;
    GrownInv(matches, s, t);
  }

  lemma AdvanceScan(matches: Matcher, t: State, p: Pass, o: Outcome)
    requires AtPair(t, p) && ScanOk(matches, t, p)
    requires Justified(matches, t.log, t.reported, TriggerAt(t, p), EventAt(t, p), o)
    ensures PassOk(matches, t, Advance(p, o))
  {
    hide HasRecord, Justified, CoveredTo;
    var row := p.row + [o];
    assert RowOk(matches, t.log, t.reported, p.triggers, EventAt(t, p), row);
  }

  /** Moving on within a pair. */
  lemma GotoKeeps(matches: Matcher, s: State, base: State, w: nat, p: Pass, phase: Phase, more: seq<Event>)
    requires Inv(matches, s) && w in s.passes && s.passes[w] == p && AtPair(s, p)
    requires base == s.(log := s.log + more)
    requires phase == Recorded ==> HasRecord(base.log, PairAt(s, p))
    ensures Inv(matches, Goto(base, w, p, phase))
  {
    hide HasRecord, RowsOk, RowOk, CoveredTo, AckOk;
    var t := Goto(base, w, p, phase);
    assert Grown(s, t);
    assert PassOk(matches, s, p);
    GrownPass(matches, s, t, p);
    var q := p.(phase := phase);
    assert AtPair(t, q) && EventAt(t, q) == EventAt(s, p) && PairAt(t, q) == PairAt(s, p);
    assert AtPair(t, p) && EventAt(t, p) == EventAt(s, p);
    assert PassOk(matches, t, q);
    hide PassOk;
    GrownInv(matches, s, t);
  }

  lemma EmitKeeps(matches: Matcher, s: State, w: nat, p: Pass, result: EmitResult)
    requires Inv(matches, s) && w in s.passes && s.passes[w] == p && AtPair(s, p) && p.phase == Fresh
    ensures Inv(matches, PassStep(matches, s, p, Emit(w, result)))
  {
    var m := PairAt(s, p);
    var e := Event(|s.log|, "workflow.event.matched", Some(m));
    assert HasRecord(s.log + [e], m) by { assert e in s.log + [e]; }
    hide HasRecord, Inv;
    match result
    case Committed => GotoKeeps(matches, s, Emitted(s, m), w, p, Recorded, [e]);
    case RolledBack =>
      assert s.log + [] == s.log;
      SettleKeeps(matches, s, s, w, p, Failed, []);
    case CommittedUnseen => SettleKeeps(matches, s, Emitted(s, m), w, p, Failed, [e]);
  }

  lemma ExamineKeeps(matches: Matcher, s: State, w: nat, p: Pass, verdict: Verdict)
    requires Inv(matches, s) && w in s.passes && s.passes[w] == p && AtPair(s, p) && p.phase == Examining
    ensures Inv(matches, PassStep(matches, s, p, Examine(w, verdict)))
  {
    assert s.log + [] == s.log;
    hide Inv, HasRecord;
    if !matches(EventAt(s, p), TriggerAt(s, p)) {
      SettleKeeps(matches, s, s, w, p, NonMatch, []);
    } else {
      match verdict
      case Locked => ReleaseKeeps(matches, s, w);
      case Refused => SettleKeeps(matches, s, s, w, p, Failed, []);
      case Clear => GotoKeeps(matches, s, s, w, p, Cleared, []);
    }
  }

  lemma DedupKeeps(matches: Matcher, s: State, w: nat, p: Pass, readable: bool)
    requires Inv(matches, s) && w in s.passes && s.passes[w] == p && AtPair(s, p) && p.phase == Cleared
    ensures Inv(matches, PassStep(matches, s, p, Dedup(w, readable)))
  {
    assert s.log + [] == s.log;
    hide Inv, HasRecord;
    if !readable {
      SettleKeeps(matches, s, s, w, p, Failed, []);
    } else if HasRecord(s.log, PairAt(s, p)) {
      SettleKeeps(matches, s, s, w, p, Duplicate, []);
    } else {
      GotoKeeps(matches, s, s, w, p, Fresh, []);
    }
  }

  lemma DispatchKeeps(matches: Matcher, s: State, w: nat, p: Pass, outcome: DispatchResult)
    requires Inv(matches, s) && w in s.passes && s.passes[w] == p && AtPair(s, p) && p.phase == Recorded
    ensures Inv(matches, PassStep(matches, s, p, Dispatch(w, outcome)))
  {
    assert s.log + [] == s.log;
    assert PassOk(matches, s, p);
    assert HasRecord(s.log, PairAt(s, p));
    hide HasRecord, PassOk, Inv;
    match outcome
    case NoBroker => SettleKeeps(matches, s, s, w, p, Matched, []);
    case PrepareFailed => SettleKeeps(matches, s, s, w, p, Failed, []);
    case Started =>
      SettleKeeps(matches, s, s, w, p, Matched, []);
      hide AckOk, CoveredTo;
      var t := Settle(s, w, p, Matched);
      GrownInv(matches, t, t.(dispatched := t.dispatched + [PairAt(s, p)]));
  }

  lemma PullKeeps(matches: Matcher, s: State, w: nat, p: Pass)
    requires Inv(matches, s) && w in s.passes && s.passes[w] == p && p.Loaded?
    ensures Inv(matches, PassStep(matches, s, p, Pull(w)))
  {
    if p.triggers == [] || s.cursor >= |s.log| {
      ReleaseKeeps(matches, s, w);
    } else {
      hide HasRecord, AckOk, CoveredTo;
      var t := PassStep(matches, s, p, Pull(w));
      assert PassOk(matches, t, t.passes[w]);
      hide PassOk;
      GrownInv(matches, s, t);
    }
  }

  lemma SaveKeeps(matches: Matcher, s: State, w: nat, p: Pass, saved: bool)
    requires Inv(matches, s) && w in s.passes && s.passes[w] == p && p.Scanning? && p.from + |p.done| == p.to
    ensures Inv(matches, PassStep(matches, s, p, Save(w, saved)))
  {
    ReleaseKeeps(matches, s, w);
    if saved {
      hide HasRecord, RowsOk, RowOk;
      var ack := Ack(p.triggers, p.from, p.to, p.done);
      var t := PassStep(matches, s, p, Save(w, saved));
      assert PassOk(matches, s, p);
      GrownPass(matches, s, t, p);
      assert CoveredTo(t.acks, t.cursor) by {
        forall i | 0 <= i < t.cursor ensures Covered(t.acks, i) {
          assert ack in t.acks;
        }
      }
      assert AckOk(matches, t, ack);
      hide Inv, PassOk, AckOk, CoveredTo;
      GrownInv(matches, s, t);
    }
  }

  /** Every step keeps the invariant, the silent loss of the lock's session included. */
  lemma StepKeepsInv(matches: Matcher, s: State, a: Action)
    requires Inv(matches, s)
    ensures Inv(matches, Step(matches, s, a))
  {
    hide Inv, PassOk, AckOk, CoveredTo, HasRecord;
    match a
    case Append(body) => GrownInv(matches, s, Step(matches, s, a));
    case Crash(w) => ReleaseKeeps(matches, s, w);
    case Acquire(w, triggers) =>
      assert PassOk(matches, Step(matches, s, a), Loaded(triggers)) by { LoadedOk(matches, Step(matches, s, a), triggers); }
      GrownInv(matches, s, Step(matches, s, a));
    case LoseSession(w) => GrownInv(matches, s, Step(matches, s, a));
    case _ =>
      if a.w in s.passes {
        PassStepKeeps(matches, s, s.passes[a.w], a);
      }
  }

  lemma LoadedOk(matches: Matcher, s: State, triggers: seq<Trigger>)
    ensures PassOk(matches, s, Loaded(triggers))
  {
  }

  lemma PassStepKeeps(matches: Matcher, s: State, p: Pass, a: Action)
    requires Inv(matches, s) && !a.Append? && a.w in s.passes && s.passes[a.w] == p
    ensures Inv(matches, PassStep(matches, s, p, a))
  {
    hide Inv;
    match a
    case Pull(w) => if p.Loaded? { PullKeeps(matches, s, w, p); }
    case Examine(w, verdict) => if AtPair(s, p) && p.phase == Examining { ExamineKeeps(matches, s, w, p, verdict); }
    case Dedup(w, readable) => if AtPair(s, p) && p.phase == Cleared { DedupKeeps(matches, s, w, p, readable); }
    case Emit(w, result) => if AtPair(s, p) && p.phase == Fresh { EmitKeeps(matches, s, w, p, result); }
    case Dispatch(w, outcome) => if AtPair(s, p) && p.phase == Recorded { DispatchKeeps(matches, s, w, p, outcome); }
    case Save(w, saved) => if p.Scanning? && p.from + |p.done| == p.to { SaveKeeps(matches, s, w, p, saved); }
    case _ =>
  }

  lemma {:induction false} RunKeepsInv(matches: Matcher, acts: seq<Action>)
    ensures Inv(matches, Exec(matches, INIT, acts))
  {
    hide Step;
    if acts != [] {
      hide Inv;
      var front, a := acts[..|acts| - 1], acts[|acts| - 1];
      RunKeepsInv(matches, front);
      StepKeepsInv(matches, Exec(matches, INIT, front), a);
    }
  }

  // ---- What holds in every run --------------------------------------------------------

  /** A dispatch happens only after the record: it is in the log before the dispatching step. */
  lemma RecordPrecedesDispatch(matches: Matcher, acts: seq<Action>, a: Action)
    ensures var s := Exec(matches, INIT, acts);
            var t := Step(matches, s, a);
            s.dispatched <= t.dispatched &&
            (t.dispatched != s.dispatched ==>
               |t.dispatched| == |s.dispatched| + 1 && exists x :: x in s.log && x.record == Some(t.dispatched[|s.dispatched|]))
  {
    hide Exec, HasRecord;
    RunKeepsInv(matches, acts);
    var s := Exec(matches, INIT, acts);
    forall m ensures HasRecord(s.log, m) <==> exists x :: x in s.log && x.record == Some(m) {
      RecordText(s.log, m);
    }
    if a.Dispatch? && a.w in s.passes {
      assert PassOk(matches, s, s.passes[a.w]);
    }
  }

  /** Whenever the saved cursor has passed an event, a pass had loaded some triggers, the event lay in
      its batch, and each of those triggers either does not match it, has its match record, or was
      reported as failed.  No pair the lock refused is among them. */
  lemma CursorPassesOnlySettledPairs(matches: Matcher, acts: seq<Action>, i: nat) returns (ack: Ack)
    requires i < Exec(matches, INIT, acts).cursor
    ensures var s := Exec(matches, INIT, acts);
            && i < |s.log| && ack in s.acks && ack.from <= i < ack.to <= |s.log| && |ack.rows| == ack.to - ack.from
            && |ack.rows[i - ack.from]| == |ack.triggers|
            && forall j :: 0 <= j < |ack.triggers| ==>
                 || !matches(s.log[i], ack.triggers[j])
                 || (exists x :: x in s.log && x.record == Some(Match(ack.triggers[j].manifest, s.log[i].id)))
                 || Match(ack.triggers[j].manifest, s.log[i].id) in s.reported
  {
    hide Exec, HasRecord, Justified, PassOk;
    RunKeepsInv(matches, acts);
    var s := Exec(matches, INIT, acts);
    assert Covered(s.acks, i);
    ack :| ack in s.acks && ack.from <= i < ack.to;
    assert AckOk(matches, s, ack);
    assert RowOk(matches, s.log, s.reported, ack.triggers, s.log[ack.from + (i - ack.from)], ack.rows[i - ack.from]);
    forall j | 0 <= j < |ack.triggers|
      ensures || !matches(s.log[i], ack.triggers[j])
              || (exists x :: x in s.log && x.record == Some(Match(ack.triggers[j].manifest, s.log[i].id)))
              || Match(ack.triggers[j].manifest, s.log[i].id) in s.reported
    {
      assert Justified(matches, s.log, s.reported, ack.triggers[j], s.log[i], ack.rows[i - ack.from][j]);
      JustifiedText(matches, s.log, s.reported, ack.triggers[j], s.log[i], ack.rows[i - ack.from][j]);
    }
  }

  lemma JustifiedText(matches: Matcher, log: seq<Event>, reported: seq<Match>, t: Trigger, e: Event, o: Outcome)
    requires Justified(matches, log, reported, t, e, o)
    ensures || !matches(e, t) || (exists x :: x in log && x.record == Some(Match(t.manifest, e.id)))
            || Match(t.manifest, e.id) in reported
  {
  }

  // ---- At most once -------------------------------------------------------------------

  /** A pass starts only when no other is still running. */
  predicate StartsAlone(s: State, a: Action) {
    a.Acquire? && s.leader.None? && a.w !in s.passes ==> s.passes == map[]
  }

  ghost predicate StartsAloneAt(matches: Matcher, acts: seq<Action>, k: nat)
    requires k < |acts|
  {
    StartsAlone(Exec(matches, INIT, acts[..k]), acts[k])
  }

  /** Sessions may die, but no pass starts beside one that still runs. */
  ghost predicate NoOverlap(matches: Matcher, acts: seq<Action>) {
    forall k :: 0 <= k < |acts| ==> StartsAloneAt(matches, acts, k)
  }

  ghost predicate Lone(s: State) {
    forall w, v :: w in s.passes && v in s.passes ==> w == v
  }

  /** What a lone pass knows about the current pair. */
  ghost predicate PairOnce(s: State, p: Pass) {
    && (AtPair(s, p) && p.phase == Fresh ==> !HasRecord(s.log, PairAt(s, p)))
    && (AtPair(s, p) && p.phase == Recorded ==> PairAt(s, p) !in s.dispatched)
  }

  ghost predicate Once(s: State) {
    Lone(s) && NoRepeats(s.dispatched) && forall w :: w in s.passes ==> PairOnce(s, s.passes[w])
  }

  lemma AppendKeepsOnce(matches: Matcher, s: State, body: string)
    requires Inv(matches, s) && Once(s)
    ensures Once(Step(matches, s, Append(body)))
  {
    var t := Step(matches, s, Append(body));
    forall m | HasRecord(t.log, m) ensures HasRecord(s.log, m) {
      var e :| e in t.log && e.record == Some(m);
      assert e in s.log;
    }
    hide HasRecord;
    forall w | w in t.passes ensures PairOnce(t, t.passes[w]) {
      assert PassOk(matches, s, s.passes[w]) && PairOnce(s, s.passes[w]);
    }
  }

  /** After a step of its own pass only the phases Fresh and Recorded claim anything. */
  lemma PassStepKeepsOnce(matches: Matcher, s: State, p: Pass, a: Action)
    requires Inv(matches, s) && Once(s) && !a.Append? && a.w in s.passes && s.passes[a.w] == p
    ensures Once(PassStep(matches, s, p, a))
  {
    hide HasRecord, PassOk, AckOk, CoveredTo;
    var t := PassStep(matches, s, p, a);
    assert PairOnce(s, p);
    assert forall v :: v in t.passes ==> v == a.w;
    if a.w in t.passes {
      var q := t.passes[a.w];
      match a
      case Dedup(w, readable) =>
      case Emit(w, result) =>
      case Dispatch(w, outcome) =>
      case _ =>
    }
  }

  lemma StepKeepsOnce(matches: Matcher, s: State, a: Action)
    requires Inv(matches, s) && Once(s) && StartsAlone(s, a)
    ensures Once(Step(matches, s, a))
  {
    match a
    case Append(body) => AppendKeepsOnce(matches, s, body);
    case Acquire(w, triggers) =>
    case Crash(w) =>
    case LoseSession(w) =>
    case _ =>
      if a.w in s.passes {
        PassStepKeepsOnce(matches, s, s.passes[a.w], a);
      }
  }

  lemma {:induction false} RunKeepsOnce(matches: Matcher, acts: seq<Action>)
    requires NoOverlap(matches, acts)
    ensures Once(Exec(matches, INIT, acts))
  {
    if acts != [] {
      var front, a := acts[..|acts| - 1], acts[|acts| - 1];
      NoOverlapPrefix(matches, acts, |acts| - 1);
      assert StartsAloneAt(matches, acts, |acts| - 1);
      hide Inv, Once, Step, NoOverlap;
      RunKeepsOnce(matches, front);
      RunKeepsInv(matches, front);
      StepKeepsOnce(matches, Exec(matches, INIT, front), a);
    }
  }

  lemma NoOverlapPrefix(matches: Matcher, acts: seq<Action>, n: nat)
    requires NoOverlap(matches, acts) && n <= |acts|
    ensures NoOverlap(matches, acts[..n])
  {
    hide Exec, StartsAlone;
    forall k | 0 <= k < n ensures StartsAloneAt(matches, acts[..n], k) {
      assert acts[..n][..k] == acts[..k];
      assert StartsAloneAt(matches, acts, k);
    }
  }

  ghost predicate AtMostOnce(matches: Matcher, acts: seq<Action>) {
    NoRepeats(Exec(matches, INIT, acts).dispatched)
  }

  /** In every run in which passes do not overlap - crashes, lost sessions, leader hand-offs and replayed
      batches included - each pair is dispatched at most once, and only with its match record committed. */
  lemma DispatchedAtMostOnce(matches: Matcher, acts: seq<Action>)
    requires NoOverlap(matches, acts)
    ensures AtMostOnce(matches, acts)
    ensures var s := Exec(matches, INIT, acts); forall m :: m in s.dispatched ==> exists x :: x in s.log && x.record == Some(m)
  {
    hide Exec, HasRecord;
    RunKeepsOnce(matches, acts);
    RunKeepsInv(matches, acts);
    var s := Exec(matches, INIT, acts);
    forall m | m in s.dispatched ensures exists x :: x in s.log && x.record == Some(m) {
      RecordText(s.log, m);
    }
  }

  // ---- When passes overlap ------------------------------------------------------------

  lemma Snoc(matches: Matcher, s: State, acts: seq<Action>, a: Action)
    ensures Exec(matches, s, acts + [a]) == Step(matches, Exec(matches, s, acts), a)
  {
    assert (acts + [a])[..|acts|] == acts;
  }

  /** Steps of these workers and events from elsewhere, where only `lossy` workers lose their session. */
  ghost predicate ByWorkers(acts: seq<Action>, ws: set<nat>, lossy: set<nat>) {
    forall a :: a in acts ==> (!a.Append? ==> a.w in ws) && (a.LoseSession? ==> a.w in lossy)
  }

  /** n events that every pass is done with. */
  ghost predicate Quiet(s: State, n: nat) {
    |s.log| == n && s.cursor == n && s.leader.None? && s.passes == map[] && s.dispatched == [] &&
    forall e :: e in s.log ==> e.record.None?
  }

  /** A pass over the one new event, which it reports as failed or does not match. */
  lemma SkipOne(matches: Matcher, acts: seq<Action>, n: nat, w: nat, t: Trigger) returns (longer: seq<Action>)
    requires Quiet(Exec(matches, INIT, acts), n) && ByWorkers(acts, {w}, {})
    ensures Quiet(Exec(matches, INIT, longer), n + 1) && ByWorkers(longer, {w}, {})
  {
    hide Exec;
    var s := Exec(matches, INIT, acts);
    Snoc(matches, INIT, acts, Append(""));
    var a1 := acts + [Append("")];
    Snoc(matches, INIT, a1, Acquire(w, [t]));
    var a2 := a1 + [Acquire(w, [t])];
    Snoc(matches, INIT, a2, Pull(w));
    var a3 := a2 + [Pull(w)];
    var p := Scanning([t], n, n + 1, [], [], Examining);
    var s3 := Exec(matches, INIT, a3);
    assert s3 == s.(log := s.log + [Event(n, "", None)], leader := Some(w), passes := map[w := p]);
    Snoc(matches, INIT, a3, Examine(w, Refused));
    var a4 := a3 + [Examine(w, Refused)];
    var s4 := Exec(matches, INIT, a4);
    assert s4.passes.Keys == {w} && s4.passes[w].Scanning? && s4.passes[w].from == n && s4.passes[w].to == n + 1 && |s4.passes[w].done| == 1;
    assert s4.(passes := map[], reported := []) == s3.(passes := map[], reported := []);
    Snoc(matches, INIT, a4, Save(w, true));
    longer := a4 + [Save(w, true)];
    assert Exec(matches, INIT, longer).passes == map[];
  }

  lemma {:induction false} SkipMany(matches: Matcher, n: nat, w: nat, t: Trigger) returns (acts: seq<Action>)
    ensures Quiet(Exec(matches, INIT, acts), n) && ByWorkers(acts, {w}, {})
  {
    if n == 0 {
      acts := [];
    } else {
      acts := SkipMany(matches, n - 1, w, t);
      acts := SkipOne(matches, acts, n - 1, w, t);
    }
  }

  /** A pass over event n and one trigger that has just read "not recorded". */
  function FreshPass(t: Trigger, n: nat): Pass {
    Scanning([t], n, n + 1, [], [], Fresh)
  }

  lemma ReachFresh(matches: Matcher, acts: seq<Action>, w: nat, n: nat, t: Trigger) returns (longer: seq<Action>)
    requires var s := Exec(matches, INIT, acts);
             && |s.log| == n + 1 && s.log[n].id == n && (forall e :: e in s.log ==> e.record.None?)
             && s.cursor == n && s.leader.None? && w !in s.passes && matches(s.log[n], t)
    ensures var s := Exec(matches, INIT, acts);
            Exec(matches, INIT, longer) == s.(leader := Some(w), passes := s.passes[w := FreshPass(t, n)])
    ensures forall ws: set<nat>, lossy: set<nat> :: w in ws && ByWorkers(acts, ws, lossy) ==> ByWorkers(longer, ws, lossy)
  {
    hide Exec;
    var s := Exec(matches, INIT, acts);
    Snoc(matches, INIT, acts, Acquire(w, [t]));
    var a1 := acts + [Acquire(w, [t])];
    Snoc(matches, INIT, a1, Pull(w));
    var a2 := a1 + [Pull(w)];
    var p := Scanning([t], n, n + 1, [], [], Examining);
    assert Exec(matches, INIT, a2) == s.(leader := Some(w), passes := s.passes[w := p]);
    Snoc(matches, INIT, a2, Examine(w, Clear));
    var a3 := a2 + [Examine(w, Clear)];
    assert Exec(matches, INIT, a3) == s.(leader := Some(w), passes := s.passes[w := p.(phase := Cleared)]);
    Snoc(matches, INIT, a3, Dedup(w, true));
    longer := a3 + [Dedup(w, true)];
  }

  lemma FinishFresh(matches: Matcher, acts: seq<Action>, w: nat, n: nat, t: Trigger) returns (longer: seq<Action>)
    requires var s := Exec(matches, INIT, acts);
             |s.log| > n && s.log[n].id == n && w in s.passes && s.passes[w] == FreshPass(t, n)
    ensures var s := Exec(matches, INIT, acts);
            var r := Exec(matches, INIT, longer);
            r.dispatched == s.dispatched + [Match(t.manifest, n)] && s.log <= r.log &&
            forall v :: v != w && v in s.passes ==> v in r.passes && r.passes[v] == s.passes[v]
    ensures forall ws: set<nat>, lossy: set<nat> :: w in ws && ByWorkers(acts, ws, lossy) ==> ByWorkers(longer, ws, lossy)
  {
    hide Exec;
    Snoc(matches, INIT, acts, Emit(w, Committed));
    var a1 := acts + [Emit(w, Committed)];
    Snoc(matches, INIT, a1, Dispatch(w, Started));
    longer := a1 + [Dispatch(w, Started)];
  }

  /** If the session that holds the advisory lock dies while its pass goes on, a second leader can
      read "not recorded" before the first one records: the pair is dispatched twice. */
  lemma LostSessionDispatchesTwice(matches: Matcher, n: nat, body: string, t: Trigger, w: nat, v: nat) returns (acts: seq<Action>)
    requires matches(Event(n, body, None), t) && w != v
    ensures Exec(matches, INIT, acts).dispatched == [Match(t.manifest, n), Match(t.manifest, n)]
    ensures ByWorkers(acts, {w, v}, {w})
  {
    acts := SkipMany(matches, n, w, t);
    assert ByWorkers(acts, {w, v}, {w});
    Snoc(matches, INIT, acts, Append(body));
    acts := acts + [Append(body)];
    hide Exec;
    assert ByWorkers(acts, {w, v}, {w});
    acts := ReachFresh(matches, acts, w, n, t);
    assert ByWorkers(acts, {w, v}, {w});
    Snoc(matches, INIT, acts, LoseSession(w));
    acts := acts + [LoseSession(w)];
    assert ByWorkers(acts, {w, v}, {w});
    acts := ReachFresh(matches, acts, v, n, t);
    acts := FinishFresh(matches, acts, v, n, t);
    acts := FinishFresh(matches, acts, w, n, t);
  }

  lemma TwiceIsTwice(matches: Matcher, acts: seq<Action>, m: Match)
    requires Exec(matches, INIT, acts).dispatched == [m, m]
    ensures !AtMostOnce(matches, acts)
  {
    hide Exec;
    var d := Exec(matches, INIT, acts).dispatched;
    assert d[0] == d[1];
  }

  /** Each pair is dispatched at most once in every run exactly when overlapping passes are ruled out. */
  lemma OnceIffNoOverlap(matches: Matcher, n: nat, body: string, t: Trigger, overlap: bool)
    requires matches(Event(n, body, None), t)
    ensures !overlap <==> forall acts :: overlap || NoOverlap(matches, acts) ==> AtMostOnce(matches, acts)
  {
    if overlap {
      var acts := LostSessionDispatchesTwice(matches, n, body, t, 0, 1);
      TwiceIsTwice(matches, acts, Match(t.manifest, n));
      hide NoOverlap, AtMostOnce;
      assert !AtMostOnce(matches, acts);
    } else {
      hide NoOverlap, AtMostOnce;
      forall acts | NoOverlap(matches, acts) ensures AtMostOnce(matches, acts) {
        DispatchedAtMostOnce(matches, acts);
      }
    }
  }

  // ---- Which deployments are safe -----------------------------------------------------

  /** A running pass holds the lock, unless its session may have died. */
  ghost predicate Guarded(s: State, ws: set<nat>, lossy: set<nat>) {
    Lone(s) && forall w :: w in s.passes ==> w in ws && (s.leader == Some(w) || w in lossy)
  }

  lemma StepKeepsGuarded(matches: Matcher, s: State, a: Action, ws: set<nat>, lossy: set<nat>)
    requires Guarded(s, ws, lossy) && ByWorkers([a], ws, lossy)
    requires forall w, v :: w in lossy && w in ws && v in ws ==> w == v
    ensures StartsAlone(s, a) && Guarded(Step(matches, s, a), ws, lossy)
  {
    hide HasRecord;
    assert a in [a];
    if a.Acquire? && s.leader.None? {
      var own := a.w;
      assert forall w :: w in s.passes ==> w == own;
      assert own !in s.passes ==> s.passes == map[];
    }
  }

  lemma {:induction false} RunIsGuarded(matches: Matcher, acts: seq<Action>, ws: set<nat>, lossy: set<nat>)
    requires ByWorkers(acts, ws, lossy)
    requires forall w, v :: w in lossy && w in ws && v in ws ==> w == v
    ensures Guarded(Exec(matches, INIT, acts), ws, lossy) && NoOverlap(matches, acts)
  {
    if acts != [] {
      var front, a := acts[..|acts| - 1], acts[|acts| - 1];
      RunIsGuarded(matches, front, ws, lossy);
      hide Step, Guarded;
      StepKeepsGuarded(matches, Exec(matches, INIT, front), a, ws, lossy);
      hide Exec, StartsAlone;
      forall k | 0 <= k < |acts| ensures StartsAloneAt(matches, acts, k) {
        if k < |front| {
          assert front[..k] == acts[..k] && front[k] == acts[k];
          assert StartsAloneAt(matches, front, k);
        }
      }
    }
  }

  /** Workers `ws`, of which the `lossy` may lose their session under a pass, dispatch each pair at most
      once in every run exactly when no lossy worker has another one beside it. */
  lemma OnceIffSessionsSafe(matches: Matcher, n: nat, body: string, t: Trigger, ws: set<nat>, lossy: set<nat>)
    requires matches(Event(n, body, None), t)
    ensures (forall w, v :: w in lossy && w in ws && v in ws ==> w == v) <==>
            forall acts :: ByWorkers(acts, ws, lossy) ==> AtMostOnce(matches, acts)
  {
    hide AtMostOnce;
    if w, v :| w in lossy && w in ws && v in ws && w != v {
      var acts := LostSessionDispatchesTwice(matches, n, body, t, w, v);
      TwiceIsTwice(matches, acts, Match(t.manifest, n));
      assert ByWorkers(acts, ws, lossy) && !AtMostOnce(matches, acts);
    } else {
      hide ByWorkers;
      forall acts | ByWorkers(acts, ws, lossy) ensures AtMostOnce(matches, acts) {
        RunIsGuarded(matches, acts, ws, lossy);
        DispatchedAtMostOnce(matches, acts);
      }
    }
  }

  // ---- A refused pair stays ahead -----------------------------------------------------

  /** The step is no examination of event i for trigger t, or it meets the emergency lock; and a pass that
      starts loads t. */
  predicate KeptLocked(matches: Matcher, s: State, a: Action, i: nat, t: Trigger) {
    && (a.Acquire? ==> t in a.triggers)
    && (a.Examine? && a.w in s.passes ==>
          var p := s.passes[a.w];
          AtPair(s, p) && p.from + |p.done| == i && TriggerAt(s, p) == t ==> matches(EventAt(s, p), t) && a.verdict == Locked)
  }

  ghost predicate KeptLockedAt(matches: Matcher, s: State, acts: seq<Action>, k: nat, i: nat, t: Trigger)
    requires k < |acts|
  {
    KeptLocked(matches, Exec(matches, s, acts[..k]), acts[k], i, t)
  }

  /** The pass has not left the pair behind. */
  ghost predicate PassBehind(p: Pass, i: nat, t: Trigger) {
    && t in p.triggers
    && (p.Scanning? ==> && p.from + |p.done| <= i && |p.row| < |p.triggers|
                        && (p.from + |p.done| == i ==> t !in p.triggers[..|p.row|] && (p.triggers[|p.row|] == t ==> p.phase == Examining)))
  }

  ghost predicate Behind(s: State, i: nat, t: Trigger) {
    s.cursor <= i && forall w :: w in s.passes ==> PassBehind(s.passes[w], i, t)
  }

  lemma AdvanceBehind(p: Pass, i: nat, t: Trigger, o: Outcome)
    requires p.Scanning? && PassBehind(p, i, t) && (p.from + |p.done| == i ==> p.triggers[|p.row|] != t)
    ensures PassBehind(Advance(p, o), i, t)
  {
    assert p.triggers[..|p.row| + 1] == p.triggers[..|p.row|] + [p.triggers[|p.row|]];
    assert p.triggers[..|p.triggers|] == p.triggers;
  }

  lemma StepStaysBehind(matches: Matcher, s: State, a: Action, i: nat, t: Trigger)
    requires Behind(s, i, t) && KeptLocked(matches, s, a, i, t)
    ensures Behind(Step(matches, s, a), i, t)
  {
    hide HasRecord;
    if !a.Append? && a.w in s.passes {
      var p := s.passes[a.w];
      assert PassBehind(p, i, t);
      if p.Scanning? && !(p.from + |p.done| == i && p.triggers[|p.row|] == t) {
        forall o ensures PassBehind(Advance(p, o), i, t) {
          AdvanceBehind(p, i, t, o);
        }
      }
      hide Advance;
    }
  }

  /** While every pass loads the trigger and every examination of the pair meets the emergency lock, the
      cursor never passes the event, whatever else happens. */
  lemma {:induction false} LockHoldsCursor(matches: Matcher, s: State, acts: seq<Action>, i: nat, t: Trigger)
    requires Behind(s, i, t)
    requires forall k :: 0 <= k < |acts| ==> KeptLockedAt(matches, s, acts, k, i, t)
    ensures Behind(Exec(matches, s, acts), i, t) && Exec(matches, s, acts).cursor <= i
  {
    if acts != [] {
      var front := acts[..|acts| - 1];
      forall k | 0 <= k < |front| ensures KeptLockedAt(matches, s, front, k, i, t) {
        hide KeptLocked, Exec;
        assert front[..k] == acts[..k];
        assert KeptLockedAt(matches, s, acts, k, i, t);
      }
      LockHoldsCursor(matches, s, front, i, t);
      assert KeptLockedAt(matches, s, acts, |acts| - 1, i, t);
      hide KeptLocked, Step;
      StepStaysBehind(matches, Exec(matches, s, front), acts[|acts| - 1], i, t);
    }
  }

  // ---- One pass as the code runs it ---------------------------------------------------

  /** What the environment answers for the pair (event index in the batch, trigger index). */
  datatype Environment = Environment(
    verdict: (nat, nat) -> Verdict,
    readable: (nat, nat) -> bool,
    emit: (nat, nat) -> EmitResult,
    dispatch: (nat, nat) -> DispatchResult,
    saved: bool)

  datatype Processed = Handled | Error | LockedOut

  lemma {:induction false} Concat(matches: Matcher, s: State, front: seq<Action>, back: seq<Action>)
    ensures Exec(matches, s, front + back) == Exec(matches, Exec(matches, s, front), back)
  {
    hide Step;
    if back == [] {
      assert front + back == front;
    } else {
      var last := back[|back| - 1];
      Concat(matches, s, front, back[..|back| - 1]);
      assert front + back == front + back[..|back| - 1] + [last];
      Snoc(matches, s, front + back[..|back| - 1], last);
    }
  }

  lemma Empty(matches: Matcher, s: State)
    ensures Exec(matches, s, []) == s
  {
  }

  /** The step worker `w` takes next, as the environment answers it. */
  function Turn(s: State, w: nat, triggers: seq<Trigger>, env: Environment): Action {
    if w !in s.passes then Acquire(w, triggers)
    else match s.passes[w]
      case Loaded(_) => Pull(w)
      case Scanning(_, from, to, done, row, phase) =>
        if from + |done| >= to then Save(w, env.saved)
        else match phase
          case Examining => Examine(w, env.verdict(|done|, |row|))
          case Cleared => Dedup(w, env.readable(|done|, |row|))
          case Fresh => Emit(w, env.emit(|done|, |row|))
          case Recorded => Dispatch(w, env.dispatch(|done|, |row|))
  }

  /** The first k steps leave the pass running, unless they are none. */
  ghost predicate Going(matches: Matcher, s: State, acts: seq<Action>, w: nat) {
    acts == [] || w in Exec(matches, s, acts).passes
  }

  ghost predicate PlayedAt(matches: Matcher, s: State, acts: seq<Action>, k: nat, w: nat, triggers: seq<Trigger>, env: Environment)
    requires k < |acts|
  {
    Going(matches, s, acts[..k], w) && acts[k] == Turn(Exec(matches, s, acts[..k]), w, triggers, env)
  }

  /** Every step is the worker's next one, within one pass. */
  ghost predicate Played(matches: Matcher, s: State, acts: seq<Action>, w: nat, triggers: seq<Trigger>, env: Environment) {
    forall k :: 0 <= k < |acts| ==> PlayedAt(matches, s, acts, k, w, triggers, env)
  }

  lemma PlayNone(matches: Matcher, s: State, w: nat, triggers: seq<Trigger>, env: Environment)
    ensures Played(matches, s, [], w, triggers, env) && Exec(matches, s, []) == s
  {
  }

  /** One more step of the worker. */
  lemma Play(matches: Matcher, s: State, acts: seq<Action>, a: Action, w: nat, triggers: seq<Trigger>, env: Environment)
    requires Played(matches, s, acts, w, triggers, env) && Going(matches, s, acts, w)
    requires a == Turn(Exec(matches, s, acts), w, triggers, env)
    ensures Played(matches, s, acts + [a], w, triggers, env)
    ensures Exec(matches, s, acts + [a]) == Step(matches, Exec(matches, s, acts), a)
  {
    Snoc(matches, s, acts, a);
    hide Exec, Turn, Going, Step;
    var longer := acts + [a];
    assert longer[..|acts|] == acts;
    forall k | 0 <= k < |acts| ensures PlayedAt(matches, s, longer, k, w, triggers, env) {
      assert longer[..k] == acts[..k];
      assert PlayedAt(matches, s, acts, k, w, triggers, env);
    }
  }

  lemma {:induction false} PlayOn(matches: Matcher, s: State, front: seq<Action>, back: seq<Action>, w: nat, triggers: seq<Trigger>, env: Environment)
    requires Played(matches, s, front, w, triggers, env) && Going(matches, s, front, w)
    requires Played(matches, Exec(matches, s, front), back, w, triggers, env)
    requires w in Exec(matches, s, front).passes
    ensures Played(matches, s, front + back, w, triggers, env)
    ensures Exec(matches, s, front + back) == Exec(matches, Exec(matches, s, front), back)
  {
    Concat(matches, s, front, back);
    hide Exec, Turn, Going, PlayedAt;
    var all := front + back;
    forall k | 0 <= k < |all| ensures PlayedAt(matches, s, all, k, w, triggers, env) {
      if k < |front| {
        assert PlayedAt(matches, s, front, k, w, triggers, env);
        PlayedBefore(matches, s, front, back, k, w, triggers, env);
      } else {
        assert PlayedAt(matches, Exec(matches, s, front), back, k - |front|, w, triggers, env);
        PlayedBehind(matches, s, front, back, k - |front|, w, triggers, env);
      }
    }
  }

  lemma PlayedBefore(matches: Matcher, s: State, front: seq<Action>, back: seq<Action>, k: nat, w: nat, triggers: seq<Trigger>, env: Environment)
    requires k < |front| && PlayedAt(matches, s, front, k, w, triggers, env)
    ensures PlayedAt(matches, s, front + back, k, w, triggers, env)
  {
    hide Exec, Turn, Going;
    assert (front + back)[..k] == front[..k] && (front + back)[k] == front[k];
  }

  lemma PlayedBehind(matches: Matcher, s: State, front: seq<Action>, back: seq<Action>, i: nat, w: nat, triggers: seq<Trigger>, env: Environment)
    requires i < |back| && PlayedAt(matches, Exec(matches, s, front), back, i, w, triggers, env) && w in Exec(matches, s, front).passes
    ensures PlayedAt(matches, s, front + back, |front| + i, w, triggers, env)
  {
    Empty(matches, Exec(matches, s, front));
    hide Exec, Turn;
    assert (front + back)[..|front| + i] == front + back[..i] && (front + back)[|front| + i] == back[i];
    Concat(matches, s, front, back[..i]);
  }

  /** The steps of a lone pass, one phase at a time. */
  lemma SoloStep(matches: Matcher, s: State, w: nat, p: Pass, a: Action)
    requires s.leader == Some(w) && s.passes == map[w := p] && AtPair(s, p) && !a.Append? && a.w == w
    requires p.phase == Examining ==> matches(EventAt(s, p), TriggerAt(s, p))
    ensures a == Examine(w, Clear) && p.phase == Examining ==>
              Step(matches, s, a) == s.(passes := map[w := p.(phase := Cleared)])
    ensures a == Examine(w, Refused) && p.phase == Examining ==>
              Step(matches, s, a) == s.(passes := map[w := Advance(p, Failed)], reported := s.reported + [PairAt(s, p)])
    ensures a == Examine(w, Locked) && p.phase == Examining ==> Step(matches, s, a) == s.(passes := map[], leader := None)
    ensures a == Dedup(w, true) && p.phase == Cleared ==>
              Step(matches, s, a) == s.(passes := map[w := if HasRecord(s.log, PairAt(s, p)) then Advance(p, Duplicate) else p.(phase := Fresh)])
    ensures a == Dedup(w, false) && p.phase == Cleared ==>
              Step(matches, s, a) == s.(passes := map[w := Advance(p, Failed)], reported := s.reported + [PairAt(s, p)])
  {
    hide HasRecord;
    assert map[w := p] - {w} == map[];
    assert forall q :: map[w := p][w := q] == map[w := q];
  }

  lemma SoloWrite(matches: Matcher, s: State, w: nat, p: Pass, emit: EmitResult, dispatch: DispatchResult)
    requires s.leader == Some(w) && s.passes == map[w := p] && AtPair(s, p) && (p.phase == Fresh || p.phase == Recorded)
    ensures p.phase == Fresh ==>
              Step(matches, s, Emit(w, emit)) ==
              match emit
              case Committed => Emitted(s, PairAt(s, p)).(passes := map[w := p.(phase := Recorded)])
              case RolledBack => s.(passes := map[w := Advance(p, Failed)], reported := s.reported + [PairAt(s, p)])
              case CommittedUnseen =>
                Emitted(s, PairAt(s, p)).(passes := map[w := Advance(p, Failed)], reported := s.reported + [PairAt(s, p)])
    ensures p.phase == Recorded ==>
              Step(matches, s, Dispatch(w, dispatch)) ==
              match dispatch
              case NoBroker => s.(passes := map[w := Advance(p, Matched)])
              case PrepareFailed => s.(passes := map[w := Advance(p, Failed)], reported := s.reported + [PairAt(s, p)])
              case Started => s.(passes := map[w := Advance(p, Matched)], dispatched := s.dispatched + [PairAt(s, p)])
  {
    hide HasRecord;
    assert forall q :: map[w := p][w := q] == map[w := q];
  }

  lemma AdvanceIgnoresPhase(p: Pass, q: Pass, o: Outcome)
    requires p.Scanning? && q.Scanning? && q == p.(phase := q.phase)
    ensures Advance(q, o) == Advance(p, o)
  {
  }

  /** The environment's answers for the pair the pass stands at. */
  ghost predicate Answers(env: Environment, p: Pass, verdict: Verdict, readable: bool, emit: EmitResult, dispatch: DispatchResult)
    requires p.Scanning?
  {
    && verdict == env.verdict(|p.done|, |p.row|) && readable == env.readable(|p.done|, |p.row|)
    && emit == env.emit(|p.done|, |p.row|) && dispatch == env.dispatch(|p.done|, |p.row|)
  }

  lemma TurnAt(s: State, w: nat, p: Pass, env: Environment)
    requires s.passes == map[w := p] && AtPair(s, p)
    ensures Turn(s, w, p.triggers, env) ==
            match p.phase
            case Examining => Examine(w, env.verdict(|p.done|, |p.row|))
            case Cleared => Dedup(w, env.readable(|p.done|, |p.row|))
            case Fresh => Emit(w, env.emit(|p.done|, |p.row|))
            case Recorded => Dispatch(w, env.dispatch(|p.done|, |p.row|))
  {
  }

  lemma RecordText(log: seq<Event>, m: Match)
    ensures HasRecord(log, m) <==> exists x :: x in log && x.record == Some(m)
  {
  }

  /** Every answer lets the pair through to its dispatch. */
  ghost predicate Willing(env: Environment) {
    forall i, j :: env.verdict(i, j) == Clear && env.readable(i, j) && env.emit(i, j) == Committed && env.dispatch(i, j) == Started
  }

  /** The pair was recorded before the pass, or is dispatched. */
  ghost predicate Served(before: seq<Event>, dispatched: seq<Match>, m: Match) {
    (exists x :: x in before && x.record == Some(m)) || m in dispatched
  }

  /** Every record added since belongs to a dispatched pair. */
  ghost predicate Accounted(before: seq<Event>, log: seq<Event>, dispatched: seq<Match>) {
    forall x :: x in log && x.record.Some? ==> x in before || x.record.value in dispatched
  }

  /** A pair let through is served: what its dedup read finds was there before or comes with a dispatch. */
  lemma LetThrough(before: seq<Event>, log: seq<Event>, dispatched: seq<Match>, m: Match, log': seq<Event>, dispatched': seq<Match>)
    requires Accounted(before, log, dispatched)
    requires if exists x :: x in log && x.record == Some(m) then log' == log && dispatched' == dispatched
             else log' == log + [Event(|log|, "workflow.event.matched", Some(m))] && dispatched' == dispatched + [m]
    ensures Served(before, dispatched', m) && Accounted(before, log', dispatched') && dispatched <= dispatched'
  {
  }

  lemma ServedStays(before: seq<Event>, dispatched: seq<Match>, more: seq<Match>, m: Match)
    requires Served(before, dispatched, m) && dispatched <= more
    ensures Served(before, more, m)
  {
  }

  ghost predicate AllServed(matches: Matcher, before: seq<Event>, dispatched: seq<Match>, e: Event, triggers: seq<Trigger>) {
    forall j :: 0 <= j < |triggers| && matches(e, triggers[j]) ==> Served(before, dispatched, Match(triggers[j].manifest, e.id))
  }

  lemma AllServedStays(matches: Matcher, before: seq<Event>, dispatched: seq<Match>, more: seq<Match>, e: Event, triggers: seq<Trigger>)
    requires AllServed(matches, before, dispatched, e, triggers) && dispatched <= more
    ensures AllServed(matches, before, more, e, triggers)
  {
    hide Served;
    forall j | 0 <= j < |triggers| && matches(e, triggers[j]) ensures Served(before, more, Match(triggers[j].manifest, e.id)) {
      ServedStays(before, dispatched, more, Match(triggers[j].manifest, e.id));
    }
  }

  lemma AllServedSnoc(matches: Matcher, before: seq<Event>, dispatched: seq<Match>, e: Event, triggers: seq<Trigger>, j: nat)
    requires j < |triggers| && AllServed(matches, before, dispatched, e, triggers[..j])
    requires matches(e, triggers[j]) ==> Served(before, dispatched, Match(triggers[j].manifest, e.id))
    ensures AllServed(matches, before, dispatched, e, triggers[..j + 1])
  {
    hide Served;
  }

  /** Every event of the batch, against every trigger. */
  ghost predicate BatchServed(matches: Matcher, before: seq<Event>, dispatched: seq<Match>, batch: seq<Event>, triggers: seq<Trigger>) {
    forall i :: 0 <= i < |batch| ==> AllServed(matches, before, dispatched, batch[i], triggers)
  }

  lemma BatchServedSnoc(matches: Matcher, before: seq<Event>, dispatched: seq<Match>, more: seq<Match>, batch: seq<Event>, i: nat, triggers: seq<Trigger>)
    requires i < |batch| && BatchServed(matches, before, dispatched, batch[..i], triggers) && dispatched <= more
    requires AllServed(matches, before, more, batch[i], triggers)
    ensures BatchServed(matches, before, more, batch[..i + 1], triggers)
  {
    hide AllServed;
    var longer := batch[..i + 1];
    forall k | 0 <= k < |longer| ensures AllServed(matches, before, more, longer[k], triggers) {
      if k < i {
        assert longer[k] == batch[..i][k];
        AllServedStays(matches, before, dispatched, more, batch[..i][k], triggers);
      }
    }
  }

  /** The event log, the cursor row and the dispatches, as the loop changes them. */
  class TriggerStore {
    var log: seq<Event>
    var cursor: nat
    var dispatched: seq<Match>
    var reported: seq<Match>
    ghost var acks: seq<Ack>

    ghost function View(leader: Option<nat>, passes: map<nat, Pass>): State
      reads this
    {
      State(log, cursor, leader, passes, dispatched, reported, acks)
    }

    /** The store while worker `w` runs the pass `p`. */
    ghost function Running(w: nat, p: Pass): State
      reads this
    {
      View(Some(w), map[w := p])
    }

    /** processMatchedTrigger: the steps it takes are steps of the pass, ending with the pair left
        behind or, for a lock refusal, with the pass given up. */
    method ProcessMatchedTrigger(matches: Matcher, w: nat, trigger: Trigger, event: Event, verdict: Verdict, readable: bool,
                                 emit: EmitResult, dispatch: DispatchResult, ghost p: Pass, ghost env: Environment)
      returns (r: Processed, ghost acts: seq<Action>, ghost o: Outcome)
      requires AtPair(Running(w, p), p) && p.phase == Examining && matches(event, trigger)
      requires event == EventAt(Running(w, p), p) && trigger == TriggerAt(Running(w, p), p)
      requires Answers(env, p, verdict, readable, emit, dispatch)
      modifies this`log, this`dispatched
      ensures Played(matches, old(Running(w, p)), acts, w, p.triggers, env) && old(log) <= log
      ensures r == LockedOut ==> Exec(matches, old(Running(w, p)), acts) == View(None, map[])
      ensures r == Handled ==> Exec(matches, old(Running(w, p)), acts) == Running(w, Advance(p, o))
      ensures r == Error ==> Exec(matches, old(Running(w, p)), acts) ==
                             Running(w, Advance(p, Failed)).(reported := reported + [Match(trigger.manifest, event.id)])
      ensures var pair := Match(trigger.manifest, event.id);
              var through := verdict == Clear && readable && !exists x :: x in old(log) && x.record == Some(pair);
              && (r == LockedOut <==> verdict == Locked)
              && (r == Error <==> || verdict == Refused || (verdict == Clear && !readable)
                                  || (through && (emit != Committed || dispatch == PrepareFailed)))
              && log == old(log) + (if through && emit != RolledBack then [Event(|old(log)|, "workflow.event.matched", Some(pair))] else [])
              && dispatched == old(dispatched) + (if through && emit == Committed && dispatch == Started then [pair] else [])
    {
      hide Exec, HasRecord, Step, Advance, Played, Turn;
      o := Failed;
      var pair := Match(trigger.manifest, event.id);
      ghost var s0 := Running(w, p);
      PlayNone(matches, s0, w, p.triggers, env);
      SoloStep(matches, s0, w, p, Examine(w, verdict));
      TurnAt(s0, w, p, env);
      Play(matches, s0, [], Examine(w, verdict), w, p.triggers, env);
      acts := [] + [Examine(w, verdict)];
      if verdict == Locked {
        return LockedOut, acts, o;
      }
      if verdict == Refused {
        return Error, acts, o;
      }
      ghost var q := p.(phase := Cleared);
      SoloStep(matches, Running(w, q), w, q, Dedup(w, readable));
      TurnAt(Running(w, q), w, q, env);
      Play(matches, s0, acts, Dedup(w, readable), w, p.triggers, env);
      acts := acts + [Dedup(w, readable)];
      if !readable {
        AdvanceIgnoresPhase(p, q, Failed);
        return Error, acts, o;
      }
      RecordText(log, pair);
      if HasRecord(log, pair) {
        AdvanceIgnoresPhase(p, q, Duplicate);
        return Handled, acts, Duplicate;
      }
      q := p.(phase := Fresh);
      assert Exec(matches, s0, acts) == Running(w, q);
      r, acts, o := RecordAndDispatch(matches, w, pair, emit, dispatch, p, s0, acts, env);
    }

    /** The second half: emit the record, then dispatch. */
    method RecordAndDispatch(matches: Matcher, w: nat, pair: Match, emit: EmitResult, dispatch: DispatchResult,
                             ghost p: Pass, ghost s0: State, ghost before: seq<Action>, ghost env: Environment)
      returns (r: Processed, ghost acts: seq<Action>, ghost o: Outcome)
      requires AtPair(Running(w, p), p) && pair == PairAt(Running(w, p), p) && Played(matches, s0, before, w, p.triggers, env)
      requires emit == env.emit(|p.done|, |p.row|) && dispatch == env.dispatch(|p.done|, |p.row|)
      requires Exec(matches, s0, before) == Running(w, p.(phase := Fresh))
      modifies this`log, this`dispatched
      ensures Played(matches, s0, acts, w, p.triggers, env) && old(log) <= log && r != LockedOut
      ensures r == Handled ==> Exec(matches, s0, acts) == Running(w, Advance(p, o))
      ensures r == Error ==> Exec(matches, s0, acts) == Running(w, Advance(p, Failed)).(reported := reported + [pair])
      ensures r == Error <==> emit != Committed || dispatch == PrepareFailed
      ensures log == old(log) + (if emit != RolledBack then [Event(|old(log)|, "workflow.event.matched", Some(pair))] else [])
      ensures dispatched == old(dispatched) + (if emit == Committed && dispatch == Started then [pair] else [])
    {
      hide Exec, HasRecord, Step, Advance, Played, Turn;
      o := Failed;
      ghost var q := p.(phase := Fresh);
      SoloWrite(matches, Running(w, q), w, q, emit, dispatch);
      TurnAt(Running(w, q), w, q, env);
      Play(matches, s0, before, Emit(w, emit), w, p.triggers, env);
      acts := before + [Emit(w, emit)];
      AdvanceIgnoresPhase(p, q, Failed);
      if emit != RolledBack {
        log := log + [Event(|log|, "workflow.event.matched", Some(pair))];
      }
      if emit != Committed {
        return Error, acts, o;
      }
      q := p.(phase := Recorded);
      SoloWrite(matches, Running(w, q), w, q, emit, dispatch);
      AdvanceIgnoresPhase(p, q, Failed);
      AdvanceIgnoresPhase(p, q, Matched);
      TurnAt(Running(w, q), w, q, env);
      Play(matches, s0, acts, Dispatch(w, dispatch), w, p.triggers, env);
      acts := acts + [Dispatch(w, dispatch)];
      if dispatch == NoBroker {
        return Handled, acts, Matched;
      }
      if dispatch == PrepareFailed {
        return Error, acts, o;
      }
      dispatched := dispatched + [pair];
      return Handled, acts, Matched;
    }

    /** The inner loop: one event against every loaded trigger. */
    method ScanEvent(matches: Matcher, w: nat, triggers: seq<Trigger>, event: Event, env: Environment, i: nat, ghost p: Pass,
                     ghost before: seq<Event>)
      returns (locked: bool, ghost acts: seq<Action>, ghost q: Pass)
      requires triggers != [] && p.Scanning? && p == Scanning(triggers, p.from, p.to, p.done, [], Examining)
      requires AtPair(Running(w, p), p) && event == EventAt(Running(w, p), p) && i == |p.done|
      requires Willing(env) ==> Accounted(before, log, dispatched)
      modifies this`log, this`dispatched, this`reported
      ensures old(dispatched) <= dispatched
      ensures Willing(env) ==> !locked && Accounted(before, log, dispatched) && AllServed(matches, before, dispatched, event, triggers)
      ensures Played(matches, old(Running(w, p)), acts, w, triggers, env) && old(log) <= log
      ensures locked ==> Exec(matches, old(Running(w, p)), acts) == View(None, map[])
      ensures !locked ==>
                && q.Scanning? && q == Scanning(triggers, p.from, p.to, q.done, [], Examining) && |q.done| == |p.done| + 1
                && Exec(matches, old(Running(w, p)), acts) == Running(w, q)
    {
      hide Exec, Step, HasRecord, Played, Turn, Served, Accounted, AllServed;
      q, acts := p, [];
      ghost var s0 := Running(w, p);
      PlayNone(matches, s0, w, triggers, env);
      NoneServed(matches, before, dispatched, event, triggers);
      for j := 0 to |triggers|
        invariant old(dispatched) <= dispatched
        invariant Willing(env) ==> Accounted(before, log, dispatched) && AllServed(matches, before, dispatched, event, triggers[..j])
        invariant Played(matches, s0, acts, w, triggers, env) && old(log) <= log
        invariant q.Scanning? && q == Scanning(triggers, p.from, p.to, q.done, q.row, Examining)
        invariant if j < |triggers| then q.done == p.done && |q.row| == j else |q.done| == |p.done| + 1 && q.row == []
        invariant Exec(matches, s0, acts) == Running(w, q)
      {
        var trigger := triggers[j];
        if !matches(event, trigger) {
          TurnAt(Running(w, q), w, q, env);
          Play(matches, s0, acts, Examine(w, env.verdict(i, j)), w, triggers, env);
          SoloMiss(matches, Running(w, q), w, q, env.verdict(i, j));
          acts := acts + [Examine(w, env.verdict(i, j))];
          q := Advance(q, NonMatch);
          if Willing(env) {
            AllServedSnoc(matches, before, dispatched, event, triggers, j);
          }
        } else {
          ghost var more, o;
          ghost var log0, dispatched0 := log, dispatched;
          var r;
          r, more, o := ProcessMatchedTrigger(matches, w, trigger, event, env.verdict(i, j), env.readable(i, j),
                                              env.emit(i, j), env.dispatch(i, j), q, env);
          PlayOn(matches, s0, acts, more, w, triggers, env);
          acts := acts + more;
          if Willing(env) {
            assert env.verdict(i, j) == Clear;
            LetThrough(before, log0, dispatched0, Match(trigger.manifest, event.id), log, dispatched);
            AllServedStays(matches, before, dispatched0, dispatched, event, triggers[..j]);
            AllServedSnoc(matches, before, dispatched, event, triggers, j);
          }
          if r == LockedOut {
            return true, acts, q;
          }
          if r == Error {
            reported := reported + [Match(trigger.manifest, event.id)];
            o := Failed;
          }
          q := Advance(q, o);
        }
      }
      assert triggers[..|triggers|] == triggers;
      locked := false;
    }

    /** The outer loop: every event of the batch. */
    method ScanBatch(matches: Matcher, w: nat, triggers: seq<Trigger>, batch: seq<Event>, env: Environment, ghost p: Pass,
                     ghost before: seq<Event>)
      returns (locked: bool, ghost acts: seq<Action>, ghost q: Pass)
      requires triggers != [] && p.Scanning? && p == Scanning(triggers, p.from, p.to, [], [], Examining)
      requires p.from <= p.to <= |log| && batch == log[p.from..p.to]
      requires Willing(env) ==> Accounted(before, log, dispatched)
      modifies this`log, this`dispatched, this`reported
      ensures Willing(env) ==> !locked && BatchServed(matches, before, dispatched, batch, triggers)
      ensures Played(matches, old(Running(w, p)), acts, w, triggers, env)
      ensures locked ==> Exec(matches, old(Running(w, p)), acts) == View(None, map[])
      ensures !locked ==>
                && q.Scanning? && q == Scanning(triggers, p.from, p.to, q.done, [], Examining) && |q.done| == |batch|
                && Exec(matches, old(Running(w, p)), acts) == Running(w, q)
    {
      hide Exec, Step, HasRecord, Played, Turn, Willing, Accounted, AllServed;
      q, acts := p, [];
      ghost var s0 := Running(w, p);
      PlayNone(matches, s0, w, triggers, env);
      for i := 0 to |batch|
        invariant Willing(env) ==> Accounted(before, log, dispatched) && BatchServed(matches, before, dispatched, batch[..i], triggers)
        invariant old(log) <= log && Played(matches, s0, acts, w, triggers, env)
        invariant q.Scanning? && q == Scanning(triggers, p.from, p.to, q.done, [], Examining) && |q.done| == i
        invariant Exec(matches, s0, acts) == Running(w, q)
      {
        PrefixAt(old(log), log, p.from + i);
        ghost var more;
        ghost var dispatched0 := dispatched;
        locked, more, q := ScanEvent(matches, w, triggers, batch[i], env, i, q, before);
        if Willing(env) {
          BatchServedSnoc(matches, before, dispatched0, dispatched, batch, i, triggers);
        }
        PlayOn(matches, s0, acts, more, w, triggers, env);
        acts := acts + more;
        if locked {
          return;
        }
      }
      assert batch[..|batch|] == batch;
      locked := false;
    }

    /** runWorkflowEventTriggersPass with the leader lock obtained: all it does to the store is one run
        of worker `w` from the acquired lock to its release, step by step as the environment answers. */
    method RunWorkflowEventTriggersPass(matches: Matcher, w: nat, triggers: seq<Trigger>, env: Environment)
      returns (ghost acts: seq<Action>)
      modifies this
      ensures acts != [] && Played(matches, old(View(None, map[])), acts, w, triggers, env)
      ensures Exec(matches, old(View(None, map[])), acts) == View(None, map[])
      ensures Willing(env) ==>
                forall i, t :: old(cursor) <= i < |old(log)| && i < old(cursor) + 100 && t in triggers && matches(old(log)[i], t) &&
                               (forall x :: x in old(log) ==> x.record != Some(Match(t.manifest, old(log)[i].id))) ==>
                  Match(t.manifest, old(log)[i].id) in dispatched
    {
      ghost var s0 := View(None, map[]);
      ghost var before := log;
      acts := SoloPull(matches, s0, w, triggers, env);
      hide *;
      if triggers == [] || cursor >= |log| {
        return;
      }
      AccountedNow(log, dispatched);
      var from := cursor;
      var to := if from + BATCH < |log| then from + BATCH else |log|;
      ghost var p := Scanning(triggers, from, to, [], [], Examining);
      ghost var more, q;
      var locked;
      ghost var batch := log[from..to];
      locked, more, q := ScanBatch(matches, w, triggers, log[from..to], env, p, before);
      BatchServedText(matches, before, dispatched, from, to, triggers);
      RunningHas(Running(w, p), w);
      PlayOn(matches, s0, acts, more, w, triggers, env);
      acts := acts + more;
      if locked {
        return;
      }
      SoloSave(matches, Running(w, q), w, q, triggers, env);
      RunningHas(Running(w, q), w);
      Play(matches, s0, acts, Save(w, env.saved), w, triggers, env);
      acts := acts + [Save(w, env.saved)];
      if env.saved {
        cursor := to;
        acks := acks + [Ack(triggers, from, to, q.done)];
      }
    }
  }

  lemma NoneServed(matches: Matcher, before: seq<Event>, dispatched: seq<Match>, e: Event, triggers: seq<Trigger>)
    ensures AllServed(matches, before, dispatched, e, triggers[..0])
  {
  }

  lemma AccountedNow(log: seq<Event>, dispatched: seq<Match>)
    ensures Accounted(log, log, dispatched)
  {
  }

  lemma BatchServedText(matches: Matcher, before: seq<Event>, dispatched: seq<Match>, from: nat, to: nat, triggers: seq<Trigger>)
    requires from <= to <= |before|
    ensures BatchServed(matches, before, dispatched, before[from..to], triggers) ==>
              forall i, t :: from <= i < to && t in triggers && matches(before[i], t) &&
                             (forall x :: x in before ==> x.record != Some(Match(t.manifest, before[i].id))) ==>
                Match(t.manifest, before[i].id) in dispatched
  {
    if BatchServed(matches, before, dispatched, before[from..to], triggers) {
      forall i, t | from <= i < to && t in triggers && matches(before[i], t) &&
                    (forall x :: x in before ==> x.record != Some(Match(t.manifest, before[i].id)))
        ensures Match(t.manifest, before[i].id) in dispatched
      {
        var j :| 0 <= j < |triggers| && triggers[j] == t;
        assert before[from..to][i - from] == before[i];
        assert AllServed(matches, before, dispatched, before[from..to][i - from], triggers);
        assert Served(before, dispatched, Match(triggers[j].manifest, before[i].id));
      }
    }
  }

  lemma PrefixAt(before: seq<Event>, after: seq<Event>, i: nat)
    requires before <= after && i < |before|
    ensures i < |after| && before[i] == after[i]
  {
  }

  lemma RunningHas(s: State, w: nat)
    requires w in s.passes
    ensures forall matches, s0, acts :: Exec(matches, s0, acts) == s ==> Going(matches, s0, acts, w)
  {
  }

  lemma SoloMiss(matches: Matcher, s: State, w: nat, p: Pass, verdict: Verdict)
    requires s.passes == map[w := p] && AtPair(s, p) && p.phase == Examining && !matches(EventAt(s, p), TriggerAt(s, p))
    ensures Step(matches, s, Examine(w, verdict)) == s.(passes := map[w := Advance(p, NonMatch)])
  {
    assert forall q :: map[w := p][w := q] == map[w := q];
  }

  lemma SoloSave(matches: Matcher, s: State, w: nat, p: Pass, triggers: seq<Trigger>, env: Environment)
    requires s.leader == Some(w) && s.passes == map[w := p] && p.Scanning? && p.from + |p.done| == p.to
    ensures var idle := s.(leader := None, passes := map[]);
            Step(matches, s, Save(w, env.saved)) ==
            if env.saved then idle.(cursor := p.to, acks := s.acks + [Ack(p.triggers, p.from, p.to, p.done)]) else idle
    ensures Turn(s, w, triggers, env) == Save(w, env.saved)
  {
    assert map[w := p] - {w} == map[];
  }

  /** Acquiring the lock, loading the triggers and pulling a batch. */
  lemma SoloPull(matches: Matcher, s: State, w: nat, triggers: seq<Trigger>, env: Environment) returns (acts: seq<Action>)
    requires s.leader.None? && s.passes == map[]
    ensures acts != [] && Played(matches, s, acts, w, triggers, env)
    ensures triggers == [] || s.cursor >= |s.log| ==> Exec(matches, s, acts) == s
    ensures triggers != [] && s.cursor < |s.log| ==>
              var to := if s.cursor + BATCH < |s.log| then s.cursor + BATCH else |s.log|;
              Exec(matches, s, acts) ==
              s.(leader := Some(w), passes := map[w := Scanning(triggers, s.cursor, to, [], [], Examining)])
  {
    PlayNone(matches, s, w, triggers, env);
    hide Exec, Played;
    acts := [] + [Acquire(w, triggers)];
    Play(matches, s, [], Acquire(w, triggers), w, triggers, env);
    assert map[][w := Loaded(triggers)] - {w} == map[];
    Play(matches, s, acts, Pull(w), w, triggers, env);
    acts := acts + [Pull(w)];
    assert forall q :: map[w := Loaded(triggers)][w := q] == map[w := q];
  }
}
