/** The Heimdall inbox writer (runHeimdallInboxWriterPass): any number of writers, without a leader,
    copy infra.alert.firing events into the inbox and share one stored cursor. */
module InboxWriter {
  /** An event_log row; sequences become visible in increasing order. */
  datatype LogRow = LogRow(sequence: nat, id: nat, firing: bool)

  datatype Writer =
    | Idle
    | Loaded(from: nat)
    | Copying(from: nat, pending: seq<LogRow>, copied: nat, maxSeq: nat)
    | Saving(from: nat, maxSeq: nat)

  /** The log, the source event ids of the inbox rows, the stored cursor (0 for none) and the writers. */
  datatype State = State(log: seq<LogRow>, inbox: seq<nat>, cursor: nat, writers: map<nat, Writer>)

  datatype Action =
    | Append(firing: bool, gap: nat)   // an event becomes visible
    | Load(w: nat)                     // read the cursor
    | Query(w: nat)                    // select the next alerts
    | Insert(w: nat, inserted: bool)   // one INSERT ... ON CONFLICT DO NOTHING
    | Save(w: nat, saved: bool)        // write the cursor back
    | Crash(w: nat)

  const LIMIT := 100

  function At(s: State, w: nat): Writer {
    if w in s.writers then s.writers[w] else Idle
  }

  function Move(s: State, w: nat, pc: Writer): State {
    s.(writers := s.writers[w := pc])
  }

  /** The last visible sequence. */
  function Top(log: seq<LogRow>): nat {
    if log == [] then 0 else log[|log| - 1].sequence
  }

  /** The first alerts after `from`, in order, at most `limit`. */
  function Alerts(log: seq<LogRow>, from: nat, limit: nat): seq<LogRow> {
    if log == [] || limit == 0 then []
    else if log[0].firing && from < log[0].sequence then [log[0]] + Alerts(log[1..], from, limit - 1)
    else Alerts(log[1..], from, limit)
  }

  function Step(s: State, a: Action): State {
    match a
    case Append(firing, gap) => s.(log := s.log + [LogRow(Top(s.log) + 1 + gap, |s.log|, firing)])
    case Crash(w) => Move(s, w, Idle)
    case Load(w) => if At(s, w).Idle? then Move(s, w, Loaded(s.cursor)) else s
    case Query(w) =>
      (match At(s, w)
       case Loaded(from) =>
         var pending := Alerts(s.log, from, LIMIT);
         Move(s, w, if pending == [] then Idle else Copying(from, pending, 0, from))
       case _ => s)
    case Insert(w, inserted) =>
      (match At(s, w)
       case Copying(from, pending, copied, maxSeq) =>
         if copied >= |pending| then s
         else if !inserted then Move(s, w, Saving(from, maxSeq))
         else
           var row := pending[copied];
           var highest := if row.sequence > maxSeq then row.sequence else maxSeq;
           var next := if copied + 1 == |pending| then Saving(from, highest) else Copying(from, pending, copied + 1, highest);
           Move(s, w, next).(inbox := if row.id in s.inbox then s.inbox else s.inbox + [row.id])
       case _ => s)
    case Save(w, saved) =>
      (match At(s, w)
       case Saving(from, maxSeq) =>
         if saved && maxSeq > from then Move(s, w, Idle).(cursor := maxSeq) else Move(s, w, Idle)
       case _ => s)
  }

  function Exec(s: State, acts: seq<Action>): State {
    if acts == [] then s else Step(Exec(s, acts[..|acts| - 1]), acts[|acts| - 1])
  }

  const INIT := State([], [], 0, map[])

  // ---- What every run keeps -----------------------------------------------------------

  ghost predicate Ordered(log: seq<LogRow>) {
    && (forall i :: 0 <= i < |log| ==> log[i].id == i && 1 <= log[i].sequence)
    && (forall i, j :: 0 <= i < j < |log| ==> log[i].sequence < log[j].sequence)
  }

  /** Every alert up to this sequence is in the inbox. */
  ghost predicate Copied(s: State, upTo: nat) {
    upTo <= Top(s.log) && forall row :: row in s.log && row.firing && row.sequence <= upTo ==> row.id in s.inbox
  }

  /** `pending` is the contiguous stretch of alerts that follows `from`. */
  ghost predicate Stretch(log: seq<LogRow>, from: nat, pending: seq<LogRow>) {
    && (forall i :: 0 <= i < |pending| ==> pending[i] in log && pending[i].firing && from < pending[i].sequence)
    && (forall i, j :: 0 <= i < j < |pending| ==> pending[i].sequence < pending[j].sequence)
    && (forall row :: row in log && row.firing && from < row.sequence && row.sequence <= Top(pending) ==> row in pending)
  }

  ghost predicate WriterInv(s: State, pc: Writer) {
    match pc
    case Idle => true
    case Loaded(from) => Copied(s, from)
    case Saving(from, maxSeq) => Copied(s, maxSeq)
    case Copying(from, pending, copied, maxSeq) =>
      && copied < |pending| && Stretch(s.log, from, pending)
      && maxSeq == (if copied == 0 then from else pending[copied - 1].sequence)
      && Copied(s, maxSeq)
  }

  ghost predicate NoRepeats(ids: seq<nat>) {
    forall i, j :: 0 <= i < j < |ids| ==> ids[i] != ids[j]
  }

  ghost predicate Inv(s: State) {
    && Ordered(s.log)
    && NoRepeats(s.inbox)
    && (forall id :: id in s.inbox ==> id < |s.log| && s.log[id].firing)
    && Copied(s, s.cursor)
    && forall w :: w in s.writers ==> WriterInv(s, s.writers[w])
  }

  /** The query leaves out an alert after `from` only when it has reached its limit. */
  lemma {:induction false} AlertsComplete(log: seq<LogRow>, from: nat, limit: nat)
    ensures |Alerts(log, from, limit)| <= limit
    ensures |Alerts(log, from, limit)| < limit ==>
              forall row :: row in log && row.firing && from < row.sequence ==> row in Alerts(log, from, limit)
  {
    if log != [] && limit > 0 {
      assert log == [log[0]] + log[1..];
      if log[0].firing && from < log[0].sequence {
        AlertsComplete(log[1..], from, limit - 1);
      } else {
        AlertsComplete(log[1..], from, limit);
      }
    }
  }

  /** The alerts waiting after `from`. */
  function Waiting(log: seq<LogRow>, from: nat): set<LogRow> {
    set row | row in log && row.firing && from < row.sequence
  }

  lemma {:induction false} DistinctSize(rows: seq<LogRow>, all: set<LogRow>)
    requires forall i, j :: 0 <= i < j < |rows| ==> rows[i] != rows[j]
    requires forall row :: row in rows ==> row in all
    ensures |rows| <= |all| && (|rows| == |all| ==> forall row :: row in all ==> row in rows)
  {
    if rows != [] {
      var front, last := rows[..|rows| - 1], rows[|rows| - 1];
      assert rows == front + [last];
      forall row | row in front ensures row in all - {last} {
        assert row in rows;
      }
      DistinctSize(front, all - {last});
    }
  }

  /** With no more alerts waiting than the limit, the query returns them all. */
  lemma AllWaitingFound(log: seq<LogRow>, from: nat, limit: nat)
    requires Ordered(log) && |Waiting(log, from)| <= limit
    ensures forall row :: row in log && row.firing && from < row.sequence ==> row in Alerts(log, from, limit)
  {
    AlertsComplete(log, from, limit);
    AlertsAreStretch(log, from, limit);
    var found := Alerts(log, from, limit);
    hide Alerts;
    DistinctSize(found, Waiting(log, from));
    forall row | row in log && row.firing && from < row.sequence ensures row in found {
      assert row in Waiting(log, from);
    }
  }

  lemma {:induction false} AlertsAreStretch(log: seq<LogRow>, from: nat, limit: nat)
    requires forall i, j :: 0 <= i < j < |log| ==> log[i].sequence < log[j].sequence
    ensures Stretch(log, from, Alerts(log, from, limit))
  {
    if log == [] || limit == 0 {
    } else {
      hide Stretch;
      var head, tail := log[0], log[1..];
      assert [head] + tail == log;
      if head.firing && from < head.sequence {
        AlertsAreStretch(tail, from, limit - 1);
        StretchGrows(head, tail, from, Alerts(tail, from, limit - 1));
      } else {
        AlertsAreStretch(tail, from, limit);
        StretchSkips(head, tail, from, Alerts(tail, from, limit));
      }
    }
  }

  lemma StretchSkips(head: LogRow, tail: seq<LogRow>, from: nat, pending: seq<LogRow>)
    requires !(head.firing && from < head.sequence) && Stretch(tail, from, pending)
    ensures Stretch([head] + tail, from, pending)
  {
  }

  lemma StretchGrows(head: LogRow, tail: seq<LogRow>, from: nat, pending: seq<LogRow>)
    requires head.firing && from < head.sequence && Stretch(tail, from, pending)
    requires forall row :: row in tail ==> head.sequence < row.sequence
    ensures Stretch([head] + tail, from, [head] + pending)
  {
    var longer := [head] + pending;
    forall i, j | 0 <= i < j < |longer| ensures longer[i].sequence < longer[j].sequence {
      assert longer[j] == pending[j - 1] && pending[j - 1] in tail;
      assert i > 0 ==> longer[i] == pending[i - 1];
    }
    assert pending != [] ==> Top(longer) == Top(pending);
  }

  // ---- Steps --------------------------------------------------------------------------

  lemma CopiedKept(s: State, t: State, upTo: nat)
    requires Copied(s, upTo) && t.log == s.log && s.inbox <= t.inbox
    ensures Copied(t, upTo)
  {
    forall row | row in t.log && row.firing && row.sequence <= upTo ensures row.id in t.inbox {
      assert row.id in s.inbox;
    }
  }

  lemma AppendKeeps(s: State, firing: bool, gap: nat)
    requires Inv(s)
    ensures Inv(Step(s, Append(firing, gap)))
  {
    var t := Step(s, Append(firing, gap));
    var e := t.log[|s.log|];
    assert forall i :: 0 <= i < |s.log| ==> t.log[i] == s.log[i];
    assert forall i :: 0 <= i < |s.log| ==> s.log[i].sequence <= Top(s.log);
    assert forall row :: row in t.log ==> row in s.log || row == e;
    forall n | Copied(s, n) ensures Copied(t, n) {
    }
    forall w | w in t.writers ensures WriterInv(t, t.writers[w]) {
      assert WriterInv(s, s.writers[w]);
      if t.writers[w].Copying? {
        StretchKept(s.log, e, t.writers[w].from, t.writers[w].pending);
      }
    }
  }

  lemma StretchKept(log: seq<LogRow>, e: LogRow, from: nat, pending: seq<LogRow>)
    requires Stretch(log, from, pending) && forall row :: row in log ==> row.sequence < e.sequence
    ensures Stretch(log + [e], from, pending)
  {
    assert pending != [] ==> pending[|pending| - 1] in log;
  }

  /** Copying one more alert extends what is known to be in the inbox up to it. */
  lemma InsertKeeps(s: State, w: nat)
    requires Inv(s) && At(s, w).Copying?
    ensures Inv(Step(s, Insert(w, true)))
  {
    var Copying(from, pending, copied, maxSeq) := At(s, w);
    var t := Step(s, Insert(w, true));
    var row := pending[copied];
    assert WriterInv(s, s.writers[w]);
    assert row in s.log;
    assert copied > 0 ==> pending[copied - 1].sequence < row.sequence;
    assert s.inbox <= t.inbox && row.id in t.inbox;
    CopiedUpTo(s, t, from, pending, copied, maxSeq);
    CopiedKept(s, t, s.cursor);
    forall v | v in t.writers && v != w ensures WriterInv(t, t.writers[v]) {
      assert WriterInv(s, s.writers[v]);
      match s.writers[v]
      case Loaded(f) => CopiedKept(s, t, f);
      case Saving(f, m) => CopiedKept(s, t, m);
      case Copying(f, q, c, m) => CopiedKept(s, t, m);
      case Idle =>
    }
  }

  lemma CopiedUpTo(s: State, t: State, from: nat, pending: seq<LogRow>, copied: nat, maxSeq: nat)
    requires Ordered(s.log) && copied < |pending| && Stretch(s.log, from, pending) && Copied(s, maxSeq)
    requires maxSeq == (if copied == 0 then from else pending[copied - 1].sequence)
    requires t.log == s.log && s.inbox <= t.inbox && pending[copied].id in t.inbox
    ensures Copied(t, pending[copied].sequence)
  {
    var last := pending[copied];
    forall row | row in t.log && row.firing && row.sequence <= last.sequence ensures row.id in t.inbox {
      if row.sequence <= maxSeq {
        assert row.id in s.inbox;
      } else {
        assert last.sequence <= Top(pending);
        var i :| 0 <= i < |pending| && pending[i] == row;
        assert i == copied;
      }
    }
    assert last in s.log;
  }

  lemma StepKeepsInv(s: State, a: Action)
    requires Inv(s)
    ensures Inv(Step(s, a))
  {
    match a
    case Append(firing, gap) => AppendKeeps(s, firing, gap);
    case Query(w) => QueryKeeps(s, w);
    case Insert(w, inserted) =>
      if inserted && At(s, w).Copying? {
        InsertKeeps(s, w);
      } else {
        hide Inv;
        LocalKeeps(s, a);
      }
    case _ =>
      hide Inv;
      LocalKeeps(s, a);
  }

  lemma QueryKeeps(s: State, w: nat)
    requires Inv(s)
    ensures Inv(Step(s, Query(w)))
  {
    if At(s, w).Loaded? {
      assert WriterInv(s, s.writers[w]);
      AlertsAreStretch(s.log, At(s, w).from, LIMIT);
      hide Stretch, Ordered, Alerts;
      OthersKept(s, w, Step(s, Query(w)));
    }
  }

  lemma LocalKeeps(s: State, a: Action)
    requires Inv(s) && (a.Load? || a.Save? || a.Crash? || (a.Insert? && (!a.inserted || !At(s, a.w).Copying?)))
    ensures Inv(Step(s, a))
  {
    hide Stretch, Ordered, Alerts;
    if a.w in s.writers {
      assert WriterInv(s, s.writers[a.w]);
    }
    OthersKept(s, a.w, Step(s, a));
  }

  /** A step that changes neither the log nor the inbox concerns its own writer and the cursor only. */
  lemma OthersKept(s: State, w: nat, t: State)
    requires Inv(s) && t.log == s.log && t.inbox == s.inbox
    requires t.writers == s.writers || t.writers == s.writers[w := At(t, w)]
    requires WriterInv(t, At(t, w)) && Copied(t, t.cursor)
    ensures Inv(t)
  {
    hide Stretch, Ordered;
    forall v | v in t.writers ensures WriterInv(t, t.writers[v]) {
      if v != w {
        assert WriterInv(s, s.writers[v]);
      }
    }
  }

  lemma {:induction false} RunKeepsInv(acts: seq<Action>)
    ensures Inv(Exec(INIT, acts))
  {
    if acts != [] {
      hide Inv, Step;
      RunKeepsInv(acts[..|acts| - 1]);
      StepKeepsInv(Exec(INIT, acts[..|acts| - 1]), acts[|acts| - 1]);
    }
  }

  /** Distinct entries occur once. */
  lemma {:induction false} Once(ids: seq<nat>, id: nat)
    requires NoRepeats(ids) && id in ids
    ensures multiset(ids)[id] == 1
  {
    var front, last := ids[..|ids| - 1], ids[|ids| - 1];
    assert ids == front + [last];
    if id in front {
      Once(front, id);
    }
  }

  /** Under any interleaving, with crashes and failed inserts, every alert whose sequence is at or below
      the stored cursor has exactly one inbox row, and the inbox holds nothing but alerts, each once. */
  lemma AlertsCopiedOnce(acts: seq<Action>, row: LogRow)
    ensures var s := Exec(INIT, acts);
            && (row in s.log && row.firing && row.sequence <= s.cursor ==> multiset(s.inbox)[row.id] == 1)
            && NoRepeats(s.inbox)
            && forall id :: id in s.inbox ==> id < |s.log| && s.log[id].id == id && s.log[id].firing
  {
    hide Exec;
    RunKeepsInv(acts);
    var s := Exec(INIT, acts);
    if row in s.log && row.firing && row.sequence <= s.cursor {
      Once(s.inbox, row.id);
    }
  }

  // ---- The cursor is not monotone -----------------------------------------------------

  /** Steps of these writers, and events from elsewhere. */
  ghost predicate ByWriters(acts: seq<Action>, ws: set<nat>) {
    forall a :: a in acts && !a.Append? ==> a.w in ws
  }

  ghost predicate Advances(acts: seq<Action>, a: Action) {
    Exec(INIT, acts).cursor <= Step(Exec(INIT, acts), a).cursor
  }

  /** What the only writer read is what is still stored. */
  ghost predicate Current(s: State, w: nat) {
    && (forall v :: v in s.writers ==> v == w)
    && match At(s, w)
       case Idle => true
       case Loaded(from) => from == s.cursor
       case Copying(from, pending, copied, maxSeq) => from == s.cursor <= maxSeq
       case Saving(from, maxSeq) => from == s.cursor <= maxSeq
  }

  lemma {:induction false} SoleIsCurrent(acts: seq<Action>, w: nat)
    requires ByWriters(acts, {w})
    ensures Current(Exec(INIT, acts), w)
  {
    if acts != [] {
      SoleIsCurrent(acts[..|acts| - 1], w);
      assert acts[|acts| - 1] in acts;
    }
  }

  /** With a single writer process the cursor only moves forward. */
  lemma SoleWriterAdvances(acts: seq<Action>, w: nat, a: Action)
    requires ByWriters(acts, {w}) && ByWriters([a], {w})
    ensures Advances(acts, a)
  {
    hide Exec;
    assert a in [a];
    SoleIsCurrent(acts, w);
  }

  lemma Snoc(s: State, acts: seq<Action>, a: Action)
    ensures Exec(s, acts + [a]) == Step(Exec(s, acts), a)
  {
    assert (acts + [a])[..|acts|] == acts;
  }

  lemma Empty(s: State)
    ensures Exec(s, []) == s
  {
  }

  /** One writer copies everything visible in one go, up to its save. */
  lemma CopiesOne(s: State, w: nat)
    requires |s.log| == 1 && s.log[0].firing && s.cursor == 0 && s.log[0].sequence == 1 && At(s, w).Idle?
    ensures Step(Step(Step(s, Load(w)), Query(w)), Insert(w, true)) ==
            s.(writers := s.writers[w := Saving(0, 1)], inbox := if s.log[0].id in s.inbox then s.inbox else s.inbox + [s.log[0].id])
  {
    assert Alerts(s.log, 0, LIMIT) == [s.log[0]];
    assert Step(s, Load(w)) == Move(s, w, Loaded(0));
    assert Step(Step(s, Load(w)), Query(w)) == Move(s, w, Copying(0, [s.log[0]], 0, 0));
  }

  lemma CopiesTwo(s: State, w: nat)
    requires |s.log| == 2 && s.log[0].firing && s.log[1].firing && s.log[0].sequence == 1 && s.log[1].sequence == 2
    requires s.cursor == 0 && At(s, w).Idle?
    ensures var t := Step(Step(Step(Step(Step(s, Load(w)), Query(w)), Insert(w, true)), Insert(w, true)), Save(w, true));
            t.cursor == 2 && t.writers == s.writers[w := Idle]
  {
    var rows := [s.log[0], s.log[1]];
    assert Alerts(s.log[1..], 0, LIMIT - 1) == [s.log[1]];
    assert Alerts(s.log, 0, LIMIT) == rows;
    assert Step(s, Load(w)) == Move(s, w, Loaded(0));
    assert Step(Step(s, Load(w)), Query(w)) == Move(s, w, Copying(0, rows, 0, 0));
    hide Alerts;
    var s3 := Step(Move(s, w, Copying(0, rows, 0, 0)), Insert(w, true));
    assert s3.writers == s.writers[w := Copying(0, rows, 1, 1)];
    var s4 := Step(s3, Insert(w, true));
    assert s4.writers == s.writers[w := Saving(0, 2)];
  }

  lemma {:induction false} Then(s: State, acts: seq<Action>, more: seq<Action>)
    ensures Exec(s, acts + more) == Exec(Exec(s, acts), more)
  {
    hide Step;
    if more == [] {
      assert acts + more == acts;
    } else {
      Then(s, acts, more[..|more| - 1]);
      assert acts + more == acts + more[..|more| - 1] + [more[|more| - 1]];
      Snoc(s, acts + more[..|more| - 1], more[|more| - 1]);
    }
  }

  /** Any two writers can move the stored cursor back: the slower one saves what it saw last. */
  lemma SlowWriterMovesCursorBack(w: nat, v: nat) returns (acts: seq<Action>, a: Action)
    requires w != v
    ensures ByWriters(acts, {w, v}) && ByWriters([a], {w, v})
    ensures Exec(INIT, acts).cursor == 2 && Step(Exec(INIT, acts), a).cursor == 1
  {
    hide *;
    var slow, quick := Slow(w), Quick(v);
    Empty(INIT);
    Snoc(INIT, [], Append(true, 0));
    var a1 := [] + [Append(true, 0)];
    Then(INIT, a1, slow);
    Snoc(INIT, a1 + slow, Append(true, 0));
    var a2 := a1 + slow + [Append(true, 0)];
    Then(INIT, a2, quick);
    acts, a := a2 + quick, Save(w, true);
    SlowRun(w, v);
    SavesOne(Exec(INIT, acts), w);
    RunWriters(w, v);
  }

  function Slow(w: nat): seq<Action> {
    [Load(w), Query(w), Insert(w, true)]
  }

  function Quick(v: nat): seq<Action> {
    [Load(v), Query(v), Insert(v, true), Insert(v, true), Save(v, true)]
  }

  lemma RunWriters(w: nat, v: nat)
    ensures ByWriters([] + [Append(true, 0)] + Slow(w) + [Append(true, 0)] + Quick(v), {w, v}) && ByWriters([Save(w, true)], {w, v})
  {
  }

  lemma SlowRun(w: nat, v: nat)
    requires w != v
    ensures var s := Step(Exec(Step(INIT, Append(true, 0)), Slow(w)), Append(true, 0));
            Exec(s, Quick(v)).cursor == 2 && At(Exec(s, Quick(v)), w) == Saving(0, 1)
  {
    var s1 := INIT.(log := [LogRow(1, 0, true)]);
    assert Step(INIT, Append(true, 0)) == s1;
    var s2 := s1.(writers := map[w := Saving(0, 1)], inbox := [0]);
    assert Step(Step(Step(s1, Load(w)), Query(w)), Insert(w, true)) == s2 by { CopiesOne(s1, w); }
    var s3 := s2.(log := [LogRow(1, 0, true), LogRow(2, 1, true)]);
    assert Step(s2, Append(true, 0)) == s3;
    CopiesTwo(s3, v);
    hide Step;
    Unfold3(s1, Slow(w));
    Unfold5(s3, Quick(v));
  }

  lemma SavesOne(s: State, w: nat)
    requires At(s, w) == Saving(0, 1)
    ensures Step(s, Save(w, true)).cursor == 1
  {
  }

  /** The cursor advances in every run of the writers `ws` exactly when there is at most one of them. */
  lemma ForwardIffSole(ws: set<nat>)
    ensures (forall w, v :: w in ws && v in ws ==> w == v) <==>
            forall acts, a :: ByWriters(acts, ws) && ByWriters([a], ws) ==> Advances(acts, a)
  {
    if w, v :| w in ws && v in ws && w != v {
      var acts, a := SlowWriterMovesCursorBack(w, v);
      assert ByWriters(acts, ws) && ByWriters([a], ws) && !Advances(acts, a);
    } else {
      forall acts, a | ByWriters(acts, ws) && ByWriters([a], ws) ensures Advances(acts, a) {
        hide Advances;
        var w: nat :| ws == {} || w in ws;
        assert forall v :: v in ws ==> v == w;
        assert ByWriters(acts, {w}) && ByWriters([a], {w});
        SoleWriterAdvances(acts, w, a);
      }
    }
  }

  lemma Unfold3(s: State, acts: seq<Action>)
    requires |acts| == 3
    ensures Exec(s, acts) == Step(Step(Step(s, acts[0]), acts[1]), acts[2])
  {
    hide Step;
    assert acts[..2][..1] == acts[..1] && acts[..1][..0] == [];
    assert Exec(s, acts[..1]) == Step(s, acts[0]);
    assert Exec(s, acts[..2]) == Step(Exec(s, acts[..1]), acts[1]);
  }

  lemma Unfold5(s: State, acts: seq<Action>)
    requires |acts| == 5
    ensures Exec(s, acts) == Step(Step(Step(Step(Step(s, acts[0]), acts[1]), acts[2]), acts[3]), acts[4])
  {
    hide Step;
    Unfold3(s, acts[..3]);
    assert acts[..4][..3] == acts[..3];
    assert Exec(s, acts[..4]) == Step(Exec(s, acts[..3]), acts[3]);
  }

  // ---- One pass as the code runs it ---------------------------------------------------

  /** INSERT ... ON CONFLICT DO NOTHING, row after row. */
  function Inserted(inbox: seq<nat>, rows: seq<LogRow>): seq<nat> {
    if rows == [] then inbox
    else
      var before, id := Inserted(inbox, rows[..|rows| - 1]), rows[|rows| - 1].id;
      if id in before then before else before + [id]
  }

  function Highest(from: nat, rows: seq<LogRow>): nat {
    if rows == [] then from
    else
      var before, sequence := Highest(from, rows[..|rows| - 1]), rows[|rows| - 1].sequence;
      if sequence > before then sequence else before
  }

  lemma CopyOne(inbox: seq<nat>, from: nat, rows: seq<LogRow>, k: nat)
    requires k < |rows|
    ensures var before := Inserted(inbox, rows[..k]);
            Inserted(inbox, rows[..k + 1]) == if rows[k].id in before then before else before + [rows[k].id]
    ensures var before := Highest(from, rows[..k]);
            Highest(from, rows[..k + 1]) == if rows[k].sequence > before then rows[k].sequence else before
  {
    assert rows[..k + 1][..k] == rows[..k];
  }

  lemma CopyNone(inbox: seq<nat>, from: nat, rows: seq<LogRow>)
    ensures Inserted(inbox, rows[..0]) == inbox && Highest(from, rows[..0]) == from
  {
  }

  lemma SoloInsert(s: State, w: nat, from: nat, pending: seq<LogRow>, k: nat, maxSeq: nat, inserted: bool)
    requires s.writers == map[w := Copying(from, pending, k, maxSeq)] && k < |pending|
    ensures Step(s, Insert(w, inserted)) ==
            if !inserted then s.(writers := map[w := Saving(from, maxSeq)])
            else
              var highest := if pending[k].sequence > maxSeq then pending[k].sequence else maxSeq;
              s.(writers := map[w := if k + 1 < |pending| then Copying(from, pending, k + 1, highest) else Saving(from, highest)],
                 inbox := if pending[k].id in s.inbox then s.inbox else s.inbox + [pending[k].id])
  {
    assert forall p: Writer, q: Writer :: map[w := p][w := q] == map[w := q];
  }

  lemma SoloLoad(s: State, w: nat)
    requires s.writers == map[w := Idle]
    ensures var pending := Alerts(s.log, s.cursor, LIMIT);
            Step(Step(s, Load(w)), Query(w)) ==
            if pending == [] then s else s.(writers := map[w := Copying(s.cursor, pending, 0, s.cursor)])
  {
    hide Alerts;
    assert forall p: Writer, q: Writer :: map[w := p][w := q] == map[w := q];
  }

  lemma SoloSave(s: State, w: nat, from: nat, maxSeq: nat, saved: bool)
    requires s.writers == map[w := Saving(from, maxSeq)]
    ensures Step(s, Save(w, saved)) ==
            s.(writers := map[w := Idle], cursor := if saved && maxSeq > from then maxSeq else s.cursor)
  {
    assert forall p: Writer, q: Writer :: map[w := p][w := q] == map[w := q];
  }

  lemma {:induction false} InsertedAll(inbox: seq<nat>, rows: seq<LogRow>)
    ensures forall id :: id in Inserted(inbox, rows) <==> id in inbox || exists row :: row in rows && row.id == id
  {
    if rows != [] {
      var front, last := rows[..|rows| - 1], rows[|rows| - 1];
      assert rows == front + [last];
      InsertedAll(inbox, front);
    }
  }

  /** What a pass without failing inserts leaves behind when it could see everything. */
  lemma CopiedEverything(log: seq<LogRow>, from: nat, inbox: seq<nat>)
    requires Ordered(log) && |Waiting(log, from)| <= LIMIT
    ensures forall row :: row in log && row.firing && from < row.sequence ==> row.id in Inserted(inbox, Alerts(log, from, LIMIT))
  {
    AllWaitingFound(log, from, LIMIT);
    InsertedAll(inbox, Alerts(log, from, LIMIT));
    hide Alerts, Inserted, Ordered;
  }

  /** With no failing insert and at most a hundred alerts waiting after the cursor, all of them are in. */
  ghost predicate CaughtUp(log: seq<LogRow>, from: nat, fails: nat -> bool, inbox: seq<nat>) {
    Ordered(log) && (forall k :: !fails(k)) && |set row | row in log && row.firing && from < row.sequence| <= 100 ==>
      forall row :: row in log && row.firing && from < row.sequence ==> row.id in inbox
  }

  /** The pass copies alerts up to the first failing insert. */
  ghost predicate Stopped(pending: seq<LogRow>, fails: nat -> bool, copied: nat) {
    copied <= |pending| && (forall k :: 0 <= k < copied ==> !fails(k)) && (copied < |pending| ==> fails(copied))
  }

  lemma CatchesUp(log: seq<LogRow>, from: nat, inbox: seq<nat>, fails: nat -> bool, copied: nat)
    requires Stopped(Alerts(log, from, LIMIT), fails, copied)
    ensures CaughtUp(log, from, fails, Inserted(inbox, Alerts(log, from, LIMIT)[..copied]))
  {
    hide Alerts, Inserted, Ordered;
    var pending := Alerts(log, from, LIMIT);
    if Ordered(log) && (forall k :: !fails(k)) && |Waiting(log, from)| <= LIMIT {
      assert copied == |pending| && pending[..copied] == pending;
      CopiedEverything(log, from, inbox);
    }
  }

  /** The tables the writer works on. */
  class InboxStore {
    var log: seq<LogRow>
    var inbox: seq<nat>
    var cursor: nat

    ghost function View(w: nat, pc: Writer): State
      reads this
    {
      State(log, inbox, cursor, map[w := pc])
    }

    /** runHeimdallInboxWriterPass; `fails(k)` is a failing k-th insert.  Its effect is a run of the
        steps of writer `w`. */
    method RunHeimdallInboxWriterPass(w: nat, fails: nat -> bool, saved: bool) returns (ghost acts: seq<Action>, copied: nat)
      modifies this`inbox, this`cursor
      ensures Exec(old(View(w, Idle)), acts) == View(w, Idle)
      ensures forall a :: a in acts ==> !a.Append? && a.w == w
      ensures var pending := Alerts(log, old(cursor), LIMIT);
              && Stopped(pending, fails, copied)
              && inbox == Inserted(old(inbox), pending[..copied])
              && cursor == if saved then Highest(old(cursor), pending[..copied]) else old(cursor)
      ensures CaughtUp(log, old(cursor), fails, inbox)
    {
      ghost var cursor0, inbox0 := cursor, inbox;
      hide Exec, Alerts, Inserted, Highest, Step, CaughtUp;
      ghost var s0 := View(w, Idle);
      Empty(s0);
      var cursorSeq := cursor;
      Snoc(s0, [], Load(w));
      Snoc(s0, [] + [Load(w)], Query(w));
      acts := [] + [Load(w)] + [Query(w)];
      var pending := Alerts(log, cursorSeq, LIMIT);
      SoloLoad(s0, w);
      copied := 0;
      CopyNone(inbox, cursor, pending);
      if pending == [] {
        CatchesUp(log, cursor0, inbox0, fails, copied);
        return;
      }
      var maxSeq, k := cursorSeq, 0;
      while k < |pending|
        invariant k <= |pending| && cursor == cursorSeq && copied == k
        invariant forall i :: 0 <= i < k ==> !fails(i)
        invariant inbox == Inserted(old(inbox), pending[..k]) && maxSeq == Highest(cursorSeq, pending[..k]) >= cursorSeq
        invariant Exec(s0, acts) == View(w, if k < |pending| then Copying(cursorSeq, pending, k, maxSeq) else Saving(cursorSeq, maxSeq))
        invariant forall a :: a in acts ==> !a.Append? && a.w == w
      {
        Snoc(s0, acts, Insert(w, !fails(k)));
        SoloInsert(Exec(s0, acts), w, cursorSeq, pending, k, maxSeq, !fails(k));
        acts := acts + [Insert(w, !fails(k))];
        if fails(k) {
          break;
        }
        CopyOne(old(inbox), cursorSeq, pending, k);
        if pending[k].id !in inbox {
          inbox := inbox + [pending[k].id];
        }
        if pending[k].sequence > maxSeq {
          maxSeq := pending[k].sequence;
        }
        k := k + 1;
        copied := k;
      }
      Snoc(s0, acts, Save(w, saved));
      SoloSave(Exec(s0, acts), w, cursorSeq, maxSeq, saved);
      acts := acts + [Save(w, saved)];
      if maxSeq > cursorSeq && saved {
        cursor := maxSeq;
      }
      CatchesUp(log, cursor0, inbox0, fails, copied);
    }
  }
}
