/** The Heimdall inbox as a whole: writers fill the table the dispatchers work off.  Row r of the table is the
    r-th inbox insert. */
module InboxPipeline {
  import W = InboxWriter
  import D = InboxDispatcher

  datatype State = State(writer: W.State, table: D.State)

  datatype Action =
    | Write(step: W.Action, at: D.Time)   // a step of a writer or of the log; an insert is received at `at`
    | Work(task: D.Action)                // a step of a dispatcher

  function Step(s: State, a: Action): State {
    match a
    case Write(step, at) =>
      var writer := W.Step(s.writer, step);
      State(writer, if |writer.inbox| > |s.writer.inbox| then D.Step(s.table, D.Receive(at)) else s.table)
    case Work(task) => if task.Receive? then s else s.(table := D.Step(s.table, task))
  }

  function Exec(s: State, acts: seq<Action>): State {
    if acts == [] then s else Step(Exec(s, acts[..|acts| - 1]), acts[|acts| - 1])
  }

  const INIT := State(W.INIT, D.INIT)

  lemma InsertsOne(s: W.State, a: W.Action)
    ensures s.inbox <= W.Step(s, a).inbox && |W.Step(s, a).inbox| <= |s.inbox| + 1
  {
    hide W.Alerts;
  }

  lemma RowsStay(s: D.State, a: D.Action)
    ensures |D.Step(s, a).rows| == |s.rows| + if a.Receive? then 1 else 0
  {
    hide D.Oldest, D.NothingPending;
  }

  /** A run of the pipeline is a run of the writers and a run of the dispatchers, row by insert. */
  lemma {:induction false} Projects(acts: seq<Action>) returns (ws: seq<W.Action>, ds: seq<D.Action>)
    ensures var s := Exec(INIT, acts);
            && s.writer == W.Exec(W.INIT, ws) && s.table == D.Exec(D.INIT, ds)
            && |s.table.rows| == |s.writer.inbox|
  {
    hide W.Step, D.Step;
    ws, ds := [], [];
    if acts != [] {
      var s, a := Exec(INIT, acts[..|acts| - 1]), acts[|acts| - 1];
      ws, ds := Projects(acts[..|acts| - 1]);
      match a
      case Write(step, at) =>
        InsertsOne(s.writer, step);
        RowsStay(s.table, D.Receive(at));
        W.Snoc(W.INIT, ws, step);
        D.Snoc(D.INIT, ds, D.Receive(at));
        if |W.Step(s.writer, step).inbox| > |s.writer.inbox| {
          ds := ds + [D.Receive(at)];
        }
        ws := ws + [step];
      case Work(task) =>
        if !task.Receive? {
          RowsStay(s.table, task);
          D.Snoc(D.INIT, ds, task);
          ds := ds + [task];
        }
    }
  }

  /** The i-th execution was of the row inserted for this alert. */
  ghost predicate ExecutedAs(s: State, i: nat, id: nat) {
    i < |s.table.executed| && s.table.executed[i] < |s.writer.inbox| && s.writer.inbox[s.table.executed[i]] == id
  }

  /** The alert waits in, or was worked off, row r. */
  ghost predicate HasRow(s: State, id: nat, r: nat) {
    r < |s.table.rows| && r < |s.writer.inbox| && s.writer.inbox[r] == id
  }

  /** In every run of writers and dispatchers together: whatever is executed is a firing alert, none is
      executed twice, each has at most one row, and none at or below the writers' cursor lacks one. */
  lemma AlertsExecutedOnce(acts: seq<Action>)
    ensures var s := Exec(INIT, acts);
            && (forall i :: 0 <= i < |s.table.executed| ==>
                  s.table.executed[i] < |s.writer.inbox| && IsAlert(s, s.writer.inbox[s.table.executed[i]]))
            && (forall i: nat, j: nat, id :: ExecutedAs(s, i, id) && ExecutedAs(s, j, id) ==> i == j)
            && (forall id, r: nat, q: nat :: HasRow(s, id, r) && HasRow(s, id, q) ==> r == q)
            && forall row :: row in s.writer.log && row.firing && row.sequence <= s.writer.cursor ==> exists r: nat :: HasRow(s, row.id, r)
  {
    var s := Exec(INIT, acts);
    var ws, ds := Projects(acts);
    hide Exec, W.Exec, D.Exec;
    D.RowsExecutedOnce(ds);
    forall row ensures row in s.writer.log && row.firing && row.sequence <= s.writer.cursor ==> exists r: nat :: HasRow(s, row.id, r) {
      W.AlertsCopiedOnce(ws, row);
      if row in s.writer.log && row.firing && row.sequence <= s.writer.cursor {
        assert row.id in multiset(s.writer.inbox);
        assert row.id in s.writer.inbox;
        var r :| 0 <= r < |s.writer.inbox| && s.writer.inbox[r] == row.id;
        assert HasRow(s, row.id, r);
      }
    }
    W.AlertsCopiedOnce(ws, W.LogRow(0, 0, false));
    assert W.NoRepeats(s.writer.inbox) && D.NoRepeats(s.table.executed);
    forall i | 0 <= i < |s.table.executed|
      ensures s.table.executed[i] < |s.writer.inbox| && IsAlert(s, s.writer.inbox[s.table.executed[i]])
    {
      assert s.table.executed[i] in s.table.executed;
      assert s.writer.inbox[s.table.executed[i]] in s.writer.inbox;
    }
  }

  predicate IsAlert(s: State, id: nat) {
    id < |s.writer.log| && s.writer.log[id].id == id && s.writer.log[id].firing
  }
}
