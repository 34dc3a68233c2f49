/** `db/queue.go`: the double-buffered batch loop of QueueRunner as a state machine. One main
    goroutine gathers; one worker at a time runs a batch against every table, each table in a
    goroutine of its own; background scans come and go. Every atomic step is an action, so a run
    is any sequence of enabled actions. */
module QueueRunner {

  type Item = nat
  type TableID = nat
  type Status = nat        // StatusOK, StatusTryAgain, StatusWriteError

  const OK: Status := 0
  const TRY_AGAIN: Status := 1

  datatype Batch = Batch(inputs: seq<Item>, status: seq<Status>)

  /** `runTable`, step by step. listed are the inputs the filter selected. */
  datatype Phase =
    | Filtering
    | Checking(listed: seq<nat>)
    | Appending(listed: seq<nat>)
    | Merging(listed: seq<nat>, st: Status, k: nat, got: int)   // got < 0: nothing loaded
    | Finished(listed: seq<nat>, st: Status)

  /** The main goroutine. */
  datatype Pc =
    | Top                                   // of the read loop
    | WaitIdle(next: set<TableID>, scan: set<TableID>)
    | Stopping(next: set<TableID>, scan: set<TableID>)
    | Gathering
    | Launching
    | Draining
    | Exited

  /** `runBatches` on buffer b. */
  datatype Worker =
    | Idle
    | Running(b: nat, tabs: map<TableID, Phase>)
    | Finalizing(b: nat, tabs: map<TableID, Phase>, i: nat)

  /** A call of Finalize, with the statuses of the tables that listed the item. */
  datatype Outcome = Outcome(item: Item, status: Status, reports: set<Status>)

  datatype State = State(
    bufs: seq<Batch>, curb: nat, pc: Pc, worker: Worker,
    defs: set<TableID>, used: set<TableID>, scans: set<TableID>,
    gathered: seq<Item>, outcomes: seq<Outcome>, closed: bool, panicked: bool)

  const INIT := State([Batch([], []), Batch([], [])], 0, Top, Idle, {}, {}, {}, [], [], false, false)

  datatype Action =
    | Refresh(next: set<TableID>, scan: set<TableID>)   // updateDefs found changes
    | Quiesce                                           // wg.Wait() before finishUpdates
    | Install                                           // the rest of finishUpdates
    | NoPermission                                      // updateDefs failed for good
    | Begin                                             // gather: drop the old inputs
    | Receive(item: Item)                               // Next returned an item
    | Enough                                            // the batch is complete
    | EndOfQueue                                        // the first Next failed
    | Launch                                            // wg.Wait(), then go runBatches
    | Close                                             // wg.Wait(), then in.Close()
    | Filter(t: TableID, listed: seq<nat>, failed: bool, st: Status)
    | Check(t: TableID)                                 // ti.scanning()
    | Append(t: TableID, st: Status)                    // ti.append returned
    | Load(t: TableID)                                  // atomicMerge: load
    | Swap(t: TableID)                                  // and compare-and-swap
    | AllTables                                         // wg.Wait() in runBatches
    | Finalize
    | BatchDone
    | ScanEnds(t: TableID)                              // bgScan deregisters

  function Max(a: Status, b: Status): Status {
    if a > b then a else b
  }

  function Cur(s: State): nat { s.curb % 2 }

  predicate InPhase(s: State, t: TableID) {
    s.worker.Running? && t in s.worker.tabs
  }

  predicate Enabled(s: State, a: Action)
    requires |s.bufs| == 2
  {
    match a
    case Refresh(next, scan) => s.pc.Top? && next - s.defs !! s.used && scan <= next - s.defs
    case Quiesce => s.pc.WaitIdle? && s.worker.Idle?
    case Install => s.pc.Stopping? && s.scans * s.defs == {}
    case NoPermission => s.pc.Top?
    case Begin => s.pc.Top?
    case Receive(_) => s.pc.Gathering?
    case Enough => s.pc.Gathering? && s.bufs[Cur(s)].inputs != []
    case EndOfQueue => s.pc.Gathering? && s.bufs[Cur(s)].inputs == []
    case Launch => s.pc.Launching? && s.worker.Idle?
    case Close => s.pc.Draining? && s.worker.Idle?
    case Filter(t, listed, _, _) =>
      && InPhase(s, t) && s.worker.tabs[t].Filtering? && s.worker.b < 2
      && forall i :: 0 <= i < |listed| ==> listed[i] < |s.bufs[s.worker.b].inputs|
    case Check(t) => InPhase(s, t) && s.worker.tabs[t].Checking?
    case Append(t, _) => InPhase(s, t) && s.worker.tabs[t].Appending?
    case Load(t) => InPhase(s, t) && Pending(s.worker.tabs[t]) && s.worker.tabs[t].got < 0 && Fits(s, s.worker.tabs[t])
    case Swap(t) => InPhase(s, t) && Pending(s.worker.tabs[t]) && s.worker.tabs[t].got >= 0 && Fits(s, s.worker.tabs[t])
    case AllTables => s.worker.Running? && forall t :: t in s.worker.tabs ==> s.worker.tabs[t].Finished?
    case Finalize => s.worker.Finalizing? && s.worker.b < 2 && s.worker.i < |s.bufs[s.worker.b].inputs| && s.worker.i < |s.bufs[s.worker.b].status|
    case BatchDone => s.worker.Finalizing? && s.worker.b < 2 && s.worker.i >= |s.bufs[s.worker.b].status|
    case ScanEnds(t) => t in s.scans
  }

  predicate Pending(ph: Phase) {
    ph.Merging? && ph.k < |ph.listed|
  }

  predicate Fits(s: State, ph: Phase)
    requires s.worker.Running? && Pending(ph) && |s.bufs| == 2
  {
    s.worker.b < 2 && ph.listed[ph.k] < |s.bufs[s.worker.b].status|
  }

  /** Behind the last listed input the table is done. */
  function Merge(listed: seq<nat>, st: Status, k: nat): Phase {
    if k >= |listed| then Finished(listed, st) else Merging(listed, st, k, -1)
  }

  function SetPhase(s: State, t: TableID, ph: Phase): State
    requires InPhase(s, t)
  {
    s.(worker := Running(s.worker.b, s.worker.tabs[t := ph]))
  }

  function Exec(s: State, a: Action): State
    requires |s.bufs| == 2 && Enabled(s, a)
  {
    match a
    case Refresh(next, scan) => s.(pc := WaitIdle(next, scan))
    case Quiesce => s.(pc := Stopping(s.pc.next, s.pc.scan))
    case Install =>
      // startScan panics if a scan is registered already
      s.(pc := Top, defs := s.pc.next, used := s.used + s.pc.next, scans := s.scans + s.pc.scan,
         panicked := s.panicked || s.scans * s.pc.scan != {})
    case NoPermission => s.(pc := Exited)
    case Begin => s.(pc := Gathering, bufs := s.bufs[Cur(s) := s.bufs[Cur(s)].(inputs := [])])
    case Receive(item) =>
      s.(bufs := s.bufs[Cur(s) := s.bufs[Cur(s)].(inputs := s.bufs[Cur(s)].inputs + [item])], gathered := s.gathered + [item])
    case Enough => s.(pc := Launching)
    case EndOfQueue => s.(pc := Draining)
    case Launch =>
      var c := Cur(s);
      s.(pc := Top, curb := s.curb + 1,
         bufs := s.bufs[c := s.bufs[c].(status := seq(|s.bufs[c].inputs|, _ => OK))],
         worker := Running(c, map t | t in s.defs :: Filtering))
    case Close => s.(pc := Exited, closed := true)
    case Filter(t, listed, failed, st) =>
      SetPhase(s, t, if failed then Merge(listed, st, 0) else if listed == [] then Merge([], OK, 0) else Checking(listed))
    case Check(t) =>
      var listed := s.worker.tabs[t].listed;
      SetPhase(s, t, if t in s.scans then Merge(listed, TRY_AGAIN, 0) else Appending(listed))
    case Append(t, st) => SetPhase(s, t, Merge(s.worker.tabs[t].listed, st, 0))
    case Load(t) =>
      var ph := s.worker.tabs[t];
      SetPhase(s, t, ph.(got := s.bufs[s.worker.b].status[ph.listed[ph.k]]))
    case Swap(t) =>
      var ph, b := s.worker.tabs[t], s.worker.b;
      var j, want := ph.listed[ph.k], Max(ph.got, ph.st);
      if ph.got == want then SetPhase(s, t, Merge(ph.listed, ph.st, ph.k + 1))
      else if s.bufs[b].status[j] == ph.got then
        SetPhase(s.(bufs := s.bufs[b := s.bufs[b].(status := s.bufs[b].status[j := want])]), t, Merge(ph.listed, ph.st, ph.k + 1))
      else SetPhase(s, t, ph.(got := -1))
    case AllTables => s.(worker := Finalizing(s.worker.b, s.worker.tabs, 0))
    case Finalize =>
      var b, i := s.worker.b, s.worker.i;
      s.(outcomes := s.outcomes + [Outcome(s.bufs[b].inputs[i], s.bufs[b].status[i], Reports(s.worker.tabs, i))],
         worker := Finalizing(b, s.worker.tabs, i + 1))
    case BatchDone => s.(worker := Idle)
    case ScanEnds(t) => s.(scans := s.scans - {t})
  }

  /** Statuses of the tables that listed input i. */
  function Reports(tabs: map<TableID, Phase>, i: nat): set<Status> {
    set t | t in tabs && tabs[t].Finished? && i in tabs[t].listed :: tabs[t].st
  }

  // -------------------------------------------------------------------------- invariant

  /** The table has put its status into input j. */
  predicate Merged(ph: Phase, j: nat) {
    match ph
    case Merging(listed, _, k, _) => exists i :: 0 <= i < k && i < |listed| && listed[i] == j
    case Finished(listed, _) => j in listed
    case _ => false
  }

  function StatusOf(ph: Phase): Status {
    if ph.Merging? || ph.Finished? then ph.st else OK
  }

  /** v is the worst status merged into input j so far. */
  predicate Worst(tabs: map<TableID, Phase>, j: nat, v: Status) {
    && (forall t :: t in tabs && Merged(tabs[t], j) ==> StatusOf(tabs[t]) <= v)
    && (v == OK || exists t :: t in tabs && Merged(tabs[t], j) && StatusOf(tabs[t]) == v)
  }

  predicate PhaseOk(ph: Phase, status: seq<Status>) {
    match ph
    case Filtering => true
    case Checking(listed) => InBounds(listed, |status|)
    case Appending(listed) => InBounds(listed, |status|)
    case Merging(listed, _, k, got) => InBounds(listed, |status|) && k < |listed| && got <= status[listed[k]]
    case Finished(listed, _) => InBounds(listed, |status|)
  }

  predicate InBounds(listed: seq<nat>, n: nat) {
    forall i :: 0 <= i < |listed| ==> listed[i] < n
  }

  /** Every input carries the worst status merged so far. */
  predicate StatusOk(tabs: map<TableID, Phase>, status: seq<Status>) {
    && (forall t :: t in tabs ==> PhaseOk(tabs[t], status))
    && (forall j :: 0 <= j < |status| ==> Worst(tabs, j, status[j]))
  }

  predicate WorkerOk(s: State)
    requires |s.bufs| == 2
  {
    match s.worker
    case Idle => true
    case Running(b, tabs) =>
      && b == (s.curb + 1) % 2 && tabs.Keys == s.defs && |s.bufs[b].status| == |s.bufs[b].inputs|
      && StatusOk(tabs, s.bufs[b].status)
      && (forall t :: t in tabs && tabs[t].Appending? ==> t !in s.scans)
    case Finalizing(b, tabs, i) =>
      && b == (s.curb + 1) % 2 && |s.bufs[b].status| == |s.bufs[b].inputs| && i <= |s.bufs[b].inputs|
      && StatusOk(tabs, s.bufs[b].status) && (forall t :: t in tabs ==> tabs[t].Finished?)
  }

  predicate DefsOk(s: State) {
    && s.defs <= s.used && s.scans <= s.defs
    && (s.pc.WaitIdle? || s.pc.Stopping? ==> s.pc.next - s.defs !! s.used && s.pc.scan <= s.pc.next - s.defs)
    && (s.pc.Stopping? ==> s.worker.Idle?)
  }

  function Items(os: seq<Outcome>): (r: seq<Item>)
    ensures |r| == |os|
  {
    seq(|os|, i requires 0 <= i < |os| => os[i].item)
  }

  function InFlight(s: State): seq<Item>
    requires |s.bufs| == 2 && WorkerOk(s)
  {
    match s.worker
    case Idle => []
    case Running(b, _) => s.bufs[b].inputs
    case Finalizing(b, _, i) => s.bufs[b].inputs[i..]
  }

  function Collected(s: State): seq<Item>
    requires |s.bufs| == 2
  {
    if s.pc.Gathering? || s.pc.Launching? then s.bufs[Cur(s)].inputs else []
  }

  predicate IsWorst(st: Status, reports: set<Status>) {
    (forall r :: r in reports ==> r <= st) && (st == OK || st in reports)
  }

  /** Every item finalized got the worst status of the tables that listed it. */
  predicate OutcomesOk(os: seq<Outcome>) {
    forall i :: 0 <= i < |os| ==> IsWorst(os[i].status, os[i].reports)
  }

  predicate Inv(s: State) {
    && |s.bufs| == 2 && !s.panicked
    && WorkerOk(s) && DefsOk(s) && OutcomesOk(s.outcomes)
    && s.gathered == Items(s.outcomes) + InFlight(s) + Collected(s)
    && (s.closed ==> s.pc.Exited? && s.worker.Idle?)
  }

  // ------------------------------------------------------------------------- the steps

  lemma MainKeepsInv(s: State, a: Action)
    requires Inv(s) && Enabled(s, a)
    requires a.Refresh? || a.Quiesce? || a.NoPermission? || a.Begin? || a.Enough? || a.EndOfQueue? || a.Close? || a.ScanEnds?
    ensures Inv(Exec(s, a))
  {
    hide StatusOk, OutcomesOk;
    var now := Exec(s, a);
    assert InFlight(now) == InFlight(s);
    assert Collected(now) == Collected(s);
  }

  lemma InstallKeepsInv(s: State)
    requires Inv(s) && Enabled(s, Install)
    ensures Inv(Exec(s, Install))
  {
    hide StatusOk, OutcomesOk;
    assert s.scans == s.scans * s.defs;
  }

  lemma ReceiveKeepsInv(s: State, item: Item)
    requires Inv(s) && Enabled(s, Receive(item))
    ensures Inv(Exec(s, Receive(item)))
  {
    hide StatusOk, OutcomesOk;
    var now := Exec(s, Receive(item));
    assert InFlight(now) == InFlight(s);
    assert Collected(now) == Collected(s) + [item];
  }

  lemma LaunchKeepsInv(s: State)
    requires Inv(s) && Enabled(s, Launch)
    ensures Inv(Exec(s, Launch))
  {
    hide OutcomesOk;
    var now := Exec(s, Launch);
    assert InFlight(now) == Collected(s);
    assert now.gathered == Items(now.outcomes) + InFlight(now) + [];
  }

  lemma DoneKeepsInv(s: State, a: Action)
    requires Inv(s) && Enabled(s, a) && (a.AllTables? || a.BatchDone?)
    ensures Inv(Exec(s, a))
  {
    hide StatusOk, OutcomesOk;
    var now := Exec(s, a);
    assert InFlight(now) == InFlight(s);
  }

  /** At the end the worst merged status is the worst reported one. */
  lemma WorstIsReported(tabs: map<TableID, Phase>, i: nat, v: Status)
    requires Worst(tabs, i, v) && forall t :: t in tabs ==> tabs[t].Finished?
    ensures IsWorst(v, Reports(tabs, i))
  {
  }

  lemma FinalizeKeepsInv(s: State)
    requires Inv(s) && Enabled(s, Finalize)
    ensures Inv(Exec(s, Finalize))
  {
    hide Worst, IsWorst, Reports;
    var now := Exec(s, Finalize);
    var b, i := s.worker.b, s.worker.i;
    WorstIsReported(s.worker.tabs, i, s.bufs[b].status[i]);
    assert InFlight(s) == [s.bufs[b].inputs[i]] + InFlight(now);
    assert Items(now.outcomes) == Items(s.outcomes) + [s.bufs[b].inputs[i]];
  }

  // -------------------------------------------------------------------- inside runTable

  /** A table that changes phase without having merged anything more. */
  lemma PhaseChange(tabs: map<TableID, Phase>, status: seq<Status>, t: TableID, ph: Phase)
    requires StatusOk(tabs, status) && t in tabs && PhaseOk(ph, status)
    requires forall j :: 0 <= j < |status| ==> (Merged(ph, j) <==> Merged(tabs[t], j))
    requires forall j :: 0 <= j < |status| && Merged(ph, j) ==> StatusOf(ph) == StatusOf(tabs[t])
    ensures StatusOk(tabs[t := ph], status)
  {
    hide PhaseOk, Merged;
    var now := tabs[t := ph];
    forall j | 0 <= j < |status| ensures Worst(now, j, status[j]) {
      assert Worst(tabs, j, status[j]);
      if status[j] != OK {
        var u :| u in tabs && Merged(tabs[u], j) && StatusOf(tabs[u]) == status[j];
        assert Merged(now[u], j) && StatusOf(now[u]) == status[j];
      }
    }
  }

  /** A table merges into input j = listed[k], whose status is at least its own by now. */
  lemma MergeStep(tabs: map<TableID, Phase>, status: seq<Status>, t: TableID)
    requires StatusOk(tabs, status) && t in tabs && Pending(tabs[t])
    requires tabs[t].listed[tabs[t].k] < |status| && tabs[t].st <= status[tabs[t].listed[tabs[t].k]]
    ensures StatusOk(tabs[t := Merge(tabs[t].listed, tabs[t].st, tabs[t].k + 1)], status)
  {
    var ph := tabs[t];
    var next := Merge(ph.listed, ph.st, ph.k + 1);
    MergedNext(ph, next);
    hide Merged, PhaseOk;
    MergePhaseOk(ph, status);
    var now := tabs[t := next];
    forall j | 0 <= j < |status| ensures Worst(now, j, status[j]) {
      assert Worst(tabs, j, status[j]);
      if status[j] != OK {
        var u :| u in tabs && Merged(tabs[u], j) && StatusOf(tabs[u]) == status[j];
        assert Merged(now[u], j) && StatusOf(now[u]) == status[j];
      }
    }
  }

  lemma MergePhaseOk(ph: Phase, status: seq<Status>)
    requires Pending(ph) && PhaseOk(ph, status)
    ensures PhaseOk(Merge(ph.listed, ph.st, ph.k + 1), status)
  {
  }

  lemma MergedNext(ph: Phase, next: Phase)
    requires Pending(ph) && next == Merge(ph.listed, ph.st, ph.k + 1)
    ensures next.st == ph.st && forall j :: Merged(next, j) <==> Merged(ph, j) || j == ph.listed[ph.k]
  {
    forall j ensures Merged(next, j) <==> Merged(ph, j) || j == ph.listed[ph.k] {
      if j == ph.listed[ph.k] {
        assert ph.k < ph.k + 1;
      }
    }
  }

  /** Raising the status of input j to st, which then has been merged by t. */
  lemma RaiseStep(tabs: map<TableID, Phase>, status: seq<Status>, t: TableID)
    requires StatusOk(tabs, status) && t in tabs && Pending(tabs[t])
    requires var j := tabs[t].listed[tabs[t].k]; j < |status| && status[j] <= tabs[t].st
    ensures var ph := tabs[t];
      StatusOk(tabs[t := Merge(ph.listed, ph.st, ph.k + 1)], status[ph.listed[ph.k] := ph.st])
  {
    var ph := tabs[t];
    var next, at := Merge(ph.listed, ph.st, ph.k + 1), ph.listed[ph.k];
    var up := status[at := ph.st];
    MergedNext(ph, next);
    MergePhaseOk(ph, status);
    forall u | u in tabs ensures PhaseOk(tabs[u], up) {
      PhaseRaised(tabs[u], status, up);
    }
    PhaseRaised(next, status, up);
    hide Merged, PhaseOk, Worst;
    forall j | 0 <= j < |up| ensures Worst(tabs[t := next], j, up[j]) {
      assert Worst(tabs, j, status[j]);
      WorstRaised(tabs, t, next, j, at, status[j]);
    }
  }

  /** Raising input at to the status of table t leaves every input with the worst one merged. */
  lemma WorstRaised(tabs: map<TableID, Phase>, t: TableID, next: Phase, j: nat, at: nat, v: Status)
    requires t in tabs && Worst(tabs, j, v) && StatusOf(next) == StatusOf(tabs[t]) && (j == at ==> v <= StatusOf(next))
    requires Merged(next, j) <==> Merged(tabs[t], j) || j == at
    ensures Worst(tabs[t := next], j, if j == at then StatusOf(next) else v)
  {
    hide Merged, StatusOf;
    var now := tabs[t := next];
    if j == at {
      assert Merged(now[t], j) && StatusOf(now[t]) == StatusOf(next);
    } else if v != OK {
      var u :| u in tabs && Merged(tabs[u], j) && StatusOf(tabs[u]) == v;
      assert Merged(now[u], j) && StatusOf(now[u]) == v;
    }
  }

  lemma PhaseRaised(ph: Phase, status: seq<Status>, up: seq<Status>)
    requires PhaseOk(ph, status) && |up| == |status| && forall j :: 0 <= j < |up| ==> status[j] <= up[j]
    ensures PhaseOk(ph, up)
  {
  }

  lemma TableKeepsInv(s: State, a: Action)
    requires Inv(s) && Enabled(s, a) && (a.Filter? || a.Check? || a.Append? || a.Load?)
    ensures Inv(Exec(s, a))
  {
    hide StatusOk, OutcomesOk;
    var now := Exec(s, a);
    var b := s.worker.b;
    KeepsPhases(s.worker.tabs, s.bufs[b].status, a.t);
    NothingMerged(s.worker.tabs, s.bufs[b].status, a.t, now.worker.tabs[a.t]);
    assert InFlight(now) == InFlight(s);
  }

  lemma KeepsPhases(tabs: map<TableID, Phase>, status: seq<Status>, t: TableID)
    requires StatusOk(tabs, status) && t in tabs
    ensures PhaseOk(tabs[t], status)
  {
  }

  lemma NothingMerged(tabs: map<TableID, Phase>, status: seq<Status>, t: TableID, ph: Phase)
    requires StatusOk(tabs, status) && t in tabs && PhaseOk(ph, status)
    requires || (!tabs[t].Merging? && !tabs[t].Finished? && (ph.Merging? ==> ph.k == 0) && (ph.Finished? ==> ph.listed == []))
             || (tabs[t].Merging? && ph.Merging? && ph == tabs[t].(got := ph.got))
    ensures StatusOk(tabs[t := ph], status)
  {
    PhaseChange(tabs, status, t, ph);
  }

  lemma SwapKeepsInv(s: State, t: TableID)
    requires Inv(s) && Enabled(s, Swap(t))
    ensures Inv(Exec(s, Swap(t)))
  {
    hide StatusOk, OutcomesOk;
    var now := Exec(s, Swap(t));
    var b, tabs := s.worker.b, s.worker.tabs;
    var status, ph := s.bufs[b].status, tabs[t];
    KeepsPhases(tabs, status, t);
    if ph.got == Max(ph.got, ph.st) {
      MergeStep(tabs, status, t);
    } else if status[ph.listed[ph.k]] == ph.got {
      RaiseStep(tabs, status, t);
    } else {
      NothingMerged(tabs, status, t, ph.(got := -1));
    }
    assert InFlight(now) == InFlight(s);
    assert Collected(now) == Collected(s);
  }

  // ------------------------------------------------------------------------- whole runs

  lemma StepKeepsInv(s: State, a: Action)
    requires Inv(s) && Enabled(s, a)
    ensures Inv(Exec(s, a))
  {
    hide Inv, Exec, Enabled;
    match a
    case Install => InstallKeepsInv(s);
    case Receive(item) => ReceiveKeepsInv(s, item);
    case Launch => LaunchKeepsInv(s);
    case AllTables => DoneKeepsInv(s, a);
    case BatchDone => DoneKeepsInv(s, a);
    case Finalize => FinalizeKeepsInv(s);
    case Filter(_, _, _, _) => TableKeepsInv(s, a);
    case Check(_) => TableKeepsInv(s, a);
    case Append(_, _) => TableKeepsInv(s, a);
    case Load(_) => TableKeepsInv(s, a);
    case Swap(t) => SwapKeepsInv(s, t);
    case _ => MainKeepsInv(s, a);
  }

  predicate Possible(s: State, run: seq<Action>)
    decreases |run|
  {
    run == [] || (|s.bufs| == 2 && Enabled(s, run[0]) && Possible(Exec(s, run[0]), run[1..]))
  }

  function After(s: State, run: seq<Action>): State
    requires Possible(s, run)
    decreases |run|
  {
    if run == [] then s else After(Exec(s, run[0]), run[1..])
  }

  lemma {:induction false} RunKeepsInv(s: State, run: seq<Action>)
    requires Inv(s) && Possible(s, run)
    ensures Inv(After(s, run))
    decreases |run|
  {
    hide Inv, Exec, Enabled;
    if run != [] {
      StepKeepsInv(s, run[0]);
      RunKeepsInv(Exec(s, run[0]), run[1..]);
    }
  }

  /** Over all interleavings: statuses are right, items are conserved and in order, Close comes
      last, a buffer in flight is not gathered into, appends exclude scans, startScan never panics. */
  lemma AllRuns(run: seq<Action>)
    requires Possible(INIT, run)
    ensures var s := After(INIT, run);
      && |s.bufs| == 2 && WorkerOk(s) && OutcomesOk(s.outcomes)
      && s.gathered == Items(s.outcomes) + InFlight(s) + Collected(s)
      && (s.closed ==> s.gathered == Items(s.outcomes))
      && (s.pc.Gathering? && !s.worker.Idle? ==> s.worker.b != Cur(s))
      && (forall t :: InPhase(s, t) && s.worker.tabs[t].Appending? ==> t !in s.scans)
      && !s.panicked
  {
    Start();
    RunKeepsInv(INIT, run);
    var s := After(INIT, run);
    assert Items(s.outcomes) + [] + [] == Items(s.outcomes);
  }

  lemma Start()
    ensures Inv(INIT)
  {
  }

  // -------------------------------------------------------------------- two limits of the design

  /** An item is reported as processed exactly if no table that listed it failed; a table whose
      filter failed before it came to the item has no say. */
  lemma ProcessedIff(run: seq<Action>, i: nat)
    requires Possible(INIT, run) && i < |After(INIT, run).outcomes|
    ensures var o := After(INIT, run).outcomes[i];
      o.status == OK <==> forall r :: r in o.reports ==> r == OK
  {
    hide Inv, Exec, Enabled, WorkerOk;
    AllRuns(run);
    var o := After(INIT, run).outcomes[i];
    assert IsWorst(o.status, o.reports);
  }

  /** One step of a run, from s to t. */
  predicate Steps(s: State, a: Action, t: State) {
    |s.bufs| == 2 && Enabled(s, a) && Exec(s, a) == t
  }

  lemma FirstStep(s: State, a: Action, t: State, rest: seq<Action>)
    requires Steps(s, a, t) && Possible(t, rest)
    ensures Possible(s, [a] + rest) && After(s, [a] + rest) == After(t, rest)
  {
    hide Enabled, Exec;
    assert ([a] + rest)[1..] == rest;
  }

  /** The main goroutine has set up the tables ts, all of them with background scans. */
  function Ready(ts: set<TableID>): State {
    INIT.(defs := ts, used := ts, scans := ts)
  }

  lemma SetUp(ts: set<TableID>)
    ensures Steps(INIT, Refresh(ts, ts), INIT.(pc := WaitIdle(ts, ts)))
    ensures Steps(INIT.(pc := WaitIdle(ts, ts)), Quiesce, INIT.(pc := Stopping(ts, ts)))
    ensures Steps(INIT.(pc := Stopping(ts, ts)), Install, Ready(ts))
  {
    assert {} + ts == ts && {} * ts == {} && ts - {} == ts;
  }

  lemma GetReady(ts: set<TableID>, rest: seq<Action>) returns (run: seq<Action>)
    requires Possible(Ready(ts), rest)
    ensures Possible(INIT, run) && After(INIT, run) == After(Ready(ts), rest)
    ensures run == [Refresh(ts, ts), Quiesce, Install] + rest
  {
    hide Enabled, Exec, Steps;
    SetUp(ts);
    FirstStep(INIT.(pc := Stopping(ts, ts)), Install, Ready(ts), rest);
    FirstStep(INIT.(pc := WaitIdle(ts, ts)), Quiesce, INIT.(pc := Stopping(ts, ts)), [Install] + rest);
    FirstStep(INIT, Refresh(ts, ts), INIT.(pc := WaitIdle(ts, ts)), [Quiesce] + ([Install] + rest));
    run := [Refresh(ts, ts)] + ([Quiesce] + ([Install] + rest));
  }

  lemma EmptyBatch(s: State)
    requires s.bufs == INIT.bufs && s.curb == 0 && s.worker.Idle? && s.pc.Top?
    ensures Steps(s, Begin, s.(pc := Gathering))
    ensures Steps(s.(pc := Gathering), EndOfQueue, s.(pc := Draining))
    ensures Steps(s.(pc := Draining), Close, s.(pc := Exited, closed := true))
  {
    assert s.bufs[0 := s.bufs[0].(inputs := [])] == s.bufs;
  }

  /** Background scans outlive `Run`: the deferred stopScans has been given the map as it was before
      any table was known. Any set of tables can be left scanning. */
  lemma ScansSurvive(ts: set<TableID>) returns (run: seq<Action>)
    ensures Possible(INIT, run)
    ensures var s := After(INIT, run); s.pc.Exited? && s.closed && s.scans == ts
  {
    var s := Ready(ts);
    EmptyBatch(s);
    hide Enabled, Exec, Steps;
    var last := s.(pc := Exited, closed := true);
    FirstStep(s.(pc := Draining), Close, last, []);
    FirstStep(s.(pc := Gathering), EndOfQueue, s.(pc := Draining), [Close] + []);
    FirstStep(s, Begin, s.(pc := Gathering), [EndOfQueue] + ([Close] + []));
    run := GetReady(ts, [Begin] + ([EndOfQueue] + ([Close] + [])));
  }

  /** The states of a run in which one item is gathered and launched. */
  function Received(item: Item): State {
    Ready({0}).(pc := Gathering, bufs := [Batch([item], []), Batch([], [])], gathered := [item])
  }

  function Launched(item: Item, ph: Phase): State {
    Received(item).(pc := Top, curb := 1, bufs := [Batch([item], [OK]), Batch([], [])], worker := Running(0, map[0 := ph]))
  }

  lemma Gathered(item: Item)
    ensures Steps(Ready({0}).(pc := Gathering), Receive(item), Received(item))
    ensures Steps(Received(item), Enough, Received(item).(pc := Launching))
  {
    assert [] + [item] == [item];
    assert INIT.bufs[0 := Batch([item], [])] == Received(item).bufs;
  }

  lemma Started(item: Item)
    ensures Steps(Received(item).(pc := Launching), Launch, Launched(item, Filtering))
  {
    var s := Received(item).(pc := Launching);
    var t := Exec(s, Launch);
    assert t.bufs[0].status == [OK];
    assert t.bufs == Launched(item, Filtering).bufs;
    assert t.worker.tabs == map[0 := Filtering];
  }

  lemma Failed(item: Item, st: Status)
    ensures Steps(Launched(item, Filtering), Filter(0, [], true, st), Launched(item, Finished([], st)))
  {
    var s, t := Launched(item, Filtering), Launched(item, Finished([], st));
    assert s.worker.tabs[0 := Finished([], st)] == t.worker.tabs;
    assert SetPhase(s, 0, Finished([], st)) == t;
    assert Merge([], st, 0) == Finished([], st);
  }

  lemma Ended(item: Item, st: Status)
    ensures var s := Launched(item, Finished([], st));
      && Steps(s, AllTables, s.(worker := Finalizing(0, s.worker.tabs, 0)))
      && Steps(s.(worker := Finalizing(0, s.worker.tabs, 0)), Finalize,
               s.(worker := Finalizing(0, s.worker.tabs, 1), outcomes := [Outcome(item, OK, {})]))
  {
    var tabs := map[0 := Finished([], st)];
    assert Reports(tabs, 0) == {};
    var none: seq<Outcome> := [];
    assert none + [Outcome(item, OK, {})] == [Outcome(item, OK, {})];
  }

  /** The batch goroutine of a batch with one item, whose only table fails before it lists it. */
  lemma LostInBatch(item: Item, st: Status)
    ensures var run, s := [Filter(0, [], true, st), AllTables, Finalize], Launched(item, Filtering);
      Possible(s, run) && After(s, run).outcomes == [Outcome(item, OK, {})]
  {
    hide Enabled, Exec, Steps;
    Failed(item, st);
    Ended(item, st);
    var s, a := Launched(item, Finished([], st)), Filter(0, [], true, st);
    var s' := s.(worker := Finalizing(0, s.worker.tabs, 0));
    FirstStep(s', Finalize, s.(worker := Finalizing(0, s.worker.tabs, 1), outcomes := [Outcome(item, OK, {})]), []);
    FirstStep(s, AllTables, s', [Finalize] + []);
    FirstStep(Launched(item, Filtering), a, s, [AllTables] + ([Finalize] + []));
    assert [a] + ([AllTables] + ([Finalize] + [])) == [a, AllTables, Finalize];
  }

  /** One item is received and launched. */
  lemma OneItem(item: Item, rest: seq<Action>)
    requires Possible(Launched(item, Filtering), rest)
    ensures var run := [Begin, Receive(item), Enough, Launch] + rest;
      Possible(Ready({0}), run) && After(Ready({0}), run) == After(Launched(item, Filtering), rest)
  {
    EmptyBatch(Ready({0}));
    hide Enabled, Exec, Steps;
    Gathered(item);
    Started(item);
    var s := Received(item);
    FirstStep(s.(pc := Launching), Launch, Launched(item, Filtering), rest);
    FirstStep(s, Enough, s.(pc := Launching), [Launch] + rest);
    FirstStep(Ready({0}).(pc := Gathering), Receive(item), s, [Enough] + ([Launch] + rest));
    FirstStep(Ready({0}), Begin, Ready({0}).(pc := Gathering), [Receive(item)] + ([Enough] + ([Launch] + rest)));
    assert [Begin] + ([Receive(item)] + ([Enough] + ([Launch] + rest))) == [Begin, Receive(item), Enough, Launch] + rest;
  }

  /** An item no table has processed, reported as processed: the only table fails with status st
      before it lists the item. */
  lemma FilterErrorIsLost(item: Item, st: Status) returns (run: seq<Action>)
    ensures run == [Refresh({0}, {0}), Quiesce, Install, Begin, Receive(item), Enough, Launch,
                    Filter(0, [], true, st), AllTables, Finalize]
    ensures Possible(INIT, run) && After(INIT, run).outcomes == [Outcome(item, OK, {})]
  {
    hide Enabled, Exec, Steps, Possible, After;
    LostInBatch(item, st);
    var rest := [Filter(0, [], true, st), AllTables, Finalize];
    OneItem(item, rest);
    run := GetReady({0}, [Begin, Receive(item), Enough, Launch] + rest);
  }
}
