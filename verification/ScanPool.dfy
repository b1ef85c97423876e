// The worker pool of states/scan_binlog.go as a state machine: a dispatcher handing segments over an
// unbuffered channel, an error channel of one slot, and any number of workers.
module ScanPool {
  import opened Runs

  datatype Worker = Idle | Working(segment: nat) | Quit

  datatype Dispatcher = Dispatching | Waiting | Summarized | Failed

  /** Segments are numbered; next counts those handed out of total. errCh says whether the error slot
      is taken, err whether the dispatcher took an error from it. */
  datatype State = State(
    total: nat,
    next: nat,
    dispatcher: Dispatcher,
    errCh: bool,
    err: bool,
    workers: seq<Worker>,
    worked: seq<nat>,
    failed: seq<nat>)

  datatype Step = HandOff(w: nat) | TakeErr | Close | Finish(w: nat, ok: bool) | Exit(w: nat) | AllGone

  function Init(total: nat, workerNum: nat): State {
    State(total, 0, Dispatching, false, false, seq(workerNum, _ => Idle), [], [])
  }

  predicate Enabled(s: State, a: Step) {
    match a
    case HandOff(w) => s.dispatcher == Dispatching && s.next < s.total && w < |s.workers| && s.workers[w].Idle?
    case TakeErr => s.dispatcher == Dispatching && s.next < s.total && s.errCh
    case Close => s.dispatcher == Dispatching && s.next >= s.total
    case Finish(w, _) => w < |s.workers| && s.workers[w].Working?
    case Exit(w) => s.dispatcher != Dispatching && w < |s.workers| && s.workers[w].Idle?
    case AllGone => s.dispatcher == Waiting && forall w | 0 <= w < |s.workers| :: s.workers[w].Quit?
  }

  /** A work call that succeeds or ends at the end of its data is ok; the channel is closed as soon as
      the dispatcher stops dispatching. */
  function Apply(s: State, a: Step): State
    requires Enabled(s, a)
  {
    match a
    case HandOff(w) => s.(workers := s.workers[w := Working(s.next)], next := s.next + 1)
    case TakeErr => s.(err := true, errCh := false, dispatcher := Waiting)
    case Close => s.(dispatcher := Waiting)
    case Finish(w, ok) =>
      var segment := s.workers[w].segment;
      if ok then s.(workers := s.workers[w := Idle], worked := s.worked + [segment])
      else s.(workers := s.workers[w := Quit], failed := s.failed + [segment], errCh := true)
    case Exit(w) => s.(workers := s.workers[w := Quit])
    case AllGone => s.(dispatcher := if s.err then Failed else Summarized)
  }

  // ---------- each segment to one worker ----------

  /** The segments 0 .. n - 1, once each. */
  ghost function Upto(n: nat): multiset<nat> {
    if n == 0 then multiset{} else Upto(n - 1) + multiset{n - 1}
  }

  lemma {:induction false} UptoOnce(n: nat, k: nat)
    ensures Upto(n)[k] == if k < n then 1 else 0
  {
    if n > 0 {
      UptoOnce(n - 1, k);
    }
  }

  ghost const IN_HAND: Worker -> multiset<nat> := (w: Worker) => if w.Working? then multiset{w.segment} else multiset{}

  /** Every segment handed out is with one worker, or was worked, or failed. */
  ghost predicate Accounted(s: State) {
    s.next <= s.total && Upto(s.next) == Total(s.workers, IN_HAND) + multiset(s.worked) + multiset(s.failed)
  }

  lemma StepKeepsAccounts(s: State, a: Step)
    requires Enabled(s, a) && Accounted(s)
    ensures Accounted(Apply(s, a))
  {
    match a
    case HandOff(w) => HandOffKeeps(s, w);
    case Finish(w, ok) => FinishKeeps(s, w, ok);
    case Exit(w) => TotalUpdateSame(s.workers, w, Quit, IN_HAND);
    case _ =>
  }

  lemma HandOffKeeps(s: State, w: nat)
    requires Enabled(s, HandOff(w)) && Accounted(s)
    ensures Accounted(Apply(s, HandOff(w)))
  {
    var t := Apply(s, HandOff(w));
    var d := Working(s.next);
    var one := IN_HAND(d);
    assert Total(t.workers, IN_HAND) == Total(s.workers, IN_HAND) + one by {
      assert IN_HAND(s.workers[w]) == multiset{};
      TotalUpdateAdd(s.workers, w, d, IN_HAND);
    }
    assert Upto(t.next) == Upto(s.next) + one by {
      UptoNext(s.next);
    }
    MoveOne(Upto(s.next), Total(s.workers, IN_HAND), multiset(s.worked), multiset(s.failed), one);
  }

  lemma UptoNext(n: nat)
    ensures Upto(n + 1) == Upto(n) + multiset{n}
  {
  }

  lemma MoveOne<T>(all: multiset<T>, held: multiset<T>, worked: multiset<T>, failed: multiset<T>, one: multiset<T>)
    requires all == held + worked + failed
    ensures all + one == (held + one) + worked + failed
  {
  }

  lemma FinishKeeps(s: State, w: nat, ok: bool)
    requires Enabled(s, Finish(w, ok)) && Accounted(s)
    ensures Accounted(Apply(s, Finish(w, ok)))
  {
    var k := s.workers[w].segment;
    var d := if ok then Idle else Quit;
    TotalUpdateRemove(s.workers, w, d, IN_HAND);
    assert multiset(s.worked + [k]) == multiset(s.worked) + multiset{k};
    assert multiset(s.failed + [k]) == multiset(s.failed) + multiset{k};
  }

  // ---------- deadlock ----------

  /** While dispatching, a worker that has quit left an error for the dispatcher to take. */
  predicate Control(s: State) {
    && (s.dispatcher == Dispatching && (exists w | 0 <= w < |s.workers| :: s.workers[w].Quit?) ==> s.errCh)
    && (s.dispatcher in {Summarized, Failed} ==> forall w | 0 <= w < |s.workers| :: s.workers[w].Quit?)
    && (s.dispatcher == Dispatching ==> !s.err)
    && (s.dispatcher in {Waiting, Summarized, Failed} && !s.err ==> s.next >= s.total)
    && (s.dispatcher == Summarized ==> !s.err)
  }

  lemma StepKeepsControl(s: State, a: Step)
    requires Enabled(s, a) && Control(s)
    ensures Control(Apply(s, a)) && |Apply(s, a).workers| == |s.workers| && Apply(s, a).total == s.total
  {
  }

  predicate Finished(s: State) {
    s.dispatcher == Summarized || s.dispatcher == Failed
  }

  lemma NoDeadlock(s: State) returns (a: Step)
    requires Control(s) && !Finished(s) && (|s.workers| > 0 || s.next >= s.total)
    ensures Enabled(s, a)
  {
    if w :| 0 <= w < |s.workers| && s.workers[w].Working? {
      return Finish(w, true);
    }
    if s.dispatcher == Dispatching && s.next >= s.total {
      return Close;
    }
    if w :| 0 <= w < |s.workers| && s.workers[w].Idle? {
      return if s.dispatcher == Dispatching then HandOff(w) else Exit(w);
    }
    if s.dispatcher == Dispatching {
      assert s.workers[0].Quit?;
      return TakeErr;
    }
    return AllGone;
  }

  // ---------- runs ----------

  predicate Valid(s: State, run: seq<Step>)
    decreases |run|
  {
    run != [] ==> Enabled(s, run[0]) && Valid(Apply(s, run[0]), run[1..])
  }

  function After(s: State, run: seq<Step>): State
    requires Valid(s, run)
    decreases |run|
  {
    if run == [] then s else After(Apply(s, run[0]), run[1..])
  }

  lemma {:induction false} RunKeeps(s: State, run: seq<Step>)
    requires Valid(s, run) && Control(s) && Accounted(s)
    ensures var t := After(s, run);
      Control(t) && Accounted(t) && |t.workers| == |s.workers| && t.total == s.total && |run| + Remaining(t) <= Remaining(s)
    decreases |run|
  {
    if run != [] {
      StepKeepsControl(s, run[0]);
      StepKeepsAccounts(s, run[0]);
      StepsRunOut(s, run[0]);
      RunKeeps(Apply(s, run[0]), run[1..]);
    }
  }

  function WorkerRank(w: Worker): nat {
    match w
    case Working(_) => 3
    case Idle => 1
    case Quit => 0
  }

  function Remaining(s: State): nat {
    (if s.next <= s.total then 3 * (s.total - s.next) else 0) + RankSum(s.workers, WorkerRank)
    + (match s.dispatcher case Dispatching => 2 case Waiting => 1 case _ => 0)
  }

  lemma StepsRunOut(s: State, a: Step)
    requires Enabled(s, a)
    ensures Remaining(Apply(s, a)) < Remaining(s)
  {
    match a
    case HandOff(w) => RankSumUpdate(s.workers, w, Working(s.next), WorkerRank);
    case Finish(w, ok) => RankSumUpdate(s.workers, w, if ok then Idle else Quit, WorkerRank);
    case Exit(w) => RankSumUpdate(s.workers, w, Quit, WorkerRank);
    case _ =>
  }

  lemma {:induction false} NobodyWorking(ws: seq<Worker>)
    requires forall w | w in ws :: !w.Working?
    ensures Total(ws, IN_HAND) == multiset{}
  {
    if ws != [] {
      NobodyWorking(ws[..|ws| - 1]);
    }
  }

  lemma InitAccounts(total: nat, workerNum: nat)
    ensures Accounted(Init(total, workerNum)) && Control(Init(total, workerNum))
  {
    NobodyWorking(Init(total, workerNum).workers);
  }

  ghost function Everywhere(s: State): multiset<nat> {
    Total(s.workers, IN_HAND) + multiset(s.worked) + multiset(s.failed)
  }

  /** At no point of any run is a segment with two workers, or worked twice: each of those handed out
      is in exactly one place, and no other is anywhere. */
  lemma NoSegmentTwice(total: nat, workerNum: nat, run: seq<Step>, k: nat)
    requires Valid(Init(total, workerNum), run)
    ensures var t := After(Init(total, workerNum), run);
      Everywhere(t)[k] == (if k < t.next then 1 else 0) && t.next <= total
  {
    var t := After(Init(total, workerNum), run);
    InitAccounts(total, workerNum);
    RunKeeps(Init(total, workerNum), run);
    UptoOnce(t.next, k);
    assert Everywhere(t) == Upto(t.next);
  }

  ghost predicate DeadEnd(s: State) {
    !Finished(s) && forall a :: !Enabled(s, a)
  }

  ghost predicate CanDeadlock(total: nat, workerNum: nat) {
    exists run :: Valid(Init(total, workerNum), run) && DeadEnd(After(Init(total, workerNum), run))
  }

  /** The pool can deadlock exactly when it has no worker and at least one segment; otherwise every
      run is bounded in length and can go on until the pool has finished. */
  lemma DeadlockIffNoWorkers(total: nat, workerNum: nat)
    ensures CanDeadlock(total, workerNum) <==> workerNum == 0 && total > 0
  {
    var s := Init(total, workerNum);
    if workerNum == 0 && total > 0 {
      assert Valid(s, []) && After(s, []) == s;
      assert DeadEnd(After(s, []));
    } else {
      forall run | Valid(s, run)
        ensures !DeadEnd(After(s, run))
      {
        InitAccounts(total, workerNum);
        RunKeeps(s, run);
        var t := After(s, run);
        if !Finished(t) {
          var a := NoDeadlock(t);
        }
      }
    }
  }

  lemma RunsAreBounded(total: nat, workerNum: nat, run: seq<Step>)
    requires Valid(Init(total, workerNum), run)
    ensures |run| <= Remaining(Init(total, workerNum))
  {
    InitAccounts(total, workerNum);
    RunKeeps(Init(total, workerNum), run);
  }

  predicate AllOk(run: seq<Step>) {
    forall a | a in run && a.Finish? :: a.ok
  }

  lemma {:induction false} NoErrorIfAllOk(s: State, run: seq<Step>)
    requires Valid(s, run) && AllOk(run) && !s.errCh && !s.err && s.failed == []
    ensures var t := After(s, run); !t.errCh && !t.err && t.failed == []
    decreases |run|
  {
    if run != [] {
      assert run[0] in run && AllOk(run[1..]);
      NoErrorIfAllOk(Apply(s, run[0]), run[1..]);
    }
  }

  /** If every work call succeeds or reaches the end of its data, then whenever the pool has finished
      it is summarizing, and each segment has been worked exactly once. */
  lemma EachSegmentWorkedOnce(total: nat, workerNum: nat, run: seq<Step>)
    requires Valid(Init(total, workerNum), run) && AllOk(run)
    requires Finished(After(Init(total, workerNum), run))
    ensures After(Init(total, workerNum), run).dispatcher == Summarized
    ensures multiset(After(Init(total, workerNum), run).worked) == Upto(total)
  {
    var s := Init(total, workerNum);
    InitAccounts(total, workerNum);
    RunKeeps(s, run);
    NoErrorIfAllOk(s, run);
    FailedMeansErr(s, run);
    var t := After(s, run);
    NobodyWorking(t.workers);
  }

  lemma {:induction false} FailedMeansErr(s: State, run: seq<Step>)
    requires Valid(s, run) && (s.dispatcher == Failed ==> s.err)
    ensures After(s, run).dispatcher == Failed ==> After(s, run).err
    decreases |run|
  {
    if run != [] {
      FailedMeansErr(Apply(s, run[0]), run[1..]);
    }
  }
}
