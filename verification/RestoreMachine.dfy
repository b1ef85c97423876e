// The concurrent restore of states/etcd_restore.go as a state machine: a reader goroutine, a
// channel of batches, three workers and the waiting caller, interleaved in any order.
module RestoreMachine {
  import opened Prelude
  import opened Runs

  const BATCH_NUM := 10
  const CHANNEL_CAPACITY := 10
  const WORKER_NUM := 3

  /** cnt is the entry count of the part's header, a signed number and the divisor of the progress
      line; clean says whether the bytes end properly. */
  datatype Config = Config(cnt: int, clean: bool)

  datatype ReaderPC = Reading | Sending | Counting | Flushing | Closing | Finished

  /** After a save a worker tests the error variable and, if it saw an error there, prints it. */
  datatype Worker<E> = Idle | Saving(batch: seq<E>) | Testing | Printing | Gone

  /** What brought the process down, if anything: the progress line, or a worker printing an error that
      had meanwhile become nil. */
  datatype Crash = Running | DividedByZero | NilError

  datatype MainPC = WaitErr | WaitGroup | Returned(ok: bool)

  /** input holds what the reader has yet to decode (None for a frame it skips); saved and lost log
      the entries of successful and failed saves. ok says whether the error variable that the workers
      and the caller share is nil, errCh whether the error in the channel is. */
  datatype State<E> = State(
    input: seq<Option<E>>,
    reader: ReaderPC,
    batch: seq<E>,
    ch: seq<seq<E>>,
    closed: bool,
    errCh: Option<bool>,
    workers: seq<Worker<E>>,
    main: MainPC,
    ok: bool,
    saved: seq<E>,
    lost: seq<E>,
    crash: Crash)

  datatype Step = Read | SendFull | Count | ReportEnd | Flush | CloseChannel
                | Take(w: nat) | Save(w: nat, ok: bool) | Test(w: nat) | Print(w: nat) | Quit(w: nat)
                | ReceiveErr | Return

  predicate OfWorker(a: Step) {
    a.Take? || a.Save? || a.Test? || a.Print? || a.Quit?
  }

  function Init<E>(input: seq<Option<E>>): State<E> {
    State(input, Reading, [], [], false, None, seq(WORKER_NUM, _ => Idle), WaitErr, true, [], [], Running)
  }

  predicate Enabled<E>(s: State<E>, a: Step) {
    s.crash.Running? &&
    match a
    case Read => s.reader == Reading && s.input != []
    case SendFull => s.reader == Sending && |s.ch| < CHANNEL_CAPACITY
    case Count => s.reader == Counting
    case ReportEnd => s.reader == Reading && s.input == [] && s.errCh.None?
    case Flush => s.reader == Flushing && (s.batch == [] || |s.ch| < CHANNEL_CAPACITY)
    case CloseChannel => s.reader == Closing
    case Take(w) => w < |s.workers| && s.workers[w].Idle? && s.ch != []
    case Save(w, _) => w < |s.workers| && s.workers[w].Saving?
    case Test(w) => w < |s.workers| && s.workers[w].Testing?
    case Print(w) => w < |s.workers| && s.workers[w].Printing?
    case Quit(w) => w < |s.workers| && s.workers[w].Idle? && s.ch == [] && s.closed
    case ReceiveErr => s.main == WaitErr && s.errCh.Some?
    case Return => s.main == WaitGroup && forall w | 0 <= w < |s.workers| :: s.workers[w].Gone?
  }

  function Apply<E>(c: Config, s: State<E>, a: Step): State<E>
    requires Enabled(s, a)
  {
    match a
    case Read =>
      if s.input[0].None? then s.(input := s.input[1..])
      else
        var batch := s.batch + [s.input[0].value];
        s.(input := s.input[1..], batch := batch, reader := if |batch| >= BATCH_NUM then Sending else Counting)
    case SendFull => s.(ch := s.ch + [s.batch], batch := [], reader := Counting)
    case Count => if c.cnt == 0 then s.(crash := DividedByZero) else s.(reader := Reading)
    case ReportEnd => s.(errCh := Some(c.clean), reader := Flushing)
    case Flush =>
      if s.batch == [] then s.(reader := Closing)
      else s.(ch := s.ch + [s.batch], batch := [], reader := Closing)
    case CloseChannel => s.(closed := true, reader := Finished)
    case Take(w) => s.(workers := s.workers[w := Saving(s.ch[0])], ch := s.ch[1..])
    case Save(w, ok) =>
      var batch := s.workers[w].batch;
      if ok then s.(workers := s.workers[w := Testing], ok := true, saved := s.saved + batch)
      else s.(workers := s.workers[w := Testing], ok := false, lost := s.lost + batch)
    case Test(w) => s.(workers := s.workers[w := if s.ok then Idle else Printing])
    case Print(w) => if s.ok then s.(crash := NilError) else s.(workers := s.workers[w := Idle])
    case Quit(w) => s.(workers := s.workers[w := Gone])
    case ReceiveErr => s.(main := WaitGroup, ok := s.errCh.value, errCh := None)
    case Return => s.(main := Returned(s.ok))
  }

  // ---------- the entries ----------

  function Entries<E>(input: seq<Option<E>>): seq<E> {
    if input == [] then []
    else (if input[0].Some? then [input[0].value] else []) + Entries(input[1..])
  }

  ghost function BatchBag<E>(): seq<E> -> multiset<E> {
    (b: seq<E>) => multiset(b)
  }

  ghost function WorkerBag<E>(): Worker<E> -> multiset<E> {
    (w: Worker<E>) => if w.Saving? then multiset(w.batch) else multiset{}
  }

  /** Every entry is still to be read, in the reader's batch, in the channel, with a worker, saved or lost. */
  ghost function Everything<E>(s: State<E>): multiset<E> {
    multiset(Entries(s.input)) + multiset(s.batch) + Total(s.ch, BatchBag()) + Total(s.workers, WorkerBag())
    + multiset(s.saved) + multiset(s.lost)
  }

  lemma PassOn<E>(e: E, later: seq<E>, batch: seq<E>)
    ensures multiset([e] + later) + multiset(batch) == multiset(later) + multiset(batch + [e])
  {
  }

  lemma ReadKeeps<E>(c: Config, s: State<E>)
    requires Enabled(s, Read)
    ensures Everything(Apply(c, s, Read)) == Everything(s)
  {
    var t := Apply(c, s, Read);
    if s.input[0].Some? {
      var e := s.input[0].value;
      assert Entries(s.input) == [e] + Entries(t.input);
      PassOn(e, Entries(t.input), s.batch);
    } else {
      assert Entries(s.input) == [] + Entries(s.input[1..]);
      assert Entries(s.input) == Entries(t.input);
    }
  }

  lemma SendKeeps<E>(s: State<E>, t: State<E>)
    requires t.ch == s.ch + [s.batch] && t.batch == [] && t.input == s.input && t.workers == s.workers
    requires t.saved == s.saved && t.lost == s.lost
    ensures Everything(t) == Everything(s)
  {
  }

  lemma TakeKeeps<E>(c: Config, s: State<E>, w: nat)
    requires Enabled(s, Take(w))
    ensures Everything(Apply(c, s, Take(w))) == Everything(s)
  {
    var t := Apply(c, s, Take(w));
    TotalHead(s.ch, BatchBag());
    TotalUpdateAdd(s.workers, w, Saving(s.ch[0]), WorkerBag());
  }

  lemma Shift<T>(a: multiset<T>, w: multiset<T>, b: multiset<T>, saved: multiset<T>, lost: multiset<T>)
    ensures a + (w + b) + saved + lost == a + w + (saved + b) + lost
    ensures a + (w + b) + saved + lost == a + w + saved + (lost + b)
  {
  }

  lemma SaveKeeps<E>(c: Config, s: State<E>, w: nat, ok: bool)
    requires Enabled(s, Save(w, ok))
    ensures Everything(Apply(c, s, Save(w, ok))) == Everything(s)
  {
    var t := Apply(c, s, Save(w, ok));
    var batch := s.workers[w].batch;
    TotalUpdateRemove(s.workers, w, Testing, WorkerBag());
    Shift(multiset(Entries(s.input)) + multiset(s.batch) + Total(s.ch, BatchBag()), Total(t.workers, WorkerBag()),
          multiset(batch), multiset(s.saved), multiset(s.lost));
    assert multiset(s.saved + batch) == multiset(s.saved) + multiset(batch);
    assert multiset(s.lost + batch) == multiset(s.lost) + multiset(batch);
  }

  lemma EmptyHandedKeeps<E>(s: State<E>, t: State<E>, w: nat, next: Worker<E>)
    requires w < |s.workers| && !s.workers[w].Saving? && !next.Saving? && t.workers == s.workers[w := next]
    requires t.input == s.input && t.batch == s.batch && t.ch == s.ch && t.saved == s.saved && t.lost == s.lost
    ensures Everything(t) == Everything(s)
  {
    TotalUpdateSame(s.workers, w, next, WorkerBag());
  }

  /** Steps of the reader and the caller that move no entry. */
  lemma SamePlaces<E>(s: State<E>, t: State<E>)
    requires t.input == s.input && t.batch == s.batch && t.ch == s.ch && t.workers == s.workers
    requires t.saved == s.saved && t.lost == s.lost
    ensures Everything(t) == Everything(s)
  {
  }

  lemma WorkerKeeps<E>(c: Config, s: State<E>, a: Step)
    requires Enabled(s, a) && OfWorker(a)
    ensures Everything(Apply(c, s, a)) == Everything(s)
  {
    var t := Apply(c, s, a);
    match a
    case Take(w) => TakeKeeps(c, s, w);
    case Save(w, ok) => SaveKeeps(c, s, w, ok);
    case Test(w) => EmptyHandedKeeps(s, t, w, if s.ok then Idle else Printing);
    case Print(w) =>
      if !s.ok {
        EmptyHandedKeeps(s, t, w, Idle);
      }
    case Quit(w) => EmptyHandedKeeps(s, t, w, Gone);
  }

  /** Conservation, one step. */
  lemma StepKeepsEverything<E>(c: Config, s: State<E>, a: Step)
    requires Enabled(s, a)
    ensures Everything(Apply(c, s, a)) == Everything(s)
  {
    match a
    case Read => ReadKeeps(c, s);
    case SendFull => SendKeeps(s, Apply(c, s, a));
    case Flush =>
      if s.batch != [] {
        SendKeeps(s, Apply(c, s, a));
      }
    case Take(_) => WorkerKeeps(c, s, a);
    case Save(_, _) => WorkerKeeps(c, s, a);
    case Test(_) => WorkerKeeps(c, s, a);
    case Print(_) => WorkerKeeps(c, s, a);
    case Quit(_) => WorkerKeeps(c, s, a);
    case _ => SamePlaces(s, Apply(c, s, a));
  }

  // ---------- control ----------

  /** Which program points go together. */
  predicate Control<E>(c: Config, s: State<E>) {
    && |s.workers| == WORKER_NUM
    && (s.closed <==> s.reader == Finished)
    && (s.reader in {Reading, Sending, Counting} ==> s.errCh.None? && s.main == WaitErr)
    && (s.reader in {Flushing, Closing, Finished} ==> s.input == [])
    && (s.reader in {Flushing, Closing, Finished} ==> s.errCh == if s.main == WaitErr then Some(c.clean) else None)
    && (s.reader in {Closing, Finished} ==> s.batch == [])
    && (s.reader == Sending ==> s.batch != [])
    && (forall w | 0 <= w < |s.workers| && s.workers[w].Gone? :: s.closed && s.ch == [])
    && (s.main.Returned? ==> forall w | 0 <= w < |s.workers| :: s.workers[w].Gone?)
    && (s.main.Returned? ==> s.main.ok == s.ok && s.crash.Running?)
  }

  lemma StepKeepsControl<E>(c: Config, s: State<E>, a: Step)
    requires Control(c, s) && Enabled(s, a)
    ensures Control(c, Apply(c, s, a))
  {
    if OfWorker(a) {
      WorkerKeepsControl(c, s, a);
    }
  }

  lemma WorkerKeepsControl<E>(c: Config, s: State<E>, a: Step)
    requires Control(c, s) && Enabled(s, a) && OfWorker(a)
    ensures Control(c, Apply(c, s, a))
  {
  }

  predicate AllGone<E>(s: State<E>) {
    forall w | 0 <= w < |s.workers| :: s.workers[w].Gone?
  }

  predicate NonePrinting<E>(s: State<E>) {
    forall w | 0 <= w < |s.workers| :: !s.workers[w].Printing?
  }

  /** No deadlock: until the caller has returned, or the process has crashed, something can happen;
      the error need not be received before the workers are gone, and nothing need be assigned while
      a worker prints. */
  lemma NoDeadlock<E>(c: Config, s: State<E>, saveOk: bool) returns (a: Step)
    requires Control(c, s) && s.crash.Running? && !s.main.Returned?
    ensures Enabled(s, a) && (a.Save? ==> a.ok == saveOk)
    ensures (a.ReceiveErr? ==> AllGone(s)) && (a.Save? ==> NonePrinting(s))
  {
    if w :| 0 <= w < |s.workers| && s.workers[w].Printing? {
      return Print(w);
    }
    if w :| 0 <= w < |s.workers| && s.workers[w].Testing? {
      return Test(w);
    }
    if w :| 0 <= w < |s.workers| && s.workers[w].Saving? {
      return Save(w, saveOk);
    }
    if w :| 0 <= w < |s.workers| && s.workers[w].Idle? {
      if s.ch != [] {
        return Take(w);
      }
      match s.reader
      case Reading => return if s.input != [] then Read else ReportEnd;
      case Sending => return SendFull;
      case Counting => return Count;
      case Flushing => return Flush;
      case Closing => return CloseChannel;
      case Finished => return Quit(w);
    }
    assert s.workers[0].Gone?;
    return if s.main == WaitErr then ReceiveErr else Return;
  }

  // ---------- termination ----------

  function ReaderRank(r: ReaderPC): nat {
    match r
    case Sending => 5
    case Counting => 4
    case Reading => 3
    case Flushing => 2
    case Closing => 1
    case Finished => 0
  }

  function WorkerRanks<E>(): Worker<E> -> nat {
    (w: Worker<E>) =>
      match w
      case Saving(_) => 4
      case Testing => 3
      case Printing => 2
      case Idle => 1
      case Gone => 0
  }

  function MainRank(m: MainPC): nat {
    match m
    case WaitErr => 2
    case WaitGroup => 1
    case Returned(_) => 0
  }

  /** What is left to do. */
  function Remaining<E>(s: State<E>): nat {
    10 * |s.input| + 5 * |s.batch| + 4 * |s.ch| + ReaderRank(s.reader) + RankSum(s.workers, WorkerRanks()) + MainRank(s.main)
    + if s.crash.Running? then 1 else 0
  }

  /** Every interleaving ends: each step leaves strictly less to do. */
  lemma StepsRunOut<E>(c: Config, s: State<E>, a: Step)
    requires Control(c, s) && Enabled(s, a)
    ensures Remaining(Apply(c, s, a)) < Remaining(s)
  {
    match a
    case Take(w) => WorkerMovesOn(s, Apply(c, s, a), w, Saving(s.ch[0]));
    case Save(w, _) => WorkerMovesOn(s, Apply(c, s, a), w, Testing);
    case Test(w) => WorkerMovesOn(s, Apply(c, s, a), w, if s.ok then Idle else Printing);
    case Print(w) =>
      if !s.ok {
        WorkerMovesOn(s, Apply(c, s, a), w, Idle);
      }
    case Quit(w) => WorkerMovesOn(s, Apply(c, s, a), w, Gone);
    case _ => OthersRunOut(c, s, a);
  }

  lemma OthersRunOut<E>(c: Config, s: State<E>, a: Step)
    requires Control(c, s) && Enabled(s, a) && !OfWorker(a)
    ensures Remaining(Apply(c, s, a)) < Remaining(s)
  {
  }

  lemma WorkerMovesOn<E>(s: State<E>, t: State<E>, w: nat, next: Worker<E>)
    requires w < |s.workers| && t.workers == s.workers[w := next]
    requires |t.ch| == |s.ch| - (if next.Saving? then 1 else 0)
    requires WorkerRanks()(next) < WorkerRanks()(s.workers[w]) + if next.Saving? then 4 else 0
    requires t.input == s.input && t.batch == s.batch && t.reader == s.reader && t.main == s.main && t.crash == s.crash
    ensures Remaining(t) < Remaining(s)
  {
    RankSumUpdate(s.workers, w, next, WorkerRanks());
  }

  // ---------- runs ----------

  predicate Valid<E>(c: Config, s: State<E>, run: seq<Step>)
    decreases |run|
  {
    run != [] ==> Enabled(s, run[0]) && Valid(c, Apply(c, s, run[0]), run[1..])
  }

  function After<E>(c: Config, s: State<E>, run: seq<Step>): State<E>
    requires Valid(c, s, run)
    decreases |run|
  {
    if run == [] then s else After(c, Apply(c, s, run[0]), run[1..])
  }

  /** A run after which nothing more can happen. */
  ghost predicate Complete<E>(c: Config, s: State<E>, run: seq<Step>) {
    Valid(c, s, run) && forall a :: !Enabled(After(c, s, run), a)
  }

  predicate AllSaves(run: seq<Step>, ok: bool) {
    forall a | a in run && a.Save? :: a.ok == ok
  }

  predicate AllSaved(run: seq<Step>) {
    AllSaves(run, true)
  }

  lemma {:induction false} RunKeepsControl<E>(c: Config, s: State<E>, run: seq<Step>)
    requires Control(c, s) && Valid(c, s, run)
    ensures Control(c, After(c, s, run))
    ensures |run| + Remaining(After(c, s, run)) <= Remaining(s)
    decreases |run|
  {
    if run != [] {
      StepKeepsControl(c, s, run[0]);
      StepsRunOut(c, s, run[0]);
      RunKeepsControl(c, Apply(c, s, run[0]), run[1..]);
    }
  }

  lemma {:induction false} RunKeepsEverything<E>(c: Config, s: State<E>, run: seq<Step>)
    requires Valid(c, s, run)
    ensures Everything(After(c, s, run)) == Everything(s)
    decreases |run|
  {
    if run != [] {
      StepKeepsEverything(c, s, run[0]);
      RunKeepsEverything(c, Apply(c, s, run[0]), run[1..]);
    }
  }

  lemma StepLoses<E>(c: Config, s: State<E>, a: Step)
    requires Enabled(s, a) && (a.Save? ==> a.ok)
    ensures Apply(c, s, a).lost == s.lost
  {
  }

  lemma {:induction false} NothingLost<E>(c: Config, s: State<E>, run: seq<Step>)
    requires Valid(c, s, run) && AllSaved(run)
    ensures After(c, s, run).lost == s.lost
    decreases |run|
  {
    if run != [] {
      assert run[0] in run;
      StepLoses(c, s, run[0]);
      assert AllSaved(run[1..]);
      NothingLost(c, Apply(c, s, run[0]), run[1..]);
    }
  }

  /** The progress line can divide: the count is not zero, or no entry ever reaches it. */
  ghost predicate Countable<E>(c: Config, s: State<E>) {
    c.cnt != 0 || (Entries(s.input) == [] && s.reader != Sending && s.reader != Counting)
  }

  lemma StepKeepsCountable<E>(c: Config, s: State<E>, a: Step)
    requires Enabled(s, a) && Countable(c, s)
    ensures Countable(c, Apply(c, s, a)) && !Apply(c, s, a).crash.DividedByZero?
  {
  }

  lemma {:induction false} NeverDividesByZero<E>(c: Config, s: State<E>, run: seq<Step>)
    requires Valid(c, s, run) && Countable(c, s) && !s.crash.DividedByZero?
    ensures !After(c, s, run).crash.DividedByZero?
    decreases |run|
  {
    if run != [] {
      StepKeepsCountable(c, s, run[0]);
      NeverDividesByZero(c, Apply(c, s, run[0]), run[1..]);
    }
  }

  // ---------- the reported error ----------

  /** What a step assigns to the shared error variable. */
  function Assigned(c: Config, a: Step): Option<bool> {
    match a
    case Save(_, ok) => Some(ok)
    case ReceiveErr => Some(c.clean)
    case _ => None
  }

  /** Whether the value assigned last in the run, by a worker or by the caller, was nil. */
  function LastAssigned(c: Config, ok: bool, run: seq<Step>): bool
    decreases |run|
  {
    if run == [] then ok
    else LastAssigned(c, if Assigned(c, run[0]).Some? then Assigned(c, run[0]).value else ok, run[1..])
  }

  lemma {:induction false} LastAssignmentRules<E>(c: Config, s: State<E>, run: seq<Step>)
    requires Control(c, s) && Valid(c, s, run)
    ensures After(c, s, run).ok == LastAssigned(c, s.ok, run)
    decreases |run|
  {
    if run != [] {
      StepKeepsControl(c, s, run[0]);
      StepAssigns(c, s, run[0]);
      LastAssignmentRules(c, Apply(c, s, run[0]), run[1..]);
    }
  }

  lemma StepAssigns<E>(c: Config, s: State<E>, a: Step)
    requires Control(c, s) && Enabled(s, a)
    ensures Apply(c, s, a).ok == if Assigned(c, a).Some? then Assigned(c, a).value else s.ok
  {
  }

  lemma InitControl<E>(c: Config, input: seq<Option<E>>)
    ensures Control(c, Init(input))
    ensures Everything(Init(input)) == multiset(Entries(input))
  {
    NobodySaving(Init(input).workers);
  }

  lemma {:induction false} NobodySaving<E>(ws: seq<Worker<E>>)
    requires forall w | w in ws :: !w.Saving?
    ensures Total(ws, WorkerBag()) == multiset{}
  {
    if ws != [] {
      NobodySaving(ws[..|ws| - 1]);
    }
  }

  lemma ReturnedHoldsNothing<E>(c: Config, s: State<E>)
    requires Control(c, s) && s.main.Returned?
    ensures Everything(s) == multiset(s.saved) + multiset(s.lost)
  {
    assert s.workers[0].Gone?;
    NobodySaving(s.workers);
    assert s.reader == Finished && s.input == [] && s.batch == [] && s.ch == [];
  }

  /** Conservation over every interleaving: runs are bounded in length, and a complete one ends with the
      caller returned, each decoded entry having gone through exactly one save, unless a worker printed
      an error that had become nil. */
  lemma EveryEntryOnce<E>(c: Config, input: seq<Option<E>>, run: seq<Step>)
    requires (c.cnt != 0 || Entries(input) == []) && Valid(c, Init(input), run)
    ensures |run| <= Remaining(Init(input))
    ensures Complete(c, Init(input), run) ==>
              var t := After(c, Init(input), run);
              || t.crash.NilError?
              || (&& t.main == Returned(LastAssigned(c, true, run))
                  && multiset(t.saved) + multiset(t.lost) == multiset(Entries(input))
                  && (AllSaved(run) ==> multiset(t.saved) == multiset(Entries(input))))
  {
    InitControl(c, input);
    RunKeepsControl(c, Init(input), run);
    RunKeepsEverything(c, Init(input), run);
    NeverDividesByZero(c, Init(input), run);
    var t := After(c, Init(input), run);
    if Complete(c, Init(input), run) && t.crash.Running? {
      CompleteReturns(c, Init(input), run);
      ReturnedHoldsNothing(c, t);
      LastAssignmentRules(c, Init(input), run);
      if AllSaved(run) {
        NothingLost(c, Init(input), run);
        assert multiset(t.saved) + multiset([]) == multiset(t.saved);
      }
    }
  }

  lemma CompleteReturns<E>(c: Config, s: State<E>, run: seq<Step>)
    requires Control(c, s) && Complete(c, s, run) && After(c, s, run).crash.Running?
    ensures After(c, s, run).main.Returned?
  {
    RunKeepsControl(c, s, run);
    if !After(c, s, run).main.Returned? {
      var a := NoDeadlock(c, After(c, s, run), true);
      assert false;
    }
  }

  // ---------- a zero count ----------

  /** With a zero count nothing gets past the progress line: no entry is consumed without a crash. */
  ghost predicate Stuck<E>(s: State<E>, input: seq<Option<E>>) {
    s.crash.Running? && s.reader != Sending && s.reader != Counting ==> Entries(s.input) == Entries(input)
  }

  lemma {:induction false} ZeroCountStaysStuck<E>(c: Config, s: State<E>, input: seq<Option<E>>, run: seq<Step>)
    requires c.cnt == 0 && Valid(c, s, run) && Stuck(s, input)
    ensures Stuck(After(c, s, run), input)
    decreases |run|
  {
    if run != [] {
      assert run[0] == Read && s.input[0].None? ==> Entries(s.input) == Entries(s.input[1..]);
      ZeroCountStaysStuck(c, Apply(c, s, run[0]), input, run[1..]);
    }
  }

  /** The restore returns without crashing only if the count is not zero or there is no entry. */
  lemma ZeroCountNeverReturns<E>(c: Config, input: seq<Option<E>>, run: seq<Step>)
    requires c.cnt == 0 && Entries(input) != [] && Valid(c, Init(input), run)
    ensures !After(c, Init(input), run).main.Returned?
  {
    InitControl(c, input);
    RunKeepsControl(c, Init(input), run);
    ZeroCountStaysStuck(c, Init(input), input, run);
    ReturnedHasRead(c, After(c, Init(input), run));
  }

  lemma ReturnedHasRead<E>(c: Config, s: State<E>)
    requires Control(c, s)
    ensures s.main.Returned? ==> s.reader == Finished && s.input == []
  {
    assert s.main.Returned? ==> s.workers[0].Gone?;
  }

  // ---------- complete runs ----------

  /** After the return nothing more can happen. */
  lemma ReturnedIsFinal<E>(c: Config, s: State<E>, a: Step)
    requires Control(c, s) && s.main.Returned?
    ensures !Enabled(s, a)
  {
    assert s.workers[0].Gone?;
  }

  /** Any run can be carried on until nothing more can happen. */
  lemma SomeCompleteRun<E>(c: Config, s: State<E>) returns (run: seq<Step>)
    requires Control(c, s)
    ensures Complete(c, s, run)
    decreases Remaining(s)
  {
    run := [];
    if a :| Enabled(s, a) {
      StepKeepsControl(c, s, a);
      StepsRunOut(c, s, a);
      var rest := SomeCompleteRun(c, Apply(c, s, a));
      run := [a] + rest;
      assert run[1..] == rest;
    }
  }

  /** No worker prints an error that has become nil. */
  predicate Calm<E>(s: State<E>) {
    s.ok ==> NonePrinting(s)
  }

  lemma StepKeepsCalm<E>(c: Config, s: State<E>, a: Step)
    requires Control(c, s) && Enabled(s, a) && Calm(s)
    requires a.Save? || a.ReceiveErr? ==> NonePrinting(s)
    ensures Calm(Apply(c, s, a)) && !Apply(c, s, a).crash.NilError?
  {
  }

  /** Some batch has yet to be saved. */
  predicate Unsaved<E>(s: State<E>) {
    s.batch != [] || s.ch != [] || exists w :: 0 <= w < |s.workers| && s.workers[w].Saving?
  }

  lemma UnsavedStays<E>(c: Config, s: State<E>, a: Step)
    requires Enabled(s, a) && Unsaved(s) && !a.Save?
    ensures Unsaved(Apply(c, s, a))
  {
    var t := Apply(c, s, a);
    if w :| 0 <= w < |s.workers| && s.workers[w].Saving? {
      assert t.workers[w].Saving?;
    } else if a.Take? {
      assert t.workers[a.w].Saving?;
    }
  }

  /** What a run that receives the error last, and whose saves all have one outcome, will report. */
  predicate WillReport<E>(c: Config, s: State<E>, saveOk: bool, ok: bool) {
    match s.main
    case WaitErr => ok == c.clean
    case WaitGroup => (AllGone(s) && ok == s.ok) || (saveOk && ok && (s.ok || Unsaved(s)))
    case Returned(r) => ok == r
  }

  lemma StepKeepsReport<E>(c: Config, s: State<E>, a: Step, saveOk: bool, ok: bool)
    requires Control(c, s) && Enabled(s, a) && WillReport(c, s, saveOk, ok)
    requires (a.Save? ==> a.ok == saveOk) && (a.ReceiveErr? ==> AllGone(s))
    ensures WillReport(c, Apply(c, s, a), saveOk, ok)
  {
    if a.ReceiveErr? || a.Return? {
      assert s.workers[0].Gone?;
    } else if Unsaved(s) && !a.Save? {
      UnsavedStays(c, s, a);
    }
  }

  /** From any calm state that cannot divide by zero the restore can go on until it returns, all saves
      having the one outcome or the other. */
  lemma CanFinish<E>(c: Config, s: State<E>, saveOk: bool, ok: bool) returns (run: seq<Step>)
    requires Control(c, s) && Countable(c, s) && Calm(s) && s.crash.Running? && WillReport(c, s, saveOk, ok)
    ensures Complete(c, s, run) && AllSaves(run, saveOk) && After(c, s, run).main == Returned(ok)
    decreases Remaining(s)
  {
    if s.main.Returned? {
      run := [];
      forall a ensures !Enabled(s, a) {
        ReturnedIsFinal(c, s, a);
      }
    } else {
      var a := NoDeadlock(c, s, saveOk);
      StepKeepsControl(c, s, a);
      StepKeepsCountable(c, s, a);
      StepKeepsCalm(c, s, a);
      StepKeepsReport(c, s, a, saveOk, ok);
      StepsRunOut(c, s, a);
      var rest := CanFinish(c, Apply(c, s, a), saveOk, ok);
      run := [a] + rest;
      assert run[1..] == rest;
      assert forall b | b in run :: b == a || b in rest;
    }
  }
}
