// When a worker of the restore can panic: it tests the shared error variable and reads it again to
// print it, and in between another goroutine can have made it nil (states/etcd_restore.go).
module RestorePanic {
  import opened Prelude
  import opened RestoreMachine
  import opened RestoreRuns
  import opened RestoreReport

  function Panics<E>(): State<E> -> bool {
    (t: State<E>) => t.crash.NilError?
  }

  /** All has been read; the reader's error and at least k batches wait. */
  predicate Queued<E>(c: Config, s: State<E>, k: nat) {
    && s.crash.Running? && AllIdle(s) && s.ok && s.main == WaitErr && s.errCh == Some(c.clean) && |s.ch| >= k
  }

  /** Worker 0 has seen an error, and the next step makes it nil. */
  lemma PanicsOnNil<E>(c: Config, s: State<E>, a: Step)
    requires s.crash.Running? && 0 < |s.workers| && s.workers[0].Printing? && Enabled(s, a)
    requires a == Save(1, true) || (a == ReceiveErr && s.errCh == Some(true))
    ensures Can(c, s, Panics())
  {
    var t := Apply(c, s, a);
    var u := Apply(c, t, Print(0));
    CanNow(c, u, Panics());
    CanStep(c, t, Print(0), u, Panics());
    CanStep(c, s, a, t, Panics());
  }

  /** Worker 0 fails to save and sees it. */
  function Failed<E>(s: State<E>): State<E>
    requires 0 < |s.workers| && s.workers[0].Saving?
  {
    s.(workers := s.workers[0 := Printing], ok := false, lost := s.lost + s.workers[0].batch)
  }

  lemma FailsFirst<E>(c: Config, s: State<E>, goal: State<E> -> bool)
    requires s.crash.Running? && 0 < |s.workers| && s.workers[0].Saving? && Can(c, Failed(s), goal)
    ensures Can(c, s, goal)
  {
    var t := Apply(c, s, Save(0, false));
    assert t.workers[0 := Printing] == Failed(s).workers;
    CanStep(c, t, Test(0), Failed(s), goal);
    CanStep(c, s, Save(0, false), t, goal);
  }

  /** A failed save seen by its worker, then the reader's nil, then the print. */
  lemma PanicsOnNilVerdict<E>(c: Config, s: State<E>)
    requires c.clean && Queued(c, s, 1)
    ensures Can(c, s, Panics())
  {
    var t := Apply(c, s, Take(0));
    PanicsOnNil(c, Failed(t), ReceiveErr);
    FailsFirst(c, t, Panics());
    CanStep(c, s, Take(0), t, Panics());
  }

  /** A failed save seen by its worker, then another worker's successful one, then the print. */
  lemma PanicsOnOtherSave<E>(c: Config, s: State<E>)
    requires Queued(c, s, 2)
    ensures Can(c, s, Panics())
  {
    var t := Apply(c, s, Take(0));
    var u := Apply(c, t, Take(1));
    PanicsOnNil(c, Failed(u), Save(1, true));
    FailsFirst(c, u, Panics());
    CanStep(c, t, Take(1), u, Panics());
    CanStep(c, s, Take(0), t, Panics());
  }

  lemma PanicsFrom<E>(c: Config, s: State<E>, k: nat)
    requires Queued(c, s, k) && (k >= 2 || (k == 1 && c.clean))
    ensures Can(c, s, Panics())
  {
    if c.clean {
      PanicsOnNilVerdict(c, s);
    } else {
      PanicsOnOtherSave(c, s);
    }
  }

  lemma PanicsOnceTold<E>(c: Config, s: State<E>, n: nat)
    requires Told(c, s, n) && (n > BATCH_NUM || (n > 0 && c.clean))
    ensures Can(c, s, Panics())
  {
    var k := if c.clean then 1 else 2;
    if |s.ch| >= k {
      PanicsFrom(c, s, k);
    } else {
      var t := Apply(c, s, Flush);
      PanicsFrom(c, t, k);
      CanStep(c, s, Flush, t, Panics());
    }
  }

  // ---------- parts for which no worker panics ----------

  /** With a zero count no batch ever reaches a worker. */
  predicate Untaken<E>(s: State<E>) {
    && !s.crash.NilError? && s.ch == [] && s.reader != Sending
    && (forall w | 0 <= w < |s.workers| :: s.workers[w].Idle? || s.workers[w].Gone?)
    && (s.crash.Running? && s.reader != Counting ==> s.batch == [])
  }

  lemma {:induction false} UntakenStays<E>(c: Config, s: State<E>, run: seq<Step>)
    requires c.cnt == 0 && Valid(c, s, run) && Untaken(s)
    ensures Untaken(After(c, s, run))
    decreases |run|
  {
    if run != [] {
      UntakenStays(c, Apply(c, s, run[0]), run[1..]);
    }
  }

  predicate BusyAt<E>(ws: seq<Worker<E>>, w: int) {
    0 <= w < |ws| && (ws[w].Saving? || ws[w].Testing? || ws[w].Printing?)
  }

  ghost predicate NoneBusy<E>(ws: seq<Worker<E>>) {
    forall w :: !BusyAt(ws, w)
  }

  ghost predicate OneBusy<E>(ws: seq<Worker<E>>) {
    forall v, w | BusyAt(ws, v) && BusyAt(ws, w) :: v == w
  }

  lemma OnlyThisBusy<E>(ws: seq<Worker<E>>, w: nat, next: Worker<E>, after: seq<Worker<E>>)
    requires w < |ws| && after == ws[w := next] && (NoneBusy(ws) || (OneBusy(ws) && BusyAt(ws, w)))
    ensures OneBusy(after) && (next.Idle? || next.Gone? ==> NoneBusy(after))
    ensures !next.Printing? ==> forall v | 0 <= v < |after| :: !after[v].Printing?
  {
    forall v: int | v != w ensures !BusyAt(after, v) {
      assert !BusyAt(ws, v);
    }
    forall v | 0 <= v < |after| && !next.Printing? ensures !after[v].Printing? {
      assert v != w ==> !BusyAt(after, v);
    }
  }

  predicate HandedOver<E>(s: State<E>) {
    s.batch == [] && Entries(s.input) == []
  }

  /** With no more entries than a batch holds there is only one batch, hence only one busy worker. */
  ghost predicate Lone<E>(s: State<E>) {
    && |s.batch| + |Entries(s.input)| <= BATCH_NUM && (s.reader == Sending ==> |s.batch| == BATCH_NUM)
    && (s.ch != [] ==> |s.ch| == 1 && HandedOver(s) && NoneBusy(s.workers))
    && (NoneBusy(s.workers) || (OneBusy(s.workers) && s.ch == [] && HandedOver(s)))
    && Calm(s) && !s.crash.NilError?
  }

  lemma StepKeepsLone<E>(c: Config, s: State<E>, a: Step)
    requires !c.clean && Control(c, s) && Enabled(s, a) && Lone(s)
    ensures Lone(Apply(c, s, a))
  {
    var ws := Apply(c, s, a).workers;
    match a
    case Take(w) => OnlyThisBusy(s.workers, w, Saving(s.ch[0]), ws);
    case Save(w, _) => MovesAlone(s, w, Testing, ws);
    case Test(w) => MovesAlone(s, w, if s.ok then Idle else Printing, ws);
    case Print(w) => MovesAlone(s, w, Idle, s.workers[w := Idle]);
    case Quit(w) => GoesAlone(s.workers, w, ws);
    case _ => OtherKeepsLone(c, s, a);
  }

  lemma MovesAlone<E>(s: State<E>, w: nat, next: Worker<E>, after: seq<Worker<E>>)
    requires Lone(s) && BusyAt(s.workers, w) && after == s.workers[w := next]
    ensures OneBusy(after) && s.ch == [] && HandedOver(s) && (next.Idle? ==> NoneBusy(after))
    ensures !next.Printing? ==> forall v | 0 <= v < |after| :: !after[v].Printing?
  {
    OnlyThisBusy(s.workers, w, next, after);
  }

  lemma GoesAlone<E>(ws: seq<Worker<E>>, w: nat, after: seq<Worker<E>>)
    requires w < |ws| && ws[w].Idle? && after == ws[w := Gone]
    ensures (NoneBusy(ws) ==> NoneBusy(after)) && (OneBusy(ws) ==> OneBusy(after))
  {
    forall v: int ensures BusyAt(after, v) ==> BusyAt(ws, v) {
    }
  }

  lemma OtherKeepsLone<E>(c: Config, s: State<E>, a: Step)
    requires !c.clean && Control(c, s) && Enabled(s, a) && Lone(s) && !OfWorker(a)
    ensures Lone(Apply(c, s, a))
  {
    if a == Read {
      assert Entries(s.input) == (if s.input[0].Some? then [s.input[0].value] else []) + Entries(s.input[1..]);
    }
  }

  lemma {:induction false} LoneStays<E>(c: Config, s: State<E>, run: seq<Step>)
    requires !c.clean && Control(c, s) && Valid(c, s, run) && Lone(s)
    ensures Lone(After(c, s, run))
    decreases |run|
  {
    if run != [] {
      StepKeepsControl(c, s, run[0]);
      StepKeepsLone(c, s, run[0]);
      LoneStays(c, Apply(c, s, run[0]), run[1..]);
    }
  }

  /** The parts for which a worker can panic: those with an entry and a count that is not zero, if they
      end properly or hold more entries than one batch. */
  predicate Risky<E>(c: Config, input: seq<Option<E>>) {
    c.cnt != 0 && Entries(input) != [] && (c.clean || |Entries(input)| > BATCH_NUM)
  }

  lemma SafePartsNeverPanic<E>(c: Config, input: seq<Option<E>>, run: seq<Step>)
    requires !Risky(c, input) && Valid(c, Init(input), run)
    ensures !After(c, Init(input), run).crash.NilError?
  {
    InitControl(c, input);
    if Entries(input) == [] {
      QuietStays(c, Init(input), run);
    } else if c.cnt == 0 {
      UntakenStays(c, Init(input), run);
    } else {
      LoneStays(c, Init(input), run);
    }
  }

  /** A worker can panic exactly on these parts: with an entry and a count other than zero, properly ended
      or of more than ten entries. */
  lemma PanicsIffRisky<E(!new)>(c: Config, input: seq<Option<E>>)
    ensures (exists run :: Valid(c, Init(input), run) && After(c, Init(input), run).crash.NilError?) <==>
            c.cnt != 0 && Entries(input) != [] && (c.clean || |Entries(input)| > 10)
  {
    var n := |Entries(input)|;
    if Risky(c, input) {
      InitGathers(c, input);
      forall t: State<E> | Control(c, t) && Told(c, t, n)
        ensures Can(c, t, Panics())
      {
        PanicsOnceTold(c, t, n);
      }
      ReadsOn(c, Init(input), n, Panics());
      var run :| Valid(c, Init(input), run) && Panics()(After(c, Init(input), run));
      assert After(c, Init(input), run).crash.NilError?;
    } else {
      forall run | Valid(c, Init(input), run) ensures !After(c, Init(input), run).crash.NilError? {
        SafePartsNeverPanic(c, input, run);
      }
    }
  }

  /** On all other parts every complete run puts each entry through exactly one save and returns. */
  lemma SafePartsAreRestored<E>(c: Config, input: seq<Option<E>>, run: seq<Step>)
    requires (c.cnt != 0 || Entries(input) == []) && !Risky(c, input) && Complete(c, Init(input), run)
    ensures var t := After(c, Init(input), run);
      t.main.Returned? && multiset(t.saved) + multiset(t.lost) == multiset(Entries(input))
  {
    SafePartsNeverPanic(c, input, run);
    EveryEntryOnce(c, input, run);
  }
}
