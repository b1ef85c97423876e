// What a restore reports: the caller and the workers share one error variable, so that a success may
// be reported for a part that is truncated or partly lost (states/etcd_restore.go).
module RestoreReport {
  import opened Prelude
  import opened RestoreMachine
  import opened RestoreRuns

  /** The caller has returned, with an error exactly if the part was truncated or an entry lost. */
  predicate Right<E>(c: Config, t: State<E>) {
    t.main == Returned(c.clean && t.lost == [])
  }

  // ---------- an error is never reported for nothing ----------

  /** No batch is empty, and if the part ends properly the error variable is nil until an entry is lost. */
  predicate Honest<E>(c: Config, s: State<E>) {
    && (forall i | 0 <= i < |s.ch| :: s.ch[i] != [])
    && (forall w | 0 <= w < |s.workers| && s.workers[w].Saving? :: s.workers[w].batch != [])
    && (c.clean ==> s.ok || s.lost != [])
  }

  lemma StepKeepsHonest<E>(c: Config, s: State<E>, a: Step)
    requires Control(c, s) && Enabled(s, a) && Honest(c, s)
    ensures Honest(c, Apply(c, s, a))
  {
    if OfWorker(a) {
      WorkerKeepsHonest(c, s, a);
    }
  }

  lemma WorkerKeepsHonest<E>(c: Config, s: State<E>, a: Step)
    requires Enabled(s, a) && OfWorker(a) && Honest(c, s)
    ensures Honest(c, Apply(c, s, a))
  {
  }

  lemma {:induction false} RunKeepsHonest<E>(c: Config, s: State<E>, run: seq<Step>)
    requires Control(c, s) && Valid(c, s, run) && Honest(c, s)
    ensures Honest(c, After(c, s, run))
    decreases |run|
  {
    if run != [] {
      StepKeepsControl(c, s, run[0]);
      StepKeepsHonest(c, s, run[0]);
      RunKeepsHonest(c, Apply(c, s, run[0]), run[1..]);
    }
  }

  /** Whatever the interleaving, an error is reported only for a truncated part or a lost entry. */
  lemma ErrorIsReal<E>(c: Config, input: seq<Option<E>>, run: seq<Step>)
    requires Valid(c, Init(input), run) && After(c, Init(input), run).main == Returned(false)
    ensures !c.clean || After(c, Init(input), run).lost != []
  {
    InitControl(c, input);
    RunKeepsControl(c, Init(input), run);
    RunKeepsHonest(c, Init(input), run);
  }

  // ---------- a part that ends properly, all its saves successful ----------

  predicate NoErrorSeen<E>(s: State<E>) {
    s.ok && NonePrinting(s) && !s.crash.NilError?
  }

  lemma StepSeesNoError<E>(c: Config, s: State<E>, a: Step)
    requires Control(c, s) && Enabled(s, a) && c.clean && (a.Save? ==> a.ok) && NoErrorSeen(s)
    ensures NoErrorSeen(Apply(c, s, a))
  {
  }

  lemma {:induction false} NoErrorArises<E>(c: Config, s: State<E>, run: seq<Step>)
    requires Control(c, s) && Valid(c, s, run) && c.clean && AllSaved(run) && NoErrorSeen(s)
    ensures NoErrorSeen(After(c, s, run))
    decreases |run|
  {
    if run != [] {
      assert run[0] in run && forall a | a in run[1..] :: a in run;
      StepKeepsControl(c, s, run[0]);
      StepSeesNoError(c, s, run[0]);
      NoErrorArises(c, Apply(c, s, run[0]), run[1..]);
    }
  }

  /** Then success is always reported, and no worker panics. */
  lemma CleanAndSavedIsSuccess<E>(c: Config, input: seq<Option<E>>, run: seq<Step>)
    requires (c.cnt != 0 || Entries(input) == []) && Complete(c, Init(input), run)
    requires c.clean && AllSaved(run)
    ensures After(c, Init(input), run).main == Returned(true) && After(c, Init(input), run).crash.Running?
  {
    InitControl(c, input);
    RunKeepsControl(c, Init(input), run);
    NoErrorArises(c, Init(input), run);
    NeverDividesByZero(c, Init(input), run);
    CompleteReturns(c, Init(input), run);
  }

  // ---------- a part without entries ----------

  predicate Quiet<E>(c: Config, s: State<E>) {
    && s.crash.Running? && Entries(s.input) == [] && s.batch == [] && s.ch == [] && s.lost == []
    && s.reader != Sending && s.reader != Counting
    && (forall w | 0 <= w < |s.workers| :: s.workers[w].Idle? || s.workers[w].Gone?)
    && (s.main != WaitErr ==> s.ok == c.clean)
  }

  lemma StepKeepsQuiet<E>(c: Config, s: State<E>, a: Step)
    requires Control(c, s) && Enabled(s, a) && Quiet(c, s)
    ensures Quiet(c, Apply(c, s, a))
  {
  }

  lemma {:induction false} QuietStays<E>(c: Config, s: State<E>, run: seq<Step>)
    requires Control(c, s) && Valid(c, s, run) && Quiet(c, s)
    ensures Quiet(c, After(c, s, run))
    decreases |run|
  {
    if run != [] {
      StepKeepsControl(c, s, run[0]);
      StepKeepsQuiet(c, s, run[0]);
      QuietStays(c, Apply(c, s, run[0]), run[1..]);
    }
  }

  lemma NoEntriesIsRight<E>(c: Config, input: seq<Option<E>>, run: seq<Step>)
    requires Entries(input) == [] && Complete(c, Init(input), run)
    ensures Right(c, After(c, Init(input), run))
  {
    InitControl(c, input);
    QuietStays(c, Init(input), run);
    RunKeepsControl(c, Init(input), run);
    CompleteReturns(c, Init(input), run);
  }

  // ---------- a success reported wrongly ----------

  function Reports<E>(ok: bool): State<E> -> bool {
    (t: State<E>) => t.main == Returned(ok)
  }

  lemma ReturnedIsComplete<E>(c: Config, input: seq<Option<E>>, run: seq<Step>)
    requires Valid(c, Init(input), run) && After(c, Init(input), run).main.Returned?
    ensures Complete(c, Init(input), run)
  {
    InitControl(c, input);
    RunKeepsControl(c, Init(input), run);
    forall a ensures !Enabled(After(c, Init(input), run), a) {
      ReturnedIsFinal(c, After(c, Init(input), run), a);
    }
  }

  lemma LateSaveAfterTold<E>(c: Config, s: State<E>, n: nat)
    requires c.cnt != 0 && n > 0 && Control(c, s) && Told(c, s, n)
    ensures Can(c, s, Reports(true))
  {
    var t := Apply(c, s, ReceiveErr);
    StepKeepsControl(c, s, ReceiveErr);
    assert Unsaved(t) && NonePrinting(t);
    var run := CanFinish(c, t, true, true);
    assert Valid(c, t, run) && Reports(true)(After(c, t, run));
    CanStep(c, s, ReceiveErr, t, Reports(true));
  }

  /** A save that comes after the reader's error was received hides it: every truncated part with an
      entry can be reported as restored. */
  lemma LateSaveHidesTruncation<E(!new)>(c: Config, input: seq<Option<E>>) returns (run: seq<Step>)
    requires c.cnt != 0 && Entries(input) != []
    ensures Complete(c, Init(input), run) && After(c, Init(input), run).main == Returned(true)
  {
    var n := |Entries(input)|;
    InitGathers(c, input);
    forall t: State<E> | Control(c, t) && Told(c, t, n)
      ensures Can(c, t, Reports(true))
    {
      LateSaveAfterTold(c, t, n);
    }
    ReadsOn(c, Init(input), n, Reports(true));
    run :| Valid(c, Init(input), run) && Reports(true)(After(c, Init(input), run));
    ReturnedIsComplete(c, input, run);
  }

  lemma {:induction false} NothingSaved<E>(c: Config, s: State<E>, run: seq<Step>)
    requires Valid(c, s, run) && AllSaves(run, false)
    ensures After(c, s, run).saved == s.saved
    decreases |run|
  {
    if run != [] {
      assert run[0] in run && forall a | a in run[1..] :: a in run;
      NothingSaved(c, Apply(c, s, run[0]), run[1..]);
    }
  }

  /** If the reader's error is received after the saves, their outcome is hidden: all entries can be
      lost and the reader's verdict reported. */
  lemma LateErrorHidesLoss<E>(c: Config, input: seq<Option<E>>) returns (run: seq<Step>)
    requires c.cnt != 0
    ensures Complete(c, Init(input), run)
    ensures var t := After(c, Init(input), run);
      t.main == Returned(c.clean) && t.saved == [] && multiset(t.lost) == multiset(Entries(input))
  {
    InitControl(c, input);
    run := CanFinish(c, Init(input), false, c.clean);
    RunKeepsControl(c, Init(input), run);
    EveryEntryOnce(c, input, run);
    NothingSaved(c, Init(input), run);
    var lost := After(c, Init(input), run).lost;
    assert multiset([]) + multiset(lost) == multiset(lost);
  }

  /** A run at whose end success is reported although the part was truncated or an entry lost. */
  ghost predicate Misreports<E>(c: Config, input: seq<Option<E>>, run: seq<Step>) {
    && Complete(c, Init(input), run)
    && After(c, Init(input), run).main == Returned(true)
    && !(c.clean && After(c, Init(input), run).lost == [])
  }

  lemma SomeRunMisreports<E(!new)>(c: Config, input: seq<Option<E>>) returns (run: seq<Step>)
    requires c.cnt != 0 && Entries(input) != []
    ensures Misreports(c, input, run)
  {
    if c.clean {
      run := LateErrorHidesLoss(c, input);
      assert Entries(input)[0] in multiset(After(c, Init(input), run).lost);
    } else {
      run := LateSaveHidesTruncation(c, input);
    }
  }

  /** Success can be reported wrongly for a part, whether truncated or not, exactly if it has an entry
      and its count is not zero. */
  lemma MisreportedIff<E(!new)>(c: Config, input: seq<Option<E>>)
    ensures (exists run :: Misreports(c, input, run)) <==> c.cnt != 0 && Entries(input) != []
  {
    if c.cnt != 0 && Entries(input) != [] {
      var run := SomeRunMisreports(c, input);
    } else {
      forall run ensures !Misreports(c, input, run) {
        if Complete(c, Init(input), run) && Entries(input) == [] {
          NoEntriesIsRight(c, input, run);
        } else if Complete(c, Init(input), run) {
          ZeroCountNeverReturns(c, input, run);
        }
      }
    }
  }

  /** The restore of a part returns with the right report, whatever the interleaving and whichever saves
      succeed, exactly if the part has no entries. */
  lemma AlwaysRightIffNoEntries<E(!new)>(c: Config, input: seq<Option<E>>)
    ensures (forall run | Complete(c, Init(input), run) :: Right(c, After(c, Init(input), run))) <==> Entries(input) == []
  {
    if Entries(input) == [] {
      forall run | Complete(c, Init(input), run) ensures Right(c, After(c, Init(input), run)) {
        NoEntriesIsRight(c, input, run);
      }
    } else if c.cnt != 0 {
      var run := SomeRunMisreports(c, input);
      assert Complete(c, Init(input), run) && !Right(c, After(c, Init(input), run));
    } else {
      InitControl(c, input);
      var run := SomeCompleteRun(c, Init(input));
      ZeroCountNeverReturns(c, input, run);
      assert Complete(c, Init(input), run) && !Right(c, After(c, Init(input), run));
    }
  }
}
