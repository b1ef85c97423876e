// What a restore can do: reaching a goal by some run, and the runs that read a whole part before
// anybody receives the reader's error (states/etcd_restore.go).
module RestoreRuns {
  import opened Prelude
  import opened RestoreMachine

  ghost predicate Can<E>(c: Config, s: State<E>, goal: State<E> -> bool) {
    exists run :: Valid(c, s, run) && goal(After(c, s, run))
  }

  lemma CanNow<E>(c: Config, s: State<E>, goal: State<E> -> bool)
    requires goal(s)
    ensures Can(c, s, goal)
  {
    assert Valid(c, s, []) && After(c, s, []) == s;
  }

  lemma CanStep<E>(c: Config, s: State<E>, a: Step, t: State<E>, goal: State<E> -> bool)
    requires Enabled(s, a) && t == Apply(c, s, a) && Can(c, t, goal)
    ensures Can(c, s, goal)
  {
    var rest :| Valid(c, t, rest) && goal(After(c, t, rest));
    var run := [a] + rest;
    assert run[1..] == rest;
    assert Valid(c, s, run) && goal(After(c, s, run));
  }

  predicate AllIdle<E>(s: State<E>) {
    |s.workers| == WORKER_NUM && forall w | 0 <= w < |s.workers| :: s.workers[w].Idle?
  }

  /** Reading is going on and no error has been seen. n entries in all are read, in the channel or yet
      to be decoded, unless some were already saved to make room; the channel is then all but full. */
  predicate Gathering<E>(s: State<E>, n: nat) {
    && s.crash.Running? && AllIdle(s) && s.ok && s.main == WaitErr && s.errCh.None?
    && s.reader in {Reading, Sending, Counting}
    && |s.batch| <= BATCH_NUM && (s.reader == Sending <==> |s.batch| == BATCH_NUM)
    && |s.ch| <= CHANNEL_CAPACITY
    && (|s.ch| >= CHANNEL_CAPACITY - 1 || BATCH_NUM * |s.ch| + |s.batch| + |Entries(s.input)| == n)
  }

  /** Everything has been read, and the reader's error waits to be received. */
  predicate Told<E>(c: Config, s: State<E>, n: nat) {
    && s.crash.Running? && AllIdle(s) && s.ok && s.main == WaitErr && s.errCh == Some(c.clean)
    && s.reader == Flushing && |s.batch| < BATCH_NUM
    && (|s.ch| >= CHANNEL_CAPACITY - 1 || BATCH_NUM * |s.ch| + |s.batch| == n)
  }

  /** The oldest batch of the channel taken and saved. */
  function OneSaved<E>(s: State<E>): State<E>
    requires s.ch != []
  {
    s.(ch := s.ch[1..], saved := s.saved + s.ch[0])
  }

  lemma RoomMade<E>(c: Config, s: State<E>, goal: State<E> -> bool)
    requires s.crash.Running? && AllIdle(s) && s.ok && s.ch != [] && Can(c, OneSaved(s), goal)
    ensures Can(c, s, goal)
  {
    var s1 := Apply(c, s, Take(0));
    var s2 := Apply(c, s1, Save(0, true));
    var s3 := Apply(c, s2, Test(0));
    assert s3.workers == s.workers && s3 == OneSaved(s);
    CanStep(c, s2, Test(0), s3, goal);
    CanStep(c, s1, Save(0, true), s2, goal);
    CanStep(c, s, Take(0), s1, goal);
  }

  lemma ReadKeepsGathering<E>(c: Config, s: State<E>, n: nat)
    requires Gathering(s, n) && s.reader == Reading && s.input != []
    ensures Gathering(Apply(c, s, Read), n)
  {
    assert Entries(s.input) == (if s.input[0].Some? then [s.input[0].value] else []) + Entries(s.input[1..]);
  }

  /** Whatever can be done once a part has been read to its end, can be done from where it is being read. */
  lemma ReadsOn<E(!new)>(c: Config, s: State<E>, n: nat, goal: State<E> -> bool)
    requires Control(c, s) && Gathering(s, n) && c.cnt != 0
    requires forall t: State<E> | Control(c, t) && Told(c, t, n) :: Can(c, t, goal)
    ensures Can(c, s, goal)
    decreases Remaining(s)
  {
    if s.reader == Sending && |s.ch| == CHANNEL_CAPACITY {
      ReadsOn(c, OneSaved(s), n, goal);
      RoomMade(c, s, goal);
    } else {
      var a := match s.reader
        case Reading => if s.input == [] then ReportEnd else Read
        case Counting => Count
        case _ => SendFull;
      var t := Apply(c, s, a);
      StepKeepsControl(c, s, a);
      StepsRunOut(c, s, a);
      if a == Read {
        ReadKeepsGathering(c, s, n);
      }
      if a != ReportEnd {
        ReadsOn(c, t, n, goal);
      }
      CanStep(c, s, a, t, goal);
    }
  }

  lemma InitGathers<E>(c: Config, input: seq<Option<E>>)
    ensures Control(c, Init(input)) && Gathering(Init(input), |Entries(input)|)
  {
    InitControl(c, input);
  }
}
