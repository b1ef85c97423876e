// The comparator's verdict depends on the channels' contents alone, not on the arrival schedule.
module ComparatorVerdict {
  import opened Prelude
  import opened Comparator

  predicate DistinctNames(setup: Setup) {
    forall i, j | 0 <= i < j < |setup.names| :: setup.names[i] != setup.names[j]
  }

  /** A channel's messages once the self-controlled ones are removed. */
  function Compared(setup: Setup, stream: seq<WALMessage>): seq<WALMessage> {
    Filter(stream, (m: WALMessage) => !setup.selfControlled(m.kind))
  }

  lemma ComparedAppend(setup: Setup, a: seq<WALMessage>, b: seq<WALMessage>)
    ensures Compared(setup, a + b) == Compared(setup, a) + Compared(setup, b)
  {
    FilterAppend(a, b, (m: WALMessage) => !setup.selfControlled(m.kind));
  }

  lemma ComparedOne(setup: Setup, m: WALMessage)
    ensures Compared(setup, [m]) == if setup.selfControlled(m.kind) then [] else [m]
  {
  }

  lemma ComparedPrefix(setup: Setup, stream: seq<WALMessage>, p: nat)
    requires p <= |stream|
    ensures Compared(setup, stream[..p]) <= Compared(setup, stream)
    ensures p < |stream| ==> Compared(setup, stream[..p + 1]) ==
                             Compared(setup, stream[..p]) + Compared(setup, [stream[p]])
  {
    assert stream == stream[..p] + stream[p..];
    ComparedAppend(setup, stream[..p], stream[p..]);
    if p < |stream| {
      assert stream[..p + 1] == stream[..p] + [stream[p]];
      ComparedAppend(setup, stream[..p], [stream[p]]);
    }
  }

  predicate HasEntry(setup: Setup, r: nat) {
    forall i | 0 <= i < |setup.streams| :: r < |Compared(setup, setup.streams[i])|
  }

  /** The channels' entries at index r. */
  function Entries(setup: Setup, r: nat): seq<WALMessage>
    requires HasEntry(setup, r)
  {
    seq(|setup.streams|, i requires 0 <= i < |setup.streams| => Compared(setup, setup.streams[i])[r])
  }

  /** When two messages are replicas of one: configuration changes always, other messages if they are of
      the same kind and come from the same source message, a replica carrying its source's id. */
  predicate SameMessage(a: WALMessage, b: WALMessage) {
    a.kind == b.kind &&
    (a.kind != AlterReplicateConfig ==>
       match (a.replicateId, b.replicateId)
       case (None, None) => a.id == b.id
       case (None, Some(y)) => a.id == y
       case (Some(x), None) => x == b.id
       case (Some(x), Some(y)) => x == y)
  }

  lemma AgreeIsSame(a: WALMessage, b: WALMessage)
    ensures Agree(a, b) <==> SameMessage(a, b)
  {
  }

  /** What it takes for two held messages to pass the comparison. */
  lemma PairPasses(a: WALMessage, b: WALMessage)
    ensures a.kind.AlterReplicateConfig? || b.kind.AlterReplicateConfig? ==>
              (AgreeWithFirst([a, b]) <==> a.kind.AlterReplicateConfig? && b.kind.AlterReplicateConfig?)
    ensures a.kind.Plain? && b.kind.Plain? && a.replicateId.None? && b.replicateId.None? ==>
              (AgreeWithFirst([a, b]) <==> a.kind == b.kind && a.id == b.id)
    ensures a.kind.Plain? && b.kind.Plain? && a.replicateId.Some? && b.replicateId.None? ==>
              (AgreeWithFirst([a, b]) <==> a.kind == b.kind && a.replicateId == Some(b.id))
    ensures a.kind.Plain? && b.kind.Plain? && a.replicateId.None? && b.replicateId.Some? ==>
              (AgreeWithFirst([a, b]) <==> a.kind == b.kind && Some(a.id) == b.replicateId)
    ensures a.kind.Plain? && b.kind.Plain? && a.replicateId.Some? && b.replicateId.Some? ==>
              (AgreeWithFirst([a, b]) <==> a.kind == b.kind && a.replicateId == b.replicateId)
  {
    AgreeIsSame(a, b);
    assert AgreeWithFirst([a, b]) <==> Agree([a, b][0], [a, b][1]);
  }

  predicate PairwiseAgree(ms: seq<WALMessage>) {
    forall i, j | 0 <= i < |ms| && 0 <= j < |ms| :: SameMessage(ms[i], ms[j])
  }

  predicate AgreeAt(setup: Setup, r: nat) {
    HasEntry(setup, r) && PairwiseAgree(Entries(setup, r))
  }

  /** r is the first index at which every channel has an entry and some two of them disagree. */
  predicate FirstDisagreement(setup: Setup, r: nat) {
    && HasEntry(setup, r) && !PairwiseAgree(Entries(setup, r))
    && forall q | 0 <= q < r :: AgreeAt(setup, q)
  }

  /** Agreement is an equivalence relation. */
  lemma AgreeIsEquivalence(a: WALMessage, b: WALMessage, c: WALMessage)
    ensures SameMessage(a, a)
    ensures SameMessage(a, b) ==> SameMessage(b, a)
    ensures SameMessage(a, b) && SameMessage(b, c) ==> SameMessage(a, c)
  {
  }

  /** So comparing everything with one reference is comparing everything pairwise. */
  lemma ReferenceIsEnough(ms: seq<WALMessage>)
    requires |ms| > 0
    ensures AgreeWithFirst(ms) <==> PairwiseAgree(ms)
  {
    forall i | 0 <= i < |ms| ensures Agree(ms[0], ms[i]) <==> SameMessage(ms[0], ms[i]) {
      AgreeIsSame(ms[0], ms[i]);
    }
    if AgreeWithFirst(ms) {
      forall i, j | 0 <= i < |ms| && 0 <= j < |ms| ensures SameMessage(ms[i], ms[j]) {
        AgreeIsEquivalence(ms[0], ms[i], ms[j]);
        AgreeIsEquivalence(ms[i], ms[0], ms[j]);
        AgreeIsEquivalence(ms[0], ms[0], ms[0]);
      }
    }
  }

  // ---------- what every step keeps ----------

  /** Channel i between comparisons: counted one past the completed rounds exactly when ready, and
      then holding its entry for the current round. */
  predicate InStep(setup: Setup, s: State, rounds: nat, i: nat)
    requires Shaped(setup, s) && i < |setup.names|
  {
    var name := setup.names[i];
    var seen := Compared(setup, setup.streams[i][..s.pos[i]]);
    && s.counters[name] == rounds + (if s.ready[name] then 1 else 0)
    && |seen| == s.counters[name]
    && (s.ready[name] ==> s.current[name] == seen[rounds])
  }

  predicate Invariant(setup: Setup, s: State, rounds: nat) {
    && Shaped(setup, s)
    && (forall i | 0 <= i < |setup.names| :: InStep(setup, s, rounds, i))
    && (forall r | 0 <= r < rounds :: AgreeAt(setup, r))
  }

  lemma StartInvariant(setup: Setup)
    requires setup.Valid()
    ensures Invariant(setup, Start(setup), 0)
  {
  }

  /** Reading one more message of channel i. */
  lemma ReadInStep(setup: Setup, s: State, rounds: nat, i: nat, available: bool)
    requires Shaped(setup, s) && i < |setup.names| && InStep(setup, s, rounds, i)
    ensures InStep(setup, Visit(setup, s, i, available).0, rounds, i)
  {
    if s.pos[i] < |setup.streams[i]| {
      ComparedPrefix(setup, setup.streams[i], s.pos[i]);
      ComparedOne(setup, setup.streams[i][s.pos[i]]);
    }
  }

  lemma OthersUntouched(setup: Setup, s: State, rounds: nat, i: nat, j: nat, available: bool)
    requires DistinctNames(setup) && Shaped(setup, s) && i < |setup.names| && j < |setup.names| && i != j
    requires InStep(setup, s, rounds, j)
    ensures InStep(setup, Visit(setup, s, i, available).0, rounds, j)
  {
  }

  lemma VisitAllSplit(setup: Setup, s: State, poll: seq<bool>, n: nat, i: nat)
    requires Shaped(setup, s) && n == i + 1 <= |setup.names| == |poll|
    ensures var before := VisitAll(setup, s, poll, i);
      var after := Visit(setup, before.0, i, poll[i]);
      VisitAll(setup, s, poll, n) == (after.0, before.1 && after.1)
  {
  }

  lemma {:induction false} VisitAllInStep(setup: Setup, s: State, rounds: nat, poll: seq<bool>, n: nat, j: nat)
    requires DistinctNames(setup) && Shaped(setup, s) && n <= |setup.names| == |poll| && j < |setup.names|
    requires InStep(setup, s, rounds, j)
    ensures InStep(setup, VisitAll(setup, s, poll, n).0, rounds, j)
  {
    if n > 0 {
      var i := n - 1;
      VisitAllSplit(setup, s, poll, n, i);
      VisitAllInStep(setup, s, rounds, poll, i, j);
      var before := VisitAll(setup, s, poll, i).0;
      if j == i {
        ReadInStep(setup, before, rounds, i, poll[i]);
      } else {
        OthersUntouched(setup, before, rounds, i, j, poll[i]);
      }
    }
  }

  lemma VisitAllInvariant(setup: Setup, s: State, rounds: nat, poll: seq<bool>, n: nat)
    requires DistinctNames(setup) && Invariant(setup, s, rounds) && n <= |setup.names| == |poll|
    ensures Invariant(setup, VisitAll(setup, s, poll, n).0, rounds)
  {
    forall j | 0 <= j < |setup.names|
      ensures InStep(setup, VisitAll(setup, s, poll, n).0, rounds, j)
    {
      VisitAllInStep(setup, s, rounds, poll, n, j);
    }
  }

  lemma HeldIsEntry(setup: Setup, s: State, rounds: nat, i: nat)
    requires Shaped(setup, s) && i < |setup.names| && InStep(setup, s, rounds, i)
    requires s.ready[setup.names[i]]
    ensures rounds < |Compared(setup, setup.streams[i])|
    ensures s.current[setup.names[i]] == Compared(setup, setup.streams[i])[rounds]
  {
    ComparedPrefix(setup, setup.streams[i], s.pos[i]);
  }

  /** When all are ready, the held messages are the entries of the current round. */
  lemma HeldAreEntries(setup: Setup, s: State, rounds: nat)
    requires setup.Valid() && Invariant(setup, s, rounds) && AllReady(setup, s)
    ensures HasEntry(setup, rounds) && HeldMessages(setup, s) == Entries(setup, rounds)
  {
    forall i | 0 <= i < |setup.streams|
      ensures rounds < |Compared(setup, setup.streams[i])|
    {
      assert InStep(setup, s, rounds, i);
      HeldIsEntry(setup, s, rounds, i);
    }
    forall i | 0 <= i < |setup.streams|
      ensures HeldMessages(setup, s)[i] == Entries(setup, rounds)[i]
    {
      assert InStep(setup, s, rounds, i);
      HeldIsEntry(setup, s, rounds, i);
    }
  }

  lemma ResetInvariant(setup: Setup, s: State, rounds: nat)
    requires setup.Valid() && Invariant(setup, s, rounds) && AllReady(setup, s) && AgreeAt(setup, rounds)
    ensures Invariant(setup, Reset(setup, s), rounds + 1)
  {
    var t, next := Reset(setup, s), rounds + 1;
    forall i | 0 <= i < |setup.names|
      ensures InStep(setup, t, next, i)
    {
      assert InStep(setup, s, rounds, i);
    }
  }

  /** The rounds completed, read off the first channel's counter. */
  function Rounds(setup: Setup, s: State): nat
    requires setup.Valid() && Shaped(setup, s)
  {
    var name := setup.names[0];
    if s.ready[name] && s.counters[name] > 0 then s.counters[name] - 1 else s.counters[name]
  }

  lemma RoundsOf(setup: Setup, s: State, rounds: nat)
    requires setup.Valid() && Invariant(setup, s, rounds)
    ensures Rounds(setup, s) == rounds
  {
    assert InStep(setup, s, rounds, 0);
  }

  /** A comparison fails exactly when the current round is the first at which the channels disagree. */
  lemma ComparisonIsRight(setup: Setup, s: State, rounds: nat)
    requires setup.Valid() && Invariant(setup, s, rounds) && AllReady(setup, s)
    ensures !AgreeWithFirst(HeldMessages(setup, s)) <==> FirstDisagreement(setup, rounds)
    ensures AgreeWithFirst(HeldMessages(setup, s)) ==> Invariant(setup, Reset(setup, s), rounds + 1)
  {
    HeldAreEntries(setup, s, rounds);
    ReferenceIsEnough(HeldMessages(setup, s));
    if AgreeWithFirst(HeldMessages(setup, s)) {
      ResetInvariant(setup, s, rounds);
    }
  }

  lemma IterateInvariant(setup: Setup, s: State, rounds: nat, poll: seq<bool>)
    requires setup.Valid() && DistinctNames(setup) && Invariant(setup, s, rounds) && |poll| == |setup.names|
    ensures match Iterate(setup, s, poll)
      case Going(t) => Invariant(setup, t, rounds) || Invariant(setup, t, rounds + 1)
      case Inconsistent(t) => Invariant(setup, t, rounds) && AllReady(setup, t) && FirstDisagreement(setup, rounds)
  {
    VisitAllInvariant(setup, s, rounds, poll, |setup.names|);
    var t := VisitAll(setup, s, poll, |setup.names|).0;
    if AllReady(setup, t) {
      ComparisonIsRight(setup, t, rounds);
    }
  }

  /** While going, every completed round agreed; an inconsistency is reported only at the first
      index where the channels disagree, holding that round's entries. */
  predicate Right(setup: Setup, o: Outcome)
    requires setup.Valid()
  {
    && Shaped(setup, o.s)
    && Invariant(setup, o.s, Rounds(setup, o.s))
    && (o.Inconsistent? ==> AllReady(setup, o.s) && FirstDisagreement(setup, Rounds(setup, o.s)))
  }

  lemma IterateIsRight(setup: Setup, s: State, poll: seq<bool>)
    requires setup.Valid() && DistinctNames(setup) && |poll| == |setup.names| && Right(setup, Going(s))
    ensures Right(setup, Iterate(setup, s, poll))
  {
    var rounds := Rounds(setup, s);
    IterateInvariant(setup, s, rounds, poll);
    var o := Iterate(setup, s, poll);
    if Invariant(setup, o.s, rounds) {
      RoundsOf(setup, o.s, rounds);
    } else {
      RoundsOf(setup, o.s, rounds + 1);
    }
  }

  /** Safety, under any schedule. */
  lemma {:induction false} VerdictIsRight(setup: Setup, schedule: seq<seq<bool>>)
    requires setup.Valid() && DistinctNames(setup) && Polls(setup, schedule)
    ensures Right(setup, Compare(setup, schedule))
  {
    if schedule == [] {
      StartInvariant(setup);
      RoundsOf(setup, Start(setup), 0);
    } else {
      var front := schedule[..|schedule| - 1];
      VerdictIsRight(setup, front);
      var before := Compare(setup, front);
      if before.Going? {
        IterateIsRight(setup, before.s, schedule[|schedule| - 1]);
      }
    }
  }

  lemma NoLaterFirst(setup: Setup, q: nat, r: nat)
    requires FirstDisagreement(setup, q) && q < r
    ensures !FirstDisagreement(setup, r)
  {
    assert FirstDisagreement(setup, r) ==> AgreeAt(setup, q);
  }

  lemma FirstDisagreementIsUnique(setup: Setup, q: nat, r: nat)
    requires FirstDisagreement(setup, q) && FirstDisagreement(setup, r)
    ensures q == r
  {
    if q < r {
      NoLaterFirst(setup, q, r);
    } else if r < q {
      NoLaterFirst(setup, r, q);
    }
  }

  // ---------- progress ----------

  function Sum(s: seq<nat>): nat {
    if s == [] then 0 else Sum(s[..|s| - 1]) + s[|s| - 1]
  }

  lemma {:induction false} SumMonotone(a: seq<nat>, b: seq<nat>)
    requires |a| == |b| && forall i | 0 <= i < |a| :: a[i] <= b[i]
    ensures Sum(a) <= Sum(b)
    ensures (exists i :: 0 <= i < |a| && a[i] < b[i]) ==> Sum(a) < Sum(b)
  {
    if a != [] {
      var n := |a| - 1;
      SumMonotone(a[..n], b[..n]);
      if i :| 0 <= i < |a| && a[i] < b[i] {
        if i < n {
          assert a[..n][i] < b[..n][i];
        }
      }
    }
  }

  /** What becomes of channel j, reached or not, with or without a message: it never goes back, is
      untouched until reached, moves on if it waits and has more, and waits on if nothing arrived. */
  predicate Effect(setup: Setup, s: State, t: State, j: nat, reached: bool, available: bool)
    requires Shaped(setup, s) && Shaped(setup, t) && j < |setup.names|
  {
    var name := setup.names[j];
    && s.pos[j] <= t.pos[j]
    && (!reached ==> t.pos[j] == s.pos[j] && t.ready[name] == s.ready[name])
    && (reached && !s.ready[name] && available && s.pos[j] < |setup.streams[j]| ==> s.pos[j] < t.pos[j])
    && (reached && !s.ready[name] && !available ==> !t.ready[name])
  }

  lemma VisitOther(setup: Setup, s: State, i: nat, available: bool, j: nat)
    requires DistinctNames(setup) && Shaped(setup, s) && i < |setup.names| && j < |setup.names| && i != j
    ensures var t := Visit(setup, s, i, available).0;
      t.pos[j] == s.pos[j] && t.ready[setup.names[j]] == s.ready[setup.names[j]]
  {
    assert setup.names[j] != setup.names[i];
  }

  lemma VisitOwn(setup: Setup, s: State, i: nat, available: bool)
    requires Shaped(setup, s) && i < |setup.names|
    ensures var t := Visit(setup, s, i, available);
      Effect(setup, s, t.0, i, true, available) && (!t.1 ==> !t.0.ready[setup.names[i]])
  {
  }

  /** A pass over the first n channels has this effect on each channel. */
  lemma {:induction false} VisitAllEffect(setup: Setup, s: State, poll: seq<bool>, n: nat, j: nat)
    requires DistinctNames(setup) && Shaped(setup, s) && n <= |setup.names| == |poll| && j < |setup.names|
    ensures Effect(setup, s, VisitAll(setup, s, poll, n).0, j, j < n, poll[j])
  {
    if n > 0 {
      var i := n - 1;
      VisitAllSplit(setup, s, poll, n, i);
      VisitAllEffect(setup, s, poll, i, j);
      var before := VisitAll(setup, s, poll, i).0;
      if j == i {
        VisitOwn(setup, before, i, poll[i]);
      } else {
        VisitOther(setup, before, i, poll[i], j);
      }
    }
  }

  predicate WaitsBelow(setup: Setup, s: State, n: nat)
    requires Shaped(setup, s) && n <= |setup.names|
  {
    exists j :: 0 <= j < n && !s.ready[setup.names[j]]
  }

  lemma VisitKeepsWaiting(setup: Setup, s: State, i: nat, available: bool)
    requires DistinctNames(setup) && Shaped(setup, s) && i < |setup.names|
    requires WaitsBelow(setup, s, i) || !Visit(setup, s, i, available).1
    ensures WaitsBelow(setup, Visit(setup, s, i, available).0, i + 1)
  {
  }

  /** A pass that found some channel without a message leaves a channel waiting. */
  lemma {:induction false} MissedIsWaiting(setup: Setup, s: State, poll: seq<bool>, n: nat)
    requires DistinctNames(setup) && Shaped(setup, s) && n <= |setup.names| == |poll|
    requires !VisitAll(setup, s, poll, n).1
    ensures WaitsBelow(setup, VisitAll(setup, s, poll, n).0, n)
  {
    var i := n - 1;
    VisitAllSplit(setup, s, poll, n, i);
    var before := VisitAll(setup, s, poll, i);
    if !before.1 {
      MissedIsWaiting(setup, s, poll, i);
    }
    VisitKeepsWaiting(setup, before.0, i, poll[i]);
  }

  lemma PassProgress(setup: Setup, s: State, poll: seq<bool>)
    requires setup.Valid() && DistinctNames(setup) && Shaped(setup, s) && |poll| == |setup.names|
    ensures var t := VisitAll(setup, s, poll, |setup.names|).0;
      && Sum(s.pos) <= Sum(t.pos)
      && ((exists j :: 0 <= j < |setup.names| && poll[j] && !s.ready[setup.names[j]] && s.pos[j] < |setup.streams[j]|)
           ==> Sum(s.pos) < Sum(t.pos))
  {
    var n := |setup.names|;
    var t := VisitAll(setup, s, poll, n).0;
    forall j | 0 <= j < n
      ensures Effect(setup, s, t, j, true, poll[j])
    {
      VisitAllEffect(setup, s, poll, n, j);
    }
    assert forall j | 0 <= j < n :: Effect(setup, s, t, j, true, poll[j]) ==> s.pos[j] <= t.pos[j];
    SumMonotone(s.pos, t.pos);
    if j :| 0 <= j < n && poll[j] && !s.ready[setup.names[j]] && s.pos[j] < |setup.streams[j]| {
      assert Effect(setup, s, t, j, true, true);
    }
  }

  /** Between iterations some channel is always waiting. */
  lemma SomeoneWaits(setup: Setup, s: State, poll: seq<bool>)
    requires setup.Valid() && DistinctNames(setup) && Shaped(setup, s) && |poll| == |setup.names|
    requires Iterate(setup, s, poll).Going?
    ensures !AllReady(setup, Iterate(setup, s, poll).s)
    ensures Iterate(setup, s, poll).s.pos == VisitAll(setup, s, poll, |setup.names|).0.pos
  {
    var visited := VisitAll(setup, s, poll, |setup.names|);
    if !visited.1 {
      MissedIsWaiting(setup, s, poll, |setup.names|);
      var j :| 0 <= j < |setup.names| && !visited.0.ready[setup.names[j]];
      assert setup.names[j] in setup.names;
    } else if AllReady(setup, visited.0) {
      assert setup.names[0] in setup.names;
      assert !Reset(setup, visited.0).ready[setup.names[0]];
    }
  }

  /** Some pass of the block finds channel j available. */
  predicate Serves(block: seq<seq<bool>>, j: nat) {
    exists k :: 0 <= k < |block| && j < |block[k]| && block[k][j]
  }

  predicate ServesAll(width: nat, block: seq<seq<bool>>) {
    forall j: nat | j < width :: Serves(block, j)
  }

  /** The first b passes of the schedule split into n blocks, each serving every channel at least once,
      in any order. */
  ghost predicate ServedTimes(width: nat, schedule: seq<seq<bool>>, b: nat, n: nat)
    requires b <= |schedule|
    decreases n
  {
    n == 0 || exists a: nat :: a <= b && ServesAll(width, schedule[a..b]) && ServedTimes(width, schedule, a, n - 1)
  }

  function Lengths(setup: Setup): seq<nat> {
    seq(|setup.streams|, i requires 0 <= i < |setup.streams| => |setup.streams[i]|)
  }

  lemma RoundsStopAtDisagreement(setup: Setup, s: State, rounds: nat, r: nat)
    requires Invariant(setup, s, rounds) && FirstDisagreement(setup, r)
    ensures rounds <= r
  {
    assert r < rounds ==> AgreeAt(setup, r);
  }

  /** While a disagreement lies ahead, a waiting channel still has a message to read. */
  lemma WaitingHasMore(setup: Setup, s: State, rounds: nat, r: nat, i: nat)
    requires Invariant(setup, s, rounds) && FirstDisagreement(setup, r)
    requires i < |setup.names| && !s.ready[setup.names[i]]
    ensures s.pos[i] < |setup.streams[i]|
  {
    RoundsStopAtDisagreement(setup, s, rounds, r);
    assert InStep(setup, s, rounds, i);
    assert setup.streams[i][..|setup.streams[i]|] == setup.streams[i];
  }

  lemma {:induction false} InconsistencyIsFinal(setup: Setup, schedule: seq<seq<bool>>, n: nat)
    requires setup.Valid() && Polls(setup, schedule) && n <= |schedule|
    requires Compare(setup, schedule[..n]).Inconsistent?
    ensures Compare(setup, schedule) == Compare(setup, schedule[..n])
  {
    if n == |schedule| {
      assert schedule[..n] == schedule;
    } else {
      assert schedule[..|schedule| - 1][..n] == schedule[..n];
      InconsistencyIsFinal(setup, schedule[..|schedule| - 1], n);
    }
  }

  /** Where the comparison stands after the first n passes. */
  function At(setup: Setup, schedule: seq<seq<bool>>, n: nat): Outcome
    requires setup.Valid() && Polls(setup, schedule) && n <= |schedule|
  {
    Compare(setup, schedule[..n])
  }

  /** Nothing goes back from s to t, and a channel j that waits at s makes some channel move on if it is
      served, and goes on waiting if not. */
  predicate Advances(setup: Setup, s: State, t: State, j: nat, served: bool)
    requires Shaped(setup, s) && Shaped(setup, t) && j < |setup.names|
  {
    && Sum(s.pos) <= Sum(t.pos)
    && (!s.ready[setup.names[j]] ==> if served then Sum(s.pos) < Sum(t.pos) else !t.ready[setup.names[j]])
  }

  lemma StateAdvances(setup: Setup, s: State, poll: seq<bool>, j: nat)
    requires setup.Valid() && DistinctNames(setup) && Shaped(setup, s) && |poll| == |setup.names| && j < |setup.names|
    requires Iterate(setup, s, poll).Going?
    requires !s.ready[setup.names[j]] ==> s.pos[j] < |setup.streams[j]|
    ensures Advances(setup, s, Iterate(setup, s, poll).s, j, poll[j])
  {
    SomeoneWaits(setup, s, poll);
    PassProgress(setup, s, poll);
    VisitAllEffect(setup, s, poll, |setup.names|, j);
    assert setup.names[j] in setup.names;
  }

  lemma AtNext(setup: Setup, schedule: seq<seq<bool>>, n: nat, m: nat)
    requires setup.Valid() && Polls(setup, schedule) && m == n + 1 <= |schedule|
    ensures var o := At(setup, schedule, n);
      At(setup, schedule, m) == if o.Going? then Iterate(setup, o.s, schedule[n]) else o
  {
    CompareLast(setup, schedule[..m], schedule[..n], schedule[n]);
  }

  lemma CompareLast(setup: Setup, all: seq<seq<bool>>, front: seq<seq<bool>>, last: seq<bool>)
    requires setup.Valid() && Polls(setup, all) && all == front + [last]
    ensures Polls(setup, front) && |last| == |setup.names|
    ensures Compare(setup, all) ==
            if Compare(setup, front).Going? then Iterate(setup, Compare(setup, front).s, last) else Compare(setup, front)
  {
    assert all[|all| - 1] == last && last in all && all[..|all| - 1] == front;
    assert forall p | p in front :: p in all;
  }

  lemma WaitingHasMoreAt(setup: Setup, schedule: seq<seq<bool>>, n: nat, j: nat, r: nat)
    requires setup.Valid() && DistinctNames(setup) && Polls(setup, schedule) && FirstDisagreement(setup, r)
    requires n <= |schedule| && j < |setup.names|
    ensures var s := At(setup, schedule, n).s; !s.ready[setup.names[j]] ==> s.pos[j] < |setup.streams[j]|
  {
    var s := At(setup, schedule, n).s;
    VerdictIsRight(setup, schedule[..n]);
    if !s.ready[setup.names[j]] {
      WaitingHasMore(setup, s, Rounds(setup, s), r, j);
    }
  }

  lemma OnePass(setup: Setup, schedule: seq<seq<bool>>, n: nat, m: nat, j: nat, r: nat)
    requires setup.Valid() && DistinctNames(setup) && Polls(setup, schedule) && FirstDisagreement(setup, r)
    requires m == n + 1 <= |schedule| && j < |setup.names| && At(setup, schedule, m).Going?
    ensures At(setup, schedule, n).Going?
    ensures Advances(setup, At(setup, schedule, n).s, At(setup, schedule, m).s, j, schedule[n][j])
  {
    AtNext(setup, schedule, n, m);
    WaitingHasMoreAt(setup, schedule, n, j, r);
    StateAdvances(setup, At(setup, schedule, n).s, schedule[n], j);
  }

  lemma ServesOneMore(schedule: seq<seq<bool>>, a: nat, n: nat, m: nat, j: nat)
    requires a <= n < m == n + 1 <= |schedule| && j < |schedule[n]|
    ensures Serves(schedule[a..m], j) <==> Serves(schedule[a..n], j) || schedule[n][j]
  {
    if Serves(schedule[a..m], j) {
      var k :| 0 <= k < m - a && j < |schedule[a..m][k]| && schedule[a..m][k][j];
      assert k < n - a ==> schedule[a..n][k] == schedule[a..m][k];
    }
    if Serves(schedule[a..n], j) {
      var k :| 0 <= k < n - a && j < |schedule[a..n][k]| && schedule[a..n][k][j];
      assert schedule[a..m][k] == schedule[a..n][k];
    }
    assert schedule[a..m][n - a] == schedule[n];
  }

  lemma {:induction false} ManyPasses(setup: Setup, schedule: seq<seq<bool>>, a: nat, b: nat, j: nat, r: nat)
    requires setup.Valid() && DistinctNames(setup) && Polls(setup, schedule) && FirstDisagreement(setup, r)
    requires a <= b <= |schedule| && j < |setup.names| && At(setup, schedule, b).Going?
    ensures At(setup, schedule, a).Going?
    ensures Advances(setup, At(setup, schedule, a).s, At(setup, schedule, b).s, j, Serves(schedule[a..b], j))
    decreases b
  {
    if a < b {
      var n := b - 1;
      OnePass(setup, schedule, n, b, j, r);
      ManyPasses(setup, schedule, a, n, j, r);
      ServesOneMore(schedule, a, n, b, j);
    }
  }

  /** Between passes, some channel is waiting. */
  lemma NotAllReady(setup: Setup, schedule: seq<seq<bool>>) returns (j: nat)
    requires setup.Valid() && DistinctNames(setup) && Polls(setup, schedule)
    requires Compare(setup, schedule).Going?
    ensures j < |setup.names| && !Compare(setup, schedule).s.ready[setup.names[j]]
  {
    var s := Compare(setup, schedule).s;
    if schedule == [] {
      j := 0;
    } else {
      var front := schedule[..|schedule| - 1];
      SomeoneWaits(setup, Compare(setup, front).s, schedule[|schedule| - 1]);
      var name :| name in setup.names && !s.ready[name];
      j :| j < |setup.names| && setup.names[j] == name;
    }
  }

  lemma LastBlock(width: nat, schedule: seq<seq<bool>>, b: nat, n: nat, m: nat) returns (a: nat)
    requires b <= |schedule| && n == m + 1 && ServedTimes(width, schedule, b, n)
    ensures a <= b && ServesAll(width, schedule[a..b]) && ServedTimes(width, schedule, a, m)
  {
    a :| a <= b && ServesAll(width, schedule[a..b]) && ServedTimes(width, schedule, a, n - 1);
  }

  lemma BlockReads(setup: Setup, schedule: seq<seq<bool>>, a: nat, b: nat, r: nat)
    requires setup.Valid() && DistinctNames(setup) && Polls(setup, schedule) && FirstDisagreement(setup, r)
    requires a <= b <= |schedule| && ServesAll(|setup.names|, schedule[a..b]) && At(setup, schedule, b).Going?
    ensures At(setup, schedule, a).Going?
    ensures Sum(At(setup, schedule, a).s.pos) < Sum(At(setup, schedule, b).s.pos)
  {
    ManyPasses(setup, schedule, a, b, 0, r);
    var j := NotAllReady(setup, schedule[..a]);
    ManyPasses(setup, schedule, a, b, j, r);
  }

  /** While a disagreement lies ahead, every block that serves all channels reads at least one message. */
  lemma {:induction false} GoingMakesProgress(setup: Setup, schedule: seq<seq<bool>>, b: nat, n: nat, r: nat)
    requires setup.Valid() && DistinctNames(setup) && Polls(setup, schedule) && FirstDisagreement(setup, r)
    requires b <= |schedule| && ServedTimes(|setup.names|, schedule, b, n) && At(setup, schedule, b).Going?
    ensures n <= Sum(At(setup, schedule, b).s.pos)
    decreases n
  {
    if n > 0 {
      var m := n - 1;
      var a := LastBlock(|setup.names|, schedule, b, n, m);
      BlockReads(setup, schedule, a, b, r);
      GoingMakesProgress(setup, schedule, a, m, r);
    }
  }

  /** Every channel is served again and again: more often than there are messages in all. */
  ghost predicate Fair(setup: Setup, schedule: seq<seq<bool>>) {
    exists n: nat :: n > Sum(Lengths(setup)) && ServedTimes(|setup.names|, schedule, |schedule|, n)
  }

  /** Liveness: if the channels disagree somewhere, a schedule that serves every channel again and
      again, in whatever order, reports it, at the first index where they do. */
  lemma FairScheduleDecides(setup: Setup, schedule: seq<seq<bool>>, r: nat)
    requires setup.Valid() && DistinctNames(setup) && Polls(setup, schedule)
    requires FirstDisagreement(setup, r) && Fair(setup, schedule)
    ensures Compare(setup, schedule).Inconsistent? && Rounds(setup, Compare(setup, schedule).s) == r
  {
    VerdictIsRight(setup, schedule);
    var o := Compare(setup, schedule);
    if o.Going? {
      var n: nat :| n > Sum(Lengths(setup)) && ServedTimes(|setup.names|, schedule, |schedule|, n);
      assert schedule[..|schedule|] == schedule;
      GoingMakesProgress(setup, schedule, |schedule|, n, r);
      SumMonotone(o.s.pos, Lengths(setup));
    } else {
      FirstDisagreementIsUnique(setup, Rounds(setup, o.s), r);
    }
  }

  /** Under a fair schedule the verdict is an inconsistency exactly if there is a first index at which
      the channels disagree. */
  lemma FairVerdictIff(setup: Setup, schedule: seq<seq<bool>>)
    requires setup.Valid() && DistinctNames(setup) && Polls(setup, schedule) && Fair(setup, schedule)
    ensures Compare(setup, schedule).Inconsistent? <==> exists r: nat :: FirstDisagreement(setup, r)
  {
    VerdictIsRight(setup, schedule);
    var o := Compare(setup, schedule);
    if o.Inconsistent? {
      assert FirstDisagreement(setup, Rounds(setup, o.s));
    }
    if r: nat :| FirstDisagreement(setup, r) {
      FairScheduleDecides(setup, schedule, r);
    }
  }

  /** The verdict does not depend on the arrival schedule: any two fair schedules both stay silent,
      or both report an inconsistency in the same round with the same messages. */
  lemma VerdictIsScheduleIndependent(setup: Setup, a: seq<seq<bool>>, b: seq<seq<bool>>)
    requires setup.Valid() && DistinctNames(setup) && Polls(setup, a) && Polls(setup, b)
    requires Fair(setup, a) && Fair(setup, b)
    ensures var x, y := Compare(setup, a), Compare(setup, b);
      && x.Inconsistent? == y.Inconsistent?
      && (x.Inconsistent? ==>
            && Rounds(setup, x.s) == Rounds(setup, y.s)
            && AllReady(setup, x.s) && AllReady(setup, y.s)
            && HeldMessages(setup, x.s) == HeldMessages(setup, y.s))
  {
    var x, y := Compare(setup, a), Compare(setup, b);
    VerdictIsRight(setup, a);
    VerdictIsRight(setup, b);
    if x.Inconsistent? {
      FairScheduleDecides(setup, b, Rounds(setup, x.s));
    } else if y.Inconsistent? {
      FairScheduleDecides(setup, a, Rounds(setup, y.s));
    }
    if x.Inconsistent? {
      HeldAreEntries(setup, x.s, Rounds(setup, x.s));
      HeldAreEntries(setup, y.s, Rounds(setup, y.s));
    }
  }
}
