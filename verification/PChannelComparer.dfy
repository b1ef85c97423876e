// comparePChannelsMessage of states/consumev2_cmp.go as the polling loop it is.
module PChannelComparers {
  import opened Comparator
  import opened ComparatorVerdict

  class PChannelComparer {
    const setup: Setup
    var pos: seq<nat>
    var currentMessages: map<ChannelName, WALMessage>
    var messageCounters: map<ChannelName, nat>
    var readyForComparison: map<ChannelName, bool>

    function Abstract(): State
      reads this
    {
      State(pos, currentMessages, messageCounters, readyForComparison)
    }

    ghost predicate Valid()
      reads this
    {
      setup.Valid() && Shaped(setup, Abstract())
    }

    constructor (setup: Setup)
      requires setup.Valid()
      ensures this.setup == setup && Valid() && Abstract() == Start(setup)
    {
      this.setup := setup;
      pos := seq(|setup.names|, _ => 0);
      currentMessages := map[];
      var counters, ready := map[], map[];
      for i := 0 to |setup.names|
        invariant counters == map name | name in setup.names[..i] :: 0
        invariant ready == map name | name in setup.names[..i] :: false
      {
        counters := counters[setup.names[i] := 0];
        ready := ready[setup.names[i] := false];
      }
      assert setup.names[..|setup.names|] == setup.names;
      messageCounters := counters;
      readyForComparison := ready;
    }

    /** Reads at most one message from channel i, unless it is ready; false if it has none now. */
    method ReadChannel(i: nat, available: bool) returns (ok: bool)
      requires Valid() && i < |setup.names|
      modifies this
      ensures Valid()
      ensures (Abstract(), ok) == Visit(setup, old(Abstract()), i, available)
    {
      var name := setup.names[i];
      if readyForComparison[name] {
        return true;
      }
      if !available {
        return false;
      }
      if pos[i] == |setup.streams[i]| {
        return true;
      }
      var msg := setup.streams[i][pos[i]];
      pos := pos[i := pos[i] + 1];
      if setup.selfControlled(msg.kind) {
        return true;
      }
      currentMessages := currentMessages[name := msg];
      messageCounters := messageCounters[name := messageCounters[name] + 1];
      readyForComparison := readyForComparison[name := true];
      return true;
    }

    method Pass(poll: seq<bool>) returns (allReady: bool)
      requires Valid() && |poll| == |setup.names|
      modifies this
      ensures Valid()
      ensures (Abstract(), allReady) == VisitAll(setup, old(Abstract()), poll, |setup.names|)
    {
      ghost var steps := [(Abstract(), true)];
      allReady := true;
      for i := 0 to |setup.names|
        invariant Valid() && |steps| == i + 1 && steps[i] == (Abstract(), allReady)
        invariant steps[0] == (old(Abstract()), true) && PassTrace(setup, poll, steps)
      {
        var ok := ReadChannel(i, poll[i]);
        if !ok {
          allReady := false;
        }
        ghost var more := steps + [(Abstract(), allReady)];
        assert forall k: nat | k < i :: StepAt(setup, poll, steps, k) ==> StepAt(setup, poll, more, k);
        steps := more;
      }
      PassTraceIs(setup, poll, steps, |setup.names|);
    }

    method EveryoneReady() returns (ready: bool)
      requires Valid()
      ensures ready == AllReady(setup, Abstract())
    {
      for i := 0 to |setup.names|
        invariant forall name | name in setup.names[..i] :: readyForComparison[name]
      {
        if !readyForComparison[setup.names[i]] {
          return false;
        }
      }
      assert setup.names[..|setup.names|] == setup.names;
      return true;
    }

    method CompareCurrentMessages() returns (same: bool)
      requires Valid() && AllReady(setup, Abstract())
      ensures same == AgreeWithFirst(HeldMessages(setup, Abstract()))
      ensures same <==> forall i | 0 <= i < |setup.names| ::
        SameMessage(HeldMessages(setup, Abstract())[0], HeldMessages(setup, Abstract())[i])
    {
      ghost var held := HeldMessages(setup, Abstract());
      assert setup.names[0] in setup.names;
      var reference := currentMessages[setup.names[0]];
      var referenceID := GetMessageID(reference);
      for i := 1 to |setup.names|
        invariant forall k | 0 <= k < i :: Agree(held[0], held[k]) && SameMessage(held[0], held[k])
      {
        assert setup.names[i] in setup.names;
        AgreeIsSame(held[0], held[i]);
        var msg := currentMessages[setup.names[i]];
        assert held[0] == reference && held[i] == msg;
        if reference.kind == AlterReplicateConfig {
          if msg.kind != AlterReplicateConfig {
            return false;
          }
        } else if reference.kind != msg.kind || referenceID != GetMessageID(msg) {
          return false;
        }
      }
      return true;
    }

    method ResetRound()
      requires Valid()
      modifies this
      ensures Valid() && Abstract() == Reset(setup, old(Abstract()))
    {
      for i := 0 to |setup.names|
        invariant setup.Valid() && pos == old(pos) && messageCounters == old(messageCounters)
        invariant readyForComparison == Unset(old(readyForComparison), setup.names[..i])
        invariant currentMessages == Without(old(currentMessages), setup.names[..i])
      {
        UnsetOneMore(old(readyForComparison), setup.names, i);
        WithoutOneMore(old(currentMessages), setup.names, i);
        readyForComparison := readyForComparison[setup.names[i] := false];
        currentMessages := currentMessages - {setup.names[i]};
      }
      assert setup.names[..|setup.names|] == setup.names;
    }

    /** One iteration of the outer loop. */
    method Iteration(poll: seq<bool>) returns (consistent: bool)
      requires Valid() && |poll| == |setup.names|
      modifies this
      ensures Valid()
      ensures (if consistent then Going(Abstract()) else Inconsistent(Abstract())) == Iterate(setup, old(Abstract()), poll)
    {
      var allReady := Pass(poll);
      if allReady {
        allReady := EveryoneReady();
      }
      if allReady {
        var same := CompareCurrentMessages();
        if !same {
          return false;
        }
        ResetRound();
      }
      return true;
    }

    /** The comparison loop over an arrival schedule; it ends at an inconsistency, or when the
        schedule does (the caller's interrupt). */
    method ComparePChannelsMessage(schedule: seq<seq<bool>>) returns (consistent: bool)
      requires Valid() && Abstract() == Start(setup) && Polls(setup, schedule)
      modifies this
      ensures Valid()
      ensures (if consistent then Going(Abstract()) else Inconsistent(Abstract())) == Compare(setup, schedule)
    {
      for i := 0 to |schedule|
        invariant Valid() && Going(Abstract()) == At(setup, schedule, i)
      {
        AtNext(setup, schedule, i, i + 1);
        var same := Iteration(schedule[i]);
        if !same {
          InconsistencyIsFinal(setup, schedule, i + 1);
          return false;
        }
      }
      assert schedule[..|schedule|] == schedule;
      return true;
    }
  }

  function Unset(ready: map<ChannelName, bool>, names: seq<ChannelName>): map<ChannelName, bool> {
    ready + map name | name in names :: false
  }

  function Without<V>(m: map<ChannelName, V>, names: seq<ChannelName>): map<ChannelName, V> {
    m - set name | name in names
  }

  /** One channel of a pass, from what the pass had come to so far. */
  predicate PassStep(setup: Setup, i: nat, available: bool, before: (State, bool), after: (State, bool)) {
    && i < |setup.names| && Shaped(setup, before.0)
    && after == (Visit(setup, before.0, i, available).0, before.1 && Visit(setup, before.0, i, available).1)
  }

  predicate StepAt(setup: Setup, poll: seq<bool>, steps: seq<(State, bool)>, k: nat) {
    k + 1 < |steps| && k < |poll| && PassStep(setup, k, poll[k], steps[k], steps[k + 1])
  }

  predicate PassTrace(setup: Setup, poll: seq<bool>, steps: seq<(State, bool)>) {
    forall k: nat | k < |steps| - 1 :: StepAt(setup, poll, steps, k)
  }

  lemma {:induction false} PassTraceIs(setup: Setup, poll: seq<bool>, steps: seq<(State, bool)>, n: nat)
    requires |poll| == |setup.names| && n <= |setup.names| && n < |steps| && PassTrace(setup, poll, steps)
    requires Shaped(setup, steps[0].0) && steps[0].1
    ensures steps[n] == VisitAll(setup, steps[0].0, poll, n)
  {
    if n > 0 {
      var i := n - 1;
      PassTraceIs(setup, poll, steps, i);
      assert StepAt(setup, poll, steps, i);
    }
  }

  lemma UnsetOneMore(ready: map<ChannelName, bool>, names: seq<ChannelName>, i: nat)
    requires i < |names|
    ensures Unset(ready, names[..i])[names[i] := false] == Unset(ready, names[..i + 1])
  {
  }

  lemma WithoutOneMore<V>(m: map<ChannelName, V>, names: seq<ChannelName>, i: nat)
    requires i < |names|
    ensures Without(m, names[..i]) - {names[i]} == Without(m, names[..i + 1])
  {
  }
}
