// The lock-step comparator of states/consumev2_cmp.go: what one polling pass computes, for any
// pattern of arrivals.
module Comparator {
  import opened Prelude

  type ChannelName = nat
  type MessageID = nat

  datatype MessageType = AlterReplicateConfig | Plain(code: nat)

  datatype WALMessage = WALMessage(kind: MessageType, id: MessageID, replicateId: Option<MessageID>)

  /** What is compared: channel names, the full content of each channel, and the foreign test for
      message types the channel itself produces. */
  datatype Setup = Setup(names: seq<ChannelName>, streams: seq<seq<WALMessage>>, selfControlled: MessageType -> bool) {
    ghost predicate Valid() {
      |names| > 0 && |streams| == |names|
    }
  }

  function GetMessageID(m: WALMessage): MessageID {
    if m.replicateId.Some? then m.replicateId.value else m.id
  }

  /** The test of one message against the reference. */
  predicate Agree(reference: WALMessage, m: WALMessage) {
    if reference.kind == AlterReplicateConfig then m.kind == AlterReplicateConfig
    else reference.kind == m.kind && GetMessageID(reference) == GetMessageID(m)
  }

  /** The comparer's variables: how far each channel was read, and the three maps. */
  datatype State = State(
    pos: seq<nat>,
    current: map<ChannelName, WALMessage>,
    counters: map<ChannelName, nat>,
    ready: map<ChannelName, bool>)

  predicate Shaped(setup: Setup, s: State) {
    && |s.pos| == |setup.names| == |setup.streams|
    && (forall i | 0 <= i < |s.pos| :: s.pos[i] <= |setup.streams[i]|)
    && (forall name | name in setup.names :: name in s.counters && name in s.ready)
    && (forall name | name in setup.names && s.ready[name] :: name in s.current)
  }

  function Start(setup: Setup): State {
    State(seq(|setup.names|, _ => 0), map[],
          map name | name in setup.names :: 0, map name | name in setup.names :: false)
  }

  /** Visiting channel i; the flag says whether the visit leaves allReady alone. A channel that is
      available but exhausted is closed. */
  function Visit(setup: Setup, s: State, i: nat, available: bool): (r: (State, bool))
    requires Shaped(setup, s) && i < |setup.names|
    ensures Shaped(setup, r.0)
  {
    var name := setup.names[i];
    if s.ready[name] then (s, true)
    else if !available then (s, false)
    else if s.pos[i] == |setup.streams[i]| then (s, true)
    else
      var m := setup.streams[i][s.pos[i]];
      var read := s.pos[i := s.pos[i] + 1];
      if setup.selfControlled(m.kind) then (s.(pos := read), true)
      else (State(read, s.current[name := m], s.counters[name := s.counters[name] + 1], s.ready[name := true]), true)
  }

  /** One pass over the first n channels. */
  function VisitAll(setup: Setup, s: State, poll: seq<bool>, n: nat): (r: (State, bool))
    requires Shaped(setup, s) && n <= |setup.names| == |poll|
    ensures Shaped(setup, r.0)
  {
    if n == 0 then (s, true)
    else
      var before := VisitAll(setup, s, poll, n - 1);
      var after := Visit(setup, before.0, n - 1, poll[n - 1]);
      (after.0, before.1 && after.1)
  }

  predicate AllReady(setup: Setup, s: State)
    requires Shaped(setup, s)
  {
    forall name | name in setup.names :: s.ready[name]
  }

  /** The messages held for the channels, in channel order. */
  function HeldMessages(setup: Setup, s: State): seq<WALMessage>
    requires Shaped(setup, s) && AllReady(setup, s)
  {
    seq(|setup.names|, i requires 0 <= i < |setup.names| => s.current[setup.names[i]])
  }

  /** The comparison: every message against the first. */
  predicate AgreeWithFirst(ms: seq<WALMessage>)
    requires |ms| > 0
  {
    forall i | 1 <= i < |ms| :: Agree(ms[0], ms[i])
  }

  function Reset(setup: Setup, s: State): (r: State)
    requires Shaped(setup, s)
    ensures Shaped(setup, r)
  {
    var all := set name | name in setup.names;
    s.(current := s.current - all, ready := s.ready + map name | name in setup.names :: false)
  }

  datatype Outcome = Going(s: State) | Inconsistent(s: State)

  /** One iteration of the outer loop: a pass, then the comparison if every channel is ready. */
  function Iterate(setup: Setup, s: State, poll: seq<bool>): (r: Outcome)
    requires setup.Valid() && Shaped(setup, s) && |poll| == |setup.names|
    ensures Shaped(setup, r.s)
  {
    var visited := VisitAll(setup, s, poll, |setup.names|);
    if visited.1 && AllReady(setup, visited.0) then
      if AgreeWithFirst(HeldMessages(setup, visited.0)) then Going(Reset(setup, visited.0))
      else Inconsistent(visited.0)
    else Going(visited.0)
  }

  predicate Polls(setup: Setup, schedule: seq<seq<bool>>) {
    forall poll | poll in schedule :: |poll| == |setup.names|
  }

  /** The whole comparison under an arrival schedule, until it is stopped or finds an inconsistency. */
  function Compare(setup: Setup, schedule: seq<seq<bool>>): (r: Outcome)
    requires setup.Valid() && Polls(setup, schedule)
    ensures Shaped(setup, r.s)
  {
    if schedule == [] then Going(Start(setup))
    else
      var before := Compare(setup, schedule[..|schedule| - 1]);
      if before.Inconsistent? then before
      else Iterate(setup, before.s, schedule[|schedule| - 1])
  }
}
