/** How replays of a sensor transition function compose: a replay of a
    concatenation of input sequences is the replay of each part in turn. */
module Runs {
  import opened MouseSensor

  /** Replaying `[i] + rest` is one step followed by the replay of `rest`. */
  lemma ReplayCons(step: (Sensor, Input) -> Transition, s: Sensor, i: Input, rest: seq<Input>)
    ensures Replay(step, s, [i] + rest).state == Replay(step, step(s, i).state, rest).state
    ensures Replay(step, s, [i] + rest).emitted == step(s, i).emitted + Replay(step, step(s, i).state, rest).emitted
  {
    assert ([i] + rest)[0] == i && ([i] + rest)[1..] == rest;
  }

  /** A replay of the concatenation of two input sequences is the replay of
      the first followed by the replay of the second from where the first
      ended. */
  lemma {:induction false} ReplayAppend(step: (Sensor, Input) -> Transition, s: Sensor, a: seq<Input>, b: seq<Input>)
    ensures Replay(step, s, a + b).state == Replay(step, Replay(step, s, a).state, b).state
    ensures Replay(step, s, a + b).emitted == Replay(step, s, a).emitted + Replay(step, Replay(step, s, a).state, b).emitted
    decreases |a|
  {
    if |a| == 0 {
      assert a + b == b;
    } else {
      assert (a + b)[0] == a[0] && (a + b)[1..] == a[1..] + b;
      ReplayAppend(step, step(s, a[0]).state, a[1..], b);
    }
  }

  lemma ReplayTwo(step: (Sensor, Input) -> Transition, s: Sensor, a: Input, b: Input)
    ensures var t1 := step(s, a); var t2 := step(t1.state, b);
            Replay(step, s, [a, b]) == Transition(t2.state, t1.emitted + t2.emitted)
  {
    var t1 := step(s, a);
    var t2 := step(t1.state, b);
    assert [a, b][1..] == [b] && [b][1..] == [];
    assert Replay(step, t2.state, []) == Transition(t2.state, []);
    assert t2.emitted + [] == t2.emitted;
    assert Replay(step, t1.state, [b]) == Transition(t2.state, t2.emitted);
  }

  lemma ReplayThree(step: (Sensor, Input) -> Transition, s: Sensor, a: Input, b: Input, c: Input)
    ensures var t1 := step(s, a); var t2 := step(t1.state, b); var t3 := step(t2.state, c);
            Replay(step, s, [a, b, c]) == Transition(t3.state, t1.emitted + t2.emitted + t3.emitted)
  {
    var t1 := step(s, a);
    ReplayTwo(step, t1.state, b, c);
    assert [a, b, c][1..] == [b, c];
    var t2 := step(t1.state, b);
    var t3 := step(t2.state, c);
    assert t1.emitted + (t2.emitted + t3.emitted) == t1.emitted + t2.emitted + t3.emitted;
  }
}
