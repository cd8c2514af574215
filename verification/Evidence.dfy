// The four-state evidence vocabulary and its conservative join.
module Evidence {

  datatype State = Healthy | Warning | Unhealthy | Unknown

  /** Joins two states so that the more cautious one wins. */
  function Conservative(left: State, right: State): State {
    if left == Unknown || right == Unknown then Unknown
    else if left == Unhealthy || right == Unhealthy then Unhealthy
    else if left == Warning || right == Warning then Warning
    else Healthy
  }

  /** How cautious a state is: the join is the maximum of this rank. */
  function Caution(s: State): int {
    match s
    case Healthy => 0
    case Warning => 1
    case Unhealthy => 2
    case Unknown => 3
  }

  /** The join of the states of a list; unknown when there is nothing to join. */
  function JoinOf<T>(values: seq<T>, stateOf: T -> State): State {
    if values == [] then Unknown else JoinFrom(values, stateOf)
  }

  function JoinFrom<T>(values: seq<T>, stateOf: T -> State): State {
    if values == [] then Healthy
    else Conservative(JoinFrom(values[..|values| - 1], stateOf), stateOf(values[|values| - 1]))
  }

  method Join<T>(values: seq<T>, stateOf: T -> State) returns (state: State)
    ensures state == JoinOf(values, stateOf)
  {
    if |values| == 0 {
      return Unknown;
    }
    state := Healthy;
    for k := 0 to |values|
      invariant state == JoinFrom(values[..k], stateOf)
    {
      assert values[..k + 1][..k] == values[..k];
      state := Conservative(state, stateOf(values[k]));
    }
    assert values[..|values|] == values;
  }

  lemma ConservativeIsMaximum(a: State, b: State)
    ensures Caution(a) <= Caution(Conservative(a, b)) && Caution(b) <= Caution(Conservative(a, b))
    ensures Conservative(a, b) == a || Conservative(a, b) == b
  {
  }

  /** The join of a list is the least state that is at least as cautious as every member. */
  lemma {:induction false} JoinIsLeastBound<T(!new)>(values: seq<T>, stateOf: T -> State)
    ensures forall v :: v in values ==> Caution(stateOf(v)) <= Caution(JoinFrom(values, stateOf))
    ensures JoinFrom(values, stateOf) != Healthy ==> exists v :: v in values && stateOf(v) == JoinFrom(values, stateOf)
  {
    hide Conservative, Caution;
    if values != [] {
      var n := |values| - 1;
      JoinIsLeastBound(values[..n], stateOf);
      ConservativeIsMaximum(JoinFrom(values[..n], stateOf), stateOf(values[n]));
      assert forall v :: v in values <==> v in values[..n] || v == values[n] by {
        assert values == values[..n] + [values[n]];
      }
    }
  }

  /** So it is healthy exactly when there is something to join and all of it is healthy. */
  lemma JoinHealthyIff<T(!new)>(values: seq<T>, stateOf: T -> State)
    ensures JoinOf(values, stateOf) == Healthy <==> values != [] && forall v :: v in values ==> stateOf(v) == Healthy
  {
    JoinIsLeastBound(values, stateOf);
    hide JoinFrom;
    assert forall v :: Caution(stateOf(v)) <= 0 ==> stateOf(v) == Healthy;
  }
}
