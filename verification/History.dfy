/** What one entry of a log does to a fixed subject, and whether the subject is there at the end. */
module History {

  datatype Effect = Adds | Removes | Neutral

  /** Replays the log. */
  predicate Present(log: seq<Effect>)
    decreases |log|
  {
    log != [] &&
    match log[|log| - 1]
    case Adds => true
    case Removes => false
    case Neutral => Present(log[..|log| - 1])
  }

  /** Some entry adds the subject and no later entry removes it. */
  ghost predicate AddedAndKept(log: seq<Effect>) {
    exists i :: 0 <= i < |log| && log[i] == Adds && KeptFrom(log, i)
  }

  ghost predicate KeptFrom(log: seq<Effect>, i: nat) {
    forall j :: i < j < |log| ==> log[j] != Removes
  }

  lemma {:induction false} PresentIff(log: seq<Effect>)
    ensures Present(log) <==> AddedAndKept(log)
    decreases |log|
  {
    if log != [] {
      var n := |log| - 1;
      var before := log[..n];
      PresentIff(before);
      if log[n] == Adds {
        assert KeptFrom(log, n);
      } else if log[n] == Neutral {
        if AddedAndKept(before) {
          var i :| 0 <= i < |before| && before[i] == Adds && KeptFrom(before, i);
          assert log[i] == Adds;
          assert forall j :: i < j < n ==> log[j] == before[j];
          assert KeptFrom(log, i);
        }
        if AddedAndKept(log) {
          var i :| 0 <= i < |log| && log[i] == Adds && KeptFrom(log, i);
          assert before[i] == Adds;
          assert forall j :: i < j < n ==> log[j] == before[j];
          assert KeptFrom(before, i);
        }
      }
    }
  }
}
