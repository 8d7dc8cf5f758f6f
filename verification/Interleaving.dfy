/** Sequences of steps that run at the same time: each keeps its own order, and a schedule tells whose
    step comes next. */
module Interleaving {

  /** The schedule runs until every stream is used up. */
  predicate Complete<T(==)>(streams: seq<seq<T>>, schedule: seq<nat>)
    decreases |schedule|
  {
    if schedule == [] then forall i :: 0 <= i < |streams| ==> streams[i] == []
    else
      && schedule[0] < |streams| && streams[schedule[0]] != []
      && Complete(streams[schedule[0] := streams[schedule[0]][1..]], schedule[1..])
  }

  function Merge<T(==)>(streams: seq<seq<T>>, schedule: seq<nat>): seq<T>
    requires Complete(streams, schedule)
    decreases |schedule|
  {
    if schedule == [] then []
    else [streams[schedule[0]][0]] + Merge(streams[schedule[0] := streams[schedule[0]][1..]], schedule[1..])
  }

  predicate InSome<T(==)>(streams: seq<seq<T>>, x: T) {
    exists i :: 0 <= i < |streams| && x in streams[i]
  }

  /** Nothing gets lost and nothing comes from elsewhere. */
  lemma {:induction false} MergedFromStreams<T>(streams: seq<seq<T>>, schedule: seq<nat>, x: T)
    requires Complete(streams, schedule)
    ensures x in Merge(streams, schedule) <==> InSome(streams, x)
    decreases |schedule|
  {
    if schedule != [] {
      var p := schedule[0];
      var rest := streams[p := streams[p][1..]];
      MergedFromStreams(rest, schedule[1..], x);
      assert streams[p] == [streams[p][0]] + streams[p][1..];
      if InSome(streams, x) && x != streams[p][0] {
        var i :| 0 <= i < |streams| && x in streams[i];
        assert x in rest[i];
      }
      if InSome(rest, x) {
        var i :| 0 <= i < |streams| && x in rest[i];
        assert x in streams[i];
      }
    }
  }

  function Length<T>(streams: seq<seq<T>>): nat {
    if streams == [] then 0 else |streams[0]| + Length(streams[1..])
  }

  lemma {:induction false} LengthOfShorter<T>(streams: seq<seq<T>>, i: nat)
    requires i < |streams| && streams[i] != []
    ensures Length(streams[i := streams[i][1..]]) == Length(streams) - 1
  {
    var shorter := streams[i := streams[i][1..]];
    if i > 0 {
      LengthOfShorter(streams[1..], i - 1);
      assert shorter[1..] == streams[1..][i - 1 := streams[i][1..]];
    } else {
      assert shorter[1..] == streams[1..];
    }
  }

  /** Every set of streams can be run to its end. */
  lemma {:induction false} SomeSchedule<T>(streams: seq<seq<T>>) returns (schedule: seq<nat>)
    ensures Complete(streams, schedule)
    decreases Length(streams)
  {
    if i :| 0 <= i < |streams| && streams[i] != [] {
      LengthOfShorter(streams, i);
      var rest := SomeSchedule(streams[i := streams[i][1..]]);
      schedule := [i] + rest;
      assert schedule[1..] == rest;
    } else {
      schedule := [];
    }
  }
}
