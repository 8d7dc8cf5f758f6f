/** Lab 5, zad3 as a whole: any number of producers, each with a row of its own, one consumer.  A record
    is written under a lock, so the pipe carries some interleaving of the producers' records. */
module FifoMerge {
  import opened RowFile
  import opened Fifo
  import opened Interleaving

  datatype Producer = Producer(row: nat, input: string)

  function Streams(producers: seq<Producer>, n: nat): (r: seq<seq<Record>>)
    ensures |r| == |producers|
  {
    seq(|producers|, i requires 0 <= i < |producers| => RecordsOf(producers[i].input, producers[i].row, n))
  }

  /** What the records of a row carry, one after the other. */
  function RowOf(recs: seq<Record>, row: nat): string {
    if recs == [] then ""
    else (if recs[0].row == row then recs[0].chunk else "") + RowOf(recs[1..], row)
  }

  predicate AllFrom(recs: seq<Record>, row: nat) {
    forall k :: 0 <= k < |recs| ==> recs[k].row == row
  }

  /** Stream i has records of row i's number only, and the numbers are distinct. */
  predicate OwnRows(streams: seq<seq<Record>>, rows: seq<nat>) {
    && |rows| == |streams|
    && (forall i :: 0 <= i < |streams| ==> AllFrom(streams[i], rows[i]))
    && (forall i, j :: 0 <= i < j < |rows| ==> rows[i] != rows[j])
  }

  /** Merging keeps each row's records in their order. */
  lemma {:induction false} MergeKeepsRows(streams: seq<seq<Record>>, schedule: seq<nat>, rows: seq<nat>, i: nat)
    requires Complete(streams, schedule) && OwnRows(streams, rows) && i < |streams|
    ensures RowOf(Merge(streams, schedule), rows[i]) == RowOf(streams[i], rows[i])
    decreases |schedule|
  {
    if schedule != [] {
      var p := schedule[0];
      var rest := streams[p := streams[p][1..]];
      assert AllFrom(streams[p], rows[p]) && streams[p][0].row == rows[p];
      MergeKeepsRows(rest, schedule[1..], rows, i);
    }
  }

  // ---------------------------------------------------------------- one producer's records

  predicate InputOk(p: Producer) {
    1 <= p.row <= MAX_ROW_NUM && '\0' !in p.input
  }

  /** The input, filled up with spaces to a multiple of n. */
  function PaddedInput(input: string, n: nat): string
    requires n > 0
  {
    input + Blank(Missing(|input|, n))
  }

  lemma {:induction false} RecordsCarryInput(input: string, row: nat, n: nat)
    requires n > 0
    ensures AllFrom(RecordsOf(input, row, n), row)
    ensures RowOf(RecordsOf(input, row, n), row) == PaddedInput(input, n)
  {
    if input != "" && |input| > n {
      RecordsCarryInput(input[n..], row, n);
    }
  }

  lemma {:induction false} RecordsAreOk(input: string, row: nat, n: nat, r: Record)
    requires row <= MAX_ROW_NUM && '\0' !in input && r in RecordsOf(input, row, n)
    ensures RecordOk(r, n) && r.row == row
    ensures '\n' in r.chunk ==> '\n' in input
  {
    if |input| > n && r != RecordsOf(input, row, n)[0] {
      RecordsAreOk(input[n..], row, n, r);
    }
  }

  // ---------------------------------------------------------------- the file in the end

  predicate NewlineFree(recs: seq<Record>) {
    forall k :: 0 <= k < |recs| ==> '\n' !in recs[k].chunk
  }

  lemma RowGrows(file: string, r: Record, row: nat)
    requires IsText(file) && r.row > 0 && '\0' !in r.chunk && '\n' !in r.chunk
    ensures var saved := Saved(file, r.row, r.chunk);
            && IsText(saved) && AllLines(LinesOf(file)) && AllLines(LinesOf(saved))
            && RowText(LinesOf(saved), row) == RowText(LinesOf(file), row) + (if r.row == row then r.chunk else "")
  {
    LinesOfText(file);
    SavedIsLongerText(file, r.row, r.chunk);
    RowsSurviveReading(file, r.row, r.chunk);
    UpdatedRow(LinesOf(file), r.row, r.chunk, row);
  }

  lemma {:induction false} RowsCollect(file: string, recs: seq<Record>, n: nat, row: nat)
    requires IsText(file) && AllOk(recs, n) && Rowed(recs) && NewlineFree(recs)
    ensures AllLines(LinesOf(file)) && AllLines(LinesOf(SavedAll(file, recs, n)))
    ensures RowText(LinesOf(SavedAll(file, recs, n)), row) == RowText(LinesOf(file), row) + RowOf(recs, row)
    decreases |recs|
  {
    if recs == [] {
      LinesOfText(file);
    } else {
      RowGrows(file, recs[0], row);
      var next := Saved(file, recs[0].row, recs[0].chunk);
      RowsCollect(next, recs[1..], n, row);
      assert SavedAll(file, recs, n) == SavedAll(next, recs[1..], n);
      Regroup(RowText(LinesOf(file), row), if recs[0].row == row then recs[0].chunk else "", RowOf(recs[1..], row));
    }
  }

  /** The pipe's contents after all producers are done. */
  function Sent(producers: seq<Producer>, n: nat, schedule: seq<nat>): seq<Record>
    requires Complete(Streams(producers, n), schedule)
  {
    Merge(Streams(producers, n), schedule)
  }

  ghost predicate DistinctRows(producers: seq<Producer>) {
    && (forall i :: 0 <= i < |producers| ==> InputOk(producers[i]))
    && (forall i, j :: 0 <= i < j < |producers| ==> producers[i].row != producers[j].row)
  }

  lemma SentIsOk(producers: seq<Producer>, n: nat, schedule: seq<nat>)
    requires DistinctRows(producers) && Complete(Streams(producers, n), schedule)
    ensures AllOk(Sent(producers, n, schedule), n) && Rowed(Sent(producers, n, schedule))
    ensures (forall i :: 0 <= i < |producers| ==> '\n' !in producers[i].input) ==>
              NewlineFree(Sent(producers, n, schedule))
  {
    var recs := Sent(producers, n, schedule);
    forall k | 0 <= k < |recs|
      ensures exists i :: 0 <= i < |producers| && RecordOk(recs[k], n) && recs[k].row == producers[i].row
                          && ('\n' in recs[k].chunk ==> '\n' in producers[i].input)
    {
      MergedFromStreams(Streams(producers, n), schedule, recs[k]);
      assert recs[k] in recs;
      var i :| 0 <= i < |producers| && recs[k] in Streams(producers, n)[i];
      RecordsAreOk(producers[i].input, producers[i].row, n, recs[k]);
    }
  }

  lemma RowOfProducer(producers: seq<Producer>, n: nat, schedule: seq<nat>, i: nat)
    requires n > 0 && DistinctRows(producers) && Complete(Streams(producers, n), schedule) && i < |producers|
    ensures RowOf(Sent(producers, n, schedule), producers[i].row) == PaddedInput(producers[i].input, n)
  {
    var rows := seq(|producers|, k requires 0 <= k < |producers| => producers[k].row);
    forall k | 0 <= k < |producers|
      ensures AllFrom(Streams(producers, n)[k], rows[k])
    {
      RecordsCarryInput(producers[k].input, producers[k].row, n);
    }
    MergeKeepsRows(Streams(producers, n), schedule, rows, i);
    RecordsCarryInput(producers[i].input, producers[i].row, n);
  }

  function FinalFile(producers: seq<Producer>, n: nat, schedule: seq<nat>): string
    requires DistinctRows(producers) && Complete(Streams(producers, n), schedule)
  {
    SentIsOk(producers, n, schedule);
    SavedAll("", Sent(producers, n, schedule), n)
  }

  /** Nothing lost, duplicated or put into a wrong row: row i of the file is what producer i sent. */
  ghost predicate RowsRight(producers: seq<Producer>, n: nat, file: string)
    requires n > 0 && AllLines(LinesOf(file))
  {
    forall i :: 0 <= i < |producers| ==>
      RowText(LinesOf(file), producers[i].row) == PaddedInput(producers[i].input, n)
  }

  lemma FinalLines(producers: seq<Producer>, n: nat, schedule: seq<nat>)
    requires DistinctRows(producers) && Complete(Streams(producers, n), schedule)
    ensures AllLines(LinesOf(FinalFile(producers, n, schedule)))
  {
    SentIsOk(producers, n, schedule);
    LinesOfText(FinalFile(producers, n, schedule));
  }

  /** For every interleaving of any producers with rows of their own, the file comes out right exactly
      when no input has a newline in it. */
  lemma RowsArrive(producers: seq<Producer>, n: nat, schedule: seq<nat>)
    requires n > 0 && DistinctRows(producers) && Complete(Streams(producers, n), schedule)
    ensures AllLines(LinesOf(FinalFile(producers, n, schedule)))
    ensures RowsRight(producers, n, FinalFile(producers, n, schedule)) <==>
            forall i :: 0 <= i < |producers| ==> '\n' !in producers[i].input
  {
    var file, recs := FinalFile(producers, n, schedule), Sent(producers, n, schedule);
    SentIsOk(producers, n, schedule);
    FinalLines(producers, n, schedule);
    if forall i :: 0 <= i < |producers| ==> '\n' !in producers[i].input {
      forall i | 0 <= i < |producers|
        ensures RowText(LinesOf(file), producers[i].row) == PaddedInput(producers[i].input, n)
      {
        RowsCollect("", recs, n, producers[i].row);
        RowOfProducer(producers, n, schedule, i);
      }
    } else {
      var i :| 0 <= i < |producers| && '\n' in producers[i].input;
      assert '\n' in PaddedInput(producers[i].input, n);
      assert '\n' !in RowText(LinesOf(file), producers[i].row);
    }
  }

  /** A row that is nobody's stays empty. */
  lemma OtherRowsEmpty(producers: seq<Producer>, n: nat, schedule: seq<nat>, row: nat)
    requires n > 0 && DistinctRows(producers) && Complete(Streams(producers, n), schedule)
    requires forall i :: 0 <= i < |producers| ==> '\n' !in producers[i].input && producers[i].row != row
    ensures AllLines(LinesOf(FinalFile(producers, n, schedule)))
    ensures RowText(LinesOf(FinalFile(producers, n, schedule)), row) == ""
  {
    var recs := Sent(producers, n, schedule);
    SentIsOk(producers, n, schedule);
    RowsCollect("", recs, n, row);
    forall k | 0 <= k < |recs|
      ensures recs[k].row != row
    {
      MergedFromStreams(Streams(producers, n), schedule, recs[k]);
      assert recs[k] in recs;
      var i :| 0 <= i < |producers| && recs[k] in Streams(producers, n)[i];
      RecordsAreOk(producers[i].input, producers[i].row, n, recs[k]);
    }
    NoRecordNoText(recs, row);
  }

  lemma {:induction false} NoRecordNoText(recs: seq<Record>, row: nat)
    requires forall k :: 0 <= k < |recs| ==> recs[k].row != row
    ensures RowOf(recs, row) == ""
  {
    if recs != [] {
      NoRecordNoText(recs[1..], row);
    }
  }

  // ---------------------------------------------------------------- from the inputs to the file

  function WireStreams(streams: seq<seq<Record>>): (r: seq<seq<string>>)
    ensures |r| == |streams|
  {
    seq(|streams|, i requires 0 <= i < |streams| => Wires(streams[i]))
  }

  /** The pipe carries the printed records in the order of the records. */
  lemma {:induction false} MergeOfWires(streams: seq<seq<Record>>, schedule: seq<nat>)
    requires Complete(streams, schedule)
    ensures Complete(WireStreams(streams), schedule)
    ensures Merge(WireStreams(streams), schedule) == Wires(Merge(streams, schedule))
    decreases |schedule|
  {
    if schedule != [] {
      var p := schedule[0];
      var rest := streams[p := streams[p][1..]];
      assert Wires(streams[p])[1..] == Wires(streams[p][1..]);
      assert WireStreams(rest) == WireStreams(streams)[p := WireStreams(streams)[p][1..]];
      MergeOfWires(rest, schedule[1..]);
    }
  }

  lemma {:induction false} JoinedWires(recs: seq<Record>)
    ensures Join(Wires(recs)) == WireAll(recs)
  {
    if recs != [] {
      assert Wires(recs)[1..] == Wires(recs[1..]);
      JoinedWires(recs[1..]);
    }
  }

  method ProduceAll(producers: seq<Producer>, n: nat) returns (writes: seq<seq<string>>)
    requires DistinctRows(producers)
    ensures writes == WireStreams(Streams(producers, n))
  {
    writes := [];
    for i := 0 to |producers|
      invariant |writes| == i
      invariant forall k :: 0 <= k < i ==> writes[k] == Wires(RecordsOf(producers[k].input, producers[k].row, n))
    {
      assert InputOk(producers[i]);
      var produced, sent := Produce(producers[i].input, producers[i].row, n);
      writes := writes + [sent];
    }
  }

  /** All producers, each with its input, and the consumer: the pipe holds what the producers write, in the
      order of the schedule. */
  method Transfer(producers: seq<Producer>, n: nat, schedule: seq<nat>) returns (ok: bool, file: File)
    requires n > 0 && DistinctRows(producers) && Complete(Streams(producers, n), schedule)
    ensures ok && AllLines(LinesOf(file.bytes))
    ensures RowsRight(producers, n, file.bytes) <==> forall i :: 0 <= i < |producers| ==> '\n' !in producers[i].input
  {
    var writes := ProduceAll(producers, n);
    MergeOfWires(Streams(producers, n), schedule);
    JoinedWires(Sent(producers, n, schedule));
    SentIsOk(producers, n, schedule);
    var pipe := new Pipe(Join(Merge(writes, schedule)));
    file := new File();
    ok := Consume(pipe, file, n, Sent(producers, n, schedule));
    assert file.bytes == FinalFile(producers, n, schedule);
    RowsArrive(producers, n, schedule);
  }
}
