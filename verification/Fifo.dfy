/** Lab 5, zad3: producers that send their files chunk by chunk through a named pipe, and the consumer at
    its other end.  A record is a row number of four digits, a space, N characters and a newline. */
module Fifo {
  import opened Digits
  import opened RowFile
  import opened Options
  import Components

  const MAX_ROW_NUM := 4096

  datatype Record = Record(row: nat, chunk: string)

  predicate RecordOk(r: Record, n: nat) {
    r.row <= MAX_ROW_NUM && |r.chunk| == n && '\0' !in r.chunk
  }

  predicate AllOk(recs: seq<Record>, n: nat) {
    forall k :: 0 <= k < |recs| ==> RecordOk(recs[k], n)
  }

  function Wire(r: Record): string {
    FixedWidth(r.row, 4) + " " + r.chunk + "\n"
  }

  function WireAll(recs: seq<Record>): string {
    if recs == [] then "" else Wire(recs[0]) + WireAll(recs[1..])
  }

  function Wires(recs: seq<Record>): (r: seq<string>)
    ensures |r| == |recs|
  {
    seq(|recs|, k requires 0 <= k < |recs| => Wire(recs[k]))
  }

  // ---------------------------------------------------------------- producer

  function Blank(n: nat): string {
    seq(n, _ => ' ')
  }

  /** What a producer sends: its input in pieces of n characters, the last one filled up with spaces. */
  function RecordsOf(input: string, row: nat, n: nat): seq<Record> {
    if n == 0 || input == "" then []
    else if |input| <= n then [Record(row, input + Blank(n - |input|))]
    else [Record(row, input[..n])] + RecordsOf(input[n..], row, n)
  }

  function Missing(length: nat, n: nat): nat
    requires n > 0
  {
    if length == 0 then 0 else if length <= n then n - length else Missing(length - n, n)
  }

  method MaxRowNumDigits() returns (count: nat)
    ensures count == 4
  {
    var maxNum := MAX_ROW_NUM;
    count := 0;
    while maxNum > 0
      invariant (maxNum, count) in [(4096, 0), (409, 1), (40, 2), (4, 3), (0, 4)]
    {
      count := count + 1;
      maxNum := maxNum / 10;
    }
  }

  method FormatRowNum(row: nat, buff: array<char>) returns (ok: bool)
    requires buff.Length >= 5
    modifies buff
    ensures ok <==> row <= MAX_ROW_NUM
    ensures ok ==> buff[..4] == FixedWidth(row, 4) && buff[4] == '\0'
  {
    if row > MAX_ROW_NUM {
      return false;
    }
    var digits := MaxRowNumDigits();
    buff[digits] := '\0';
    var left := row;
    var i := digits;
    while i > 0
      invariant 0 <= i <= 4 && left >= 0 && buff[4] == '\0'
      invariant FixedWidth(row, 4) == FixedWidth(left, i) + buff[i..4]
    {
      i := i - 1;
      ghost var done := buff[i + 1..4];
      buff[i] := Digit(left % 10);
      assert buff[i..4] == [Digit(left % 10)] + done;
      left := left / 10;
    }
    ok := true;
  }

  /** One piece of the input in the two buffers, and the write that is made of them. */
  method FormatRecord(piece: string, row: nat, buff: array<char>, rowNumBuff: array<char>)
    returns (ok: bool, write: string)
    requires |piece| <= buff.Length && rowNumBuff.Length >= 5 && buff != rowNumBuff
    modifies buff, rowNumBuff
    ensures ok <==> row <= MAX_ROW_NUM
    ensures ok ==> write == Wire(Record(row, piece + Blank(buff.Length - |piece|)))
  {
    Fill(buff, piece);
    write := "";
    ok := FormatRowNum(row, rowNumBuff);
    if ok {
      write := rowNumBuff[..4] + " " + buff[..] + "\n";
    }
  }

  /** Reads the input to its end; each record is one write on the pipe. */
  method Produce(input: string, row: nat, n: nat) returns (ok: bool, writes: seq<string>)
    requires '\0' !in input
    ensures row <= MAX_ROW_NUM ==> ok && writes == Wires(RecordsOf(input, row, n))
    ensures row > MAX_ROW_NUM ==> writes == [] && (ok <==> RecordsOf(input, row, n) == [])
  {
    writes := [];
    var buff := new char[n];
    var rowNumBuff := new char[32];
    var pos := 0;
    ghost var all := RecordsOf(input, row, n);
    assert input[0..] == input;
    while n > 0 && pos < |input|
      invariant 0 <= pos <= |input| && |writes| <= |all| && all[|writes|..] == RecordsOf(input[pos..], row, n)
      invariant forall k :: 0 <= k < |writes| ==> writes[k] == Wire(all[k])
      invariant row > MAX_ROW_NUM ==> pos == 0 && writes == []
    {
      var count := if |input| - pos < n then |input| - pos else n;
      var rowOk, write := FormatRecord(input[pos..pos + count], row, buff, rowNumBuff);
      if !rowOk {
        return false, writes;
      }
      NextRecord(input, row, n, pos, count, all, |writes|);
      writes := writes + [write];
      pos := pos + count;
    }
    ok := true;
  }

  lemma FirstRecord(input: string, row: nat, n: nat)
    requires n > 0 && input != ""
    ensures var count := if |input| < n then |input| else n;
            RecordsOf(input, row, n)
            == [Record(row, input[..count] + Blank(n - count))] + RecordsOf(input[count..], row, n)
  {
    if |input| <= n {
      assert input[..|input|] == input;
    } else {
      assert input[..n] + Blank(0) == input[..n];
    }
  }

  lemma NextRecord(input: string, row: nat, n: nat, pos: nat, count: nat, all: seq<Record>, k: nat)
    requires n > 0 && pos < |input| && count == (if |input| - pos < n then |input| - pos else n)
    requires k <= |all| && all[k..] == RecordsOf(input[pos..], row, n)
    ensures k < |all| && all[k] == Record(row, input[pos..pos + count] + Blank(n - count))
    ensures all[k + 1..] == RecordsOf(input[pos + count..], row, n)
  {
    FirstRecord(input[pos..], row, n);
    assert input[pos..][..count] == input[pos..pos + count] && input[pos..][count..] == input[pos + count..];
    assert all[k + 1..] == all[k..][1..];
  }

  /** Reads a piece into the buffer and fills the rest with spaces. */
  method Fill(buff: array<char>, piece: string)
    requires |piece| <= buff.Length
    modifies buff
    ensures buff[..] == piece + Blank(buff.Length - |piece|)
  {
    for i := 0 to |piece|
      invariant buff[..i] == piece[..i]
    {
      buff[i] := piece[i];
    }
    for i := |piece| to buff.Length
      invariant buff[..i] == piece + Blank(i - |piece|)
    {
      buff[i] := ' ';
    }
  }

  // ---------------------------------------------------------------- consumer

  class Pipe {
    var bytes: string

    constructor (bytes: string)
      ensures this.bytes == bytes
    {
      this.bytes := bytes;
    }

    /** Up to n bytes, fewer only at the end. */
    method Read(n: nat) returns (data: string)
      modifies this
      ensures data == old(bytes)[..if n <= |old(bytes)| then n else |old(bytes)|]
      ensures old(bytes) == data + bytes
    {
      var k := if n <= |bytes| then n else |bytes|;
      data := bytes[..k];
      bytes := bytes[k..];
    }

    /** `recs` are the records on the way; the count is 0 at the end of the pipe. */
    method ReadFromFifo(n: nat, ghost recs: seq<Record>) returns (count: int, row: int, content: string)
      requires n > 0 && AllOk(recs, n) && bytes == WireAll(recs)
      modifies this
      ensures recs == [] ==> count == 0 && bytes == ""
      ensures recs != [] ==> count == n && row == recs[0].row && content == recs[0].chunk && bytes == WireAll(recs[1..])
    {
      var digits := MaxRowNumDigits();
      assert recs != [] ==> |Wire(recs[0])| == n + digits + 2;
      var buff := Read(n + digits + 2);
      row, content := 0, "";
      if |buff| > 1 {
        assert recs != [] && buff == Wire(recs[0]);
        RecordParses(recs[0], n);
        var (numStr, rest) := Components.StrTok(buff, " ");
        row := Value(numStr.value);
        count, content := RemoveTrailing(rest, n);
        return;
      }
      count := 0;
    }
  }

  const EMPTY_CHAR := ' '

  predicate IsTrailing(c: char) {
    c == EMPTY_CHAR || c == '\n'
  }

  /** A text without the blanks and newlines at its end. */
  function WithoutTrailing(s: string): string {
    if s != "" && IsTrailing(s[|s| - 1]) then WithoutTrailing(s[..|s| - 1]) else s
  }

  /** The loop meant to remove trailing blanks: every character differs from a blank or from a newline, so
      it ends in its first round and keeps all n characters. */
  method RemoveTrailing(content: string, n: nat) returns (count: int, kept: string)
    requires n <= |content|
    ensures count == n && kept == if n == 0 then content else content[..n]
  {
    count, kept := n, content;
    for i := n downto 0
      invariant count == i && kept == content
      invariant i < n ==> content[n - 1] == EMPTY_CHAR && content[n - 1] == '\n'
    {
      if content[i] != EMPTY_CHAR || content[i] != '\n' {
        kept := content[..i + 1];
        break;
      }
      count := count - 1;
    }
  }

  /** A content arrives without trailing blanks exactly when it was sent without. */
  lemma TrimmedOnArrival(chunk: string)
    ensures chunk == WithoutTrailing(chunk) <==> chunk == "" || !IsTrailing(chunk[|chunk| - 1])
  {
    if chunk != "" && IsTrailing(chunk[|chunk| - 1]) {
      TrailingShortens(chunk[..|chunk| - 1]);
    }
  }

  lemma {:induction false} TrailingShortens(s: string)
    ensures |WithoutTrailing(s)| <= |s|
  {
    if s != "" {
      TrailingShortens(s[..|s| - 1]);
    }
  }

  lemma RecordParses(r: Record, n: nat)
    requires RecordOk(r, n)
    ensures Components.StrTok(Wire(r), " ") == (Some(FixedWidth(r.row, 4)), r.chunk + "\n")
    ensures Value(FixedWidth(r.row, 4)) == r.row
  {
    var num, rest := FixedWidth(r.row, 4), " " + r.chunk + "\n";
    assert Wire(r) == num + rest;
    Components.RunOf(num, rest, " ");
    assert Wire(r)[0] == num[0];
    assert Components.Skip(Wire(r), " ") == Wire(r);
    assert Wire(r)[..4] == num && Wire(r)[5..] == r.chunk + "\n";
    assert Pow10(4) == 10 * (10 * (10 * (10 * Pow10(0))));
    ValueOfFixedWidth(r.row, 4);
  }

  predicate Rowed(recs: seq<Record>) {
    forall k :: 0 <= k < |recs| ==> recs[k].row > 0
  }

  /** What a sequence of records does to the file. */
  function SavedAll(file: string, recs: seq<Record>, n: nat): (r: string)
    requires IsText(file) && AllOk(recs, n) && Rowed(recs)
    ensures IsText(r)
    decreases |recs|
  {
    if recs == [] then file
    else
      SavedIsLongerText(file, recs[0].row, recs[0].chunk);
      SavedAll(Saved(file, recs[0].row, recs[0].chunk), recs[1..], n)
  }

  /** The records before the first one with row number 0. */
  function BeforeBadRow(recs: seq<Record>): (r: seq<Record>)
    ensures Rowed(r) && |r| <= |recs| && r == recs[..|r|]
    ensures r == recs <==> Rowed(recs)
  {
    if recs == [] || recs[0].row == 0 then [] else [recs[0]] + BeforeBadRow(recs[1..])
  }

  method Consume(fifo: Pipe, file: File, n: nat, ghost recs: seq<Record>) returns (ok: bool)
    requires n > 0 && AllOk(recs, n) && fifo.bytes == WireAll(recs) && IsText(file.bytes)
    modifies fifo, file
    ensures ok <==> Rowed(recs)
    ensures file.bytes == SavedAll(old(file.bytes), BeforeBadRow(recs), n)
  {
    ghost var rest := recs;
    var count, row, content := fifo.ReadFromFifo(n, rest);
    while count > 0
      invariant rest == [] ==> count == 0 && fifo.bytes == ""
      invariant rest != [] ==>
                  && count == n && row == rest[0].row && content == rest[0].chunk
                  && fifo.bytes == WireAll(rest[1..])
      invariant AllOk(rest, n) && (Rowed(rest) <==> Rowed(recs))
      invariant IsText(file.bytes)
      invariant SavedAll(file.bytes, BeforeBadRow(rest), n) == SavedAll(old(file.bytes), BeforeBadRow(recs), n)
      decreases |rest|
    {
      if row < 1 {
        return false;
      }
      assert BeforeBadRow(rest) == [rest[0]] + BeforeBadRow(rest[1..]);
      file.SaveToResultsFile(row, content);
      assert Rowed(rest) <==> Rowed(rest[1..]);
      rest := rest[1..];
      count, row, content := fifo.ReadFromFifo(n, rest);
    }
    ok := true;
  }
}
