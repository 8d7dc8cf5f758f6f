/** Lab 5, zad3: the consumer's results file.  Every record that arrives makes the consumer read the file
    into a list of lines, extend one line of the list and write the list back over the file. */
module RowFile {

  // ---------------------------------------------------------------- files as texts

  /** The length of the first line with its newline; the last line may lack one. */
  function LineLength(s: string): (n: nat)
    ensures n <= |s| && (s != "" ==> n > 0)
  {
    if s == "" then 0 else if s[0] == '\n' then 1 else 1 + LineLength(s[1..])
  }

  function LinesOf(s: string): seq<string> {
    if s == "" then [] else [s[..LineLength(s)]] + LinesOf(s[LineLength(s)..])
  }

  lemma FirstLineOf(s: string, i: nat)
    requires i < |s|
    ensures var n := LineLength(s[i..]); LinesOf(s[i..]) == [s[i..i + n]] + LinesOf(s[i + n..])
  {
    var rest, n := s[i..], LineLength(s[i..]);
    SlicesOf(s, i, n);
    assert LinesOf(rest) == [rest[..n]] + LinesOf(rest[n..]);
  }

  lemma SlicesOf(s: string, i: nat, n: nat)
    requires i + n <= |s|
    ensures s[i..][..n] == s[i..i + n] && s[i..][n..] == s[i + n..]
  {
  }

  lemma Regroup<T>(a: seq<T>, b: seq<T>, c: seq<T>)
    ensures a + (b + c) == a + b + c
  {
  }

  function Join(lines: seq<string>): string {
    if lines == [] then "" else lines[0] + Join(lines[1..])
  }

  /** One line: no newline but the one at its end. */
  predicate IsLine(s: string) {
    s != "" && s[|s| - 1] == '\n' && '\n' !in s[..|s| - 1]
  }

  predicate AllLines(lines: seq<string>) {
    forall k :: 0 <= k < |lines| ==> IsLine(lines[k])
  }

  /** What the consumer leaves behind: every line ended, no NUL. */
  predicate IsText(s: string) {
    '\0' !in s && (s != "" ==> s[|s| - 1] == '\n')
  }

  lemma {:induction false} LineLengthIs(s: string)
    requires s != ""
    ensures var n := LineLength(s);
            '\n' !in s[..n - 1] && (s[n - 1] == '\n' || n == |s|)
  {
    if s[0] != '\n' && |s| > 1 {
      LineLengthIs(s[1..]);
      var n := LineLength(s);
      assert s[..n - 1] == [s[0]] + s[1..][..n - 2];
    }
  }

  lemma {:induction false} LinesOfText(s: string)
    requires s == "" || s[|s| - 1] == '\n'
    ensures AllLines(LinesOf(s)) && Join(LinesOf(s)) == s
  {
    if s != "" {
      LineLengthIs(s);
      var n := LineLength(s);
      var line, rest := s[..n], s[n..];
      assert IsLine(line) by {
        assert line[..n - 1] == s[..n - 1];
      }
      assert rest != "" ==> rest[|rest| - 1] == '\n';
      LinesOfText(rest);
      assert LinesOf(s) == [line] + LinesOf(rest);
      assert s == line + rest;
    }
  }

  lemma {:induction false} LengthOfLine(line: string, rest: string)
    requires IsLine(line)
    ensures LineLength(line + rest) == |line|
    decreases |line|
  {
    if line[0] == '\n' {
      assert |line| == 1;
    } else {
      assert (line + rest)[1..] == line[1..] + rest;
      assert line[..|line| - 1][1..] == line[1..][..|line| - 2];
      LengthOfLine(line[1..], rest);
    }
  }

  /** Writing lines and reading them back gives the same lines. */
  lemma {:induction false} LinesOfJoin(lines: seq<string>)
    requires AllLines(lines)
    ensures LinesOf(Join(lines)) == lines
  {
    if lines != [] {
      LengthOfLine(lines[0], Join(lines[1..]));
      LinesOfJoin(lines[1..]);
      assert Join(lines)[|lines[0]|..] == Join(lines[1..]);
    }
  }

  lemma {:induction false} JoinAppends(lines: seq<string>, more: seq<string>)
    ensures Join(lines + more) == Join(lines) + Join(more)
  {
    if lines == [] {
      assert lines + more == more;
    } else {
      assert (lines + more)[1..] == lines[1..] + more;
      JoinAppends(lines[1..], more);
    }
  }

  lemma JoinOneMore(lines: seq<string>, i: nat)
    requires i < |lines|
    ensures Join(lines[..i + 1]) == Join(lines[..i]) + lines[i]
  {
    assert lines[..i + 1] == lines[..i] + [lines[i]];
    JoinAppends(lines[..i], [lines[i]]);
  }

  // ---------------------------------------------------------------- extending a row

  function Padded(lines: seq<string>, row: nat): seq<string> {
    lines + seq(if row > |lines| then row - |lines| else 0, _ => "\n")
  }

  /** The lines with `content` added to the end of a row; missing rows before it become empty lines. */
  function Updated(lines: seq<string>, row: nat, content: string): (r: seq<string>)
    requires row > 0 && AllLines(lines)
  {
    var p := Padded(lines, row);
    p[row - 1 := p[row - 1][..|p[row - 1]| - 1] + content + "\n"]
  }

  /** A row without its newline; rows that the file does not have are empty. */
  function RowText(lines: seq<string>, row: nat): string
    requires AllLines(lines)
  {
    if 1 <= row <= |lines| then lines[row - 1][..|lines[row - 1]| - 1] else ""
  }

  lemma PaddedLines(lines: seq<string>, row: nat)
    requires AllLines(lines)
    ensures AllLines(Padded(lines, row))
  {
  }

  /** Only the row grows: nothing is lost or put elsewhere. */
  lemma UpdatedRow(lines: seq<string>, row: nat, content: string, r: nat)
    requires row > 0 && AllLines(lines) && '\n' !in content
    ensures AllLines(Updated(lines, row, content))
    ensures |Updated(lines, row, content)| == if row > |lines| then row else |lines|
    ensures RowText(Updated(lines, row, content), r) == RowText(lines, r) + (if r == row then content else "")
  {
    PaddedLines(lines, row);
    var p, u := Padded(lines, row), Updated(lines, row, content);
    assert RowText(p, row) == RowText(lines, row);
    assert u[row - 1][..|u[row - 1]| - 1] == RowText(p, row) + content;
    assert forall k :: 0 <= k < |p| && k != row - 1 ==> u[k] == p[k];
  }

  /** What a record does to the file. */
  function Saved(file: string, row: nat, content: string): string
    requires row > 0 && IsText(file)
  {
    LinesOfText(file);
    Join(Updated(LinesOf(file), row, content))
  }

  lemma {:induction false} OneNewlineEach(lines: seq<string>)
    requires AllLines(lines)
    ensures multiset(Join(lines))['\n'] == |lines|
  {
    if lines != [] {
      var line, rest := lines[0], Join(lines[1..]);
      OneNewlineEach(lines[1..]);
      assert line == line[..|line| - 1] + ['\n'];
      assert '\n' !in multiset(line[..|line| - 1]);
    }
  }

  function EmptyLines(n: nat): seq<string> {
    seq(n, _ => "\n")
  }

  function Newlines(n: nat): string {
    seq(n, _ => '\n')
  }

  lemma {:induction false} JoinOfEmptyLines(n: nat)
    ensures Join(EmptyLines(n)) == Newlines(n)
  {
    if n > 0 {
      JoinOfEmptyLines(n - 1);
      assert EmptyLines(n)[1..] == EmptyLines(n - 1);
      assert Newlines(n) == ['\n'] + Newlines(n - 1);
    }
  }

  lemma JoinEndsWith(lines: seq<string>, last: string)
    ensures Join(lines + [last]) == Join(lines) + last
  {
    JoinAppends(lines, [last]);
    assert [last][1..] == [];
  }

  lemma JoinAround(front: seq<string>, line: string, back: seq<string>)
    ensures Join(front + [line] + back) == Join(front) + line + Join(back)
  {
    JoinAppends(front + [line], back);
    JoinEndsWith(front, line);
  }

  lemma SplitAtRow(lines: seq<string>, row: nat, content: string)
    requires AllLines(lines) && 1 <= row <= |lines|
    ensures var text := lines[row - 1][..|lines[row - 1]| - 1];
            && lines == lines[..row - 1] + [text + "\n"] + lines[row..]
            && Updated(lines, row, content) == lines[..row - 1] + [text + content + "\n"] + lines[row..]
  {
    var line := lines[row - 1];
    assert line == line[..|line| - 1] + "\n";
  }

  lemma InsertInLine(file: string, lines: seq<string>, row: nat, content: string) returns (pos: nat)
    requires AllLines(lines) && file == Join(lines) && 1 <= row <= |lines|
    ensures pos < |file| && file[pos] == '\n' && multiset(file[..pos])['\n'] == row - 1
    ensures Join(Updated(lines, row, content)) == file[..pos] + content + file[pos..]
  {
    var front, text, back := lines[..row - 1], lines[row - 1][..|lines[row - 1]| - 1], lines[row..];
    pos := |Join(front)| + |text|;
    SplitAtRow(lines, row, content);
    JoinAround(front, text + "\n", back);
    JoinAround(front, text + content + "\n", back);
    OneNewlineEach(front);
    assert '\n' !in multiset(text);
    assert file[..pos] == Join(front) + text;
    assert file[pos..] == "\n" + Join(back);
  }

  lemma AppendLine(lines: seq<string>, row: nat, content: string)
    requires AllLines(lines) && row > |lines|
    ensures Join(Updated(lines, row, content)) == Join(lines) + Newlines(row - 1 - |lines|) + (content + "\n")
  {
    var missing := EmptyLines(row - 1 - |lines|);
    var updated := AppendedLine(lines, row, content, missing);
    JoinEndsWith(lines + missing, content + "\n");
    JoinAppends(lines, missing);
    JoinOfEmptyLines(row - 1 - |lines|);
  }

  lemma AppendedLine(lines: seq<string>, row: nat, content: string, missing: seq<string>) returns (r: seq<string>)
    requires AllLines(lines) && row > |lines| && missing == EmptyLines(row - 1 - |lines|)
    ensures r == Updated(lines, row, content) && r == lines + missing + [content + "\n"]
  {
    r := Updated(lines, row, content);
    var p := Padded(lines, row);
    assert p[row - 1][..|p[row - 1]| - 1] + content + "\n" == content + "\n";
  }

  /** Whatever the content is: it is put in before the newline that ends its row, and nothing else changes;
      a row the file does not have yet is started behind as many newlines as rows are missing before it. */
  lemma SavedInserts(file: string, row: nat, content: string) returns (pos: nat)
    requires row > 0 && IsText(file)
    ensures row <= multiset(file)['\n'] ==>
              && pos < |file| && file[pos] == '\n' && multiset(file[..pos])['\n'] == row - 1
              && Saved(file, row, content) == file[..pos] + content + file[pos..]
    ensures row > multiset(file)['\n'] ==>
              Saved(file, row, content) == file + Newlines(row - 1 - multiset(file)['\n']) + (content + "\n")
  {
    LinesOfText(file);
    var lines := LinesOf(file);
    OneNewlineEach(lines);
    if row <= |lines| {
      pos := InsertInLine(file, lines, row, content);
    } else {
      AppendLine(lines, row, content);
      pos := 0;
    }
  }

  lemma {:induction false} JoinIsText(lines: seq<string>)
    requires forall k :: 0 <= k < |lines| ==> lines[k] != "" && IsText(lines[k])
    ensures IsText(Join(lines))
  {
    if lines != [] {
      JoinIsText(lines[1..]);
    }
  }

  lemma {:induction false} TextOfLines(lines: seq<string>, k: nat)
    requires '\0' !in Join(lines) && k < |lines|
    ensures '\0' !in lines[k]
  {
    if k > 0 {
      TextOfLines(lines[1..], k - 1);
    }
  }

  lemma {:induction false} JoinOfReplaced(lines: seq<string>, k: nat, line: string)
    requires k < |lines|
    ensures |Join(lines[k := line])| == |Join(lines)| - |lines[k]| + |line|
  {
    if k == 0 {
      assert lines[0 := line][1..] == lines[1..];
    } else {
      assert lines[k := line][1..] == lines[1..][k - 1 := line];
      JoinOfReplaced(lines[1..], k - 1, line);
    }
  }

  /** The file stays a text and never gets shorter, so that writing it from the start leaves nothing of
      the old one behind. */
  lemma SavedIsLongerText(file: string, row: nat, content: string)
    requires row > 0 && IsText(file) && '\0' !in content
    ensures IsText(Saved(file, row, content))
    ensures |Saved(file, row, content)| >= |file| + |content|
  {
    LinesOfText(file);
    var lines := LinesOf(file);
    var p, u := Padded(lines, row), Updated(lines, row, content);
    PaddedLines(lines, row);
    forall k | 0 <= k < |u|
      ensures u[k] != "" && IsText(u[k])
    {
      if k < |lines| {
        TextOfLines(lines, k);
      }
    }
    JoinIsText(u);
    JoinOfReplaced(p, row - 1, u[row - 1]);
    assert p == lines + p[|lines|..];
    JoinAppends(lines, p[|lines|..]);
  }

  /** The next record finds the lines that this one wrote exactly when it has no newline inside. */
  lemma RowsSurviveReading(file: string, row: nat, content: string)
    requires row > 0 && IsText(file) && '\0' !in content
    ensures AllLines(LinesOf(file))
    ensures LinesOf(Saved(file, row, content)) == Updated(LinesOf(file), row, content) <==> '\n' !in content
  {
    LinesOfText(file);
    SavedIsLongerText(file, row, content);
    LinesOfText(Saved(file, row, content));
    var u := Updated(LinesOf(file), row, content);
    if '\n' !in content {
      UpdatedRow(LinesOf(file), row, content, row);
      LinesOfJoin(u);
    } else {
      var p := Padded(LinesOf(file), row)[row - 1];
      SplitLine(p[..|p| - 1], content);
      assert !IsLine(u[row - 1]);
    }
  }

  lemma SplitLine(before: string, content: string)
    requires '\n' in content
    ensures !IsLine(before + content + "\n")
  {
    var line := before + content + "\n";
    assert line[..|line| - 1] == before + content;
  }

  // ---------------------------------------------------------------- the consumer's steps

  /** What a file has from position n on. */
  function From(s: string, n: nat): string {
    if n <= |s| then s[n..] else ""
  }

  lemma WriteContinues(before: string, done: string, data: string)
    ensures var file := done + From(before, |done|);
            file[..|done|] + data + From(file, |done + data|) == done + data + From(before, |done + data|)
  {
    var file := done + From(before, |done|);
    assert file[..|done|] == done;
    assert From(file, |done + data|) == From(before, |done + data|);
  }

  /** The list of lines behind its head node. */
  class LineList {
    var lines: seq<string>

    constructor ()
      ensures lines == []
    {
      lines := [];
    }

    method Append(line: string)
      modifies this
      ensures lines == old(lines) + [line]
    {
      lines := lines + [line];
    }

    /** Walks to the row, appending empty lines at the end of the list, and extends it. */
    method AppendToFileRow(row: nat, content: string)
      requires row > 0 && AllLines(lines)
      modifies this
      ensures lines == Updated(old(lines), row, content)
    {
      ghost var was := lines;
      var prev := 0;
      var currRow := if lines != [] then 1 else 0;
      while currRow < row
        invariant 0 <= currRow <= row && prev == (if currRow == 0 then 0 else currRow - 1)
        invariant currRow <= |lines| && (currRow == 0 ==> lines == [])
        invariant lines == Padded(was, currRow)
        decreases row - currRow
      {
        if prev < |lines| {
          prev := prev + 1;
        }
        if prev == |lines| {
          Append("\n");
        }
        currRow := currRow + 1;
      }
      PaddedLines(was, row);
      var line := lines[prev];
      lines := lines[prev := line[..|line| - 1] + content + "\n"];
    }
  }

  class File {
    var bytes: string
    var cursor: nat

    constructor ()
      ensures bytes == "" && cursor == 0
    {
      bytes, cursor := "", 0;
    }

    /** NUL at the end of the file. */
    method NextChar() returns (c: char)
      modifies this`cursor
      ensures old(cursor) < |bytes| ==> c == bytes[old(cursor)] && cursor == old(cursor) + 1
      ensures old(cursor) >= |bytes| ==> c == '\0' && cursor == old(cursor)
    {
      if cursor < |bytes| {
        c := bytes[cursor];
        cursor := cursor + 1;
      } else {
        c := '\0';
      }
    }

    method GetLineLength() returns (n: int)
      requires '\0' !in bytes && cursor <= |bytes|
      modifies this`cursor
      ensures cursor == old(cursor) && n == LineLength(bytes[cursor..])
    {
      var start := cursor;
      var offset := 0;
      var c := ' ';
      while c != '\n'
        invariant cursor == start + offset <= |bytes|
        invariant if c == '\n' then offset == LineLength(bytes[start..])
                  else offset + LineLength(bytes[cursor..]) == LineLength(bytes[start..])
        decreases |bytes| - cursor, if c == '\n' then 0 else 1
      {
        assert cursor < |bytes| ==> bytes[cursor..][1..] == bytes[cursor + 1..];
        c := NextChar();
        offset := offset + 1;
        if c == '\0' {
          assert cursor == |bytes|;
          offset := offset - 1;
          cursor := cursor - offset;
          return offset;
        }
      }
      cursor := cursor - offset;
      n := offset;
    }

    method ReadLine() returns (line: string)
      requires '\0' !in bytes && cursor <= |bytes|
      modifies this`cursor
      ensures cursor == old(cursor) + |line| <= |bytes| && line == bytes[old(cursor)..cursor]
      ensures |line| == LineLength(bytes[old(cursor)..])
    {
      var length := GetLineLength();
      line := bytes[cursor..cursor + length];
      cursor := cursor + length;
    }

    method ReadFileLines() returns (list: LineList)
      requires '\0' !in bytes
      modifies this`cursor
      ensures fresh(list) && list.lines == LinesOf(bytes)
    {
      list := new LineList();
      cursor := 0;
      assert bytes[0..] == bytes;
      var length := GetLineLength();
      while length > 0
        invariant fresh(list) && cursor <= |bytes| && length == LineLength(bytes[cursor..])
        invariant list.lines + LinesOf(bytes[cursor..]) == LinesOf(bytes)
        decreases |bytes| - cursor
      {
        FirstLineOf(bytes, cursor);
        ghost var before := list.lines;
        var line := ReadLine();
        list.Append(line);
        Regroup(before, [line], LinesOf(bytes[cursor..]));
        length := GetLineLength();
      }
    }

    /** A write at the cursor, over what is there. */
    method Write(data: string)
      requires cursor <= |bytes|
      modifies this
      ensures cursor == old(cursor) + |data| <= |bytes|
      ensures bytes == old(bytes)[..old(cursor)] + data + From(old(bytes), cursor)
    {
      bytes := bytes[..cursor] + data + (if cursor + |data| <= |bytes| then bytes[cursor + |data|..] else "");
      cursor := cursor + |data|;
    }

    /** From the start of the file, and without cutting it off behind what is written. */
    method WriteDataToFile(list: LineList)
      modifies this
      ensures var data := Join(list.lines); bytes == data + From(old(bytes), |data|)
    {
      ghost var before := bytes;
      cursor := 0;
      for i := 0 to |list.lines|
        invariant cursor == |Join(list.lines[..i])| <= |bytes|
        invariant bytes == Join(list.lines[..i]) + From(before, cursor)
      {
        JoinOneMore(list.lines, i);
        WriteContinues(before, Join(list.lines[..i]), list.lines[i]);
        Write(list.lines[i]);
      }
      assert list.lines[..|list.lines|] == list.lines;
    }

    method SaveToResultsFile(row: nat, content: string)
      requires row > 0 && IsText(bytes) && '\0' !in content
      modifies this
      ensures bytes == Saved(old(bytes), row, content) && IsText(bytes)
    {
      LinesOfText(bytes);
      SavedIsLongerText(bytes, row, content);
      var list := ReadFileLines();
      list.AppendToFileRow(row, content);
      WriteDataToFile(list);
    }
  }
}
