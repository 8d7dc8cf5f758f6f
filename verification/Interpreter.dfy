/** Lab 5, zad1: from the file of declarations to the processes of a command line, and what they do. */
module Interpreter {
  import opened Options
  import opened Digits
  import opened Components
  import opened CommandText
  import opened ComponentIds

  // ---------------------------------------------------------------- definitions

  /** The program and the arguments of one process. */
  type Part = seq<string>

  /** An argument array up to its NULL. */
  function Strings(args: seq<Option<string>>): Part {
    if args == [] || args[0].None? then [] else [args[0].value] + Strings(args[1..])
  }

  lemma {:induction false} StringsOfTokens(args: seq<Option<string>>, tokens: seq<string>)
    requires |tokens| < |args| && args[|tokens|] == None
    requires forall k :: 0 <= k < |tokens| ==> args[k] == Some(tokens[k])
    ensures Strings(args) == tokens
  {
    if tokens != [] {
      StringsOfTokens(args[1..], tokens[1..]);
    }
  }

  /** The processes that a definition stands for. */
  function PartsOf(text: string): (parts: seq<Part>)
    ensures |parts| == |Tokens(text, PIPE)|
  {
    seq(|Tokens(text, PIPE)|, k requires 0 <= k < |Tokens(text, PIPE)| => Tokens(Trim(Tokens(text, PIPE)[k]), BLANKS))
  }

  /** An empty segment leaves a NULL among the parts, and splitting that reads through it. */
  method ParseCommand(text: string) returns (parts: Attempt<seq<Part>>)
    ensures parts == if "" in Segments(text, PIPE) then Undefined else Done(PartsOf(text))
  {
    var splits, count := SplitPipes(text);
    PartsCountSuffices(text);
    var names := splits[..count];
    var all := [];
    for i := 0 to count
      invariant i <= |Tokens(text, PIPE)| && all == PartsOf(text)[..i]
    {
      if names[i].None? {
        return Undefined;
      }
      var args, n := SplitArgs(names[i].value);
      StringsOfTokens(args[..], Tokens(names[i].value, BLANKS));
      all := all + [Strings(args[..])];
    }
    assert PartsOf(text)[..count] == PartsOf(text);
    parts := Done(all);
  }

  /** The text of a definition: arguments with a blank between them, processes with ' | ' between them. */
  function DefinitionText(parts: seq<Part>): string
    requires parts != [] && forall k :: 0 <= k < |parts| ==> parts[k] != []
  {
    JoinPieces(seq(|parts|, k requires 0 <= k < |parts| => JoinWords(parts[k])))
  }

  ghost predicate Writable(parts: seq<Part>) {
    parts != [] && forall k :: 0 <= k < |parts| ==> AllWords(parts[k])
  }

  /** A definition comes back as it was written: the same processes with the same arguments, in order. */
  lemma DefinitionComesBack(pre: string, parts: seq<Part>, post: string)
    requires Writable(parts) && AllBlank(pre) && AllBlank(post)
    ensures var text := pre + DefinitionText(parts) + post;
            "" !in Segments(text, PIPE) && PartsOf(text) == parts
  {
    var pieces := seq(|parts|, k requires 0 <= k < |parts| => JoinWords(parts[k]));
    forall k | 0 <= k < |parts|
      ensures IsPiece(pieces[k]) && Tokens(pieces[k], BLANKS) == parts[k]
    {
      WordsArePiece(parts[k]);
      WordTokens(parts[k]);
    }
    JoinedTokens(pre, pieces, post);
    var tokens := Tokens(pre + JoinPieces(pieces) + post, PIPE);
    assert forall k :: 0 <= k < |parts| ==> Trim(tokens[k]) == pieces[k];
  }

  /** A declaration in the list: the number of the component and its text. */
  datatype Node = Node(num: int, text: string)

  /** The name is what precedes the '='; the text is what follows it but for its last character. */
  function Declaration(line: string): Attempt<Node> {
    var (name, rest) := StrTok(line, "=");
    match CommandId(name)
    case Done(num) => Done(Node(num, if rest == "" then "" else rest[..|rest| - 1]))
    case Failed => Failed
    case Undefined => Undefined
  }

  /** The last character of a declaration is taken for the end of its line: the text arrives as written
      exactly when there is a newline to take. */
  lemma DeclarationText(name: string, text: string, end: string)
    requires '=' !in name && CommandId(Some(name)).Done? && text != "" && end in ["\n", ""]
    ensures IsDeclaration(name + "=" + text + end)
    ensures var node := Declaration(name + "=" + text + end);
            && node.Done? && node.value.num == CommandId(Some(name)).value
            && (node.value.text == text <==> end == "\n")
  {
    var line := name + "=" + text + end;
    assert line == name + ("=" + text + end);
    RunOf(name, "=" + text + end, "=");
    assert line[0] == name[0];
    assert Skip(line, "=") == line;
    assert line[..|name|] == name && line[|name| + 1..] == text + end;
  }

  predicate IsDeclaration(line: string) {
    '=' in line
  }

  /** The list of declarations when one more line was read: a bad declaration ends the reading. */
  function AfterLine(before: Attempt<seq<Node>>, line: string): Attempt<seq<Node>> {
    if !before.Done? || !IsDeclaration(line) then before
    else
      match Declaration(line)
      case Done(node) => Done(before.value + [node])
      case Failed => Failed
      case Undefined => Undefined
  }

  /** All declarations of a file in order, up to one that has no number. */
  function Declarations(lines: seq<string>): Attempt<seq<Node>> {
    if lines == [] then Done([])
    else AfterLine(Declarations(lines[..|lines| - 1]), lines[|lines| - 1])
  }

  lemma OneMoreLine(lines: seq<string>, line: string)
    ensures Declarations(lines + [line]) == AfterLine(Declarations(lines), line)
  {
    assert (lines + [line])[..|lines|] == lines;
  }

  lemma {:induction false} NoLaterDeclarations(lines: seq<string>, i: nat)
    requires i <= |lines| && !Declarations(lines[..i]).Done?
    ensures Declarations(lines) == Declarations(lines[..i])
    decreases |lines| - i
  {
    if i < |lines| {
      assert lines[..i + 1][..i] == lines[..i];
      NoLaterDeclarations(lines, i + 1);
    } else {
      assert lines[..i] == lines;
    }
  }

  method ReadDeclaration(line: string) returns (node: Attempt<Node>)
    ensures node == Declaration(line)
    ensures node.Done? ==> node.value.num > 0
  {
    var (name, command) := StrTok(line, "=");
    var id := GetCommandId(name);
    if !id.Done? {
      return if id.Failed? then Failed else Undefined;
    }
    CommandIdsArePositive(name);
    node := Done(Node(id.value, if command == "" then "" else command[..|command| - 1]));
  }

  /** The list of declarations and the highest number in it. */
  method GetCommandsList(lines: seq<string>) returns (nodes: Attempt<seq<Node>>, maxNum: nat)
    ensures nodes == Declarations(lines)
    ensures nodes.Done? ==> NumbersUpTo(nodes.value, maxNum)
  {
    var list: seq<Node> := [];
    maxNum := 0;
    for i := 0 to |lines|
      invariant Declarations(lines[..i]) == Done(list) && NumbersUpTo(list, maxNum)
    {
      assert lines[..i + 1] == lines[..i] + [lines[i]];
      OneMoreLine(lines[..i], lines[i]);
      if !IsDeclaration(lines[i]) {
        continue;
      }
      var node := ReadDeclaration(lines[i]);
      if !node.Done? {
        NoLaterDeclarations(lines, i + 1);
        return if node.Failed? then Failed else Undefined, maxNum;
      }
      if node.value.num > maxNum {
        maxNum := node.value.num;
      }
      list := list + [node.value];
    }
    assert lines[..|lines|] == lines;
    nodes := Done(list);
  }

  predicate NumbersUpTo(nodes: seq<Node>, maxNum: nat) {
    forall k :: 0 <= k < |nodes| ==> 0 < nodes[k].num <= maxNum
  }

  function LastDefinition(nodes: seq<Node>, num: int): Option<seq<Part>> {
    if nodes == [] then None
    else if nodes[|nodes| - 1].num == num then Some(PartsOf(nodes[|nodes| - 1].text))
    else LastDefinition(nodes[..|nodes| - 1], num)
  }

  /** A number has a definition exactly when some declaration has it. */
  lemma {:induction false} DefinedExactly(nodes: seq<Node>, num: int)
    ensures LastDefinition(nodes, num).Some? <==> exists k :: 0 <= k < |nodes| && nodes[k].num == num
  {
    if nodes != [] {
      var front := nodes[..|nodes| - 1];
      DefinedExactly(front, num);
      if k :| 0 <= k < |nodes| && nodes[k].num == num && k < |front| {
        assert front[k].num == num;
      }
    }
  }

  lemma {:induction false} LastOfMore(nodes: seq<Node>, more: seq<Node>, num: int)
    ensures LastDefinition(nodes + more, num)
         == if LastDefinition(more, num).Some? then LastDefinition(more, num) else LastDefinition(nodes, num)
  {
    if more == [] {
      assert nodes + more == nodes;
    } else {
      assert (nodes + more)[..|nodes + more| - 1] == nodes + more[..|more| - 1];
      LastOfMore(nodes, more[..|more| - 1], num);
    }
  }

  /** The first declaration whose name has no number ends the reading, whatever follows it. */
  lemma {:induction false} FirstBadLine(lines: seq<string>, name: string, text: string, more: seq<string>)
    requires Declarations(lines).Done? && '=' !in name && name != "" && !CommandId(Some(name)).Done?
    ensures Declarations(lines + [name + "=" + text] + more)
         == if CommandId(Some(name)).Failed? then Failed else Undefined
    decreases |more|
  {
    var line := name + "=" + text;
    var upTo := lines + [line];
    if more == [] {
      BadDeclaration(name, text);
      OneMoreLine(lines, line);
      assert upTo + more == upTo;
    } else {
      var front, last := more[..|more| - 1], more[|more| - 1];
      FirstBadLine(lines, name, text, front);
      assert upTo + more == (upTo + front) + [last];
      OneMoreLine(upTo + front, last);
    }
  }

  lemma BadDeclaration(name: string, text: string)
    requires '=' !in name && name != "" && !CommandId(Some(name)).Done?
    ensures IsDeclaration(name + "=" + text)
    ensures Declaration(name + "=" + text) == if CommandId(Some(name)).Failed? then Failed else Undefined
  {
    var line := name + "=" + text;
    assert line == name + ("=" + text);
    RunOf(name, "=" + text, "=");
    assert line[0] == name[0];
    assert Skip(line, "=") == line;
    assert line[..|name|] == name;
  }

  /** The declarations of a file are those of its beginning and then those of the rest. */
  lemma {:induction false} DeclarationsOfMore(lines: seq<string>, more: seq<string>)
    requires Declarations(lines).Done? && Declarations(more).Done?
    ensures Declarations(lines + more) == Done(Declarations(lines).value + Declarations(more).value)
  {
    if more == [] {
      assert lines + more == lines && Declarations(lines).value + [] == Declarations(lines).value;
    } else {
      var front, last := more[..|more| - 1], more[|more| - 1];
      DeclarationsOfMore(lines, front);
      assert lines + more == (lines + front) + [last];
      OneMoreLine(lines + front, last);
      LineAfterMore(Declarations(lines).value, Declarations(front).value, last);
    }
  }

  lemma LineAfterMore(nodes: seq<Node>, more: seq<Node>, line: string)
    requires AfterLine(Done(more), line).Done?
    ensures AfterLine(Done(nodes + more), line) == Done(nodes + AfterLine(Done(more), line).value)
  {
    if IsDeclaration(line) {
      var node := Declaration(line).value;
      assert nodes + more + [node] == nodes + (more + [node]);
    }
  }

  lemma OneDeclaration(before: seq<string>, line: string)
    requires Declarations(before).Done? && IsDeclaration(line) && Declaration(line).Done?
    ensures Declarations(before + [line]) == Done(Declarations(before).value + [Declaration(line).value])
  {
    OneMoreLine(before, line);
  }

  /** A declaration counts, wherever it stands, unless a later one has its number. */
  lemma LaterDeclarationWins(before: seq<string>, name: string, text: string, after: seq<string>, num: int)
    requires Declarations(before).Done? && Declarations(after).Done?
    requires '=' !in name && CommandId(Some(name)) == Done(num) && text != ""
    requires forall k :: 0 <= k < |Declarations(after).value| ==> Declarations(after).value[k].num != num
    ensures var nodes := Declarations(before + [name + "=" + text + "\n"] + after);
            nodes.Done? && LastDefinition(nodes.value, num) == Some(PartsOf(text))
  {
    var line, rest := name + "=" + text + "\n", Declarations(after).value;
    DeclarationText(name, text, "\n");
    OneDeclaration(before, line);
    DeclarationsOfMore(before + [line], after);
    var node := Declaration(line).value;
    LastOfMore(Declarations(before).value + [node], rest, num);
    LastOfMore(Declarations(before).value, [node], num);
    DefinedExactly(rest, num);
    assert LastDefinition([node], num) == Some(PartsOf(text));
  }

  predicate AllParse(nodes: seq<Node>) {
    forall k :: 0 <= k < |nodes| ==> "" !in Segments(nodes[k].text, PIPE)
  }

  /** The table of components: a later declaration of a number replaces an earlier one.  A definition with an
      empty segment is read through NULL. */
  method GetCommands(nodes: seq<Node>, maxId: nat) returns (commands: Attempt<array<Option<seq<Part>>>>)
    requires NumbersUpTo(nodes, maxId)
    ensures if AllParse(nodes) then commands.Done? else commands == Undefined
    ensures commands.Done? ==> fresh(commands.value) && IsTable(commands.value[..], nodes, maxId)
  {
    var table := new Option<seq<Part>>[maxId + 1](_ => None);
    for i := 0 to |nodes|
      invariant AllParse(nodes[..i]) && IsTable(table[..], nodes[..i], maxId)
    {
      assert nodes[..i + 1][..i] == nodes[..i];
      var parts := ParseCommand(nodes[i].text);
      if parts.Undefined? {
        return Undefined;
      }
      table[nodes[i].num] := Some(parts.value);
    }
    assert nodes[..|nodes|] == nodes;
    commands := Done(table);
  }

  /** Every number up to the highest has its last definition, if it has one. */
  ghost predicate IsTable(table: seq<Option<seq<Part>>>, nodes: seq<Node>, maxId: nat) {
    |table| == maxId + 1 && forall id :: 0 <= id <= maxId ==> table[id] == LastDefinition(nodes, id)
  }

  // ---------------------------------------------------------------- expansion

  /** The names in a line as the array has them: trimmed, and NULL for every empty segment, at the end. */
  function Names(line: string): (r: seq<Option<string>>)
    ensures |r| == Count(line, '|') + 1
  {
    var tokens := Tokens(line, PIPE);
    seq(Count(line, '|') + 1,
        k requires 0 <= k <= Count(line, '|') => if k < |tokens| then Some(Trim(tokens[k])) else None)
  }

  /** The numbers of all names, up to one without a number or without a definition. */
  function Lookup(names: seq<Option<string>>, commands: seq<Option<seq<Part>>>): (r: Attempt<seq<int>>)
    ensures r.Done? ==> |r.value| == |names| && AllDefined(r.value, commands)
  {
    if names == [] then Done([])
    else
      match CommandId(names[0])
      case Failed => Failed
      case Undefined => Undefined
      case Done(id) =>
        if !(0 <= id < |commands| && commands[id].Some?) then Undefined
        else Before([id], Lookup(names[1..], commands))
  }

  function Before(ids: seq<int>, rest: Attempt<seq<int>>): Attempt<seq<int>> {
    match rest
    case Done(more) => Done(ids + more)
    case _ => rest
  }

  predicate AllDefined(ids: seq<int>, commands: seq<Option<seq<Part>>>) {
    forall k :: 0 <= k < |ids| ==> 0 <= ids[k] < |commands| && commands[ids[k]].Some?
  }

  function Expansion(ids: seq<int>, commands: seq<Option<seq<Part>>>): seq<Part>
    requires AllDefined(ids, commands)
  {
    if ids == [] then [] else commands[ids[0]].value + Expansion(ids[1..], commands)
  }

  lemma {:induction false} ExpansionOfMore(ids: seq<int>, more: seq<int>, commands: seq<Option<seq<Part>>>)
    requires AllDefined(ids, commands)
    requires AllDefined(more, commands)
    ensures Expansion(ids + more, commands) == Expansion(ids, commands) + Expansion(more, commands)
  {
    if ids == [] {
      assert ids + more == more;
    } else {
      assert (ids + more)[1..] == ids[1..] + more;
      ExpansionOfMore(ids[1..], more, commands);
    }
  }

  method SplitNames(line: string) returns (names: seq<Option<string>>)
    ensures names == Names(line)
  {
    var splits, count := SplitPipes(line);
    names := splits[..count];
  }

  /** A name with a number that has a definition. */
  predicate Found(name: Option<string>, commands: seq<Option<seq<Part>>>) {
    match CommandId(name)
    case Done(id) => 0 <= id < |commands| && commands[id].Some?
    case _ => false
  }

  /** With all names found the numbers are theirs, in order. */
  lemma {:induction false} AllFound(names: seq<Option<string>>, commands: seq<Option<seq<Part>>>)
    requires forall k :: 0 <= k < |names| ==> Found(names[k], commands)
    ensures var ids := Lookup(names, commands);
            && ids.Done? && |ids.value| == |names|
            && forall k :: 0 <= k < |names| ==> CommandId(names[k]) == Done(ids.value[k])
  {
    if names != [] {
      assert Found(names[0], commands);
      AllFound(names[1..], commands);
    }
  }

  /** Otherwise the first name that is not found decides: NULL for a name without number, undefined for a NULL
      or empty name, too many digits, or a number without definition. */
  lemma {:induction false} FirstNotFound(names: seq<Option<string>>, commands: seq<Option<seq<Part>>>, k: nat)
    requires k < |names| && !Found(names[k], commands)
    requires forall j :: 0 <= j < k ==> Found(names[j], commands)
    ensures Lookup(names, commands) == if CommandId(names[k]).Failed? then Failed else Undefined
  {
    if k > 0 {
      assert Found(names[0], commands);
      FirstNotFound(names[1..], commands, k - 1);
    }
  }

  lemma LookupGoesOn(all: seq<Option<string>>, table: seq<Option<seq<Part>>>, i: nat, found: seq<int>, id: int)
    requires i < |all| && AllDefined(found, table) && Lookup(all, table) == Before(found, Lookup(all[i..], table))
    requires CommandId(all[i]) == Done(id) && 0 <= id < |table| && table[id].Some?
    ensures AllDefined(found + [id], table)
    ensures Lookup(all, table) == Before(found + [id], Lookup(all[i + 1..], table))
    ensures |Expansion(found + [id], table)| == |Expansion(found, table)| + |table[id].value|
  {
    assert [id][0] == id;
    assert all[i..][1..] == all[i + 1..];
    Regrouped(found, [id], Lookup(all[i + 1..], table));
    ExpansionOfMore(found, [id], table);
    assert Expansion([id], table) == table[id].value + Expansion([], table);
  }

  /** The first pass: looks up the numbers and adds up the processes. */
  method CountProcesses(line: string, commands: array<Option<seq<Part>>>)
    returns (ids: Attempt<seq<int>>, partsCount: nat)
    ensures ids == Lookup(Names(line), commands[..])
    ensures ids.Done? ==> partsCount == |Expansion(ids.value, commands[..])|
  {
    ghost var table := commands[..];
    var names := SplitNames(line);
    var found: seq<int> := [];
    partsCount := 0;
    assert names[0..] == names;
    NothingBefore(Lookup(names, table));
    for i := 0 to |names|
      invariant AllDefined(found, table) && Lookup(names, table) == Before(found, Lookup(names[i..], table))
      invariant partsCount == |Expansion(found, table)|
    {
      var id := GetCommandId(names[i]);
      if !id.Done? {
        return if id.Failed? then Failed else Undefined, 0;
      }
      CommandIdsArePositive(names[i]);
      if id.value >= commands.Length || commands[id.value].None? {
        return Undefined, 0;
      }
      LookupGoesOn(names, table, i, found, id.value);
      found := found + [id.value];
      partsCount := partsCount + |commands[id.value].value|;
    }
    assert found + [] == found;
    ids := Done(found);
  }

  lemma NothingBefore(rest: Attempt<seq<int>>)
    ensures Before([], rest) == rest
  {
    assert rest.Done? ==> [] + rest.value == rest.value;
  }

  lemma Regrouped(ids: seq<int>, more: seq<int>, rest: Attempt<seq<int>>)
    ensures Before(ids, Before(more, rest)) == Before(ids + more, rest)
  {
    if rest.Done? {
      assert ids + (more + rest.value) == ids + more + rest.value;
    }
  }

  /** The second pass fills an array of that length and a final NULL. */
  method JoinParts(ids: seq<int>, partsCount: nat, commands: array<Option<seq<Part>>>)
    returns (result: array<Option<Part>>)
    requires AllDefined(ids, commands[..]) && partsCount == |Expansion(ids, commands[..])|
    ensures fresh(result) && ListsParts(result[..], Expansion(ids, commands[..]))
  {
    ghost var table := commands[..];
    ghost var all := Expansion(ids, table);
    result := new Option<Part>[partsCount + 1](_ => None);
    var resIdx := 0;
    for i := 0 to |ids|
      invariant resIdx <= partsCount && all[resIdx..] == Expansion(ids[i..], table)
      invariant forall k :: 0 <= k < resIdx ==> result[k] == Some(all[k])
    {
      assert ids[i..][1..] == ids[i + 1..];
      ghost var start := resIdx;
      var parts := commands[ids[i]].value;
      assert all[start..] == parts + Expansion(ids[i + 1..], table);
      for j := 0 to |parts|
        invariant resIdx == start + j
        invariant forall k :: 0 <= k < resIdx ==> result[k] == Some(all[k])
      {
        assert all[start..][j] == parts[j];
        result[resIdx] := Some(parts[j]);
        resIdx := resIdx + 1;
      }
      assert all[resIdx..] == all[start..][|parts|..];
    }
    result[partsCount] := None;
  }

  /** An array with the given parts and NULL at the end. */
  predicate ListsParts(slots: seq<Option<Part>>, parts: seq<Part>) {
    && |slots| == |parts| + 1 && slots[|parts|] == None
    && forall k :: 0 <= k < |parts| ==> slots[k] == Some(parts[k])
  }

  /** The processes of a line are those of its components, in order; NULL when a name has no number. */
  method DecodeCommand(line: string, commands: array<Option<seq<Part>>>) returns (result: Attempt<array<Option<Part>>>)
    ensures match Lookup(Names(line), commands[..])
            case Failed => result == Failed
            case Undefined => result == Undefined
            case Done(ids) =>
              result.Done? && fresh(result.value) && ListsParts(result.value[..], Expansion(ids, commands[..]))
  {
    var ids, partsCount := CountProcesses(line, commands);
    if !ids.Done? {
      return if ids.Failed? then Failed else Undefined;
    }
    var parts := JoinParts(ids.value, partsCount, commands);
    result := Done(parts);
  }

  // ---------------------------------------------------------------- meaning

  /** What processes joined by pipes do to a stream, given what each does alone. */
  function Meaning<Stream>(run: (Part, Stream) -> Stream, parts: seq<Part>, input: Stream): Stream {
    if parts == [] then input else Meaning(run, parts[1..], run(parts[0], input))
  }

  lemma {:induction false} MeaningOfMore<Stream>(run: (Part, Stream) -> Stream, parts: seq<Part>, more: seq<Part>,
                                                 input: Stream)
    ensures Meaning(run, parts + more, input) == Meaning(run, more, Meaning(run, parts, input))
  {
    if parts == [] {
      assert parts + more == more;
    } else {
      assert (parts + more)[1..] == parts[1..] + more;
      MeaningOfMore(run, parts[1..], more, run(parts[0], input));
    }
  }

  // ---------------------------------------------------------------- from the file to the processes

  /** A name that ends in a numeral. */
  datatype Name = Name(base: string, digits: string)

  predicate IsName(n: Name) {
    && n.base != "" && '|' !in n.base && !IsSpace(n.base[0])
    && AllDigits(n.digits) && n.digits != "" && EndsInNumeral(n.base, n.digits)
  }

  predicate AllNames(names: seq<Name>) {
    forall k :: 0 <= k < |names| ==> IsName(names[k])
  }

  function Texts(names: seq<Name>): (r: seq<string>)
    ensures |r| == |names|
  {
    seq(|names|, k requires 0 <= k < |names| => names[k].base + names[k].digits)
  }

  function Written(names: seq<Name>): seq<Option<string>> {
    seq(|names|, k requires 0 <= k < |names| => Some(names[k].base + names[k].digits))
  }

  /** The line that a user writes for a pipeline of components. */
  function CommandLine(names: seq<Name>): string
    requires names != []
  {
    JoinPieces(Texts(names))
  }

  lemma NameIsPiece(n: Name)
    requires IsName(n)
    ensures IsPiece(n.base + n.digits)
  {
  }

  lemma CommandLineNames(names: seq<Name>, post: string)
    requires names != [] && AllNames(names) && AllBlank(post)
    ensures Names(CommandLine(names) + post) == Written(names)
  {
    var pieces := Texts(names);
    forall k | 0 <= k < |names|
      ensures IsPiece(pieces[k])
    {
      NameIsPiece(names[k]);
    }
    JoinedTokens("", pieces, post);
    assert "" + JoinPieces(pieces) + post == CommandLine(names) + post;
    SameNames(CommandLine(names) + post, pieces);
    AsWritten(names, pieces);
  }

  lemma AsWritten(names: seq<Name>, pieces: seq<string>)
    requires pieces == Texts(names)
    ensures Written(names) == seq(|pieces|, k requires 0 <= k < |pieces| => Some(pieces[k]))
  {
  }

  lemma SameNames(line: string, pieces: seq<string>)
    requires Holds(Tokens(line, PIPE), pieces) && Count(line, '|') + 1 == |pieces|
    ensures Names(line) == seq(|pieces|, k requires 0 <= k < |pieces| => Some(pieces[k]))
  {
  }

  /** The last definition of the component with the name's numeral. */
  function Meant(nodes: seq<Node>, n: Name): Option<seq<Part>> {
    LastDefinition(nodes, Value(n.digits) + 1)
  }

  predicate AllMeant(nodes: seq<Node>, names: seq<Name>) {
    forall k :: 0 <= k < |names| ==> Meant(nodes, names[k]).Some?
  }

  /** The last definitions of all names, one after the other. */
  function PartsMeant(nodes: seq<Node>, names: seq<Name>): seq<Part>
    requires AllMeant(nodes, names)
  {
    if names == [] then [] else Meant(nodes, names[0]).value + PartsMeant(nodes, names[1..])
  }

  lemma {:induction false} DefinedIsDeclared(nodes: seq<Node>, num: int, maxId: nat)
    requires NumbersUpTo(nodes, maxId) && LastDefinition(nodes, num).Some?
    ensures 0 < num <= maxId
  {
    if nodes[|nodes| - 1].num != num {
      DefinedIsDeclared(nodes[..|nodes| - 1], num, maxId);
    }
  }

  lemma {:induction false} NamesMeanDefinitions(nodes: seq<Node>, maxId: nat, table: seq<Option<seq<Part>>>,
                                                names: seq<Name>)
    requires NumbersUpTo(nodes, maxId) && IsTable(table, nodes, maxId) && AllNames(names) && AllMeant(nodes, names)
    ensures var ids := Lookup(Written(names), table);
            ids.Done? && Expansion(ids.value, table) == PartsMeant(nodes, names)
  {
    if names != [] {
      var n, id := names[0], Value(names[0].digits) + 1;
      assert Meant(nodes, n).Some?;
      DefinedIsDeclared(nodes, id, maxId);
      NamedCommand(n.base, n.digits);
      assert Written(names)[1..] == Written(names[1..]);
      NamesMeanDefinitions(nodes, maxId, table, names[1..]);
      var rest := Lookup(Written(names[1..]), table).value;
      assert ([id] + rest)[1..] == rest;
    }
  }

  /** The interpreter from the file to the processes of a line of names that end in numerals, up to the blanks
      at its end.  When the declarations are in order, the processes are the last definitions of these
      numerals, in the order of the line. */
  method Interpret(lines: seq<string>, line: string, ghost names: seq<Name>, ghost post: string)
    returns (parts: Attempt<array<Option<Part>>>)
    requires names != [] && AllNames(names) && AllBlank(post) && line == CommandLine(names) + post
    ensures Declarations(lines).Failed? ==> parts == Failed
    ensures Declarations(lines).Undefined? ==> parts == Undefined
    ensures Declarations(lines).Done? && !AllParse(Declarations(lines).value) ==> parts == Undefined
    ensures Declarations(lines).Done? && AllParse(Declarations(lines).value)
            && AllMeant(Declarations(lines).value, names) ==>
              parts.Done? && ListsParts(parts.value[..], PartsMeant(Declarations(lines).value, names))
  {
    var nodes, maxNum := GetCommandsList(lines);
    if !nodes.Done? {
      return if nodes.Failed? then Failed else Undefined;
    }
    var commands := GetCommands(nodes.value, maxNum);
    if !commands.Done? {
      return Undefined;
    }
    CommandLineNames(names, post);
    if AllMeant(nodes.value, names) {
      NamesMeanDefinitions(nodes.value, maxNum, commands.value[..], names);
    }
    parts := DecodeCommand(line, commands.value);
  }

  /** What the components of a line do one after the other, each taken as a whole. */
  function Composed<Stream>(run: (Part, Stream) -> Stream, nodes: seq<Node>, names: seq<Name>, input: Stream): Stream
    requires AllMeant(nodes, names)
  {
    if names == [] then input
    else Composed(run, nodes, names[1..], Meaning(run, Meant(nodes, names[0]).value, input))
  }

  /** The processes of a line together do what its components do. */
  lemma {:induction false} LineKeepsMeaning<Stream>(run: (Part, Stream) -> Stream, nodes: seq<Node>, names: seq<Name>,
                                                    input: Stream)
    requires AllMeant(nodes, names)
    ensures Meaning(run, PartsMeant(nodes, names), input) == Composed(run, nodes, names, input)
  {
    if names != [] {
      var first := Meant(nodes, names[0]).value;
      MeaningOfMore(run, first, PartsMeant(nodes, names[1..]), input);
      LineKeepsMeaning(run, nodes, names[1..], Meaning(run, first, input));
    }
  }
}
