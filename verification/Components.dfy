/** Lab 5, zad1: the commands file.  Lines with '=' define components, the others name components joined
    by '|' and stand for one pipeline.  This module has the splitting of lines and commands.  Texts are C strings
    without their terminator. */
module Components {
  import opened Options

  const PIPE := "|"
  const BLANKS := " \t\n"

  predicate IsSpace(c: char) {
    c in " \t\n\r\U{0B}\U{0C}"
  }

  // ---------------------------------------------------------------- strtok

  /** All that lies between delimiters, empty pieces included. */
  function Segments(s: string, delims: string): (r: seq<string>)
    ensures |r| > 0
  {
    if s == "" then [""]
    else
      var r := Segments(s[1..], delims);
      if s[0] in delims then [""] + r else [[s[0]] + r[0]] + r[1..]
  }

  function NonEmpty(segments: seq<string>): seq<string> {
    if segments == [] then []
    else (if segments[0] == "" then [] else [segments[0]]) + NonEmpty(segments[1..])
  }

  /** The tokens of a text: its non-empty segments. */
  function Tokens(s: string, delims: string): seq<string> {
    NonEmpty(Segments(s, delims))
  }

  function Skip(s: string, delims: string): string {
    if s != "" && s[0] in delims then Skip(s[1..], delims) else s
  }

  function Run(s: string, delims: string): (n: nat)
    ensures n <= |s|
  {
    if s != "" && s[0] !in delims then 1 + Run(s[1..], delims) else 0
  }

  /** One call of strtok: the next token, and the text that the following call continues with. */
  function StrTok(s: string, delims: string): (Option<string>, string) {
    var u := Skip(s, delims);
    var n := Run(u, delims);
    if u == "" then (None, "")
    else (Some(u[..n]), if n < |u| then u[n + 1..] else "")
  }

  lemma NoTokens(delims: string)
    ensures Tokens("", delims) == []
  {
    assert NonEmpty([""]) == NonEmpty([""][1..]);
  }

  lemma {:induction false} SkipKeepsTokens(s: string, delims: string)
    ensures Tokens(Skip(s, delims), delims) == Tokens(s, delims)
    ensures |Skip(s, delims)| <= |s|
    ensures var u := Skip(s, delims); u != "" ==> u[0] !in delims
  {
    if s != "" && s[0] in delims {
      SkipKeepsTokens(s[1..], delims);
      assert Segments(s, delims) == [""] + Segments(s[1..], delims);
    }
  }

  lemma {:induction false} FirstSegment(s: string, delims: string)
    ensures var n := Run(s, delims);
            Segments(s, delims) == [s[..n]] + (if n < |s| then Segments(s[n + 1..], delims) else [])
  {
    if s == "" {
    } else if s[0] in delims {
    } else {
      FirstSegment(s[1..], delims);
      var n := Run(s[1..], delims);
      assert s[..n + 1] == [s[0]] + s[1..][..n];
      if n < |s| - 1 {
        assert s[1..][n + 1..] == s[n + 2..];
      }
    }
  }

  /** Calling strtok again and again gives the tokens one by one. */
  lemma StrTokStep(s: string, delims: string)
    ensures var (token, rest) := StrTok(s, delims);
            match token
            case None => Tokens(s, delims) == []
            case Some(t) => t != "" && Tokens(s, delims) == [t] + Tokens(rest, delims) && |rest| < |s|
  {
    var u := Skip(s, delims);
    SkipKeepsTokens(s, delims);
    FirstSegment(u, delims);
    NoTokens(delims);
    var n := Run(u, delims);
    if u != "" {
      assert n > 0;
      assert Segments(u, delims)[1..] == if n < |u| then Segments(u[n + 1..], delims) else [];
      assert NonEmpty(Segments(u, delims)) == [u[..n]] + NonEmpty(Segments(u, delims)[1..]);
    }
  }

  lemma {:induction false} RunOf(name: string, rest: string, delims: string)
    requires forall c :: c in name ==> c !in delims
    requires rest != "" && rest[0] in delims
    ensures Run(name + rest, delims) == |name|
  {
    if name == "" {
      assert name + rest == rest;
    } else {
      assert (name + rest)[1..] == name[1..] + rest;
      RunOf(name[1..], rest, delims);
    }
  }

  lemma {:induction false} RunOfWhole(s: string, delims: string)
    requires forall c :: c in s ==> c !in delims
    ensures Run(s, delims) == |s|
  {
    if s != "" {
      RunOfWhole(s[1..], delims);
    }
  }

  // ---------------------------------------------------------------- splitting at '|'

  function Count(s: string, c: char): nat {
    if s == "" then 0 else (if s[0] == c then 1 else 0) + Count(s[1..], c)
  }

  lemma {:induction false} CountOfPrefix(s: string, c: char, i: nat)
    requires i < |s|
    ensures Count(s[..i + 1], c) == Count(s[..i], c) + (if s[i] == c then 1 else 0)
  {
    if i > 0 {
      CountOfPrefix(s[1..], c, i - 1);
      assert s[..i + 1][1..] == s[1..][..i] && s[..i][1..] == s[1..][..i - 1];
    }
  }

  lemma {:induction false} CountOfSegments(s: string, c: char)
    ensures |Segments(s, [c])| == Count(s, c) + 1
  {
    if s != "" {
      CountOfSegments(s[1..], c);
    }
  }

  lemma {:induction false} NonEmptyLength(segments: seq<string>)
    ensures |NonEmpty(segments)| <= |segments|
    ensures |NonEmpty(segments)| == |segments| <==> "" !in segments
  {
    if segments != [] {
      NonEmptyLength(segments[1..]);
    }
  }

  /** One slot for each separator and one more is always enough; none stays free exactly when no segment
      is empty. */
  lemma PartsCountSuffices(line: string)
    ensures |Tokens(line, PIPE)| <= Count(line, '|') + 1
    ensures |Tokens(line, PIPE)| == Count(line, '|') + 1 <==> "" !in Segments(line, PIPE)
  {
    CountOfSegments(line, '|');
    NonEmptyLength(Segments(line, PIPE));
  }

  function TrimLeft(s: string): string {
    if s != "" && IsSpace(s[0]) then TrimLeft(s[1..]) else s
  }

  function TrimRight(s: string): string {
    if s != "" && IsSpace(s[|s| - 1]) then TrimRight(s[..|s| - 1]) else s
  }

  function Trim(s: string): string {
    TrimRight(TrimLeft(s))
  }

  method TrimWhitespace(text: string) returns (trimmed: string)
    ensures trimmed == Trim(text)
  {
    var s := text;
    while s != "" && IsSpace(s[0])
      invariant TrimLeft(s) == TrimLeft(text)
      decreases |s|
    {
      s := s[1..];
    }
    if s == "" {
      return s;
    }
    var end := |s| - 1;
    assert s[..end + 1] == s;
    while end > 0 && IsSpace(s[end])
      invariant 0 <= end < |s|
      invariant TrimRight(s[..end + 1]) == TrimRight(s)
    {
      assert s[..end + 1][..end] == s[..end];
      end := end - 1;
    }
    trimmed := s[..end + 1];
  }

  /** Between two calls of strtok: `part` is token i, or there are no more; `rest` holds the others. */
  ghost predicate AtToken(tokens: seq<string>, i: nat, part: Option<string>, rest: string, delims: string) {
    if part.Some? then i < |tokens| && part.value == tokens[i] && Tokens(rest, delims) == tokens[i + 1..]
    else i == |tokens|
  }

  method CountParts(line: string) returns (count: nat)
    ensures count == Count(line, '|') + 1
  {
    count := 1;
    for i := 0 to |line|
      invariant count == Count(line[..i], '|') + 1
    {
      CountOfPrefix(line, '|', i);
      if line[i] == '|' {
        count := count + 1;
      }
    }
    assert line[..|line|] == line;
  }

  /** The array has a slot for every part and one for the final NULL. */
  method SplitPipes(line: string) returns (result: array<Option<string>>, partsCount: nat)
    ensures fresh(result) && partsCount == Count(line, '|') + 1 && result.Length == partsCount + 1
    ensures var tokens := Tokens(line, PIPE);
            && |tokens| <= partsCount
            && (forall k :: 0 <= k < |tokens| ==> result[k] == Some(Trim(tokens[k])))
            && (forall k :: |tokens| <= k <= partsCount ==> result[k] == None)
  {
    partsCount := CountParts(line);
    PartsCountSuffices(line);
    result := new Option<string>[partsCount + 1](_ => None);
    ghost var tokens := Tokens(line, PIPE);
    var i := 0;
    StrTokStep(line, PIPE);
    var (part, rest) := StrTok(line, PIPE);
    while part.Some?
      invariant i <= |tokens| && AtToken(tokens, i, part, rest, PIPE)
      invariant forall k :: 0 <= k < i ==> result[k] == Some(Trim(tokens[k]))
      invariant forall k :: i <= k <= partsCount ==> result[k] == None
      decreases |tokens| - i
    {
      var trimmed := TrimWhitespace(part.value);
      result[i] := Some(trimmed);
      part, rest := NextToken(tokens, i, part, rest, PIPE);
      i := i + 1;
    }
    result[partsCount] := None;
  }

  method NextToken(ghost tokens: seq<string>, ghost i: nat, ghost part: Option<string>, rest: string, delims: string)
    returns (next: Option<string>, after: string)
    requires part.Some? && AtToken(tokens, i, part, rest, delims)
    ensures AtToken(tokens, i + 1, next, after, delims)
  {
    StrTokStep(rest, delims);
    var r := StrTok(rest, delims);
    next, after := r.0, r.1;
  }

  // ---------------------------------------------------------------- splitting into arguments

  /** What count_args adds to its 1 over a text; `prev` tells that the character before was counted. */
  function Gaps(s: string, prev: bool): nat {
    if s == "" then 0
    else if IsSpace(s[0]) && !prev then 1 + Gaps(s[1..], true)
    else Gaps(s[1..], false)
  }

  /** The number of tokens that begin in a text; `inToken` tells that one is going on. */
  function Starts(s: string, delims: string, inToken: bool): nat {
    if s == "" then 0
    else if s[0] in delims then Starts(s[1..], delims, false)
    else (if inToken then 0 else 1) + Starts(s[1..], delims, true)
  }

  lemma {:induction false} StartsCountTokens(s: string, delims: string)
    ensures Starts(s, delims, false) == |Tokens(s, delims)|
    ensures Starts(s, delims, true) == |NonEmpty(Segments(s, delims)[1..])|
  {
    NoTokens(delims);
    if s != "" {
      StartsCountTokens(s[1..], delims);
      var r := Segments(s[1..], delims);
      if s[0] in delims {
        assert Segments(s, delims)[1..] == r;
      } else {
        assert Segments(s, delims)[1..] == r[1..];
      }
    }
  }

  /** The pass counts only every other one of adjacent blanks, and also blanks that do not separate
      arguments, but it is never behind the tokens. */
  lemma {:induction false} GapsKeepUp(s: string, inToken: bool, prev: bool)
    ensures Starts(s, BLANKS, inToken) <= Gaps(s, prev) + (if inToken && !prev then 0 else 1)
  {
    if s != "" {
      GapsKeepUp(s[1..], s[0] !in BLANKS, IsSpace(s[0]) && !prev);
    }
  }

  lemma ArgsCountSuffices(command: string)
    ensures |Tokens(command, BLANKS)| <= 1 + Gaps(command, false)
  {
    GapsKeepUp(command, false, false);
    StartsCountTokens(command, BLANKS);
  }

  method CountArgs(command: string) returns (count: nat)
    ensures count == 1 + Gaps(command, false)
    ensures |Tokens(command, BLANKS)| <= count
  {
    count := 1;
    var wasPrevSpace := false;
    for i := 0 to |command|
      invariant count + Gaps(command[i..], wasPrevSpace) == 1 + Gaps(command, false)
    {
      assert command[i..][1..] == command[i + 1..];
      if IsSpace(command[i]) && !wasPrevSpace {
        wasPrevSpace := true;
        count := count + 1;
      } else {
        wasPrevSpace := false;
      }
    }
    ArgsCountSuffices(command);
  }

  method SplitArgs(command: string) returns (args: array<Option<string>>, argsCount: nat)
    ensures fresh(args) && args.Length == argsCount + 1
    ensures var tokens := Tokens(command, BLANKS);
            && |tokens| <= argsCount
            && (forall k :: 0 <= k < |tokens| ==> args[k] == Some(tokens[k]))
            && (forall k :: |tokens| <= k <= argsCount ==> args[k] == None)
  {
    argsCount := CountArgs(command);
    args := new Option<string>[argsCount + 1](_ => None);
    ghost var tokens := Tokens(command, BLANKS);
    var i := 0;
    StrTokStep(command, BLANKS);
    var (arg, rest) := StrTok(command, BLANKS);
    while arg.Some?
      invariant i <= |tokens| && AtToken(tokens, i, arg, rest, BLANKS)
      invariant forall k :: 0 <= k < i ==> args[k] == Some(tokens[k])
      invariant forall k :: i <= k <= argsCount ==> args[k] == None
      decreases |tokens| - i
    {
      args[i] := arg;
      arg, rest := NextToken(tokens, i, arg, rest, BLANKS);
      i := i + 1;
    }
    args[argsCount] := None;
  }
}
