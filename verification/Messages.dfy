/** Lab 6, zad2: the text form of a message, `type-body-sender-receiver-time`.  Numbers have the widths of
    the C types: 32 bits, and 64 for the time. */
module Messages {
  import opened Options
  import opened Digits
  import opened Components
  import opened CommandText

  const INT_MIN := -0x8000_0000
  const INT_MAX := 0x7fff_ffff
  const LONG_MIN := -0x8000_0000_0000_0000
  const LONG_MAX := 0x7fff_ffff_ffff_ffff

  const SEP := "-"
  const MAX_BODY_LENGTH := 1024
  const MAX_MSG_TOTAL_LENGTH := MAX_BODY_LENGTH + 58
  const ERANGE := 34

  datatype Message = Message(typ: int, body: string, sender: int, receiver: int, time: int)

  predicate IsInt(x: int) {
    INT_MIN <= x <= INT_MAX
  }

  /** A message that fits the C struct. */
  predicate IsMessage(m: Message) {
    && IsInt(m.typ) && IsInt(m.sender) && IsInt(m.receiver) && LONG_MIN <= m.time <= LONG_MAX
    && '\0' !in m.body && |m.body| < MAX_BODY_LENGTH
  }

  // ---------------------------------------------------------------- printing

  function Abs(n: int): nat {
    if n < 0 then -n else n
  }

  function Decimal(n: int): string {
    (if n < 0 then "-" else "") + Numeral(Abs(n))
  }

  /** An empty body is passed as NULL, which is printed like this. */
  function PrintedBody(body: string): string {
    if body == "" then "(null)" else body
  }

  function CreateMsgStr(m: Message): string {
    Decimal(m.typ) + SEP + (PrintedBody(m.body) + SEP +
    (Decimal(m.sender) + SEP + (Decimal(m.receiver) + SEP + Decimal(m.time))))
  }

  // ---------------------------------------------------------------- parsing

  /** The cast of a long to an int. */
  function ToInt(x: int): int {
    (x - INT_MIN) % 0x1_0000_0000 + INT_MIN
  }

  function DigitPrefix(s: string): (r: string)
    ensures AllDigits(r)
  {
    if s != "" && IsDigit(s[0]) then [s[0]] + DigitPrefix(s[1..]) else ""
  }

  /** The number that a text begins with, before it is limited to a long. */
  function NumberAt(s: string): int {
    var u := TrimLeft(s);
    if u != "" && u[0] == '-' then -Value(DigitPrefix(u[1..]))
    else if u != "" && u[0] == '+' then Value(DigitPrefix(u[1..]))
    else Value(DigitPrefix(u))
  }

  function Clamp(x: int): int {
    if x < LONG_MIN then LONG_MIN else if x > LONG_MAX then LONG_MAX else x
  }

  /** A parsed number, -1 for an error, and what it leaves in the buffer and in errno. */
  datatype Parsed = Parsed(num: int, text: string, errno: int)

  /** strtol leaves errno alone unless the number is out of range, so a zero is an error whenever errno
      was set before. */
  function ParseLong(text: string, errno: int): Parsed {
    var (token, rest) := StrTok(text, SEP);
    match token
    case None => Parsed(-1, text, errno)
    case Some(numStr) =>
      var num := Clamp(NumberAt(numStr));
      var e := if num != NumberAt(numStr) then ERANGE else errno;
      if num == 0 && e != 0 then Parsed(-1, rest, e) else Parsed(num, rest, e)
  }

  function ParseMsg(text: string, errno: int): Option<Message> {
    var t := ParseLong(text, errno);
    if ToInt(t.num) == -1 then None
    else
      var (body, rest) := StrTok(t.text, SEP);
      if body.None? then None else ParseNumbers(ToInt(t.num), body.value, rest, t.errno)
  }

  function ParseNumbers(typ: int, body: string, text: string, errno: int): Option<Message> {
    var s := ParseLong(text, errno);
    if ToInt(s.num) == -1 then None
    else
      var r := ParseLong(s.text, s.errno);
      if ToInt(r.num) == -1 then None
      else
        var t := ParseLong(r.text, r.errno);
        if t.num == -1 then None else Some(Message(typ, body, ToInt(s.num), ToInt(r.num), t.num))
  }

  /** The buffer that parsing eats up from the front, and errno. */
  class Parser {
    var text: string
    var errno: int

    constructor (text: string, errno: int)
      ensures this.text == text && this.errno == errno
    {
      this.text, this.errno := text, errno;
    }

    method StrToL(numStr: string) returns (num: int)
      modifies this`errno
      ensures num == Clamp(NumberAt(numStr))
      ensures errno == if num != NumberAt(numStr) then ERANGE else old(errno)
    {
      var s := TrimLeft(numStr);
      var negative := s != "" && s[0] == '-';
      if s != "" && (s[0] == '-' || s[0] == '+') {
        s := s[1..];
      }
      ghost var all := s;
      var value := 0;
      while s != "" && IsDigit(s[0])
        invariant errno == old(errno)
        invariant value * Pow10(|DigitPrefix(s)|) + Value(DigitPrefix(s)) == Value(DigitPrefix(all))
        decreases |s|
      {
        ValueOfMoreDigits(s[0], DigitPrefix(s[1..]));
        Shift(value, Pow10(|DigitPrefix(s[1..])|), s[0] as int - '0' as int);
        value := 10 * value + (s[0] as int - '0' as int);
        s := s[1..];
      }
      assert DigitPrefix(s) == "";
      var number := if negative then -value else value;
      num := Clamp(number);
      if num != number {
        errno := ERANGE;
      }
    }

    method ReadLong() returns (num: int)
      modifies this
      ensures Parsed(num, text, errno) == ParseLong(old(text), old(errno))
    {
      var (token, rest) := StrTok(text, SEP);
      if token.None? {
        return -1;
      }
      num := StrToL(token.value);
      text := rest;
      if num == 0 && errno != 0 {
        return -1;
      }
    }

    method ReadMessage() returns (m: Option<Message>)
      modifies this
      ensures m == ParseMsg(old(text), old(errno))
    {
      var typ := ReadLong();
      if ToInt(typ) == -1 {
        return None;
      }
      var (body, rest) := StrTok(text, SEP);
      if body.None? {
        return None;
      }
      text := rest;
      var sender := ReadLong();
      if ToInt(sender) == -1 {
        return None;
      }
      var receiver := ReadLong();
      if ToInt(receiver) == -1 {
        return None;
      }
      var time := ReadLong();
      if time == -1 {
        return None;
      }
      m := Some(Message(ToInt(typ), body.value, ToInt(sender), ToInt(receiver), time));
    }
  }

  lemma Shift(value: int, p: int, d: int)
    ensures value * (10 * p) + p * d == (10 * value + d) * p
  {
  }

  // ---------------------------------------------------------------- what survives

  predicate IntSurvives(n: int) {
    n >= 0 || n == INT_MIN
  }

  /** Checkable before sending: no negative number but the smallest int, a body that is there and has no
      '-', and no zero field unless errno is clear. */
  predicate Survives(m: Message, errno: int) {
    && m.body != "" && '-' !in m.body
    && IntSurvives(m.typ) && IntSurvives(m.sender) && IntSurvives(m.receiver) && m.time >= 0
    && (errno == 0 || (m.typ != 0 && m.sender != 0 && m.receiver != 0 && m.time != 0))
  }

  lemma {:induction false} DigitsAreTheirPrefix(s: string)
    requires AllDigits(s)
    ensures DigitPrefix(s) == s
  {
    if s != "" {
      DigitsAreTheirPrefix(s[1..]);
    }
  }

  lemma NumberAtNumeral(n: nat)
    ensures NumberAt(Numeral(n)) == n
  {
    var s := Numeral(n);
    assert IsDigit(s[0]);
    DigitsAreTheirPrefix(s);
    ValueOfNumeral(n);
  }

  /** The first token of a text that begins with a piece without '-'. */
  lemma PieceIsToken(piece: string, rest: string)
    requires piece != "" && '-' !in piece
    ensures StrTok(piece + SEP + rest, SEP) == (Some(piece), rest)
    ensures StrTok(piece, SEP) == (Some(piece), "")
  {
    var s := piece + SEP + rest;
    assert s == piece + (SEP + rest) && s[0] == piece[0];
    RunOf(piece, SEP + rest, SEP);
    assert s[..|piece|] == piece && s[|piece| + 1..] == rest;
    RunOfWhole(piece, SEP);
    assert piece[..|piece|] == piece;
  }

  lemma NumeralHasNoSign(n: nat)
    ensures '-' !in Numeral(n)
  {
  }

  lemma FieldIsToken(n: int, rest: string)
    ensures StrTok(Decimal(n) + SEP + rest, SEP) == (Some(Numeral(Abs(n))), rest)
    ensures StrTok(Decimal(n), SEP) == (Some(Numeral(Abs(n))), "")
  {
    var digits := Numeral(Abs(n));
    NumeralHasNoSign(Abs(n));
    PieceIsToken(digits, rest);
    if n < 0 {
      assert Decimal(n)[1..] == digits;
      assert (Decimal(n) + SEP + rest)[1..] == digits + SEP + rest;
    } else {
      assert Decimal(n) == digits;
    }
  }

  /** What reading a printed number gives: it loses its sign, a zero is refused when errno was set, and the
      smallest long is too big without its sign. */
  function ReadBack(n: int, rest: string, errno: int): Parsed {
    if n == 0 && errno != 0 then Parsed(-1, rest, errno)
    else if n == LONG_MIN then Parsed(LONG_MAX, rest, ERANGE)
    else Parsed(Abs(n), rest, errno)
  }

  lemma FieldParses(n: int, rest: string, errno: int)
    requires LONG_MIN <= n <= LONG_MAX
    ensures ParseLong(Decimal(n) + SEP + rest, errno) == ReadBack(n, rest, errno)
    ensures ParseLong(Decimal(n), errno) == ReadBack(n, "", errno)
  {
    FieldIsToken(n, rest);
    NumberAtNumeral(Abs(n));
  }

  lemma IntBack(n: int)
    requires IsInt(n)
    ensures ToInt(Abs(n)) == n <==> IntSurvives(n)
    ensures ToInt(Abs(n)) != -1 && ToInt(-1) == -1
  {
  }

  lemma NumbersBack(typ: int, body: string, m: Message, errno: int)
    requires IsMessage(m)
    ensures var text := Decimal(m.sender) + SEP + (Decimal(m.receiver) + SEP + Decimal(m.time));
            ParseNumbers(typ, body, text, errno) == Some(Message(typ, body, m.sender, m.receiver, m.time)) <==>
              && IntSurvives(m.sender) && IntSurvives(m.receiver) && m.time >= 0
              && (errno == 0 || (m.sender != 0 && m.receiver != 0 && m.time != 0))
  {
    FieldParses(m.sender, Decimal(m.receiver) + SEP + Decimal(m.time), errno);
    FieldParses(m.receiver, Decimal(m.time), errno);
    IntBack(m.sender);
    IntBack(m.receiver);
    FieldParses(m.time, "", errno);
  }

  lemma {:induction false} SkippedHasNoMore(s: string)
    ensures var u := Skip(s, SEP); '-' !in u[..Run(u, SEP)]
    decreases |s|
  {
    if s != "" && s[0] == '-' {
      SkippedHasNoMore(s[1..]);
    } else {
      RunHasNoSep(s);
    }
  }

  lemma {:induction false} RunHasNoSep(s: string)
    ensures '-' !in s[..Run(s, SEP)]
  {
    if s != "" && s[0] != '-' {
      RunHasNoSep(s[1..]);
      assert s[..Run(s, SEP)] == [s[0]] + s[1..][..Run(s[1..], SEP)];
    }
  }

  /** Parsing undoes printing exactly when the message is of the kind that survives. */
  lemma RoundTrip(m: Message, errno: int)
    requires IsMessage(m)
    ensures ParseMsg(CreateMsgStr(m), errno) == Some(m) <==> Survives(m, errno)
  {
    var numbers := Decimal(m.sender) + SEP + (Decimal(m.receiver) + SEP + Decimal(m.time));
    var text := PrintedBody(m.body) + SEP + numbers;
    FieldParses(m.typ, text, errno);
    IntBack(m.typ);
    SkippedHasNoMore(text);
    if '-' !in PrintedBody(m.body) {
      PieceIsToken(PrintedBody(m.body), numbers);
      NumbersBack(ToInt(Abs(m.typ)), PrintedBody(m.body), m, errno);
    }
  }

  // ---------------------------------------------------------------- room

  lemma DecimalLength(n: int, width: nat)
    requires width > 0 && Abs(n) < Pow10(width)
    ensures |Decimal(n)| <= width + (if n < 0 then 1 else 0)
  {
    LengthOfNumeral(Abs(n), width);
  }

  lemma Powers()
    ensures Pow10(10) == 10000000000 && Pow10(19) == 10000000000000000000
  {
    assert Pow10(5) == 100000;
    assert Pow10(10) == 10000000000;
    assert Pow10(15) == 1000000000000000;
  }

  /** Every message fits the buffer, with the terminator. */
  lemma TextFits(m: Message)
    requires IsMessage(m)
    ensures |CreateMsgStr(m)| <= 1080 && |CreateMsgStr(m)| + 1 <= MAX_MSG_TOTAL_LENGTH
  {
    Powers();
    DecimalLength(m.typ, 10);
    DecimalLength(m.sender, 10);
    DecimalLength(m.receiver, 10);
    DecimalLength(m.time, 19);
  }

  /** Printing into a buffer of the declared size stays inside it. */
  method WriteMsgStr(m: Message, buff: array<char>)
    requires IsMessage(m) && buff.Length >= MAX_MSG_TOTAL_LENGTH
    modifies buff
    ensures var text := CreateMsgStr(m);
            |text| < buff.Length && buff[..|text|] == text && buff[|text|] == '\0'
  {
    TextFits(m);
    var text := CreateMsgStr(m);
    for i := 0 to |text|
      invariant buff[..i] == text[..i]
    {
      buff[i] := text[i];
    }
    buff[|text|] := '\0';
  }

  // ---------------------------------------------------------------- the text itself

  /** What strtol reads: blanks, a sign, digits, and then anything but a digit. */
  lemma NumberReads(blanks: string, sign: string, digits: string, rest: string)
    requires (forall k :: 0 <= k < |blanks| ==> IsSpace(blanks[k])) && sign in ["", "+", "-"]
    requires AllDigits(digits) && digits != "" && (rest != "" ==> !IsDigit(rest[0]))
    ensures NumberAt(blanks + sign + digits + rest) == if sign == "-" then -Value(digits) else Value(digits)
  {
    var u := sign + digits + rest;
    assert blanks + sign + digits + rest == blanks + u;
    assert u[0] == if sign == "" then digits[0] else sign[0];
    SkipBlanks(blanks, u);
    PrefixIsDigits(digits, rest);
    if sign == "" {
      assert u == digits + rest;
    } else {
      assert u[1..] == digits + rest;
    }
  }

  lemma {:induction false} SkipBlanks(blanks: string, s: string)
    requires (forall k :: 0 <= k < |blanks| ==> IsSpace(blanks[k])) && s != "" && !IsSpace(s[0])
    ensures TrimLeft(blanks + s) == s
  {
    if blanks == "" {
      assert blanks + s == s;
    } else {
      assert (blanks + s)[1..] == blanks[1..] + s;
      SkipBlanks(blanks[1..], s);
    }
  }

  lemma {:induction false} PrefixIsDigits(digits: string, rest: string)
    requires AllDigits(digits) && (rest != "" ==> !IsDigit(rest[0]))
    ensures DigitPrefix(digits + rest) == digits
  {
    if digits == "" {
      assert digits + rest == rest;
    } else {
      assert (digits + rest)[1..] == digits[1..] + rest;
      PrefixIsDigits(digits[1..], rest);
    }
  }

  /** The printed text of a number is the number, with its sign and without leading zeros. */
  lemma DecimalIsNumber(n: int)
    ensures NumberAt(Decimal(n)) == n
    ensures Decimal(n)[0] == '-' <==> n < 0
    ensures n != 0 ==> Numeral(Abs(n))[0] != '0'
  {
    var digits := Numeral(Abs(n));
    NumberReads("", if n < 0 then "-" else "", digits, "");
    assert "" + (if n < 0 then "-" else "") + digits + "" == Decimal(n);
    ValueOfNumeral(Abs(n));
    if n != 0 {
      NoLeadingZero(Abs(n));
    }
  }

  lemma {:induction false} NoLeadingZero(n: nat)
    requires n > 0
    ensures Numeral(n)[0] != '0'
  {
    if n >= 10 {
      NoLeadingZero(n / 10);
    }
  }

  /** The five fields of a text, told apart where it has no other '-'; an empty body shows as "(null)". */
  lemma TextFields(m: Message)
    requires m.typ >= 0 && m.sender >= 0 && m.receiver >= 0 && m.time >= 0 && '-' !in m.body
    ensures Segments(CreateMsgStr(m), SEP)
         == [Decimal(m.typ), if m.body == "" then "(null)" else m.body,
             Decimal(m.sender), Decimal(m.receiver), Decimal(m.time)]
  {
    var body := PrintedBody(m.body);
    NumeralHasNoSign(m.typ);
    NumeralHasNoSign(m.sender);
    NumeralHasNoSign(m.receiver);
    NumeralHasNoSign(m.time);
    var last := Decimal(m.time);
    var four := Decimal(m.receiver) + SEP + last;
    var three := Decimal(m.sender) + SEP + four;
    OneSegment(last, SEP);
    SegmentsSplit(Decimal(m.receiver), '-', last, SEP);
    SegmentsSplit(Decimal(m.sender), '-', four, SEP);
    SegmentsSplit(body, '-', three, SEP);
    SegmentsSplit(Decimal(m.typ), '-', body + SEP + three, SEP);
  }

  // ---------------------------------------------------------------- what is accepted

  /** A number too large for a long sets errno, and nothing clears it. */
  function ErrnoAfter(field: string, errno: int): int {
    if LONG_MIN <= NumberAt(field) <= LONG_MAX then errno else ERANGE
  }

  /** A field that reads as zero while errno is set, or as a number whose lower 32 bits are those of -1. */
  predicate Refused(field: string, errno: int) {
    (NumberAt(field) == 0 && errno != 0) || ToInt(Clamp(NumberAt(field))) == -1
  }

  lemma NextField(text: string, errno: int)
    ensures var fields := Tokens(text, SEP); var p := ParseLong(text, errno);
            if fields == [] then ToInt(p.num) == -1
            else && Tokens(p.text, SEP) == fields[1..] && p.errno == ErrnoAfter(fields[0], errno)
                 && (Refused(fields[0], errno) <==> ToInt(p.num) == -1)
                 && (!Refused(fields[0], errno) ==> p.num == Clamp(NumberAt(fields[0])))
  {
    StrTokStep(text, SEP);
  }

  /** The last field is not cut to an int: only -1 itself is refused. */
  lemma LastField(text: string, errno: int)
    ensures var fields := Tokens(text, SEP); var p := ParseLong(text, errno);
            if fields == [] then p.num == -1
            else if NumberAt(fields[0]) == 0 && errno != 0 then p.num == -1
            else p.num == Clamp(NumberAt(fields[0]))
  {
    StrTokStep(text, SEP);
  }

  /** The last three fields of a text. */
  lemma NumbersParsed(typ: int, body: string, text: string, errno: int)
    ensures var fields := Tokens(text, SEP);
            ParseNumbers(typ, body, text, errno).Some? <==>
              && |fields| >= 3 && !Refused(fields[0], errno) && !Refused(fields[1], ErrnoAfter(fields[0], errno))
              && (NumberAt(fields[2]) != 0 || ErrnoAfter(fields[1], ErrnoAfter(fields[0], errno)) == 0)
              && NumberAt(fields[2]) != -1
    ensures var fields := Tokens(text, SEP);
            ParseNumbers(typ, body, text, errno).Some? ==>
              ParseNumbers(typ, body, text, errno).value
              == Message(typ, body, ToInt(Clamp(NumberAt(fields[0]))), ToInt(Clamp(NumberAt(fields[1]))),
                         Clamp(NumberAt(fields[2])))
  {
    var fields := Tokens(text, SEP);
    NextField(text, errno);
    if fields != [] {
      var s := ParseLong(text, errno);
      NextField(s.text, s.errno);
      if |fields| >= 2 {
        var r := ParseLong(s.text, s.errno);
        LastField(r.text, r.errno);
      }
    }
  }

  /** For any text: it is taken for a message exactly when it has five fields and none of its number fields is
      refused; a missing field always is. */
  lemma AcceptedExactly(text: string, errno: int)
    ensures var fields := Tokens(text, SEP);
            ParseMsg(text, errno).Some? <==>
              && |fields| >= 5 && !Refused(fields[0], errno)
              && var e := ErrnoAfter(fields[0], errno);
              && !Refused(fields[2], e) && !Refused(fields[3], ErrnoAfter(fields[2], e))
              && (NumberAt(fields[4]) != 0 || ErrnoAfter(fields[3], ErrnoAfter(fields[2], e)) == 0)
              && NumberAt(fields[4]) != -1
    ensures var fields := Tokens(text, SEP);
            ParseMsg(text, errno).Some? ==>
              ParseMsg(text, errno).value
              == Message(ToInt(Clamp(NumberAt(fields[0]))), fields[1], ToInt(Clamp(NumberAt(fields[2]))),
                         ToInt(Clamp(NumberAt(fields[3]))), Clamp(NumberAt(fields[4])))
  {
    var fields := Tokens(text, SEP);
    NextField(text, errno);
    if fields != [] {
      var t := ParseLong(text, errno);
      StrTokStep(t.text, SEP);
      if |fields| >= 2 {
        NumbersParsed(ToInt(t.num), fields[1], StrTok(t.text, SEP).1, t.errno);
      }
    }
  }
}
