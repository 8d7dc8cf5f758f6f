/** Lab 5, zad1: texts as a user writes them, words with blanks between them and pieces with ' | ' between
    them, and what the splitting functions make of them. */
module CommandText {
  import opened Options
  import opened Components

  predicate AllBlank(s: string) {
    forall k :: 0 <= k < |s| ==> IsSpace(s[k])
  }

  /** What can stand between two '|' and comes back as it is. */
  predicate IsPiece(s: string) {
    s != "" && '|' !in s && !IsSpace(s[0]) && !IsSpace(s[|s| - 1])
  }

  predicate IsWord(w: string) {
    w != "" && forall k :: 0 <= k < |w| ==> !IsSpace(w[k]) && w[k] != '|'
  }

  function JoinPieces(pieces: seq<string>): string
    requires pieces != []
  {
    if |pieces| == 1 then pieces[0] else pieces[0] + " | " + JoinPieces(pieces[1..])
  }

  function JoinWords(words: seq<string>): string
    requires words != []
  {
    if |words| == 1 then words[0] else words[0] + " " + JoinWords(words[1..])
  }

  // ---------------------------------------------------------------- trimming

  lemma {:induction false} TrimLeftBlank(pre: string, s: string)
    requires AllBlank(pre)
    ensures TrimLeft(pre + s) == TrimLeft(s)
  {
    if pre == "" {
      assert pre + s == s;
    } else {
      assert (pre + s)[1..] == pre[1..] + s;
      TrimLeftBlank(pre[1..], s);
    }
  }

  lemma {:induction false} TrimRightBlank(s: string, post: string)
    requires AllBlank(post)
    ensures TrimRight(s + post) == TrimRight(s)
  {
    if post == "" {
      assert s + post == s;
    } else {
      assert (s + post)[..|s + post| - 1] == s + post[..|post| - 1];
      TrimRightBlank(s, post[..|post| - 1]);
    }
  }

  lemma TrimPadded(pre: string, piece: string, post: string)
    requires AllBlank(pre) && AllBlank(post) && IsPiece(piece)
    ensures Trim(pre + piece + post) == piece
  {
    assert pre + piece + post == pre + (piece + post);
    TrimLeftBlank(pre, piece + post);
    assert (piece + post)[0] == piece[0];
    TrimRightBlank(piece, post);
  }

  // ---------------------------------------------------------------- splitting

  lemma SegmentsSplit(a: string, d: char, b: string, delims: string)
    requires d in delims && forall c :: c in a ==> c !in delims
    ensures Segments(a + [d] + b, delims) == [a] + Segments(b, delims)
  {
    var s := a + [d] + b;
    assert s == a + ([d] + b);
    RunOf(a, [d] + b, delims);
    FirstSegment(s, delims);
    assert s[..|a|] == a && s[|a| + 1..] == b;
  }

  lemma OneSegment(a: string, delims: string)
    requires forall c :: c in a ==> c !in delims
    ensures Segments(a, delims) == [a]
  {
    RunOfWhole(a, delims);
    FirstSegment(a, delims);
    assert a[..|a|] == a;
  }

  lemma {:induction false} AllNonEmpty(segments: seq<string>)
    requires "" !in segments
    ensures NonEmpty(segments) == segments
  {
    if segments != [] {
      assert segments[0] in segments;
      AllNonEmpty(segments[1..]);
    }
  }

  /** Segment k of a joined text is piece k, but for blanks around it. */
  ghost predicate Holds(segments: seq<string>, pieces: seq<string>) {
    && |segments| == |pieces| && "" !in segments
    && forall k :: 0 <= k < |pieces| ==> Trim(segments[k]) == pieces[k]
  }

  ghost predicate AllPieces(pieces: seq<string>) {
    pieces != [] && forall k :: 0 <= k < |pieces| ==> IsPiece(pieces[k])
  }

  lemma {:induction false} JoinedSegments(pre: string, pieces: seq<string>, post: string)
    requires AllBlank(pre) && AllBlank(post) && AllPieces(pieces)
    ensures Holds(Segments(pre + JoinPieces(pieces) + post, PIPE), pieces)
    decreases |pieces|
  {
    var first := pieces[0];
    if |pieces| == 1 {
      OneSegment(pre + first + post, PIPE);
      TrimPadded(pre, first, post);
    } else {
      var a, b := pre + first + " ", " " + JoinPieces(pieces[1..]) + post;
      assert pre + JoinPieces(pieces) + post == a + ['|'] + b;
      SegmentsSplit(a, '|', b, PIPE);
      TrimPadded(pre, first, " ");
      JoinedSegments(" ", pieces[1..], post);
    }
  }

  /** The tokens of a joined text, trimmed, are its pieces in their order. */
  lemma JoinedTokens(pre: string, pieces: seq<string>, post: string)
    requires AllBlank(pre) && AllBlank(post) && AllPieces(pieces)
    ensures var line := pre + JoinPieces(pieces) + post;
            && "" !in Segments(line, PIPE) && Holds(Tokens(line, PIPE), pieces)
            && Count(line, '|') + 1 == |pieces|
  {
    var line := pre + JoinPieces(pieces) + post;
    JoinedSegments(pre, pieces, post);
    AllNonEmpty(Segments(line, PIPE));
    CountOfSegments(line, '|');
  }

  // ---------------------------------------------------------------- words

  ghost predicate AllWords(words: seq<string>) {
    words != [] && forall k :: 0 <= k < |words| ==> IsWord(words[k])
  }

  lemma {:induction false} JoinedWords(words: seq<string>)
    requires AllWords(words)
    ensures Segments(JoinWords(words), BLANKS) == words
    decreases |words|
  {
    if |words| == 1 {
      OneSegment(words[0], BLANKS);
    } else {
      assert JoinWords(words) == words[0] + [' '] + JoinWords(words[1..]);
      SegmentsSplit(words[0], ' ', JoinWords(words[1..]), BLANKS);
      JoinedWords(words[1..]);
    }
  }

  lemma WordTokens(words: seq<string>)
    requires AllWords(words)
    ensures Tokens(JoinWords(words), BLANKS) == words
  {
    JoinedWords(words);
    AllNonEmpty(words);
  }

  lemma {:induction false} WordsArePiece(words: seq<string>)
    requires AllWords(words)
    ensures IsPiece(JoinWords(words))
    decreases |words|
  {
    if |words| > 1 {
      WordsArePiece(words[1..]);
    }
  }
}
