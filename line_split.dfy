/**
 * The line split function of chat.go (a copy of Go's bufio.ScanLines) and
 * an independent reference definition of the lines of a whole byte stream.
 */
module LineSplit {
  import opened Wrappers
  import opened Bytes

  /** What a split function answers: how far to advance, and the token, if any. */
  datatype SplitResult = SplitResult(advance: int, token: Option<seq<byte>>)

  /** bytes.IndexByte: the index of the first occurrence of `b`, or -1. */
  function IndexByte(data: seq<byte>, b: byte): (r: int)
    ensures -1 <= r < |data|
    ensures r == -1 <==> b !in data
    ensures 0 <= r ==> data[r] == b && b !in data[..r]
  {
    if data == [] then -1
    else if data[0] == b then 0
    else
      var i := IndexByte(data[1..], b);
      if i < 0 then -1
      else
        assert data[..i + 1] == [data[0]] + data[1..][..i];
        i + 1
  }

  /** dropCR: drops one trailing carriage return, and nothing else. */
  function DropCR(data: seq<byte>): (r: seq<byte>)
    ensures r <= data
    ensures |data| - 1 <= |r|
    ensures |r| < |data| <==> (|data| > 0 && data[|data| - 1] == CR)
  {
    if |data| > 0 && data[|data| - 1] == CR then data[0..|data| - 1] else data
  }

  /**
   * ScanLines: a complete `\r?\n`-terminated line yields its text; at end of
   * input the unterminated rest yields a final token; otherwise it asks for
   * more data (advance 0, no token).  The error result is always nil and is
   * not modelled.  Every token makes progress, so a scanner driving it
   * terminates on finite input.
   */
  function ScanLines(data: seq<byte>, atEOF: bool): (r: SplitResult)
    ensures 0 <= r.advance <= |data|
    ensures r.token.Some? <==> r.advance > 0
    ensures atEOF && data != [] ==> r.token.Some?
  {
    if atEOF && |data| == 0 then SplitResult(0, None)
    else
      var i := IndexByte(data, LF);
      if i >= 0 then SplitResult(i + 1, Some(DropCR(data[0..i])))
      else if atEOF then SplitResult(|data|, Some(DropCR(data)))
      else SplitResult(0, None)
  }

  /** The answers of ScanLines, case by case. */
  lemma ScanLinesCases(data: seq<byte>, atEOF: bool)
    ensures var r := ScanLines(data, atEOF);
      && (r.token.Some? ==> LF !in r.token.value)
      && (atEOF && data == [] ==> r == SplitResult(0, None))
      && (forall i :: 0 <= i < |data| && data[i] == LF && LF !in data[..i] ==>
            r == SplitResult(i + 1, Some(DropCR(data[..i]))))
      && (LF !in data && atEOF && data != [] ==> r == SplitResult(|data|, Some(DropCR(data))))
      && (LF !in data && !atEOF ==> r == SplitResult(0, None))
  {
    var i := IndexByte(data, LF);
    if i >= 0 {
      FirstIndexUnique(data, LF, i);
    }
  }

  /** The first occurrence of a byte is unique. */
  lemma FirstIndexUnique(data: seq<byte>, b: byte, i: int)
    requires 0 <= i < |data| && data[i] == b && b !in data[..i]
    ensures forall j :: 0 <= j < |data| && data[j] == b && b !in data[..j] ==> j == i
  {
  }

  // ---------------------------------------------------------------------
  // Reference definition: the lines of a complete stream.

  /** The pieces of `s` between newline bytes, in order (one more than the number of newlines). */
  function Pieces(s: seq<byte>): (p: seq<seq<byte>>)
    ensures |p| >= 1
  {
    if s == [] then [[]]
    else
      var rest := Pieces(s[1..]);
      if s[0] == LF then [[]] + rest
      else [[s[0]] + rest[0]] + rest[1..]
  }

  /** No piece contains a newline byte. */
  lemma {:induction false} PiecesHaveNoNewline(s: seq<byte>)
    ensures forall k :: 0 <= k < |Pieces(s)| ==> LF !in Pieces(s)[k]
  {
    if s != [] {
      var rest := Pieces(s[1..]);
      PiecesHaveNoNewline(s[1..]);
      if s[0] != LF {
        assert LF !in rest[0];
        assert forall k :: 1 <= k < |Pieces(s)| ==> Pieces(s)[k] == rest[k];
      } else {
        assert forall k :: 1 <= k < |Pieces(s)| ==> Pieces(s)[k] == rest[k - 1];
      }
    }
  }

  /** The pieces joined back together with newline bytes. */
  function Join(p: seq<seq<byte>>): (r: seq<byte>)
  {
    if p == [] then []
    else if |p| == 1 then p[0]
    else p[0] + [LF] + Join(p[1..])
  }

  /** Splitting on newlines loses nothing: joining the pieces gives back the stream. */
  lemma {:induction false} JoinPieces(s: seq<byte>)
    ensures Join(Pieces(s)) == s
  {
    if s != [] {
      var rest := Pieces(s[1..]);
      JoinPieces(s[1..]);
      if s[0] == LF {
        assert Join([[]] + rest) == [] + [LF] + Join(rest);
        assert s == [LF] + s[1..];
      } else if |rest| == 1 {
        assert s == [s[0]] + s[1..];
      } else {
        var p := [[s[0]] + rest[0]] + rest[1..];
        assert p[1..] == rest[1..];
        assert Join(rest) == rest[0] + [LF] + Join(rest[1..]);
        assert s == [s[0]] + s[1..];
      }
    }
  }

  /**
   * The lines a stream holds: its pieces, without the empty piece after a
   * final newline, each stripped of one trailing carriage return.
   */
  function Lines(s: seq<byte>): (r: seq<seq<byte>>)
  {
    var p := Pieces(s);
    DropAllCR(if p[|p| - 1] == [] then p[..|p| - 1] else p)
  }

  /** Each piece stripped of one trailing carriage return. */
  function DropAllCR(q: seq<seq<byte>>): (r: seq<seq<byte>>)
  {
    if q == [] then [] else [DropCR(q[0])] + DropAllCR(q[1..])
  }

  lemma {:induction false} PiecesNoNewline(x: seq<byte>)
    requires LF !in x
    ensures Pieces(x) == [x]
  {
    if x != [] {
      PiecesNoNewline(x[1..]);
      assert [x[0]] + x[1..] == x;
    }
  }

  lemma {:induction false} PiecesLine(x: seq<byte>, y: seq<byte>)
    requires LF !in x
    ensures Pieces(x + [LF] + y) == [x] + Pieces(y)
  {
    var s := x + [LF] + y;
    if x == [] {
      assert s[1..] == y;
    } else {
      assert s[1..] == x[1..] + [LF] + y;
      PiecesLine(x[1..], y);
      assert [x[0]] + x[1..] == x;
    }
  }

  /** A stream without newlines holds one line, unless it is empty. */
  lemma LinesNoNewline(x: seq<byte>)
    requires LF !in x
    ensures Lines(x) == if x == [] then [] else [DropCR(x)]
  {
    PiecesNoNewline(x);
    if x != [] {
      assert DropAllCR([x]) == [DropCR(x)] + DropAllCR([]);
    }
  }

  /** A newline-terminated first line is the first of the stream's lines. */
  lemma LinesLine(x: seq<byte>, y: seq<byte>)
    requires LF !in x
    ensures Lines(x + [LF] + y) == [DropCR(x)] + Lines(y)
  {
    PiecesLine(x, y);
    var p := Pieces(y);
    var q := if p[|p| - 1] == [] then p[..|p| - 1] else p;
    var p' := [x] + p;
    var q' := if p'[|p'| - 1] == [] then p'[..|p'| - 1] else p';
    assert q' == [x] + q;
    assert q'[1..] == q;
  }

  /**
   * ScanLines agrees with the reference: a token it returns is the first line
   * of the stream whatever bytes follow, and at end of input it returns no
   * token only when the stream holds no lines.
   */
  lemma SplitStep(data: seq<byte>, atEOF: bool, rest: seq<byte>)
    requires atEOF ==> rest == []
    ensures var r := ScanLines(data, atEOF);
      && (r.token.Some? ==> Lines(data + rest) == [r.token.value] + Lines(data[r.advance..] + rest))
      && (r.token.Some? ==> Lines(data + rest) != [] && Lines(data[r.advance..] + rest) == Lines(data + rest)[1..])
      && (r.token.None? && atEOF ==> Lines(data + rest) == [])
  {
    var i := IndexByte(data, LF);
    if i >= 0 {
      SplitStepLine(data, atEOF, rest, i);
    } else if atEOF {
      SplitStepFinal(data);
      assert data + rest == data;
      assert data[ScanLines(data, atEOF).advance..] + rest == data[ScanLines(data, atEOF).advance..];
    }
  }

  lemma SplitStepLine(data: seq<byte>, atEOF: bool, rest: seq<byte>, i: int)
    requires 0 <= i < |data| && data[i] == LF && LF !in data[..i]
    ensures ScanLines(data, atEOF) == SplitResult(i + 1, Some(DropCR(data[..i])))
    ensures Lines(data + rest) == [DropCR(data[..i])] + Lines(data[i + 1..] + rest)
  {
    assert data + rest == data[..i] + [LF] + (data[i + 1..] + rest);
    LinesLine(data[..i], data[i + 1..] + rest);
  }

  lemma SplitStepFinal(data: seq<byte>)
    requires LF !in data
    ensures Lines(data) == if data == [] then [] else [ScanLines(data, true).token.value]
    ensures Lines(data[ScanLines(data, true).advance..]) == []
  {
    LinesNoNewline(data);
    LinesNoNewline([]);
    assert data[|data|..] == [];
  }
}
