/**
 * The `for input.Scan()` loops of chat.go: a bufio.Scanner that reads the
 * stream chunk by chunk into a buffer and applies ScanLines to it, handing
 * out the tokens in order.
 */
module Scanner {
  import opened Wrappers
  import opened Bytes
  import opened LineSplit

  /**
   * A bufio.Scanner with the ScanLines split function over a stream that
   * arrives as the reads `pending` and then reports end of file.  The split
   * function sees the buffered bytes, with atEOF set once the reader has
   * reported the end; it is asked again after every token, and with an empty
   * buffer only at the end.
   */
  class LineScanner {
    var pending: seq<seq<byte>>  // reads not made yet
    var buf: seq<byte>           // bytes read but not consumed by the split function
    var eof: bool                // the reader has reported end of file
    var token: seq<byte>         // the most recent token (Text())
    ghost var Upcoming: seq<seq<byte>>  // the tokens still to hand out

    ghost predicate Valid()
      reads this
    {
      && (eof ==> pending == [])
      && Upcoming == Lines(Rest())
    }

    /** The bytes the scanner has not handed out yet. */
    ghost function Rest(): seq<byte>
      reads this
    {
      buf + Flatten(pending)
    }

    constructor (chunks: seq<seq<byte>>)
      ensures Valid() && Upcoming == Lines(Flatten(chunks))
    {
      pending, buf, eof, token := chunks, [], false, [];
      Upcoming := Lines(Flatten(chunks));
      assert [] + Flatten(chunks) == Flatten(chunks);
    }

    /**
     * Scan: advances to the next token (true), or reports that the stream has
     * none left (false).  The tokens handed out are the stream's lines, in
     * order, however the stream was chunked.
     */
    method Scan() returns (ok: bool)
      requires Valid()
      modifies this
      ensures Valid()
      ensures ok <==> old(Upcoming) != []
      ensures ok ==> old(Upcoming) == [token] + Upcoming
      ensures !ok ==> Upcoming == []
    {
      while true
        invariant Valid()
        invariant Upcoming == old(Upcoming)
        decreases |Rest()|, |pending|, if eof then 0 else 1
      {
        if |buf| > 0 || eof {
          var found := Split();
          if found {
            return true;
          }
        }
        if eof {
          return false;
        }
        if pending != [] {
          Read();
        } else {
          eof := true;  // the reader reports io.EOF
        }
      }
    }

    /** One call of the split function on the buffered bytes, which consumes what it advances over. */
    method Split() returns (found: bool)
      requires Valid() && (|buf| > 0 || eof)
      modifies this
      ensures Valid() && pending == old(pending) && eof == old(eof)
      ensures buf == old(buf)[ScanLines(old(buf), eof).advance..]
      ensures found ==> old(Upcoming) == [token] + Upcoming && |buf| < old(|buf|)
      ensures !found ==> Upcoming == old(Upcoming) && buf == old(buf) && (eof ==> Upcoming == [])
    {
      ghost var rest := Flatten(pending);
      var r := ScanLines(buf, eof);
      SplitStep(buf, eof, rest);
      buf := buf[r.advance..];
      found := r.token.Some?;
      if found {
        token := r.token.value;
        Upcoming := Upcoming[1..];
      }
    }

    /** One read that returns data: the next chunk joins the buffer. */
    method Read()
      requires Valid() && !eof && pending != []
      modifies this
      ensures Valid() && Upcoming == old(Upcoming) && !eof
      ensures buf == old(buf) + old(pending)[0] && pending == old(pending)[1..]
      ensures Rest() == old(Rest())
    {
      ghost var before := Rest();
      assert (buf + pending[0]) + Flatten(pending[1..]) == before;
      buf, pending := buf + pending[0], pending[1..];
      assert Rest() == before;
    }
  }

  /**
   * Regrouping the tokens taken, the current one, and those still to come.
   * The loops below verify without it, but stating it keeps their proofs small.
   */
  lemma Regroup(taken: seq<seq<byte>>, current: seq<seq<byte>>, upcoming: seq<seq<byte>>)
    ensures (taken + current) + upcoming == taken + (current + upcoming)
  {
  }

  /** The `for input.Scan()` loop: collects every token the scanner still has to hand out. */
  method Drain(input: LineScanner) returns (tokens: seq<seq<byte>>)
    requires input.Valid()
    modifies input
    ensures input.Valid()
    ensures tokens == old(input.Upcoming) && input.Upcoming == []
  {
    tokens := [];
    var ok := input.Scan();
    while ok
      invariant input.Valid()
      invariant ok ==> tokens + [input.token] + input.Upcoming == old(input.Upcoming)
      invariant !ok ==> tokens == old(input.Upcoming) && input.Upcoming == []
      decreases |input.Upcoming|, ok
    {
      tokens := tokens + [input.token];
      ok := input.Scan();
      if ok {
        Regroup(tokens, [input.token], input.Upcoming);
      }
    }
  }

  /** All tokens a scanner delivers over the stream read as `chunks`. */
  method ScanAll(chunks: seq<seq<byte>>) returns (tokens: seq<seq<byte>>)
    ensures tokens == Lines(Flatten(chunks))
  {
    var input := new LineScanner(chunks);
    tokens := Drain(input);
  }

  /** Every token the scanner delivers is free of newline bytes. */
  lemma {:induction false} LinesHaveNoNewline(s: seq<byte>)
    ensures forall k :: 0 <= k < |Lines(s)| ==> LF !in Lines(s)[k]
  {
    var p := Pieces(s);
    PiecesHaveNoNewline(s);
    DropAllKeepsNoNewline(if p[|p| - 1] == [] then p[..|p| - 1] else p);
  }

  lemma {:induction false} DropAllKeepsNoNewline(q: seq<seq<byte>>)
    requires forall k :: 0 <= k < |q| ==> LF !in q[k]
    ensures |DropAllCR(q)| == |q|
    ensures forall k :: 0 <= k < |q| ==> LF !in DropAllCR(q)[k]
  {
    if q != [] {
      DropAllKeepsNoNewline(q[1..]);
      assert forall k :: 1 <= k < |q| ==> DropAllCR(q)[k] == DropAllCR(q[1..])[k - 1];
      assert forall k :: 1 <= k < |q| ==> q[k] == q[1..][k - 1];
    }
  }

  /** "a\r\nb\n\nc" yields "a", "b", an empty line, and the unterminated "c". */
  lemma ExampleMixedEndings()
    ensures Lines([97, CR, LF, 98, LF, LF, 99]) == [[97], [98], [], [99]]
  {
    assert [97, CR, LF, 98, LF, LF, 99] == [97, CR] + [LF] + ([98] + [LF] + ([] + [LF] + [99]));
    LinesLine([97, CR], [98] + [LF] + ([] + [LF] + [99]));
    LinesLine([98], [] + [LF] + [99]);
    LinesLine([], [99]);
    LinesNoNewline([99]);
    assert DropCR([97, CR]) == [97];
  }

  /** "x\n" yields just "x": no empty token after the final newline. */
  lemma ExampleTrailingNewline()
    ensures Lines([120, LF]) == [[120]]
  {
    assert [120, LF] == [120] + [LF] + [];
    LinesLine([120], []);
    LinesNoNewline([]);
  }

  /** Two blank lines in a row are both delivered, as empty tokens. */
  lemma EmptyLinesPreserved(x: seq<byte>, y: seq<byte>)
    requires LF !in x
    ensures Lines(x + [LF, LF] + y) == [DropCR(x), []] + Lines(y)
  {
    assert x + [LF, LF] + y == x + [LF] + ([] + [LF] + y);
    LinesLine(x, [] + [LF] + y);
    LinesLine([], y);
  }

  /** The same stream read in different chunks gives the same tokens. */
  method ScanExample()
  {
    var whole := ScanAll([[97, CR, LF, 98, LF, LF, 99]]);
    var pieces := ScanAll([[97, CR], [], [LF, 98, LF], [LF], [99]]);
    ExampleMixedEndings();
    ghost var c: seq<seq<byte>> := [[97, CR], [], [LF, 98, LF], [LF], [99]];
    assert Flatten(c[4..]) == [99] by { assert c[4..][1..] == []; }
    assert Flatten(c[3..]) == [LF, 99] by { assert c[3..][1..] == c[4..]; }
    assert Flatten(c[2..]) == [LF, 98, LF, LF, 99] by { assert c[2..][1..] == c[3..]; }
    assert Flatten(c[1..]) == [LF, 98, LF, LF, 99] by { assert c[1..][1..] == c[2..]; }
    assert Flatten(c) == [97, CR, LF, 98, LF, LF, 99];
    assert Flatten([[97, CR, LF, 98, LF, LF, 99]]) == [97, CR, LF, 98, LF, LF, 99];
    assert whole == pieces == [[97], [98], [], [99]];
  }
}
