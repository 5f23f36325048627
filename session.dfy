/**
 * The two directional loops of a chat session in chat.go, each a
 * `for input.Scan()` loop over a LineScanner: HandleOutgoing turns local
 * input lines into labelled wire lines, HandleIncoming turns received lines
 * into display output.  Connections, goroutines and closing are not modelled;
 * each loop is given the whole stream it reads and returns what it writes.
 */
module Session {
  import opened Wrappers
  import opened Bytes
  import opened LineSplit
  import opened Identity
  import opened Scanner

  /** The bytes HandleOutgoing writes for one line of local input: label, text, one newline. */
  function OutboundLine(prefix: seq<byte>, text: seq<byte>): (line: seq<byte>)
    ensures |line| == |prefix| + |text| + 1 && line[|line| - 1] == LF
    ensures line[..|line| - 1] == prefix + text
  {
    prefix + text + [LF]
  }

  /** What the connection carries after the outbound loop has sent `texts`, in order. */
  function Wire(prefix: seq<byte>, texts: seq<seq<byte>>): (r: seq<byte>)
  {
    if texts == [] then [] else OutboundLine(prefix, texts[0]) + Wire(prefix, texts[1..])
  }

  /** What HandleIncoming shows for one received line: a carriage return over the typed input, the line, and the prompt again. */
  function DisplayLine(prompt: seq<byte>, text: seq<byte>): (shown: seq<byte>)
    ensures |shown| == |text| + |prompt| + 2 && shown[0] == CR
    ensures shown[1..|text| + 1] == text && shown[|text| + 1] == LF
    ensures shown[|text| + 2..] == prompt
  {
    [CR] + text + [LF] + prompt
  }

  /** What HandleIncoming shows after receiving `texts`, in order. */
  function Display(prompt: seq<byte>, texts: seq<seq<byte>>): (r: seq<byte>)
  {
    if texts == [] then [] else DisplayLine(prompt, texts[0]) + Display(prompt, texts[1..])
  }

  /** The prompt, printed once per line sent. */
  function Prompts(prompt: seq<byte>, texts: seq<seq<byte>>): (r: seq<byte>)
  {
    if texts == [] then [] else prompt + Prompts(prompt, texts[1..])
  }

  lemma {:induction false} WireAppend(prefix: seq<byte>, texts: seq<seq<byte>>, t: seq<byte>)
    ensures Wire(prefix, texts + [t]) == Wire(prefix, texts) + OutboundLine(prefix, t)
  {
    if texts == [] {
      assert [] + [t] == [t];
    } else {
      assert (texts + [t])[1..] == texts[1..] + [t];
      WireAppend(prefix, texts[1..], t);
    }
  }

  lemma {:induction false} DisplayAppend(prompt: seq<byte>, texts: seq<seq<byte>>, t: seq<byte>)
    ensures Display(prompt, texts + [t]) == Display(prompt, texts) + DisplayLine(prompt, t)
  {
    if texts == [] {
      assert [] + [t] == [t];
    } else {
      assert (texts + [t])[1..] == texts[1..] + [t];
      DisplayAppend(prompt, texts[1..], t);
    }
  }

  lemma {:induction false} PromptsAppend(prompt: seq<byte>, texts: seq<seq<byte>>, t: seq<byte>)
    ensures Prompts(prompt, texts + [t]) == Prompts(prompt, texts) + prompt
  {
    if texts == [] {
      assert [] + [t] == [t];
    } else {
      assert (texts + [t])[1..] == texts[1..] + [t];
      PromptsAppend(prompt, texts[1..], t);
    }
  }

  /**
   * The loop of HandleOutgoing: for every token left, writes the labelled
   * line and prints the prompt.
   */
  method SendLoop(input: LineScanner, prefix: seq<byte>) returns (wire: seq<byte>, display: seq<byte>)
    requires input.Valid()
    modifies input
    ensures input.Valid() && input.Upcoming == []
    ensures wire == Wire(prefix, old(input.Upcoming))
    ensures display == Prompts(prefix, old(input.Upcoming))
  {
    ghost var sent: seq<seq<byte>> := [];
    wire, display := [], [];
    var ok := input.Scan();
    while ok
      invariant input.Valid()
      invariant ok ==> sent + [input.token] + input.Upcoming == old(input.Upcoming)
      invariant !ok ==> sent == old(input.Upcoming) && input.Upcoming == []
      invariant wire == Wire(prefix, sent)
      invariant display == Prompts(prefix, sent)
      decreases |input.Upcoming|, ok
    {
      WireAppend(prefix, sent, input.token);
      PromptsAppend(prefix, sent, input.token);
      wire := wire + OutboundLine(prefix, input.token);
      display := display + prefix;
      sent := sent + [input.token];
      ok := input.Scan();
      if ok {
        Regroup(sent, [input.token], input.Upcoming);
      }
    }
  }

  /**
   * HandleOutgoing: configures its own user from the host lookup and the
   * interface list, then every line of local input goes out as
   * `hostname@ip: text\n`, and the prompt is printed after each.
   */
  method HandleOutgoing(host: HostLookup, ifaces: Option<seq<Interface>>, stdin: seq<seq<byte>>)
    returns (uname: User, wire: seq<byte>, display: seq<byte>)
    ensures uname == User(host.name, AddressOf(Resolve(ifaces)), false)
    ensures wire == Wire(Label(uname), Lines(Flatten(stdin)))
    ensures display == Prompts(Label(uname), Lines(Flatten(stdin)))
  {
    var outcome;
    uname, outcome := ConfigureUser(host, ifaces);
    var input := new LineScanner(stdin);
    wire, display := SendLoop(input, Label(uname));
  }

  /**
   * The loop of HandleIncoming: for every token left, shows it after a
   * carriage return and prints the prompt again.
   */
  method ShowLoop(input: LineScanner, prompt: seq<byte>) returns (display: seq<byte>)
    requires input.Valid()
    modifies input
    ensures input.Valid() && input.Upcoming == []
    ensures display == Display(prompt, old(input.Upcoming))
  {
    ghost var shown: seq<seq<byte>> := [];
    display := [];
    var ok := input.Scan();
    while ok
      invariant input.Valid()
      invariant ok ==> shown + [input.token] + input.Upcoming == old(input.Upcoming)
      invariant !ok ==> shown == old(input.Upcoming) && input.Upcoming == []
      invariant display == Display(prompt, shown)
      decreases |input.Upcoming|, ok
    {
      DisplayAppend(prompt, shown, input.token);
      display := display + DisplayLine(prompt, input.token);
      shown := shown + [input.token];
      ok := input.Scan();
      if ok {
        Regroup(shown, [input.token], input.Upcoming);
      }
    }
  }

  /**
   * HandleIncoming: configures its own user, then every line received is
   * shown after a carriage return, followed by the local prompt.
   */
  method HandleIncoming(host: HostLookup, ifaces: Option<seq<Interface>>, conn: seq<seq<byte>>)
    returns (uname: User, display: seq<byte>)
    ensures uname == User(host.name, AddressOf(Resolve(ifaces)), false)
    ensures display == Display(Label(uname), Lines(Flatten(conn)))
  {
    var outcome;
    uname, outcome := ConfigureUser(host, ifaces);
    var input := new LineScanner(conn);
    display := ShowLoop(input, Label(uname));
  }

  // ---------------------------------------------------------------------
  // What crosses the connection.

  /** A wire line is one line for the receiving scanner. */
  lemma OutboundLineIsOneLine(prefix: seq<byte>, text: seq<byte>)
    requires LF !in prefix && LF !in text
    ensures Lines(OutboundLine(prefix, text)) == [DropCR(prefix + text)]
  {
    assert LF !in prefix + text;
    assert OutboundLine(prefix, text) == (prefix + text) + [LF] + [];
    LinesLine(prefix + text, []);
    LinesNoNewline([]);
  }

  /**
   * The receiving scanner recovers the sent lines one for one, each with its
   * label, minus one trailing carriage return.
   */
  lemma {:induction false} WireRoundTrip(prefix: seq<byte>, texts: seq<seq<byte>>)
    requires LF !in prefix
    requires forall k :: 0 <= k < |texts| ==> LF !in texts[k]
    ensures |Lines(Wire(prefix, texts))| == |texts|
    ensures forall k :: 0 <= k < |texts| ==> Lines(Wire(prefix, texts))[k] == DropCR(prefix + texts[k])
  {
    if texts == [] {
      LinesNoNewline([]);
    } else {
      var t := texts[0];
      assert LF !in prefix + t;
      WireRoundTrip(prefix, texts[1..]);
      assert Wire(prefix, texts) == (prefix + t) + [LF] + Wire(prefix, texts[1..]);
      LinesLine(prefix + t, Wire(prefix, texts[1..]));
      assert forall k :: 1 <= k < |texts| ==> texts[k] == texts[1..][k - 1];
    }
  }

  /** A label ends in a space, so the stripping of a carriage return only ever touches the text after it. */
  lemma LabelShieldsText(uname: User, text: seq<byte>)
    ensures DropCR(Label(uname) + text) == Label(uname) + DropCR(text)
  {
  }

  /**
   * A session end to end: whatever lines the local user types (read in any
   * chunks), the peer's scanner yields, one for one, `hostname@ip: ` followed
   * by the line less one trailing carriage return.
   */
  lemma Delivery(uname: User, stdin: seq<seq<byte>>)
    requires LF !in uname.hostname && LF !in uname.ip
    ensures var typed := Lines(Flatten(stdin));
      var received := Lines(Wire(Label(uname), typed));
      |received| == |typed| &&
      forall k :: 0 <= k < |typed| ==> received[k] == Label(uname) + DropCR(typed[k])
  {
    var typed := Lines(Flatten(stdin));
    LinesHaveNoNewline(Flatten(stdin));
    WireRoundTrip(Label(uname), typed);
    forall k | 0 <= k < |typed|
      ensures Lines(Wire(Label(uname), typed))[k] == Label(uname) + DropCR(typed[k])
    {
      LabelShieldsText(uname, typed[k]);
    }
  }
}
