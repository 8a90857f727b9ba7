/**
 * The client side: the table of valid queries, how one line the user typed is
 * turned into a query to send, the query loop of process_query, and the port
 * rule of connect_to_server.
 */
module Client {
  import opened Wrappers
  import opened PyStr
  import opened Wire

  // Each query is written as two literals joined, which keeps its characters within the verifier's reach.
  const ValidQueries: seq<string> := [
    "What is the average moisture inside my" + " kitchen fridge in the past three hours?",
    "What is the average water consumption" + " per cycle in my smart dishwasher?",
    "Which device consumed more electricity" + " among my three IoT devices?"
  ]

  const DefaultPort := 8000

  /** What the loop does with one line read from the user. */
  datatype Choice = Quit | Send(query: string) | Retry

  /** A query number as the client reads it: str.isdigit() and 1 <= int(text) <= 3. */
  predicate IsQueryNumber(m: string) {
    IsDigits(m) && 1 <= DigitsValue(m) <= |ValidQueries|
  }

  /**
   * The decisions of process_query on one line: strip it; the exit word in
   * any case quits; a query number picks that query; the exact text of a
   * query is sent as it is; anything else is refused and asked for again.
   */
  function Resolve(line: string): (c: Choice)
    ensures c == Quit <==> IsExitWord(Strip(line))
    ensures c.Send? ==> c.query in ValidQueries
    ensures c.Send? && IsQueryNumber(Strip(line)) ==> c.query == ValidQueries[DigitsValue(Strip(line)) - 1]
    ensures c.Send? && !IsQueryNumber(Strip(line)) ==> c.query == Strip(line)
    ensures c == Retry <==> !IsExitWord(Strip(line)) && !IsQueryNumber(Strip(line)) && Strip(line) !in ValidQueries
  {
    var m := Strip(line);
    if IsExitWord(m) then Quit
    else if IsQueryNumber(m) then Send(ValidQueries[DigitsValue(m) - 1])
    else if m in ValidQueries then Send(m)
    else Retry
  }

  /** Whitespace around what the user typed never changes the choice. */
  lemma ResolveIgnoresPadding(pre: string, line: string, post: string)
    requires AllSpace(pre) && AllSpace(post)
    ensures Resolve(pre + line + post) == Resolve(line)
  {
    StripIgnoresPadding(pre, line, post);
  }

  /** The number n, written in decimal with any leading zeros, picks query n for n in 1..3; 0 and 4 on are refused. */
  lemma {:induction false} ResolveNumber(zeros: string, n: nat)
    requires forall i | 0 <= i < |zeros| :: zeros[i] == '0'
    ensures Resolve(zeros + Str(n)) == if 1 <= n <= 3 then Send(ValidQueries[n - 1]) else Retry
  {
    var m := zeros + Str(n);
    LeadingZeros(zeros, Str(n));
    StrRoundTrip(n);
    assert IsDigits(m);
    StripUnpadded(m);
    assert IsQueryNumber(m) <==> 1 <= n <= 3;
    assert !IsExitWord(m);
    if !(1 <= n <= 3) {
      assert m !in ValidQueries by {
        assert forall q | q in ValidQueries :: q[0] == 'W';
      }
    }
  }

  /** The exact text of a valid query is sent unchanged, even with whitespace around it. */
  lemma ResolveQueryText(pre: string, q: string, post: string)
    requires q in ValidQueries && AllSpace(pre) && AllSpace(post)
    ensures Resolve(pre + q + post) == Send(q)
  {
    assert q[0] == 'W' && q[|q| - 1] == '?';
    StripPadded(pre, q, post);
    assert |q| != 4;
    assert !IsDigits(q);
  }

  /** How the query loop ended: the user quit, input ran out (EOFError), or the reply could not be read. */
  datatype ClientEnd = UserExit | InputExhausted | ReplyFailed

  /** The queries the loop sent, in order, and how it ended; the socket is closed after every end. */
  datatype ClientOutcome = ClientOutcome(sent: seq<string>, end: ClientEnd)

  /**
   * The loop of process_query over the lines the user types and the replies
   * the server sends, for any rule that turns a line into a choice: a query
   * is sent and its reply read before the next line, a refused line sends
   * nothing, and the loop stops at a quit, at the end of the input or at a
   * reply that cannot be read.
   */
  function Conversation(resolve: string -> Choice, lines: seq<string>, replies: seq<Incoming>): (o: ClientOutcome)
    ensures |o.sent| <= |lines|
    decreases |lines|
  {
    if lines == [] then ClientOutcome([], InputExhausted)
    else match resolve(lines[0])
      case Quit => ClientOutcome([], UserExit)
      case Retry => Conversation(resolve, lines[1..], replies)
      case Send(q) =>
        if replies != [] && replies[0].Fault? then ClientOutcome([q], ReplyFailed)
        else
          var rest := Conversation(resolve, lines[1..], Tail(replies));
          ClientOutcome([q] + rest.sent, rest.end)
  }

  /** process_query itself: the loop above with the decisions of Resolve. */
  function ClientSession(lines: seq<string>, replies: seq<Incoming>): (o: ClientOutcome)
    ensures |o.sent| <= |lines|
  {
    Conversation(Resolve, lines, replies)
  }

  /** Every text is one of the valid queries. */
  predicate AllValid(texts: seq<string>) {
    forall i | 0 <= i < |texts| :: texts[i] in ValidQueries
  }

  lemma AllValidCons(q: string, rest: seq<string>)
    requires q in ValidQueries && AllValid(rest)
    ensures AllValid([q] + rest)
  {
    forall i | 1 <= i < |[q] + rest| ensures ([q] + rest)[i] in ValidQueries {
      assert ([q] + rest)[i] == rest[i - 1];
    }
  }

  /** Every text the client sends is one of its valid queries. */
  lemma {:induction false} ClientSendsOnlyValidQueries(lines: seq<string>, replies: seq<Incoming>)
    ensures AllValid(ClientSession(lines, replies).sent)
    decreases |lines|
  {
    if lines != [] {
      match Resolve(lines[0])
      case Quit =>
      case Retry =>
        ClientSendsOnlyValidQueries(lines[1..], replies);
      case Send(q) =>
        if !(replies != [] && replies[0].Fault?) {
          ClientSendsOnlyValidQueries(lines[1..], Tail(replies));
          AllValidCons(q, ClientSession(lines[1..], Tail(replies)).sent);
        }
    }
  }

  /** A refused line sends nothing, and the loop goes on with the next line. */
  lemma RetryContinues(line: string, lines: seq<string>, replies: seq<Incoming>)
    requires Resolve(line) == Retry
    ensures ClientSession([line] + lines, replies) == ClientSession(lines, replies)
  {
    assert ([line] + lines)[0] == line && ([line] + lines)[1..] == lines;
  }

  /** The exit word ends the loop before anything more is sent. */
  lemma QuitStops(line: string, lines: seq<string>, replies: seq<Incoming>)
    requires IsExitWord(Strip(line))
    ensures ClientSession([line] + lines, replies) == ClientOutcome([], UserExit)
  {
    assert ([line] + lines)[0] == line;
  }

  /** A line that picks a query sends it, and the loop reads the reply before going on. */
  lemma SendThenContinue(line: string, lines: seq<string>, reply: string, replies: seq<Incoming>)
    requires Resolve(line).Send?
    ensures var o, rest := ClientSession([line] + lines, [Data(reply)] + replies), ClientSession(lines, replies);
      o.sent == [Resolve(line).query] + rest.sent && o.end == rest.end
  {
    assert ([line] + lines)[0] == line && ([line] + lines)[1..] == lines;
    assert Tail([Data(reply)] + replies) == replies;
  }

  /**
   * One turn of the loop of process_query on the first of the pending lines:
   * quit, ask again, or send the query and read its reply. It does what the
   * first step of Conversation does, and sends the texts that step produces.
   * The loop is written for any rule resolve; ProcessQuery passes Resolve.
   */
  method Turn(sock: Socket, resolve: string -> Choice, pending: seq<string>) returns (stop: Option<ClientEnd>, choice: Choice)
    requires sock.IsOpen() && pending != []
    modifies sock
    ensures sock.IsOpen()
    ensures !choice.Send? ==> sock.sent == old(sock.sent) && sock.inbox == old(sock.inbox)
    ensures choice.Send? ==> sock.sent == old(sock.sent) + [choice.query] && sock.inbox == Tail(old(sock.inbox))
    ensures var o, rest := Conversation(resolve, pending, old(sock.inbox)), Conversation(resolve, pending[1..], sock.inbox);
      (choice == Quit ==> stop == Some(UserExit) && o == ClientOutcome([], UserExit)) &&
      (choice == Retry ==> stop == None && o == rest) &&
      (choice.Send? && stop.Some? ==> stop == Some(ReplyFailed) && o == ClientOutcome([choice.query], ReplyFailed)) &&
      (choice.Send? && stop.None? ==> o.sent == [choice.query] + rest.sent && o.end == rest.end)
  {
    choice := resolve(pending[0]);
    if choice.Quit? {
      return Some(UserExit), choice;
    }
    if choice.Retry? {
      return None, choice;
    }
    sock.Send(choice.query);
    var reply := sock.Recv();
    if reply.Fault? {
      return Some(ReplyFailed), choice;
    }
    return None, choice;
  }

  /** The loop of process_query: each query is sent and its reply read, until a line quits, the lines run out or a reply fails. */
  method QueryTurns(sock: Socket, resolve: string -> Choice, lines: seq<string>) returns (end: ClientEnd)
    requires sock.IsOpen()
    modifies sock
    ensures var o := Conversation(resolve, lines, old(sock.inbox));
      end == o.end && sock.sent == old(sock.sent) + o.sent &&
      sock.inbox == Drop(old(sock.inbox), |o.sent|) && sock.IsOpen()
  {
    ghost var replies0, sent0 := sock.inbox, sock.sent;
    ghost var o := Conversation(resolve, lines, replies0);
    ghost var done: seq<string> := [];
    var pending := lines;
    while true
      invariant sock.IsOpen() && sock.sent == sent0 + done
      invariant sock.inbox == Drop(replies0, |done|)
      invariant var r := Conversation(resolve, pending, sock.inbox);
        o.sent == done + r.sent && o.end == r.end
      decreases |pending|
    {
      if pending == [] {
        return InputExhausted;
      }
      var stop, choice := Turn(sock, resolve, pending);
      pending := pending[1..];
      if choice.Send? {
        DropOneMore(replies0, |done|);
        AppendAssociative(sent0, done, [choice.query]);
        AppendAssociative(done, [choice.query], Conversation(resolve, pending, sock.inbox).sent);
        done := done + [choice.query];
      }
      if stop.Some? {
        return stop.value;
      }
    }
  }

  /**
   * process_query with its finally clause: nothing happens without a
   * socket; otherwise the loop runs and the socket is closed exactly once
   * however the loop ends.
   */
  method ProcessQuery(sock: Socket?, lines: seq<string>) returns (end: Option<ClientEnd>)
    requires sock != null ==> sock.IsOpen()
    modifies sock
    ensures sock == null ==> end == None
    ensures sock != null ==> var o := ClientSession(lines, old(sock.inbox));
      end == Some(o.end) && sock.sent == old(sock.sent) + o.sent &&
      sock.inbox == Drop(old(sock.inbox), |o.sent|) && sock.closeCount == 1
  {
    if sock == null {
      return None;
    }
    var e := QueryTurns(sock, Resolve, lines);
    sock.Close();
    return Some(e);
  }

  /** The port of connect_to_server: int(line or 8000), and 8000 again when that raises or is outside 1..65535. */
  function ClientPort(line: string): (p: nat)
    ensures 1 <= p <= 65535
    ensures line == "" ==> p == DefaultPort
    ensures Int(line).Some? && 0 < Int(line).value < 65536 ==> p == Int(line).value
    ensures p == DefaultPort || Int(line) == Some(p)
  {
    if line == "" then DefaultPort
    else match Int(line)
      case Some(v) => if 0 < v < 65536 then v else DefaultPort
      case None => DefaultPort
  }

  /** The address connect_to_server dials: host "127.0.0.1" when none was entered, and the port above. */
  function ConnectAddress(hostLine: string, portLine: string): (e: Endpoint)
    ensures e.host != "" && 1 <= e.port <= 65535
    ensures hostLine != "" ==> e.host == hostLine
    ensures hostLine == "" ==> e.host == "127.0.0.1"
    ensures e.port == ClientPort(portLine)
  {
    Endpoint(if hostLine == "" then "127.0.0.1" else hostLine, ClientPort(portLine))
  }

  /** A port typed in decimal, with any whitespace int() skips around it, is used when in range; otherwise 8000. */
  lemma ClientPortOfDecimal(pre: string, n: nat, post: string)
    requires AllIntSpace(pre) && AllIntSpace(post)
    ensures ClientPort(pre + Str(n) + post) == if 0 < n < 65536 then n else DefaultPort
  {
    IntOfStr(pre, n, post);
  }

  /** A negative port, or a blank line other than the empty one, falls back to 8000. */
  lemma ClientPortFallbacks(n: nat, blank: string)
    requires AllSpace(blank)
    ensures ClientPort("-" + Str(n)) == DefaultPort
    ensures ClientPort(blank) == DefaultPort
  {
    IntOfNegated(n);
  }

  /** A separator 0x1C-0x1F before or after the port makes int() raise, so the port is 8000. */
  lemma ClientPortRefusesSeparator(c: char, line: string)
    requires IsSpace(c) && !IsIntSpace(c)
    ensures ClientPort([c] + line) == DefaultPort
    ensures ClientPort(line + [c]) == DefaultPort
  {
    IntRefusesSeparator(c, line);
  }
}
