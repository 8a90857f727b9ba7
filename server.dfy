/**
 * The server side: the dispatch of a request text to query_database or to the
 * fixed refusal, the per-connection loop of listen_on_tcp, and the port check
 * of create_tcp_socket.
 */
module Server {
  import opened Wrappers
  import opened PyStr
  import opened Wire

  // Each question is written as two literals joined, which keeps its characters within the verifier's reach.
  const FridgeQuestion := "What is the average moisture inside my" + " kitchen fridge in the past three hours?"
  const DishwasherQuestion := "What is the average water consumption" + " per cycle in my smart dishwasher?"
  const ElectricityQuestion := "Which device consumed more electricity" + " among my three IoT devices?"
  const CanonicalQuestions := [FridgeQuestion, DishwasherQuestion, ElectricityQuestion]
  const UnsupportedReply := "Sorry, this query cannot be processed. Please try one of the valid queries."

  /** The request a text stands for: one of the three questions, or none of them. */
  datatype Query = FridgeMoisture | DishwasherCycle | ElectricityComparison | Unsupported

  /**
   * query_database(topic, mode): the answer text, or None when the call
   * raises. It is not defined in the server as shipped, so it is a parameter.
   */
  type QueryDatabase = (string, string) -> Option<string>

  /** The if/elif chain: exact, case-sensitive comparison with each question, nothing trimmed. */
  function Dispatch(m: string): (q: Query)
    ensures q == FridgeMoisture <==> m == FridgeQuestion
    ensures q == DishwasherCycle <==> m == DishwasherQuestion
    ensures q == ElectricityComparison <==> m == ElectricityQuestion
    ensures q == Unsupported <==> m !in CanonicalQuestions
  {
    if m == FridgeQuestion then FridgeMoisture
    else if m == DishwasherQuestion then DishwasherCycle
    else if m == ElectricityQuestion then ElectricityComparison
    else Unsupported
  }

  /** The (topic, mode) pair passed to query_database for a supported question. */
  function Arguments(q: Query): (string, string)
    requires q != Unsupported
  {
    match q
    case FridgeMoisture => ("fridge_moisture", "3_hours_avg")
    case DishwasherCycle => ("dishwasher", "water_cycle_avg")
    case ElectricityComparison => ("electricity_consumption", "compare_devices")
  }

  /** The response to one request, or None when query_database raised. */
  function Respond(m: string, db: QueryDatabase): (r: Option<string>)
    ensures m == FridgeQuestion ==> r == db("fridge_moisture", "3_hours_avg")
    ensures m == DishwasherQuestion ==> r == db("dishwasher", "water_cycle_avg")
    ensures m == ElectricityQuestion ==> r == db("electricity_consumption", "compare_devices")
    ensures m !in CanonicalQuestions ==> r == Some(UnsupportedReply)
  {
    var q := Dispatch(m);
    if q == Unsupported then Some(UnsupportedReply) else db(Arguments(q).0, Arguments(q).1)
  }

  /** A text that ends the loop: empty (the peer closed) or the exit word in any case. */
  predicate IsTerminator(m: string) {
    m == "" || IsExitWord(m)
  }

  /** A recv result that ends the loop, by break or by exception. */
  predicate EndsSession(x: Incoming) {
    x.Fault? || IsTerminator(x.text)
  }

  /** How the loop was left: the break, an exception from recv, or an exception from query_database. */
  datatype EndReason = Terminated | RecvFailed | QueryFailed

  /**
   * One connection's run: the requests dispatched in order, the responses
   * sent, how many entries of the inbox were read, and how the loop ended.
   * The socket is closed after every one of these ends.
   */
  datatype Outcome = Outcome(requests: seq<string>, responses: seq<string>, read: nat, end: EndReason)

  /** listen_on_tcp over the texts its recv calls deliver. */
  function Session(inbox: seq<Incoming>, db: QueryDatabase): (o: Outcome)
    ensures |o.requests| <= o.read <= |inbox|
    ensures |o.requests| == |o.responses| + (if o.end == QueryFailed then 1 else 0)
    decreases |inbox|
  {
    if inbox == [] then Outcome([], [], 0, Terminated)
    else match inbox[0]
      case Fault => Outcome([], [], 1, RecvFailed)
      case Data(m) =>
        if IsTerminator(m) then Outcome([], [], 1, Terminated)
        else match Respond(m, db)
          case None => Outcome([m], [], 1, QueryFailed)
          case Some(r) =>
            var rest := Session(inbox[1..], db);
            Outcome([m] + rest.requests, [r] + rest.responses, rest.read + 1, rest.end)
  }

  /**
   * Requests are the inbox's leading texts, in arrival order, none of them a
   * terminator; the i-th response is the answer to the i-th request; and a
   * request left without a response is one for which query_database raised.
   */
  lemma {:induction false} SessionRespondsInOrder(inbox: seq<Incoming>, db: QueryDatabase)
    ensures var o := Session(inbox, db);
      (forall i | 0 <= i < |o.requests| :: inbox[i] == Data(o.requests[i]) && !IsTerminator(o.requests[i])) &&
      (forall i | 0 <= i < |o.responses| :: Respond(o.requests[i], db) == Some(o.responses[i])) &&
      (o.end == QueryFailed ==> Respond(o.requests[|o.requests| - 1], db) == None)
    decreases |inbox|
  {
    if inbox != [] && inbox[0].Data? && !IsTerminator(inbox[0].text) && Respond(inbox[0].text, db).Some? {
      SessionRespondsInOrder(inbox[1..], db);
      var o, rest := Session(inbox, db), Session(inbox[1..], db);
      assert o.requests == [inbox[0].text] + rest.requests;
      forall i | 1 <= i < |o.requests| ensures inbox[i] == Data(o.requests[i]) {
        assert inbox[i] == inbox[1..][i - 1];
      }
    }
  }

  /** What one turn of the loop did: ended the loop, or sent a response and goes on. */
  datatype Step = Stopped(end: EndReason) | Answered(response: string)

  /**
   * One turn of the loop of listen_on_tcp: receive a message, stop on the
   * exit word, an empty text or an exception, otherwise send the response.
   * What it does is the first step of Session on the inbox.
   */
  method ServeOne(sock: Socket, db: QueryDatabase) returns (step: Step)
    requires sock.IsOpen()
    modifies sock
    ensures sock.IsOpen() && sock.closeCount == old(sock.closeCount)
    ensures var r := Session(old(sock.inbox), db);
      step.Stopped? ==>
        step.end == r.end && r.responses == [] && |old(sock.inbox)| >= r.read &&
        sock.sent == old(sock.sent) && sock.inbox == old(sock.inbox)[r.read..]
    ensures var r := Session(old(sock.inbox), db);
      step.Answered? ==>
        old(sock.inbox) != [] && sock.inbox == old(sock.inbox)[1..] &&
        sock.sent == old(sock.sent) + [step.response] &&
        var rest := Session(sock.inbox, db);
        r.responses == [step.response] + rest.responses && r.read == rest.read + 1 && r.end == rest.end
  {
    var incoming := sock.Recv();
    if incoming.Fault? {
      return Stopped(RecvFailed);
    }
    var message := incoming.text;
    if message == "" || IsExitWord(message) {
      return Stopped(Terminated);
    }
    var response := Respond(message, db);
    if response.None? {
      return Stopped(QueryFailed);
    }
    sock.Send(response.value);
    return Answered(response.value);
  }

  /** The loop of listen_on_tcp: what was sent and read, and how it ended, is what Session says. */
  method ServeTurns(sock: Socket, db: QueryDatabase) returns (end: EndReason)
    requires sock.IsOpen()
    modifies sock
    ensures var o := Session(old(sock.inbox), db);
      sock.sent == old(sock.sent) + o.responses && sock.inbox == old(sock.inbox)[o.read..] && end == o.end
    ensures sock.IsOpen()
  {
    ghost var start, sent0 := sock.inbox, sock.sent;
    ghost var o := Session(start, db);
    ghost var k := 0;
    ghost var done: seq<string> := [];
    while true
      invariant sock.IsOpen()
      invariant k <= |start| && sock.inbox == start[k..]
      invariant sock.sent == sent0 + done
      invariant var r := Session(sock.inbox, db);
        o.responses == done + r.responses && o.read == k + r.read && o.end == r.end
      decreases |sock.inbox|
    {
      ghost var before := sock.inbox;
      var step := ServeOne(sock, db);
      if step.Stopped? {
        assert start[k..][Session(before, db).read..] == start[k + Session(before, db).read..];
        return step.end;
      }
      assert start[k..][1..] == start[k + 1..];
      AppendAssociative(sent0, done, [step.response]);
      AppendAssociative(done, [step.response], Session(sock.inbox, db).responses);
      k := k + 1;
      done := done + [step.response];
    }
  }

  /**
   * listen_on_tcp with its finally clause: whichever way the loop is left,
   * the socket is closed exactly once, and what was sent and read is what
   * Session says.
   */
  method ListenOnTcp(sock: Socket, db: QueryDatabase) returns (end: EndReason)
    requires sock.IsOpen()
    modifies sock
    ensures var o := Session(old(sock.inbox), db);
      sock.sent == old(sock.sent) + o.responses && sock.inbox == old(sock.inbox)[o.read..] && end == o.end
    ensures sock.closeCount == 1
  {
    end := ServeTurns(sock, db);
    sock.Close();
  }

  /**
   * The session stops at the first terminator or fault: every message before
   * it gets exactly one response, and the stopping entry gets none.
   */
  lemma {:induction false} StopsAtFirstTerminator(inbox: seq<Incoming>, db: QueryDatabase, k: nat)
    requires k < |inbox| && EndsSession(inbox[k])
    requires forall i | 0 <= i < k :: !EndsSession(inbox[i]) && Respond(inbox[i].text, db).Some?
    ensures var o := Session(inbox, db);
      |o.requests| == k && |o.responses| == k && o.read == k + 1 &&
      o.end == (if inbox[k].Fault? then RecvFailed else Terminated)
    decreases k
  {
    if k > 0 {
      StopsAtFirstTerminator(inbox[1..], db, k - 1);
    }
  }

  /** Entries after the one that ended the session are never read: replacing them changes nothing. */
  lemma {:induction false} LaterMessagesIgnored(inbox: seq<Incoming>, tail: seq<Incoming>, db: QueryDatabase)
    requires Session(inbox, db).end != Terminated || Session(inbox, db).read > |Session(inbox, db).requests|
    ensures Session(inbox[..Session(inbox, db).read] + tail, db) == Session(inbox, db)
    decreases |inbox|
  {
    var o := Session(inbox, db);
    assert inbox != [];
    var later := inbox[1..][..o.read - 1] + tail;
    assert inbox[..o.read] + tail == [inbox[0]] + later;
    assert ([inbox[0]] + later)[1..] == later;
    if inbox[0].Data? && !IsTerminator(inbox[0].text) && Respond(inbox[0].text, db).Some? {
      LaterMessagesIgnored(inbox[1..], tail, db);
    }
  }

  /** Without a terminator or fault among the messages, the server answers all of them unless query_database raises. */
  lemma {:induction false} SessionWithoutTerminator(inbox: seq<Incoming>, db: QueryDatabase)
    requires forall i | 0 <= i < |inbox| :: !EndsSession(inbox[i])
    ensures var o := Session(inbox, db);
      o.end != RecvFailed && (o.end == Terminated ==> |o.requests| == |o.responses| == o.read == |inbox|)
    decreases |inbox|
  {
    if inbox != [] && Respond(inbox[0].text, db).Some? {
      SessionWithoutTerminator(inbox[1..], db);
    }
  }

  /** "exit" in any letter case ends the connection at once, and nothing is sent for it or after it. */
  lemma ExitInAnyCase(rest: seq<Incoming>, db: QueryDatabase)
    ensures Session([Data("ExIt")] + rest, db) == Outcome([], [], 1, Terminated)
    ensures Session([Data("EXIT"), Data(FridgeQuestion)] + rest, db) == Outcome([], [], 1, Terminated)
  {
  }

  /** Matching is exact and case-sensitive: changed case or added whitespace gets the refusal, not an answer. */
  lemma CaseVariantRefused(q: string, m: string, db: QueryDatabase)
    requires q in CanonicalQuestions && m != q && Lower(m) == Lower(q)
    ensures Respond(m, db) == Some(UnsupportedReply)
  {
    assert |m| == |q|;
  }

  /** Every question starts with "W" and ends with "?". */
  lemma QuestionEnds()
    ensures forall q | q in CanonicalQuestions :: |q| > 0 && q[0] == 'W' && q[|q| - 1] == '?'
  {
  }

  /** A text that does not start with "W" and end with "?" is none of the questions, and gets the refusal. */
  lemma MisshapenRefused(m: string, db: QueryDatabase)
    requires m == [] || m[0] != 'W' || m[|m| - 1] != '?'
    ensures Respond(m, db) == Some(UnsupportedReply)
  {
    QuestionEnds();
  }

  /** Whitespace before or after a question is not trimmed: the padded text gets the refusal. */
  lemma PaddingRefused(pad: string, q: string, db: QueryDatabase)
    requires q in CanonicalQuestions && pad != [] && AllSpace(pad)
    ensures Respond(pad + q, db) == Some(UnsupportedReply)
    ensures Respond(q + pad, db) == Some(UnsupportedReply)
  {
    var front, back := pad + q, q + pad;
    assert front[0] == pad[0];
    assert back[|back| - 1] == pad[|pad| - 1];
    MisshapenRefused(front, db);
    MisshapenRefused(back, db);
  }

  /**
   * With query_database left undefined, as in the shipped server, the first
   * supported question raises: every refused message before it was answered
   * with the refusal, the question gets no reply, and the connection closes.
   */
  lemma {:induction false} UndefinedQueryDatabaseDropsConnection(before: seq<Incoming>, q: string, rest: seq<Incoming>)
    requires forall i | 0 <= i < |before| :: !EndsSession(before[i]) && Dispatch(before[i].text) == Unsupported
    requires q in CanonicalQuestions
    ensures var o := Session(before + [Data(q)] + rest, (t, m) => None);
      |o.responses| == |before| && (forall i | 0 <= i < |before| :: o.responses[i] == UnsupportedReply) &&
      o.end == QueryFailed && o.read == |before| + 1
    decreases |before|
  {
    var inbox := before + [Data(q)] + rest;
    if before == [] {
      assert inbox == [Data(q)] + rest && inbox[0] == Data(q);
    } else {
      assert inbox[0] == before[0] && inbox[1..] == before[1..] + [Data(q)] + rest;
      UndefinedQueryDatabaseDropsConnection(before[1..], q, rest);
      var o, later := Session(inbox, (t, m) => None), Session(inbox[1..], (t, m) => None);
      assert o.responses == [UnsupportedReply] + later.responses;
      forall i | 1 <= i < |before| ensures o.responses[i] == UnsupportedReply {
        assert o.responses[i] == later.responses[i - 1];
      }
    }
  }

  /** The port check: str.isdigit() and 0 < int(port) < 65536; nothing is trimmed first. */
  function ServerPort(line: string): (r: Option<nat>)
    ensures r.Some? <==> IsDigits(line) && 0 < DigitsValue(line) < 65536
    ensures r.Some? ==> r.value == DigitsValue(line) && 1 <= r.value <= 65535
  {
    if IsDigits(line) && 0 < DigitsValue(line) < 65536 then Some(DigitsValue(line)) else None
  }

  /** create_tcp_socket's choice of bind address: None (before any bind) for an invalid port; host "0.0.0.0" when none was entered. */
  function BindAddress(hostLine: string, portLine: string): (r: Option<Endpoint>)
    ensures r.Some? <==> ServerPort(portLine).Some?
    ensures r.Some? ==> r.value.host != "" && 1 <= r.value.port <= 65535
    ensures r.Some? && hostLine != "" ==> r.value.host == hostLine
    ensures r.Some? && hostLine == "" ==> r.value.host == "0.0.0.0"
    ensures r.Some? ==> r.value.port == ServerPort(portLine).value
  {
    match ServerPort(portLine)
    case None => None
    case Some(p) => Some(Endpoint(if hostLine == "" then "0.0.0.0" else hostLine, p))
  }

  /** Every port number in range is accepted in decimal, with any leading zeros; 0 and anything above 65535 are refused. */
  lemma {:induction false} ServerPortOfDecimal(zeros: string, n: nat)
    requires forall i | 0 <= i < |zeros| :: zeros[i] == '0'
    ensures ServerPort(zeros + Str(n)) == if 0 < n < 65536 then Some(n) else None
  {
    StrRoundTrip(n);
    LeadingZeros(zeros, Str(n));
  }

  /** The server, unlike the client, takes no whitespace or sign around the port. */
  lemma ServerPortIsUntrimmed(s: string)
    ensures ServerPort(" " + s) == None
    ensures ServerPort(s + "\n") == None
    ensures ServerPort("+" + s) == None
  {
    assert (" " + s)[0] == ' ';
    assert (s + "\n")[|s|] == '\n';
    assert ("+" + s)[0] == '+';
  }
}
