/**
 * What the client and the server share: the exit word, host/port pairs, and a
 * connected TCP socket seen as the sequence of texts its recv calls deliver,
 * the texts it has sent, and how often it was closed.
 */
module Wire {
  import opened PyStr

  /** What one recv-and-decode yields: the decoded text (empty once the peer has closed), or a fault (reset, decode error). */
  datatype Incoming = Data(text: string) | Fault

  datatype Endpoint = Endpoint(host: string, port: nat)

  /** s.lower() == "exit", compared character by character: the word exit in any mix of letter case. */
  predicate IsExitWord(s: string) {
    |s| == 4 && LowerChar(s[0]) == 'e' && LowerChar(s[1]) == 'x' && LowerChar(s[2]) == 'i' && LowerChar(s[3]) == 't'
  }

  /** The character-by-character test is the same as lowering the whole text and comparing it with "exit". */
  lemma ExitWordIsLowerExit(s: string)
    ensures IsExitWord(s) <==> Lower(s) == "exit"
  {
    if |s| == 4 {
      var l := Lower(s);
      assert l == "exit" <==> l[0] == 'e' && l[1] == 'x' && l[2] == 'i' && l[3] == 't';
    }
  }

  /** Each text as the datum of one recv. */
  function Frames(texts: seq<string>): (f: seq<Incoming>)
    ensures |f| == |texts|
    ensures forall i | 0 <= i < |texts| :: f[i] == Data(texts[i])
  {
    seq(|texts|, i requires 0 <= i < |texts| => Data(texts[i]))
  }

  /** s without its first n elements, or empty when it has fewer. */
  function Drop<T>(s: seq<T>, n: nat): seq<T> {
    if n <= |s| then s[n..] else []
  }

  /** s without its first element, or empty when it is empty. */
  function Tail<T>(s: seq<T>): seq<T> {
    if s == [] then [] else s[1..]
  }

  /** Appending is associative; the loops regroup what was sent so far with what comes next. */
  lemma AppendAssociative<T>(a: seq<T>, b: seq<T>, c: seq<T>)
    ensures (a + b) + c == a + (b + c)
  {
  }

  lemma DropOneMore<T>(s: seq<T>, n: nat)
    ensures Tail(Drop(s, n)) == Drop(s, n + 1)
  {
    if n + 1 <= |s| {
      assert s[n..][1..] == s[n + 1..];
    }
  }

  /**
   * A connected TCP socket. inbox holds what the peer will deliver, one text
   * per recv; once it is used up, recv returns the empty text of a closed peer.
   */
  class Socket {
    var inbox: seq<Incoming>
    var sent: seq<string>
    var closeCount: nat

    constructor (peer: seq<Incoming>)
      ensures inbox == peer && sent == [] && closeCount == 0
    {
      inbox, sent, closeCount := peer, [], 0;
    }

    predicate IsOpen()
      reads this
    {
      closeCount == 0
    }

    /** recv(...).decode(): the next text the peer sent, or the peer's close once there is none. */
    method Recv() returns (r: Incoming)
      requires IsOpen()
      modifies this
      ensures r == if old(inbox) == [] then Data("") else old(inbox)[0]
      ensures inbox == Tail(old(inbox))
      ensures sent == old(sent) && closeCount == old(closeCount)
    {
      if inbox == [] {
        r := Data("");
      } else {
        r, inbox := inbox[0], inbox[1..];
      }
    }

    /** send(text.encode()): the whole text goes out in one message. */
    method Send(text: string)
      requires IsOpen()
      modifies this
      ensures sent == old(sent) + [text]
      ensures inbox == old(inbox) && closeCount == old(closeCount)
    {
      sent := sent + [text];
    }

    method Close()
      modifies this
      ensures closeCount == old(closeCount) + 1
      ensures inbox == old(inbox) && sent == old(sent)
    {
      closeCount := closeCount + 1;
    }
  }
}
