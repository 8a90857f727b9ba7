/**
 * The client and the server together: each of the client's valid queries is,
 * character for character, one of the server's questions, so whatever the
 * client sends is answered by query_database and never refused.
 */
module Interop {
  import opened Wire
  import Server
  import Client

  /** The client's table and the server's questions hold the same three texts, in the same order. */
  lemma TablesAgree()
    ensures Client.ValidQueries == Server.CanonicalQuestions
    ensures forall q | q in Client.ValidQueries :: Server.Dispatch(q) != Server.Unsupported && !Server.IsTerminator(q)
  {
  }

  /**
   * Run the server on a stream of valid queries: every message is read and
   * answered in order (unless query_database raises), none ends the session
   * early, and every answer comes from query_database.
   */
  lemma {:induction false} ServerAnswersValidQueries(sent: seq<string>, db: Server.QueryDatabase)
    requires Client.AllValid(sent)
    ensures var o := Server.Session(Frames(sent), db);
      |o.requests| <= |sent| && o.requests == sent[..|o.requests|] &&
      (o.end == Server.Terminated ==> o.requests == sent && |o.responses| == |sent|) &&
      o.end != Server.RecvFailed &&
      forall i | 0 <= i < |o.requests| :: Server.Dispatch(o.requests[i]) != Server.Unsupported
  {
    var inbox := Frames(sent);
    TablesAgree();
    assert forall i | 0 <= i < |inbox| :: !Server.EndsSession(inbox[i]) by {
      forall i | 0 <= i < |inbox| ensures !Server.EndsSession(inbox[i]) {
        assert inbox[i] == Data(sent[i]) && sent[i] in Client.ValidQueries;
      }
    }
    Server.SessionWithoutTerminator(inbox, db);
    Server.SessionRespondsInOrder(inbox, db);
    var o := Server.Session(inbox, db);
    forall i | 0 <= i < |o.requests| ensures o.requests[i] == sent[i] {
      assert inbox[i] == Data(o.requests[i]);
    }
  }

  /** Whatever the client's loop sends, the server reads and answers in order, and refuses none of it. */
  lemma ServerAnswersEveryClientQuery(lines: seq<string>, replies: seq<Incoming>, db: Server.QueryDatabase)
    ensures var sent := Client.ClientSession(lines, replies).sent;
      var o := Server.Session(Frames(sent), db);
      |o.requests| <= |sent| && o.requests == sent[..|o.requests|] &&
      (o.end == Server.Terminated ==> o.requests == sent && |o.responses| == |sent|) &&
      o.end != Server.RecvFailed &&
      forall i | 0 <= i < |o.requests| :: Server.Dispatch(o.requests[i]) != Server.Unsupported
  {
    Client.ClientSendsOnlyValidQueries(lines, replies);
    ServerAnswersValidQueries(Client.ClientSession(lines, replies).sent, db);
  }
}
