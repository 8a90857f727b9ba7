# Smart-home query client and server: protocol model

The repository is a small TCP client and server for a smart-home analytics
demo. The client (`client.py`) asks the user for a server address and port.
It then runs a menu loop. Each typed line is resolved to one of three fixed
questions, by its number or its exact text, and sent to the server, and the
reply is read back. The line `exit` in any case ends the loop.

The server (`server.py`) checks the port it is to listen on. On each
connection it runs a loop: read a message, stop on an empty message or on
`exit` in any letter case, otherwise answer. A message that is exactly one of
the three questions is answered by `query_database` with that question's own
(topic, mode) pair. Any other message gets a fixed refusal text. Both sides
close their socket in a `finally` clause, whichever way the loop ends.

The Dafny modules follow that structure:

- `Wrappers`: the `Option` type.
- `PyStr`: ASCII models of the Python string operations both programs use: `str.isspace`, `str.strip`, `str.lower`, `str.isdigit` and `int()` on a string. `int()` skips only C's whitespace (tab, line feed, vertical tab, form feed, carriage return, space) around a number, a smaller set than the one `str.strip` removes. `PyStr` also holds the decimal spelling of a number, as the menu prints it, which the lemmas use to speak of typed numbers.
- `Wire`: what one `recv` yields (a text or a fault), the case-insensitive exit word, and a `Socket` class. Its `inbox` field holds what the peer will deliver. Its `sent` field holds what was sent. Its `closeCount` field counts the calls to `close`.
- `Server`: the dispatch chain, the per-connection session as a function (`Session`), and the `listen_on_tcp` loop as methods over a `Socket` proved equal to that function. It also holds the port check of `create_tcp_socket`.
- `Client`: the `valid_queries` table and the line resolver of `process_query` (`Resolve`). It also holds the query loop as a function (`Conversation`, with `ClientSession` for `Resolve`), the loop as methods over a `Socket` proved equal to that function, and the port rule of `connect_to_server`.
- `Interop`: the client's table has the same three texts as the server's questions. Whatever the client sends is read and answered by the server in order, and never refused.

The environment is passed in as values:

- `query_database` is not defined in the server as shipped; its import is commented out. It is the function parameter `db: (string, string) -> Option<string>`, where `None` means the call raised. `UndefinedQueryDatabaseDropsConnection` shows, for the shipped code, that the first supported question closes the connection with no reply to it.
- `recv` is the socket's `inbox`. Once it is used up, `recv` yields the empty text of a peer that has closed, so every session ends.
- `input()` is a sequence of lines. When it runs out, that stands for `EOFError`, which ends the client loop through its `finally` clause.

The question texts reach the verifier as two joined literals each. The
joined text is the same, character for character, as the literal in the
source.

## Model

| member | source | states |
|---|---|---|
| Server.Dispatch | server.py:18-25 | each question is recognised exactly when the text equals it, case-sensitively and untrimmed; every other text is Unsupported |
| Server.Respond | server.py:18-25 | each question is answered by query_database with its own (topic, mode) pair; any other text gets exactly the refusal literal |
| Server.Session | server.py:9-30 | the session never dispatches more requests than it read, nor reads more than the inbox holds; every request but one left by a raising query_database gets a response |
| Server.SessionRespondsInOrder | server.py:11-27 | the requests are the leading inbox texts in arrival order, none a terminator; the i-th response answers the i-th request; an unanswered last request is one for which query_database raised |
| Server.StopsAtFirstTerminator | server.py:13-15 | with the first terminator or fault at position k, exactly k requests are handled and answered, k + 1 entries are read, and nothing is sent for the terminator |
| Server.LaterMessagesIgnored | server.py:12-15 | when the session stopped at an entry, replacing everything after that entry changes nothing |
| Server.SessionWithoutTerminator | server.py:12-27 | on an inbox without terminator or fault, the session never ends by a recv fault; if it ends normally, every message was read and answered |
| Server.ExitInAnyCase | server.py:14-15 | "ExIt" and "EXIT" end the connection at once, with nothing sent, even when a question follows |
| Server.CaseVariantRefused | server.py:18-25 | a text that differs from a question only in letter case gets the refusal |
| Server.QuestionEnds | server.py:18-22 | every question starts with "W" and ends with "?" |
| Server.MisshapenRefused | server.py:18-25 | a text that is empty, or does not start with "W" and end with "?", gets the refusal |
| Server.PaddingRefused | server.py:18-25 | a question with whitespace before or after it gets the refusal: nothing is trimmed |
| Server.UndefinedQueryDatabaseDropsConnection | server.py:18-27 | with query_database raising, any refused messages get the refusal, and the first supported question, whichever it is, ends the session with no response to it |
| Server.ServeOne | server.py:13-27 | one turn of the loop does the first step of Session: it stops with Session's end reason and sends nothing, or sends Session's first response and consumes one message |
| Server.ServeTurns | server.py:12-27 | the loop sends exactly Session's responses, consumes exactly the entries Session reads, and ends for Session's reason |
| Server.ListenOnTcp | server.py:9-30 | as ServeTurns, and the socket is closed exactly once, whichever way the loop ends |
| Server.ServerPort | server.py:37-42 | a port line is accepted exactly when it is all ASCII digits with a value in 1..65535, and then has that value |
| Server.BindAddress | server.py:35-42 | there is a bind address exactly when the port is accepted; the host is the one entered, or "0.0.0.0" when none was; the port is the accepted value |
| Server.ServerPortOfDecimal | server.py:38-42 | every port in 1..65535 spelled in decimal, with any leading zeros, is accepted with its value; 0 and values above 65535 are refused |
| Server.ServerPortIsUntrimmed | server.py:38 | a port with a leading space, a trailing newline or a plus sign is refused |
| Wire.ExitWordIsLowerExit | server.py:14 | the exit test holds exactly when the lowered text equals "exit" |
| Wire.Frames | server.py:13 | the framing assumption, not a model of recv: each text sent is delivered by exactly one recv, in order (see Left out) |
| Wire.Socket.Recv | server.py:13 | recv yields the next entry of the inbox, or the empty text once it is used up, and consumes it |
| Wire.Socket.Send | server.py:27 | send appends the whole text to what was sent, and changes nothing else |
| Wire.Socket.Close | server.py:29 | close is counted once, and changes nothing else |
| Client.Resolve | client.py:62-79 | exit in any case quits; a number n in 1..3 sends query n; the exact text of a query sends it; anything else is refused; whatever is sent is a valid query |
| Client.ResolveIgnoresPadding | client.py:62 | whitespace around the typed line never changes the choice |
| Client.ResolveNumber | client.py:70-72 | n in decimal, with any leading zeros, sends query n for n in 1..3; 0 and 4 on are refused |
| Client.ResolveQueryText | client.py:73-75 | the exact text of a valid query, padded or not, is sent unchanged |
| Client.Conversation | client.py:53-89 | the loop never sends more queries than lines were typed |
| Client.ClientSession | client.py:53-89 | process_query sends at most one query per typed line |
| Client.ClientSendsOnlyValidQueries | client.py:70-82 | every text the client sends is one of its valid queries |
| Client.RetryContinues | client.py:76-79 | a refused line sends nothing, and the loop goes on with the next line |
| Client.QuitStops | client.py:64-67 | the exit word ends the loop before anything more is sent |
| Client.SendThenContinue | client.py:81-86 | a line that picks a query sends it, and the loop goes on after reading the reply |
| Client.Turn | client.py:62-86 | one turn does the first step of Conversation: quit, refuse and send nothing, or send the chosen query and consume one reply |
| Client.QueryTurns | client.py:53-86 | the loop sends exactly what Conversation sends, in order, consumes one reply per query, and ends for Conversation's reason |
| Client.ProcessQuery | client.py:44-89 | nothing happens without a socket; otherwise the loop does what ClientSession says and the socket is closed exactly once |
| Client.ClientPort | client.py:21-30 | the port is always in 1..65535; an empty line gives 8000; an int() value in range is used; otherwise 8000 |
| Client.ConnectAddress | client.py:19-30 | the host is the one entered, or "127.0.0.1" when none was; the port is ClientPort's |
| Client.ClientPortOfDecimal | client.py:23-25 | a decimal port with whitespace int() skips around it is used when in range; otherwise 8000 |
| Client.ClientPortFallbacks | client.py:23-30 | a negative port, or a blank line, gives 8000 |
| Client.ClientPortRefusesSeparator | client.py:23-30 | a separator 0x1C-0x1F before or after the port makes int() raise, so the port is 8000 |
| Interop.TablesAgree | client.py:7-11 | the client's valid queries are, in order and character for character, the server's three questions; none is refused or ends a session |
| Interop.ServerAnswersValidQueries | server.py:12-27 | on a stream of valid queries, the server reads them in order, never ends by a recv fault, dispatches each to query_database, and answers them all if it ends normally |
| Interop.ServerAnswersEveryClientQuery | client.py:70-82 | whatever the client's loop sends, the server reads in order, answers through query_database, and never refuses |
| PyStr.Strip | client.py:62 | the result is no longer than the input, and neither begins nor ends with str.isspace whitespace |
| PyStr.StripIgnoresPadding | client.py:62 | whitespace around a text does not change its strip |
| PyStr.StripPadded | client.py:62 | a text that neither begins nor ends with whitespace comes back out of its padding unchanged |
| PyStr.StripIdempotent | client.py:62 | stripping twice is stripping once |
| PyStr.Lower | server.py:14 | the same length; each ASCII capital becomes its small letter; every other character is kept |
| PyStr.Str | client.py:57-58 | the menu number i as printed is a digit string, with no leading zero above 0; the lemmas use it for a number the user types back |
| PyStr.StrRoundTrip | client.py:70 | reading back the digits of str(n) gives n |
| PyStr.LeadingZeros | client.py:70 | leading zeros add nothing to the value of a digit string |
| PyStr.Int | client.py:23 | int() of a blank text raises |
| PyStr.IntOfStr | client.py:23 | int() reads back the decimal spelling of n, whatever whitespace int() skips surrounds it |
| PyStr.IntRefusesSeparator | client.py:23 | a separator 0x1C-0x1F before or after the text, which str.strip would remove, makes int() raise |
| PyStr.IntOfNegated | client.py:23 | int() accepts a leading minus sign |

## Left out

- The 1024-byte recv size is not modelled: each recv yields one whole text, so messages are never split, joined or truncated, and decoding is not modelled beyond a fault.
- Faults of `send` and partial sends are not modelled: every send succeeds at once. After the server has closed, the client's next `send` could raise; here it succeeds and the next reply reads as empty.
- `accept`, `bind`, `listen` and `connect`, and their failures, are not modelled. BindAddress and ConnectAddress give the address that would be used.
- One thread per connection and the `KeyboardInterrupt` shutdown of `launch_tcp_threads` are not modelled: they are about concurrency.
- The prompts and the printing of the menu, of errors and of replies are not modelled. Only the lines `input()` returns matter, and the client ignores what a reply says.
- What `query_database` computes is not modelled. It is undefined in the source, and the averaging helpers are commented out, so it is a parameter. `testdbconnection.py` is MongoDB I/O and is not part of this model.
- Python's string operations are modelled on ASCII only. `int()` maps non-ASCII whitespace to a space before skipping it; that too is outside the model. Non-ASCII whitespace, Unicode digits such as "²" (`isdigit` is true, `int` raises) and Unicode case mapping are not modelled.
- Server.ServerPort: does not model CPython's limit of 4300 digits for `int()` (3.11 and later, and security backports). Above it `int()` raises ValueError out of `create_tcp_socket`; the model returns None as for any refused port.
- Server.ServerPortOfDecimal: states acceptance for any number of leading zeros; CPython counts them towards the 4300-digit limit and would raise.
- Client.Resolve: does not model the 4300-digit limit either. A longer digit line makes `int()` raise out of `process_query`, whose finally clause closes the socket; the model refuses the line and goes on.
- Client.ResolveNumber: states the choice for any number of leading zeros; past 4300 digits CPython raises instead.
- Client.ClientPort: past 4300 digits CPython's ValueError is caught and gives 8000. The model reads the value instead, so a line of more than 4300 digits with a value in range, possible only with leading zeros, gives that value.
- A peer that never closes and never sends is not modelled: the inbox is finite, and the empty text ends every session once it is used up.
- Client.Conversation: its own contract only bounds what is sent. What it means is stated by Client.QueryTurns, Client.ClientSendsOnlyValidQueries and the step lemmas.
- Server.Session: its own contract only bounds what is read and sent. What it means is stated by Server.SessionRespondsInOrder, Server.StopsAtFirstTerminator and the other lemmas.
- PyStr.Int: its own contract only covers blank input. Its behaviour on numbers is stated by PyStr.IntOfStr and PyStr.IntOfNegated. Underscores between digits are accepted as int() accepts them, but no lemma states that separately.
