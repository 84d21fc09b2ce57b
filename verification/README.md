# UDP chat: wire codec, server register and client loops

This project models, in Dafny, the core of a small UDP chat system written
in C (`AdvCommNet/chat`). A server keeps a register of up to ten clients,
indexed by client identity (CID). Clients exchange text datagrams of the
form `"<cid> <str1> <str2>"`:

- `0 JOIN <name>` asks to join;
- `-k QUIT <name>` leaves;
- `k <name> <text>` is a chat line.

The server answers every join it can serve, every quit and every chat line
by broadcasting to all connected clients, in ascending identity order:

- a join acknowledgement `i JOIN <name>`, when a slot is free (a join on a full register sends nothing);
- a quit acknowledgement `k QUIT <name>`;
- the chat line, re-encoded from the message the server decoded: the whitespace between fields becomes one space, the newline and anything after it are dropped, and the last field is cut to 79 characters.

A client repeats join requests until it reads its own acknowledgement. It
then sends typed lines as chat text and shows what the others say, until a
line starting with `QUIT`.

The model has six modules:

- `Wrappers`: the `Option` type.
- `CFormat`: the C library behaviour the wire format depends on: `isspace`, `sprintf("%i")`, and `sscanf`'s `%i`, `%s` and `%W[^\n]` conversions.
- `ChatUtil` (`chatUtil.h`, plus the `sprintf` step of both `sendMessage` functions): constants, `struct message`, encoding (`FormatMessage`) and decoding (`ParseMessage`).
- `ChatServer` (`chatServer.c`): the register as a sequence of `Option<Slot>`, and the handling of one datagram as a pure step. The step returns the new register and the sends it made, in order.
- `ChatClient` (`chatClient.c`): the three request builders, `receiveServerMessage`, and the two loops of `startClient`. The loops are pure functions of the datagrams and input lines they read.
- `ChatSession`: the client and the server together. It covers the join, chat and quit handshakes, and a two-client scenario: A and B join, A says "hi", A quits, and C reuses identity 1.

Decoding returns `None` in three cases:

- a conversion that does not match, where the C code goes on with uninitialised fields;
- a `%s` token of 80 characters or more, which overruns `rstr1` in the C code;
- `%i` input with an octal or hexadecimal prefix, or beyond a 32-bit `int`, which the C library reads in another base or with undefined overflow.

The model treats all of these datagrams as malformed: the server drops them and the client ignores them.

## Model

| member | source | states |
|---|---|---|
| CFormat.IntToDecimal | AdvCommNet/chat/chatClient.c:218-219 | `%i` renders a value with a leading minus sign exactly when it is negative |
| CFormat.Wrap32 | AdvCommNet/chat/chatServer.c:149 | a value reduced to a 32-bit `int` fits one, is congruent to the exact value modulo 2^32, and is the value itself when it already fits |
| CFormat.Negate32 | AdvCommNet/chat/chatServer.c:149 | `-1 * x` on an `int` stays an `int`, and is the exact negation for every `int` except INT_MIN |
| CFormat.NegateWraps | AdvCommNet/chat/chatClient.c:207 | `-1 * x` on an `int` is the exact negation wrapped into 32 bits, INT_MIN included |
| CFormat.ScanInt | AdvCommNet/chat/chatUtil.h:71 | a `%i` match yields a 32-bit value, and the rest of the input is empty or starts with a non-digit |
| CFormat.IntToDecimalLength | AdvCommNet/chat/chatServer.c:178-179 | an `int` renders in at most 11 characters |
| CFormat.ScanIntOf | AdvCommNet/chat/chatUtil.h:71 | `%i` skips leading whitespace and reads back any 32-bit value `%i` wrote, stopping before the next non-digit |
| ChatUtil.ScanToken | AdvCommNet/chat/chatUtil.h:71 | a ` %s` match is a non-empty, whitespace-free token that fits `rstr1`, and the input after it is empty or starts with whitespace |
| ChatUtil.ScanLine | AdvCommNet/chat/chatUtil.h:71 | a ` %W[^\n]` match is non-empty, starts with a non-space, holds no newline and has at most W characters |
| ChatUtil.ScanTokenOf | AdvCommNet/chat/chatUtil.h:71 | ` %s` skips whitespace and reads back a whitespace-free token shorter than 80 characters |
| ChatUtil.ScanLineOf | AdvCommNet/chat/chatUtil.h:71 | ` %W[^\n]` skips whitespace and reads a line up to the newline or W characters |
| ChatUtil.FormatMessage | AdvCommNet/chat/chatClient.c:214-219 | the encoded text of any `struct message` fits the 240-byte datagram buffer with its terminator |
| ChatUtil.Parse | AdvCommNet/chat/chatUtil.h:65-78 | a decoded message has a 32-bit identity, a token as `str1`, and a non-empty `str2` with no newline and at most W characters |
| ChatUtil.ParseMessageAsWritten | AdvCommNet/chat/chatUtil.h:65-78 | with width 80, `str1` fits its field but `str2` may hold 80 characters |
| ChatUtil.ParseMessage | AdvCommNet/chat/chatUtil.h:65-78 | with width 79, every decoded message fits `struct message` and is one whose encoding decodes to itself |
| ChatUtil.ParseLayout | AdvCommNet/chat/chatUtil.h:71 | any leading whitespace and any whitespace between the fields are accepted; the last field ends at a newline or after W characters |
| ChatUtil.RoundTrip | AdvCommNet/chat/chatUtil.h:65-78 | decoding an encoded message gives it back when `str1` is a token and `str2` is a line field |
| ChatUtil.ParseThenFormat | AdvCommNet/chat/chatUtil.h:65-78 | re-encoding a decoded message and decoding again gives the same message |
| ChatUtil.ParseTruncates | AdvCommNet/chat/chatUtil.h:71 | a last field longer than 79 characters is cut to its first 79 |
| ChatUtil.AsWrittenStr2Overflows | AdvCommNet/chat/chatUtil.h:69-71 | the as-written conversion stores an 80-character `str2`, which with its terminator overflows `rstr2[80]` |
| ChatUtil.BoundedStr2Fits | AdvCommNet/chat/chatUtil.h:69-71 | the same datagram decoded with width 79 yields a `str2` that fits |
| ChatUtil.ControlWords | AdvCommNet/chat/chatUtil.h:40-51 | JOIN and QUIT differ and are tokens; the join code is 0 and the capacity is 10 |
| ChatServer.Initialize | AdvCommNet/chat/chatServer.c:57-62 | the initial register is well formed with no client connected |
| ChatServer.BroadcastFrom | AdvCommNet/chat/chatServer.c:165-172 | the loop from slot i sends the message only to connected slots numbered i or more, at their stored addresses, in ascending order |
| ChatServer.BroadcastFromCovers | AdvCommNet/chat/chatServer.c:165-172 | the loop from slot i sends to every connected slot numbered i or more; there is one send per connected slot |
| ChatServer.SendBcastMessage | AdvCommNet/chat/chatServer.c:165-172 | the broadcast sends to exactly the connected clients, in ascending order, each at its stored address |
| ChatServer.FreeSlotFrom | AdvCommNet/chat/chatServer.c:128-138 | the scan from slot i finds the first free slot at or after i; it finds none exactly when all of them are connected |
| ChatServer.FreeSlot | AdvCommNet/chat/chatServer.c:128-138 | `addClient` picks the smallest free identity in 1..10; it finds none exactly when the register is full |
| ChatServer.SendJoinAck | AdvCommNet/chat/chatServer.c:157-163 | the join acknowledgement is broadcast to every connected client, and the client that joined is among them |
| ChatServer.Allocate | AdvCommNet/chat/chatServer.c:124-138 | the smallest free slot takes the sender's address and name; every other slot is unchanged; a full register is unchanged |
| ChatServer.AddClient | AdvCommNet/chat/chatServer.c:124-145 | a successful join broadcasts the acknowledgement for the allocated identity; when the register is full, nothing is sent |
| ChatServer.Release | AdvCommNet/chat/chatServer.c:154 | releasing slot k disconnects k and leaves every other slot as it was |
| ChatServer.RemoveClientAsWritten | AdvCommNet/chat/chatServer.c:147-155 | for k in 1..10, "k QUIT name" goes to every client connected before the release, then slot k is released |
| ChatServer.RemoveClient | AdvCommNet/chat/chatServer.c:147-155 | "k QUIT name", with k = `-1 * cid` in `int` arithmetic, goes to every connected client; slot k is then released when k is in 1..10, and the register is unchanged when k is beyond it |
| ChatServer.QuitBeyondRegister | AdvCommNet/chat/chatServer.c:117-118 | the datagram "-11 QUIT x" decodes to a quit request for identity 11, one past the end of the register |
| ChatServer.Classify | AdvCommNet/chat/chatServer.c:115-117 | a message from a positive identity is always chat text; a request needs the join code or a negative identity, together with JOIN or QUIT |
| ChatServer.ClassifyCases | AdvCommNet/chat/chatServer.c:115-121 | a message is a join exactly when its cid is 0 and `str1` is JOIN, and a quit exactly when its cid is negative and `str1` is QUIT; everything else is chat text |
| ChatServer.ReceiveClientMessage | AdvCommNet/chat/chatServer.c:115-121 | joins go to `addClient` and quits to `removeClient`; chat text is broadcast unchanged and leaves the register as it was; every send carries an encodable message |
| ChatServer.ReceiveDatagram | AdvCommNet/chat/chatServer.c:101-121 | a datagram that does not decode leaves the register unchanged and sends nothing |
| ChatServer.Serve | AdvCommNet/chat/chatServer.c:96-98 | serving datagrams one at a time keeps the register well formed, and every send is encodable |
| ChatServer.ServeConcat | AdvCommNet/chat/chatServer.c:96-98 | serving two batches in turn is the same as serving their concatenation |
| ChatServer.BroadcastExactlyOnce | AdvCommNet/chat/chatServer.c:165-172 | an identity is sent to exactly when it is connected, and at most once |
| ChatServer.BroadcastReaches | AdvCommNet/chat/chatServer.c:165-172 | every connected client receives the broadcast message at its stored address |
| ChatServer.JoinerReceivesOwnAck | AdvCommNet/chat/chatServer.c:124-163 | the client that joins receives its own acknowledgement, at the address it sent from |
| ChatServer.QuitterReceivesOwnAck | AdvCommNet/chat/chatServer.c:147-155 | a connected client that quits receives its own quit acknowledgement, because the broadcast comes before the release |
| ChatServer.ReleaseIsIdempotent | AdvCommNet/chat/chatServer.c:154 | releasing a slot that is not connected changes nothing, so releasing twice is the same as releasing once |
| ChatServer.ReleasedSlotIsReused | AdvCommNet/chat/chatServer.c:128-138 | after identity k is released, the next join gets k, provided every smaller identity is still connected |
| ChatServer.JoinAll | AdvCommNet/chat/chatServer.c:124-138 | a run of joins from the initial register keeps it well formed |
| ChatServer.AllocateNext | AdvCommNet/chat/chatServer.c:128-138 | when slots 1..n hold the first n joins, the next join gets n + 1 and the slots stay filled in order |
| ChatServer.SequentialJoins | AdvCommNet/chat/chatServer.c:128-138 | up to 10 successive joins get identities 1, 2, 3, … in arrival order |
| ChatServer.JoinWhenFullIsIgnored | AdvCommNet/chat/chatServer.c:128-144 | after 10 joins a further join changes nothing and sends nothing |
| ChatClient.JoinChat | AdvCommNet/chat/chatClient.c:178-185 | the join request decodes to itself when the name is a valid last field |
| ChatClient.SendText | AdvCommNet/chat/chatClient.c:196-203 | a text request decodes to itself when the identity is an `int`, the name a token, and the line a valid last field |
| ChatClient.QuitChat | AdvCommNet/chat/chatClient.c:205-212 | the quit request of a positive identity carries a negative one, and decodes to itself when the name is a valid last field |
| ChatClient.JoinRequestText | AdvCommNet/chat/chatClient.c:178-185 | `joinChat` sends "0 JOIN <name>" |
| ChatClient.TextRequestText | AdvCommNet/chat/chatClient.c:196-203 | `sendText` sends "<cid> <name> <line>" |
| ChatClient.QuitRequestText | AdvCommNet/chat/chatClient.c:205-212 | `quitChat` sends "-<cid> QUIT <name>" |
| ChatClient.ReceiveServerMessage | AdvCommNet/chat/chatClient.c:142-176 | returns a non-zero value only for the acknowledgement of the client's own join, and then the identity it carries; chat text is shown exactly when its cid differs from the client's own |
| ChatClient.NoticesShown | AdvCommNet/chat/chatClient.c:154-167 | a join notice about another client is shown as "CID=i name joined" and a quit notice as "CID=i name quit", both returning 0; an undecodable datagram shows nothing |
| ChatClient.JoinLoop | AdvCommNet/chat/chatClient.c:78-82 | the joining loop sends one join request per datagram it waits for; it reads every datagram while no identity is assigned |
| ChatClient.JoinLoopStep | AdvCommNet/chat/chatClient.c:78-82 | one turn of the loop stops at a datagram that yields an identity, and otherwise continues with the rest |
| ChatClient.JoinLoopTakesAck | AdvCommNet/chat/chatClient.c:80-81 | the identity the loop ends with is the one the last datagram it read yielded |
| ChatClient.JoinLoopWaitsForAck | AdvCommNet/chat/chatClient.c:78-82 | every datagram read before the last yields no identity |
| ChatClient.IsQuitLine | AdvCommNet/chat/chatClient.c:90 | a line ends the session exactly when it starts with QUIT, whatever follows |
| ChatClient.LinesBeforeQuit | AdvCommNet/chat/chatClient.c:88-94 | the lines read before the first QUIT line, in order; none of them starts with QUIT |
| ChatClient.JoinedLoop | AdvCommNet/chat/chatClient.c:83-100 | every message the joined loop sends carries the client's identity and name, and none carries a QUIT line |
| ChatClient.JoinedLoopSendsEveryLine | AdvCommNet/chat/chatClient.c:88-94 | the joined loop sends exactly the lines read before the first QUIT line, each through `sendText`, in order |
| ChatClient.JoinedLoopShowsEveryDatagram | AdvCommNet/chat/chatClient.c:96-98 | the joined loop shows exactly what `receiveServerMessage` shows for each datagram received before the first QUIT line, in order |
| ChatClient.JoinedLoopQuits | AdvCommNet/chat/chatClient.c:88-92 | the joined loop ends through QUIT exactly when a line starting with QUIT is read |
| ChatClient.OwnTextNeverShown | AdvCommNet/chat/chatClient.c:168-172 | no chat line the client shows carries its own identity |
| ChatClient.StartClient | AdvCommNet/chat/chatClient.c:60-102 | a client session always starts with the request "0 JOIN <name>" |
| ChatClient.SessionUsesIdentity | AdvCommNet/chat/chatClient.c:78-101 | before an identity is assigned the client sends only join requests; after that, every message except the final quit carries its identity and name |
| ChatClient.SessionSendsEveryLine | AdvCommNet/chat/chatClient.c:78-101 | a joined session sends its join requests, then every line read before QUIT as chat text under its identity, then the quit request if it ended |
| ChatClient.LinesBeforeQuitFit | AdvCommNet/chat/chatClient.c:89 | when every line read fits an 80-byte buffer with its terminator, so does every line the joined loop sends |
| ChatClient.JoinLoopIdentityFits | AdvCommNet/chat/chatClient.c:80-81 | the identity the joining loop ends with is a 32-bit value, since it is the identity of a decoded acknowledgement |
| ChatClient.SessionSendsFit | AdvCommNet/chat/chatClient.c:214-219 | with a name and lines that fit their fields, every message the client sends fits `struct message`, so `sendMessage` can encode it |
| ChatClient.SessionEndsOnQuit | AdvCommNet/chat/chatClient.c:83-101 | the session ends exactly when the client has joined and a QUIT line is read |
| ChatClient.QuitIsLast | AdvCommNet/chat/chatClient.c:101 | a session that ends sends exactly one "-cid QUIT <name>", and it is the last message |
| ChatSession.ClientRequestsClassified | AdvCommNet/chat/chatServer.c:115-121 | the server classifies the client's join, text and quit requests as the client meant them, once the client has a positive identity |
| ChatSession.DatagramOfMessage | AdvCommNet/chat/chatServer.c:109-121 | the server handles an encoded message exactly as it handles the message itself |
| ChatSession.JoinHandshake | AdvCommNet/chat/chatClient.c:78-82 | the join request decodes to itself; the server sends the acknowledgement for the smallest free identity to the joiner's address; the client takes that identity |
| ChatSession.TypedLineDecodes | AdvCommNet/chat/chatClient.c:89-94 | a typed line is sent with its newline, and the server receives the text without it |
| ChatSession.ChatLineDelivered | AdvCommNet/chat/chatServer.c:119-121 | when the sender's name is neither JOIN nor QUIT, a chat line reaches every connected client unchanged; its sender does not show it, and every other client shows it with the sender's identity and name |
| ChatSession.QuitNamedChatMisread | AdvCommNet/chat/chatClient.c:154-167 | chat text from a client named QUIT is chat text to the server, because its identity is positive, but every other client shows it as that client's quit notice |
| ChatSession.QuitRequestDecodes | AdvCommNet/chat/chatClient.c:205-212 | a connected client's quit request decodes to itself |
| ChatSession.QuitReleasesSlot | AdvCommNet/chat/chatServer.c:147-155 | a connected client's quit is acknowledged to every client connected before it, and frees only that client's slot |
| ChatSession.ScenarioJoins | AdvCommNet/chat/chatServer.c:124-145 | A joins and gets 1; B joins and gets 2; A and B both receive B's acknowledgement |
| ChatSession.ScenarioText | AdvCommNet/chat/chatServer.c:119-121 | A's "hi" reaches both A and B |
| ChatSession.ScenarioDisplay | AdvCommNet/chat/chatClient.c:168-172 | A does not show its own "hi"; B shows `CID=1 A says "hi"` |
| ChatSession.ScenarioQuit | AdvCommNet/chat/chatServer.c:147-155 | A's quit is acknowledged to A and B, and only identity 2 stays connected |
| ChatSession.ScenarioRejoin | AdvCommNet/chat/chatServer.c:128-138 | C joins next and gets the freed identity 1; B is told |

## Left out

- Sockets, `select`, `sendto` and `recvfrom` are not modelled. The code that sets them up (`makeClientSocket`, `getServer`, and the socket creation and `bind` at the start of `startServer`, whose receive loop is `Serve`) and the argument checks in both `main` functions are left out too. The model takes the datagrams received and the lines read as inputs, and returns the sends as outputs. Send failures are ignored, as the C code ignores them.
- `getCDN`, the client's display name built from its process id and host name, is a parameter of `StartClient`.
- `pDebug` and every `printf` are left out. What `receiveServerMessage` prints is modelled as a `Display` value.
- Addresses are opaque values compared only for equality.
- Strings are character sequences with no NUL byte. A NUL inside a datagram, which would cut it short in C, is not modelled.
- A model `char` stands for one C byte: every width and bound (`char[80]`, `%80[^\n]`, the 240-byte datagram buffer) counts characters as bytes, and text that is multibyte in some encoding is modelled byte by byte. A string of wide characters that meets `FitsField` does not fit the C buffer.
- Payloads of 240 bytes or more are outside the model. `recvfrom` cuts them to 240 bytes and leaves the buffer with no terminator; the model decodes a payload of any length.
- CFormat.ScanInt: `%i` input with an octal (`0…`) or hexadecimal (`0x…`) prefix, and values beyond a 32-bit `int`, scan as no match. The C library would read them in another base, or with undefined overflow.
- ChatUtil.ParseMessage: every input on which `sscanf` matches only partly, leaving fields uninitialised, decodes to `None`, and the server and the client drop it. The C code goes on with whatever was on the stack; the model does not say what that would do.
- ChatServer.RemoveClient: for an identity beyond 1..10 the C code clears an entry outside `clientRegister`, after the broadcast. The model sends the broadcast and skips the release; it does not say what the write outside the array would do. See Findings.
- CFormat.Negate32: `-1 * INT_MIN` is undefined behaviour in C. The model takes the two's-complement result, INT_MIN.
- ChatServer.Initialize: `initialize` clears entries 0..9 only. Entry 10 starts cleared anyway, because the register is a zero-initialised global. The model starts with every entry free.
- Typed lines of 80 bytes or more are outside the model. `read` at chatClient.c:89 delivers at most 80 bytes, so such a line arrives in pieces, and an 80-byte piece has no terminator. The model sends each line whole, and promises encodable sends (ChatClient.SessionSendsFit) only for lines that fit their field.
- Between successive `read` calls the client's line buffer keeps stale bytes, because `read` does not terminate the line. The model takes each line as the exact text typed, newline included.
- The exact wire text of `JoinChat`, `SendText` and `QuitChat` is stated by the `…RequestText` lemmas. How the server reads these requests is stated by ChatSession.ClientRequestsClassified and the handshake lemmas.
- `select` can report both standard input and the socket ready. The model serves standard input first, as the C code does. Readiness itself is an input (`Wake`).

## Findings

| source | as written | input that shows it | evidently intended | confidence | as-written member | corrected member |
|---|---|---|---|---|---|---|
| AdvCommNet/chat/chatUtil.h:69-71 | `%80[^\n]` stores up to 80 characters plus a terminator into `char rstr2[80]` | the datagram "1 a " followed by 80 `x` characters | read at most 79 characters, so `str2` fits its buffer | not executed | ChatUtil.AsWrittenStr2Overflows | ChatUtil.BoundedStr2Fits |
| AdvCommNet/chat/chatServer.c:147-155 | `removeClient` clears `clientRegister[-1 * cid]` with no range check | the datagram "-11 QUIT x" from any sender | the quit is acknowledged, and the release is skipped for an identity outside 1..10 | not executed | ChatServer.QuitBeyondRegister | ChatServer.RemoveClient |

The rest of the model uses the corrected definitions: `ParseMessage` with width 79, and `RemoveClient`, which acknowledges a quit for an out-of-range identity but releases nothing.
