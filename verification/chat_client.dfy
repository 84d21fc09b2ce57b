/** The chat client (chatClient.c): the three requests it builds, its
    reading of server datagrams, and the two loops of `startClient` — join
    until an identity is assigned, then chat until a line starting with
    QUIT — as pure functions from the inputs read to the messages sent and
    the lines displayed. */
module ChatClient {
  import opened Wrappers
  import opened CFormat
  import opened ChatUtil

  /** The client's `struct clientInformation`: `connected` is its identity,
      0 until assigned; `address` is the server's; `hostname` is the display
      name, an opaque string here. */
  datatype ClientInformation = ClientInformation(connected: int, address: Address, hostname: string)

  /** `joinChat`: "0 JOIN <name>". A name that the last field of the
      format reads back makes a request that decodes to itself. */
  function JoinChat(info: ClientInformation): (m: Message)
    ensures IsLineField(info.hostname) ==> WireSafe(m)
  {
    Message(JOIN_CID_CODE, JOIN_STRING, info.hostname)
  }

  /** `sendText`: "<id> <name> <line>". The request decodes to itself when
      the name is a token and the line a last field. */
  function SendText(info: ClientInformation, line: string): (m: Message)
    ensures IsInt32(info.connected) && IsToken(info.hostname) && IsLineField(line) ==> WireSafe(m)
  {
    Message(info.connected, info.hostname, line)
  }

  /** `quitChat`: "-<id> QUIT <name>", the identity negated in `int`
      arithmetic. The identity is negative for every positive identity, and
      the request decodes to itself when the name is a last field. */
  function QuitChat(info: ClientInformation): (m: Message)
    ensures info.connected > 0 ==> m.cid < 0
    ensures IsInt32(info.connected) && IsLineField(info.hostname) ==> WireSafe(m)
  {
    Message(Negate32(info.connected), QUIT_STRING, info.hostname)
  }

  /** The datagram `joinChat` sends: "0 JOIN <name>". */
  lemma JoinRequestText(info: ClientInformation)
    requires FitsField(info.hostname)
    ensures FormatMessage(JoinChat(info)) == "0 JOIN " + info.hostname
  {
    var h := info.hostname;
    assert IntToDecimal(0) == "0";
    assert FormatMessage(JoinChat(info)) == "0" + (" " + ("JOIN" + (" " + h)));
    assert "0" + (" " + ("JOIN" + (" " + h))) == "0 JOIN " + h;
  }

  /** The datagram `sendText` sends: "<id> <name> <line>". */
  lemma TextRequestText(info: ClientInformation, line: string)
    requires IsInt32(info.connected) && FitsField(info.hostname) && FitsField(line)
    ensures FormatMessage(SendText(info, line)) == IntToDecimal(info.connected) + " " + info.hostname + " " + line
  {
    var c := IntToDecimal(info.connected);
    var h := info.hostname;
    assert FormatMessage(SendText(info, line)) == c + (" " + (h + (" " + line)));
    assert c + (" " + (h + (" " + line))) == c + " " + h + " " + line;
  }

  /** The datagram `quitChat` sends for a positive identity k: "-k QUIT <name>". */
  lemma QuitRequestText(info: ClientInformation)
    requires 0 < info.connected <= INT_MAX && FitsField(info.hostname)
    ensures FormatMessage(QuitChat(info)) == "-" + NatToDecimal(info.connected) + " QUIT " + info.hostname
  {
    var d := NatToDecimal(info.connected);
    var h := info.hostname;
    var tail := " " + ("QUIT" + (" " + h));
    assert tail == " QUIT " + h;
    assert IntToDecimal(-info.connected) == "-" + d;
    assert FormatMessage(QuitChat(info)) == ("-" + d) + tail;
  }

  /** What `receiveServerMessage` prints. */
  datatype Display =
    | Assigned(cid: int)
    | Joined(cid: int, name: string)
    | Left(cid: int, name: string)
    | Says(cid: int, name: string, text: string)

  /** The return value of `receiveServerMessage` and what it printed. */
  datatype Received = Received(ret: int, shown: Option<Display>)

  /** The datagram is the server's acknowledgement of this client's own join. */
  predicate IsOwnJoinAck(info: ClientInformation, payload: string) {
    && ParseMessage(payload).Some?
    && ParseMessage(payload).value.str1 == JOIN_STRING
    && ParseMessage(payload).value.str2 == info.hostname
  }

  /** The datagram is chat text, neither a join nor a quit notice. */
  predicate IsChatText(payload: string) {
    && ParseMessage(payload).Some?
    && ParseMessage(payload).value.str1 != JOIN_STRING
    && ParseMessage(payload).value.str1 != QUIT_STRING
  }

  /** `receiveServerMessage` on a received datagram. It returns an identity
      only for the acknowledgement of this client's own join, and then the
      one it carries; 0 for everything else. Chat text from this client's
      own identity is not displayed; chat text from any other is. A datagram
      that does not decode is ignored. */
  function ReceiveServerMessage(info: ClientInformation, payload: string): (r: Received)
    ensures r.ret != 0 ==> IsOwnJoinAck(info, payload)
    ensures IsOwnJoinAck(info, payload) ==> r.ret == ParseMessage(payload).value.cid
    ensures IsChatText(payload) ==>
              (ParseMessage(payload).value.cid == info.connected <==> r.shown.None?)
    ensures IsChatText(payload) && r.shown.Some? ==>
              var m := ParseMessage(payload).value;
              r.shown.value == Says(m.cid, m.str1, m.str2)
    ensures r.shown.Some? && r.shown.value.Says? ==> r.shown.value.cid != info.connected
  {
    match ParseMessage(payload)
    case None => Received(0, None)
    case Some(m) =>
      if m.str1 == JOIN_STRING then
        if m.str2 == info.hostname then Received(m.cid, Some(Assigned(m.cid)))
        else Received(0, Some(Joined(m.cid, m.str2)))
      else if m.str1 == QUIT_STRING then
        Received(0, Some(Left(m.cid, m.str2)))
      else if m.cid != info.connected then
        Received(0, Some(Says(m.cid, m.str1, m.str2)))
      else
        Received(0, None)
  }

  /** Join and quit notices about other clients are displayed with the
      identity and name they carry, and change nothing; a datagram that does
      not decode displays nothing. */
  lemma NoticesShown(info: ClientInformation, payload: string)
    ensures ParseMessage(payload).None? ==> ReceiveServerMessage(info, payload) == Received(0, None)
    ensures var m := ParseMessage(payload);
            m.Some? && m.value.str1 == JOIN_STRING && m.value.str2 != info.hostname ==>
              ReceiveServerMessage(info, payload) == Received(0, Some(Joined(m.value.cid, m.value.str2)))
    ensures var m := ParseMessage(payload);
            m.Some? && m.value.str1 == QUIT_STRING ==>
              ReceiveServerMessage(info, payload) == Received(0, Some(Left(m.value.cid, m.value.str2)))
  {
  }

  function Shown(r: Received): seq<Display> {
    if r.shown.Some? then [r.shown.value] else []
  }

  /** The result of the joining loop: the identity it ended with (0 while
      still waiting), how many datagrams it read, what it sent and showed. */
  datatype JoinOutcome = JoinOutcome(connected: int, consumed: nat, sent: seq<Message>, shown: seq<Display>)

  function Ret(info: ClientInformation, payload: string): int {
    ReceiveServerMessage(info, payload).ret
  }

  /** The first loop of `startClient` over the datagrams it receives: send a
      join request, wait for one datagram, and repeat until a datagram
      yields a non-zero identity. */
  function JoinLoop(info: ClientInformation, datagrams: seq<string>): (r: JoinOutcome)
    ensures r.consumed <= |datagrams|
    ensures r.connected == 0 ==> r.consumed == |datagrams|
    ensures |r.sent| == if r.connected != 0 then r.consumed else r.consumed + 1
    ensures forall k :: 0 <= k < |r.sent| ==> r.sent[k] == JoinChat(info)
    decreases |datagrams|
  {
    var join := JoinChat(info);
    if datagrams == [] then
      JoinOutcome(0, 0, [join], [])
    else
      var rcv := ReceiveServerMessage(info, datagrams[0]);
      if rcv.ret != 0 then
        JoinOutcome(rcv.ret, 1, [join], Shown(rcv))
      else
        var more := JoinLoop(info, datagrams[1..]);
        var r := JoinOutcome(more.connected, more.consumed + 1, [join] + more.sent, Shown(rcv) + more.shown);
        assert forall k :: 1 <= k < |r.sent| ==> r.sent[k] == more.sent[k - 1];
        r
  }

  /** One turn of the joining loop: it stops at a datagram that yields an
      identity and otherwise goes on with the rest. */
  lemma JoinLoopStep(info: ClientInformation, datagrams: seq<string>)
    requires datagrams != []
    ensures var r := JoinLoop(info, datagrams);
            Ret(info, datagrams[0]) != 0 ==> r.connected == Ret(info, datagrams[0]) && r.consumed == 1
    ensures var r := JoinLoop(info, datagrams);
            var more := JoinLoop(info, datagrams[1..]);
            Ret(info, datagrams[0]) == 0 ==> r.connected == more.connected && r.consumed == more.consumed + 1
  {
  }

  /** The joining loop ends by taking the identity the last datagram it
      read yields. */
  lemma {:induction false} JoinLoopTakesAck(info: ClientInformation, datagrams: seq<string>)
    ensures var r := JoinLoop(info, datagrams);
            r.connected != 0 ==> 1 <= r.consumed && r.connected == Ret(info, datagrams[r.consumed - 1])
    decreases |datagrams|
  {
    if datagrams != [] {
      JoinLoopStep(info, datagrams);
      if Ret(info, datagrams[0]) == 0 {
        var tail := datagrams[1..];
        JoinLoopTakesAck(info, tail);
        var more := JoinLoop(info, tail);
        if more.connected != 0 {
          assert datagrams[more.consumed] == tail[more.consumed - 1];
        }
      }
    }
  }

  /** Every datagram the joining loop read before its last yields no
      identity, and so does the last when the loop is still waiting. */
  lemma {:induction false} JoinLoopWaitsForAck(info: ClientInformation, datagrams: seq<string>)
    ensures var r := JoinLoop(info, datagrams);
            forall j :: 0 <= j < r.consumed && (r.connected == 0 || j < r.consumed - 1) ==>
              Ret(info, datagrams[j]) == 0
    decreases |datagrams|
  {
    if datagrams != [] {
      JoinLoopStep(info, datagrams);
      if Ret(info, datagrams[0]) == 0 {
        var tail := datagrams[1..];
        JoinLoopWaitsForAck(info, tail);
        assert forall j :: 1 <= j < |datagrams| ==> datagrams[j] == tail[j - 1];
      }
    }
  }

  /** One wake-up of `select` in the joined loop: a line read from standard
      input, a datagram received from the server, or both. */
  datatype Wake = Wake(line: Option<string>, datagram: Option<string>)

  /** `strncmp(buffer, "QUIT", 4) == 0`: the line starts with QUIT,
      whatever follows. */
  function IsQuitLine(line: string): (b: bool)
    ensures b <==> exists rest :: line == QUIT_STRING + rest
  {
    if |line| >= 4 && line[..4] == QUIT_STRING then
      assert line == QUIT_STRING + line[4..];
      true
    else
      false
  }

  predicate QuitAt(wakes: seq<Wake>, k: int)
    requires 0 <= k < |wakes|
  {
    wakes[k].line.Some? && IsQuitLine(wakes[k].line.value)
  }

  /** The result of the joined loop: whether it was left through a QUIT
      line, the chat texts sent, and what was shown. */
  datatype JoinedOutcome = JoinedOutcome(quit: bool, sent: seq<Message>, shown: seq<Display>)

  /** The second loop of `startClient`. Standard input is served first: a
      line starting with QUIT leaves the loop at once, without reading the
      socket; any other line is sent as chat text. Then a ready datagram is
      received and displayed, its return value discarded, so the identity
      never changes. */
  function JoinedLoop(info: ClientInformation, wakes: seq<Wake>): (r: JoinedOutcome)
    ensures forall k :: 0 <= k < |r.sent| ==>
              r.sent[k].cid == info.connected && r.sent[k].str1 == info.hostname
              && !IsQuitLine(r.sent[k].str2)
    decreases |wakes|
  {
    if wakes == [] then
      JoinedOutcome(false, [], [])
    else if QuitAt(wakes, 0) then
      JoinedOutcome(true, [], [])
    else
      var w := wakes[0];
      var more := JoinedLoop(info, wakes[1..]);
      var shown := if w.datagram.Some? then Shown(ReceiveServerMessage(info, w.datagram.value)) else [];
      if w.line.Some? then
        var sent := [SendText(info, w.line.value)] + more.sent;
        assert forall k :: 1 <= k < |sent| ==> sent[k] == more.sent[k - 1];
        JoinedOutcome(more.quit, sent, shown + more.shown)
      else
        JoinedOutcome(more.quit, more.sent, shown + more.shown)
  }

  /** The lines the joined loop reads before the first line starting with
      QUIT, in order; none of them starts with QUIT. */
  function LinesBeforeQuit(wakes: seq<Wake>): (r: seq<string>)
    ensures |r| <= |wakes|
    ensures forall k :: 0 <= k < |r| ==> !IsQuitLine(r[k])
    decreases |wakes|
  {
    if wakes == [] || QuitAt(wakes, 0) then []
    else if wakes[0].line.Some? then [wakes[0].line.value] + LinesBeforeQuit(wakes[1..])
    else LinesBeforeQuit(wakes[1..])
  }

  /** The datagrams the joined loop receives before the first line starting
      with QUIT, in order: the datagram of the wake-up that brings the QUIT
      line is never read. */
  function DatagramsBeforeQuit(wakes: seq<Wake>): (r: seq<string>)
    ensures |r| <= |wakes|
    decreases |wakes|
  {
    if wakes == [] || QuitAt(wakes, 0) then []
    else if wakes[0].datagram.Some? then [wakes[0].datagram.value] + DatagramsBeforeQuit(wakes[1..])
    else DatagramsBeforeQuit(wakes[1..])
  }

  /** What `receiveServerMessage` displays for each of a run of datagrams,
      one after the other. */
  function ShownAll(info: ClientInformation, datagrams: seq<string>): seq<Display>
    decreases |datagrams|
  {
    if datagrams == [] then []
    else Shown(ReceiveServerMessage(info, datagrams[0])) + ShownAll(info, datagrams[1..])
  }

  /** The joined loop sends every line it reads before the QUIT line as
      chat text, in order, and nothing else. */
  lemma {:induction false} JoinedLoopSendsEveryLine(info: ClientInformation, wakes: seq<Wake>)
    ensures var lines := LinesBeforeQuit(wakes);
            JoinedLoop(info, wakes).sent == seq(|lines|, k requires 0 <= k < |lines| => SendText(info, lines[k]))
    decreases |wakes|
  {
    if wakes != [] && !QuitAt(wakes, 0) {
      JoinedLoopSendsEveryLine(info, wakes[1..]);
    }
  }

  /** The joined loop hands every datagram it receives before the QUIT line
      to `receiveServerMessage`, in order, and displays exactly what that
      displays. */
  lemma {:induction false} JoinedLoopShowsEveryDatagram(info: ClientInformation, wakes: seq<Wake>)
    ensures JoinedLoop(info, wakes).shown == ShownAll(info, DatagramsBeforeQuit(wakes))
    decreases |wakes|
  {
    if wakes != [] && !QuitAt(wakes, 0) {
      JoinedLoopShowsEveryDatagram(info, wakes[1..]);
      var rest := DatagramsBeforeQuit(wakes[1..]);
      if wakes[0].datagram.Some? {
        var d := wakes[0].datagram.value;
        assert ([d] + rest)[1..] == rest;
      }
    }
  }

  /** The joined loop is left through a QUIT line exactly when one is read. */
  lemma {:induction false} JoinedLoopQuits(info: ClientInformation, wakes: seq<Wake>)
    ensures JoinedLoop(info, wakes).quit <==> exists k :: 0 <= k < |wakes| && QuitAt(wakes, k)
    decreases |wakes|
  {
    if wakes != [] && !QuitAt(wakes, 0) {
      JoinedLoopQuits(info, wakes[1..]);
      assert forall k :: 1 <= k < |wakes| ==> QuitAt(wakes, k) == QuitAt(wakes[1..], k - 1);
      if exists k :: 0 <= k < |wakes[1..]| && QuitAt(wakes[1..], k) {
        var k :| 0 <= k < |wakes[1..]| && QuitAt(wakes[1..], k);
        assert QuitAt(wakes, k + 1);
      }
    }
  }

  /** The client never displays chat text that carries its own identity:
      every text line it shows comes from another client. */
  lemma {:induction false} OwnTextNeverShown(info: ClientInformation, wakes: seq<Wake>)
    ensures forall d :: d in JoinedLoop(info, wakes).shown && d.Says? ==> d.cid != info.connected
    decreases |wakes|
  {
    if wakes != [] && !QuitAt(wakes, 0) {
      OwnTextNeverShown(info, wakes[1..]);
    }
  }

  /** Everything one run of the client did: the identity it ended with,
      the messages it sent in order, what it displayed, and whether it quit. */
  datatype Session = Session(identity: int, sent: seq<Message>, shown: seq<Display>, ended: bool)

  /** `startClient` after the sockets are set up, given the datagrams read
      while joining and the wake-ups of the joined loop. Its first message
      is always a join request. */
  function StartClient(hostname: string, server: Address, joining: seq<string>, wakes: seq<Wake>): (r: Session)
    ensures r.sent != [] && r.sent[0] == Message(0, JOIN_STRING, hostname)
  {
    var info := ClientInformation(0, server, hostname);
    var j := JoinLoop(info, joining);
    if j.connected == 0 then
      Session(0, j.sent, j.shown, false)
    else
      var joined := info.(connected := j.connected);
      var l := JoinedLoop(joined, wakes);
      var quit := if l.quit then [QuitChat(joined)] else [];
      Session(j.connected, j.sent + (l.sent + quit), j.shown + l.shown, l.quit)
  }

  /** Until an identity is assigned the client sends only join requests;
      afterwards every message carries the identity and the client's name,
      except the closing quit request. */
  lemma SessionUsesIdentity(hostname: string, server: Address, joining: seq<string>, wakes: seq<Wake>)
    ensures var r := StartClient(hostname, server, joining, wakes);
            forall k :: 0 <= k < |r.sent| ==>
              r.sent[k] == Message(0, JOIN_STRING, hostname)
              || (r.identity != 0 && r.sent[k].cid == r.identity && r.sent[k].str1 == hostname)
              || (r.ended && k == |r.sent| - 1)
    ensures var r := StartClient(hostname, server, joining, wakes);
            r.identity == 0 ==> !r.ended && r.shown == JoinLoop(ClientInformation(0, server, hostname), joining).shown
  {
    var info := ClientInformation(0, server, hostname);
    var j := JoinLoop(info, joining);
    if j.connected != 0 {
      var l := JoinedLoop(info.(connected := j.connected), wakes);
      var quit := if l.quit then [QuitChat(info.(connected := j.connected))] else [];
      var sent := j.sent + (l.sent + quit);
      assert forall k :: 0 <= k < |j.sent| ==> sent[k] == j.sent[k];
      assert forall k :: |j.sent| <= k < |j.sent| + |l.sent| ==> sent[k] == l.sent[k - |j.sent|];
    }
  }

  /** Once joined, a session sends its join requests, then every line read
      before the QUIT line as chat text under its identity, in order, and
      then the quit request if it ended. */
  lemma SessionSendsEveryLine(hostname: string, server: Address, joining: seq<string>, wakes: seq<Wake>)
    ensures var r := StartClient(hostname, server, joining, wakes);
            var j := JoinLoop(ClientInformation(0, server, hostname), joining);
            var lines := LinesBeforeQuit(wakes);
            var joined := ClientInformation(r.identity, server, hostname);
            var texts := seq(|lines|, k requires 0 <= k < |lines| => SendText(joined, lines[k]));
            r.identity != 0 ==>
              r.sent == j.sent + (texts + if r.ended then [QuitChat(joined)] else [])
  {
    var info := ClientInformation(0, server, hostname);
    var j := JoinLoop(info, joining);
    if j.connected != 0 {
      var joined := info.(connected := j.connected);
      var l := JoinedLoop(joined, wakes);
      var quit := if l.quit then [QuitChat(joined)] else [];
      assert StartClient(hostname, server, joining, wakes) == Session(j.connected, j.sent + (l.sent + quit), j.shown + l.shown, l.quit);
      JoinedLoopSendsEveryLine(joined, wakes);
    }
  }

  /** Every line is one that a single `read` of MAX_LINE bytes delivers
      with room for a terminator. */
  predicate LinesFit(wakes: seq<Wake>) {
    forall k :: 0 <= k < |wakes| && wakes[k].line.Some? ==> FitsField(wakes[k].line.value)
  }

  /** The lines the joined loop sends fit their field when every line read does. */
  lemma {:induction false} LinesBeforeQuitFit(wakes: seq<Wake>)
    requires LinesFit(wakes)
    ensures forall k :: 0 <= k < |LinesBeforeQuit(wakes)| ==> FitsField(LinesBeforeQuit(wakes)[k])
    decreases |wakes|
  {
    if wakes != [] && !QuitAt(wakes, 0) {
      assert forall k :: 1 <= k < |wakes| ==> wakes[1..][k - 1] == wakes[k];
      LinesBeforeQuitFit(wakes[1..]);
    }
  }

  /** The identity the joining loop ends with is a 32-bit value: it is the
      identity of a decoded acknowledgement. */
  lemma JoinLoopIdentityFits(info: ClientInformation, datagrams: seq<string>)
    ensures IsInt32(JoinLoop(info, datagrams).connected)
  {
    JoinLoopTakesAck(info, datagrams);
  }

  predicate AllEncodable(ms: seq<Message>) {
    forall k :: 0 <= k < |ms| ==> ValidMessage(ms[k])
  }

  lemma EncodableConcat(a: seq<Message>, b: seq<Message>)
    requires AllEncodable(a) && AllEncodable(b)
    ensures AllEncodable(a + b)
  {
    assert forall k :: |a| <= k < |a + b| ==> (a + b)[k] == b[k - |a|];
  }

  /** With a name that fits its field and lines that one `read` delivers,
      every message the client sends is one `sendMessage` can encode. */
  lemma SessionSendsFit(hostname: string, server: Address, joining: seq<string>, wakes: seq<Wake>)
    requires FitsField(hostname) && LinesFit(wakes)
    ensures var r := StartClient(hostname, server, joining, wakes);
            forall k :: 0 <= k < |r.sent| ==> ValidMessage(r.sent[k])
  {
    var r := StartClient(hostname, server, joining, wakes);
    var info := ClientInformation(0, server, hostname);
    var j := JoinLoop(info, joining);
    assert AllEncodable(j.sent);
    if j.connected != 0 {
      JoinLoopIdentityFits(info, joining);
      var joined := ClientInformation(r.identity, server, hostname);
      assert r.identity == j.connected;
      var lines := LinesBeforeQuit(wakes);
      var texts := seq(|lines|, k requires 0 <= k < |lines| => SendText(joined, lines[k]));
      var quit := if r.ended then [QuitChat(joined)] else [];
      SessionSendsEveryLine(hostname, server, joining, wakes);
      assert r.sent == j.sent + (texts + quit);
      LinesBeforeQuitFit(wakes);
      assert AllEncodable(texts);
      assert AllEncodable(quit);
      EncodableConcat(texts, quit);
      EncodableConcat(j.sent, texts + quit);
    }
  }

  /** The session ends exactly when a QUIT line is read after joining. */
  lemma SessionEndsOnQuit(hostname: string, server: Address, joining: seq<string>, wakes: seq<Wake>)
    ensures var r := StartClient(hostname, server, joining, wakes);
            r.ended <==> r.identity != 0 && exists k :: 0 <= k < |wakes| && QuitAt(wakes, k)
  {
    var info := ClientInformation(0, server, hostname);
    var j := JoinLoop(info, joining);
    if j.connected != 0 {
      JoinedLoopQuits(info.(connected := j.connected), wakes);
    }
  }

  /** A session that ends sends exactly one quit request, as its last
      message, naming its own identity. */
  lemma QuitIsLast(hostname: string, server: Address, joining: seq<string>, wakes: seq<Wake>)
    ensures var r := StartClient(hostname, server, joining, wakes);
            r.ended ==> r.sent[|r.sent| - 1] == Message(Negate32(r.identity), QUIT_STRING, hostname)
                        && forall k :: 0 <= k < |r.sent| - 1 ==> r.sent[k] != r.sent[|r.sent| - 1]
  {
    var info := ClientInformation(0, server, hostname);
    var j := JoinLoop(info, joining);
    if j.connected != 0 {
      var joined := info.(connected := j.connected);
      var l := JoinedLoop(joined, wakes);
      if l.quit {
        var sent := j.sent + (l.sent + [QuitChat(joined)]);
        assert sent[|sent| - 1] == QuitChat(joined);
        assert forall k :: 0 <= k < |j.sent| ==> sent[k] == j.sent[k];
        assert forall k :: |j.sent| <= k < |sent| - 1 ==> sent[k] == l.sent[k - |j.sent|];
      }
    }
  }
}
