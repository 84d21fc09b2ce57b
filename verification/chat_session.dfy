/** Client and server together: what a client's request becomes on the
    wire, what the server does with it, and what the clients make of the
    datagrams the server sends back. */
module ChatSession {
  import opened Wrappers
  import opened CFormat
  import opened ChatUtil
  import opened ChatServer
  import opened ChatClient

  /** The server classifies each request the client builds as the client
      meant it, once the client has a positive identity. */
  lemma ClientRequestsClassified(info: ClientInformation, line: string)
    ensures Classify(JoinChat(info)) == JoinRequest
    ensures info.connected > 0 ==> Classify(SendText(info, line)) == ChatText
    ensures info.connected > 0 ==> Classify(QuitChat(info)) == QuitRequest
  {
  }

  /** The server reads a datagram sent by `sendMessage` as the message it
      encodes, and handles it as that message. */
  lemma DatagramOfMessage(reg: Registry, from: Address, m: Message)
    requires Valid(reg) && WireSafe(m)
    ensures ValidMessage(m)
    ensures ReceiveDatagram(reg, from, FormatMessage(m)) == ReceiveClientMessage(reg, from, m)
  {
    RoundTrip(m);
  }

  /** The join handshake, for a name the wire format carries unchanged:
      the encoded request decodes to itself; the server, if a slot is free,
      sends the acknowledgement for the smallest free identity to the
      client's address; and the client, decoding it, takes that identity
      and leaves its joining loop. */
  lemma JoinHandshake(reg: Registry, from: Address, info: ClientInformation)
    requires Valid(reg) && !Full(reg) && info.connected == 0 && IsLineField(info.hostname)
    ensures ParseMessage(FormatMessage(JoinChat(info))) == Some(JoinChat(info))
    ensures var i := FreeSlot(reg).value;
            var ack := Message(i, JOIN_STRING, info.hostname);
            && Send(i, from, ack) in ReceiveClientMessage(reg, from, JoinChat(info)).sends
            && ReceiveServerMessage(info, FormatMessage(ack)) == Received(i, Some(Assigned(i)))
            && JoinLoop(info, [FormatMessage(ack)]).connected == i
  {
    RoundTrip(JoinChat(info));
    JoinerReceivesOwnAck(reg, from, info.hostname);
    var i := FreeSlot(reg).value;
    RoundTrip(Message(i, JOIN_STRING, info.hostname));
  }

  /** A typed line travels with its newline, which decoding drops: the
      server receives the text alone. */
  lemma TypedLineDecodes(sender: ClientInformation, text: string)
    requires IsInt32(sender.connected) && IsToken(sender.hostname)
    requires IsLineField(text) && |text| < MAX_LINE - 1
    ensures ValidMessage(SendText(sender, text + "\n"))
    ensures ParseMessage(FormatMessage(SendText(sender, text + "\n"))) == Some(SendText(sender, text))
  {
    var c := sender.connected;
    var name := sender.hostname;
    ParseLayout("", c, " ", name, " ", text, "\n", STR2_WIDTH);
    var wire := IntToDecimal(c) + (" " + (name + (" " + (text + "\n"))));
    assert "" + wire == wire;
  }

  /** A chat line reaches every connected client; its sender does not
      display it and every other client displays it with the sender's
      identity and name. */
  lemma ChatLineDelivered(reg: Registry, from: Address, sender: ClientInformation, text: string,
                          receiver: ClientInformation)
    requires Valid(reg) && 1 <= sender.connected <= MAX_CLIENTS
    requires IsToken(sender.hostname) && sender.hostname != JOIN_STRING && sender.hostname != QUIT_STRING
    requires IsLineField(text) && |text| < MAX_LINE - 1
    ensures ParseMessage(FormatMessage(SendText(sender, text + "\n"))) == Some(SendText(sender, text))
    ensures var step := ReceiveClientMessage(reg, from, SendText(sender, text));
            step.reg == reg && IsBroadcast(reg, SendText(sender, text), step.sends)
    ensures ReceiveServerMessage(receiver, FormatMessage(SendText(sender, text)))
            == if receiver.connected == sender.connected then Received(0, None)
               else Received(0, Some(Says(sender.connected, sender.hostname, text)))
  {
    TypedLineDecodes(sender, text);
    RoundTrip(SendText(sender, text));
  }

  /** A client whose display name is QUIT sends chat text that the server
      handles as chat text, because its identity is positive; every other
      client, though, reads the broadcast as that client's quit notice. */
  lemma QuitNamedChatMisread(sender: ClientInformation, text: string, receiver: ClientInformation)
    requires 1 <= sender.connected <= MAX_CLIENTS && sender.hostname == QUIT_STRING && IsLineField(text)
    ensures Classify(SendText(sender, text)) == ChatText
    ensures ReceiveServerMessage(receiver, FormatMessage(SendText(sender, text)))
            == Received(0, Some(Left(sender.connected, text)))
  {
    ControlWords();
    RoundTrip(SendText(sender, text));
  }

  /** The quit request of a connected client decodes to itself. */
  lemma QuitRequestDecodes(info: ClientInformation)
    requires 1 <= info.connected <= MAX_CLIENTS && IsLineField(info.hostname)
    ensures ParseMessage(FormatMessage(QuitChat(info))) == Some(QuitChat(info))
  {
    RoundTrip(QuitChat(info));
  }

  /** The server answers a connected client's quit request by releasing the
      client's slot and nothing else, after telling every connected client. */
  lemma QuitReleasesSlot(reg: Registry, from: Address, info: ClientInformation)
    requires Valid(reg) && 1 <= info.connected <= MAX_CLIENTS
    ensures var st := ReceiveClientMessage(reg, from, QuitChat(info));
            && IsBroadcast(reg, Message(info.connected, QUIT_STRING, info.hostname), st.sends)
            && !IsActive(st.reg, info.connected)
            && forall j :: 0 <= j < |reg| && j != info.connected ==> st.reg[j] == reg[j]
  {
    var m := QuitChat(info);
    assert Classify(m) == QuitRequest && -m.cid == info.connected;
    var st := ReceiveClientMessage(reg, from, m);
    assert st == RemoveClient(reg, m.cid, m.str2);
  }

  const A: Slot := Slot(Address(1, 1), "A")
  const B: Slot := Slot(Address(2, 2), "B")

  /** The first part of the two-client scenario: A joins and is given 1 and
      the acknowledgement; B joins and is given 2, and both A and B are told. */
  lemma ScenarioJoins()
    ensures var s1 := ReceiveClientMessage(Initialize(), A.address, Message(0, JOIN_STRING, "A"));
            var s2 := ReceiveClientMessage(s1.reg, B.address, Message(0, JOIN_STRING, "B"));
            && s1.reg == JoinAll([A])
            && Send(1, A.address, Message(1, JOIN_STRING, "A")) in s1.sends
            && s2.reg == JoinAll([A, B])
            && Send(1, A.address, Message(2, JOIN_STRING, "B")) in s2.sends
            && Send(2, B.address, Message(2, JOIN_STRING, "B")) in s2.sends
  {
    SequentialJoins([A]);
    SequentialJoins([A, B]);
    assert [A, B][..1] == [A];
    var s1 := ReceiveClientMessage(Initialize(), A.address, Message(0, JOIN_STRING, "A"));
    assert [A][..0] == [];
    assert s1.reg == JoinAll([A]);
    JoinerReceivesOwnAck(Initialize(), A.address, "A");
    var s2 := ReceiveClientMessage(s1.reg, B.address, Message(0, JOIN_STRING, "B"));
    JoinerReceivesOwnAck(s1.reg, B.address, "B");
    BroadcastReaches(s2.reg, Message(2, JOIN_STRING, "B"), s2.sends, 1);
  }

  /** With A (1) and B (2) connected, A's "hi" reaches both and leaves the
      register as it is. */
  lemma ScenarioText()
    ensures var reg := JoinAll([A, B]);
            var hi := Message(1, "A", "hi");
            var s3 := ReceiveClientMessage(reg, A.address, hi);
            && s3.reg == reg
            && Send(1, A.address, hi) in s3.sends && Send(2, B.address, hi) in s3.sends
  {
    SequentialJoins([A, B]);
    var reg := JoinAll([A, B]);
    var hi := Message(1, "A", "hi");
    assert Classify(hi) == ChatText;
    var s3 := ReceiveClientMessage(reg, A.address, hi);
    BroadcastReaches(reg, hi, s3.sends, 1);
    BroadcastReaches(reg, hi, s3.sends, 2);
  }

  /** A does not display its own "hi"; B displays `CID=1 A says "hi"`. */
  lemma ScenarioDisplay(server: Address)
    ensures var hi := FormatMessage(Message(1, "A", "hi"));
            && ReceiveServerMessage(ClientInformation(1, server, "A"), hi) == Received(0, None)
            && ReceiveServerMessage(ClientInformation(2, server, "B"), hi) == Received(0, Some(Says(1, "A", "hi")))
  {
    RoundTrip(Message(1, "A", "hi"));
  }

  /** A quits: both A and B receive "1 QUIT A", and only identity 2 stays
      connected. */
  lemma ScenarioQuit()
    ensures var reg := JoinAll([A, B]);
            var s4 := ReceiveClientMessage(reg, A.address, Message(-1, QUIT_STRING, "A"));
            && s4.reg == Release(reg, 1)
            && Send(1, A.address, Message(1, QUIT_STRING, "A")) in s4.sends
            && Send(2, B.address, Message(1, QUIT_STRING, "A")) in s4.sends
            && forall i :: 1 <= i <= MAX_CLIENTS ==> (IsActive(s4.reg, i) <==> i == 2)
  {
    SequentialJoins([A, B]);
    var reg := JoinAll([A, B]);
    var quit := Message(-1, QUIT_STRING, "A");
    assert Classify(quit) == QuitRequest;
    var s4 := ReceiveClientMessage(reg, A.address, quit);
    assert s4 == RemoveClient(reg, -1, "A");
    QuitterReceivesOwnAck(reg, 1, "A");
    BroadcastReaches(reg, Message(1, QUIT_STRING, "A"), s4.sends, 2);
  }

  /** After A has quit, the next client to join, C, is given the freed
      identity 1, and B is told. */
  lemma ScenarioRejoin(c: Address)
    ensures var reg := Release(JoinAll([A, B]), 1);
            var s5 := ReceiveClientMessage(reg, c, Message(0, JOIN_STRING, "C"));
            && FreeSlot(reg) == Some(1)
            && Send(1, c, Message(1, JOIN_STRING, "C")) in s5.sends
            && Send(2, B.address, Message(1, JOIN_STRING, "C")) in s5.sends
  {
    SequentialJoins([A, B]);
    ReleasedSlotIsReused(JoinAll([A, B]), 1, c, "C");
    var reg := Release(JoinAll([A, B]), 1);
    JoinerReceivesOwnAck(reg, c, "C");
    var join := Message(0, JOIN_STRING, "C");
    assert Classify(join) == JoinRequest;
    var s5 := ReceiveClientMessage(reg, c, join);
    assert s5.reg == Allocate(reg, c, "C");
    assert s5.reg[2] == reg[2];
    BroadcastReaches(s5.reg, Message(1, JOIN_STRING, "C"), s5.sends, 2);
  }
}
