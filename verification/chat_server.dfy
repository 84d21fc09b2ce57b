/** The chat server (chatServer.c): the client register, and the handling of
    one received datagram as a pure step from the register before it to the
    register after it and the datagrams sent meanwhile. */
module ChatServer {
  import opened Wrappers
  import opened CFormat
  import opened ChatUtil

  /** An entry of `clientRegister` whose `connected` flag is 1: the client's
      address and display name. A `connected == 0` entry is `None`; what it
      held before is stale and never read. */
  datatype Slot = Slot(address: Address, hostname: string)

  /** `clientRegister[MAX_CLIENTS + 1]`, indexed by client identity. */
  type Registry = seq<Option<Slot>>

  /** Index 0 is the "no identity yet" code and is never allocated. */
  predicate Valid(reg: Registry) {
    |reg| == MAX_CLIENTS + 1 && reg[0].None?
  }

  /** The identities `sendBcastMessage` sends to. */
  predicate IsActive(reg: Registry, i: int)
    requires |reg| == MAX_CLIENTS + 1
  {
    1 <= i <= MAX_CLIENTS && reg[i].Some?
  }

  predicate Full(reg: Registry)
    requires |reg| == MAX_CLIENTS + 1
  {
    forall i :: 1 <= i <= MAX_CLIENTS ==> reg[i].Some?
  }

  /** One `sendto` of `sendMessage`: the slot sent to, the address stored
      there, and the message whose encoding is the datagram. */
  datatype Send = Send(slot: nat, to: Address, msg: Message)

  /** The register after a step, and the datagrams sent during it, in order. */
  datatype Step = Step(reg: Registry, sends: seq<Send>)

  /** Every send of `sends` carries `m` to the stored address of an active
      slot numbered `lo` or more. */
  predicate SendsToActive(reg: Registry, m: Message, lo: nat, sends: seq<Send>)
    requires |reg| == MAX_CLIENTS + 1
  {
    forall k :: 0 <= k < |sends| ==>
      lo <= sends[k].slot && IsActive(reg, sends[k].slot)
      && sends[k].to == reg[sends[k].slot].value.address && sends[k].msg == m
  }

  /** The sends go to strictly ascending slots. */
  predicate Ascending(sends: seq<Send>) {
    forall k, l :: 0 <= k < l < |sends| ==> sends[k].slot < sends[l].slot
  }

  /** The number of active slots with identities in lo..hi-1. */
  function ActiveBetween(reg: Registry, lo: nat, hi: nat): nat
    requires |reg| == MAX_CLIENTS + 1 && lo <= hi
    decreases hi - lo
  {
    if lo == hi then 0
    else (if IsActive(reg, lo) then 1 else 0) + ActiveBetween(reg, lo + 1, hi)
  }

  /** Every active slot numbered `lo` or more is sent to, at the position
      given by the number of active slots before it. */
  predicate Covers(reg: Registry, lo: nat, sends: seq<Send>)
    requires |reg| == MAX_CLIENTS + 1
  {
    forall j :: lo <= j <= MAX_CLIENTS && IsActive(reg, j) ==>
      ActiveBetween(reg, lo, j) < |sends| && sends[ActiveBetween(reg, lo, j)].slot == j
  }

  /** `sends` is a broadcast of `m` over the active slots of `reg` from index
      `lo` on: one send per active slot, to the address stored there, in
      ascending index order, and none to an inactive slot. */
  predicate IsBroadcastFrom(reg: Registry, m: Message, lo: nat, sends: seq<Send>)
    requires |reg| == MAX_CLIENTS + 1
  {
    SendsToActive(reg, m, lo, sends) && Ascending(sends) && Covers(reg, lo, sends)
  }

  predicate IsBroadcast(reg: Registry, m: Message, sends: seq<Send>)
    requires |reg| == MAX_CLIENTS + 1
  {
    IsBroadcastFrom(reg, m, 1, sends)
  }

  /** The register after `initialize`, all entries not connected. */
  function Initialize(): (r: Registry)
    ensures Valid(r)
    ensures forall i :: 0 <= i < |r| ==> !IsActive(r, i)
  {
    seq(MAX_CLIENTS + 1, _ => None)
  }

  /** The loop of `sendBcastMessage` from index `i` on. */
  function BroadcastFrom(reg: Registry, m: Message, i: nat): (r: seq<Send>)
    requires |reg| == MAX_CLIENTS + 1 && 1 <= i <= MAX_CLIENTS + 1
    ensures SendsToActive(reg, m, i, r) && Ascending(r)
    decreases MAX_CLIENTS + 1 - i
  {
    if i > MAX_CLIENTS then
      []
    else
      var tail := BroadcastFrom(reg, m, i + 1);
      match reg[i]
      case None => tail
      case Some(slot) =>
        var r := [Send(i, slot.address, m)] + tail;
        assert forall k :: 1 <= k < |r| ==> r[k] == tail[k - 1];
        r
  }

  /** The loop reaches every active slot it passes, so it sends once per
      active slot. */
  lemma {:induction false} BroadcastFromCovers(reg: Registry, m: Message, i: nat)
    requires |reg| == MAX_CLIENTS + 1 && 1 <= i <= MAX_CLIENTS + 1
    ensures Covers(reg, i, BroadcastFrom(reg, m, i))
    ensures |BroadcastFrom(reg, m, i)| == ActiveBetween(reg, i, MAX_CLIENTS + 1)
    decreases MAX_CLIENTS + 1 - i
  {
    if i <= MAX_CLIENTS {
      BroadcastFromCovers(reg, m, i + 1);
      var tail := BroadcastFrom(reg, m, i + 1);
      var r := BroadcastFrom(reg, m, i);
      var here := if IsActive(reg, i) then 1 else 0;
      assert |r| == here + |tail|;
      assert ActiveBetween(reg, i, MAX_CLIENTS + 1) == here + ActiveBetween(reg, i + 1, MAX_CLIENTS + 1);
      forall j | i <= j <= MAX_CLIENTS && IsActive(reg, j)
        ensures ActiveBetween(reg, i, j) < |r| && r[ActiveBetween(reg, i, j)].slot == j
      {
        if j == i {
          assert r[0].slot == i;
        } else {
          var c := ActiveBetween(reg, i + 1, j);
          assert ActiveBetween(reg, i, j) == here + c;
          assert tail[c].slot == j;
          assert r[here + c] == tail[c];
        }
      }
    }
  }

  /** `sendBcastMessage`: one copy of `m` to every active slot, in ascending
      index order. A failed `sendto` is ignored and changes nothing. */
  function SendBcastMessage(reg: Registry, m: Message): (r: seq<Send>)
    requires Valid(reg)
    ensures IsBroadcast(reg, m, r)
  {
    BroadcastFromCovers(reg, m, 1);
    BroadcastFrom(reg, m, 1)
  }

  /** The scan of `addClient` from index `i` on: the first slot that is not
      connected. */
  function FreeSlotFrom(reg: Registry, i: nat): (r: Option<nat>)
    requires |reg| == MAX_CLIENTS + 1 && 1 <= i <= MAX_CLIENTS + 1
    ensures r.Some? ==> i <= r.value <= MAX_CLIENTS && reg[r.value].None?
    ensures r.Some? ==> forall j :: i <= j < r.value ==> reg[j].Some?
    ensures r.None? <==> forall j :: i <= j <= MAX_CLIENTS ==> reg[j].Some?
    decreases MAX_CLIENTS + 1 - i
  {
    if i > MAX_CLIENTS then None
    else if reg[i].None? then Some(i)
    else FreeSlotFrom(reg, i + 1)
  }

  /** The smallest identity whose slot is free; None exactly when the
      register is full. */
  function FreeSlot(reg: Registry): (r: Option<nat>)
    requires Valid(reg)
    ensures r.Some? ==> 1 <= r.value <= MAX_CLIENTS && !IsActive(reg, r.value)
    ensures r.Some? ==> forall j :: 1 <= j < r.value ==> IsActive(reg, j)
    ensures r.None? <==> Full(reg)
  {
    FreeSlotFrom(reg, 1)
  }

  /** `sendJoinAck`: broadcast "<i> JOIN <name stored in slot i>". */
  function SendJoinAck(reg: Registry, i: nat): (r: seq<Send>)
    requires Valid(reg) && IsActive(reg, i)
    ensures IsBroadcast(reg, Message(i, JOIN_STRING, reg[i].value.hostname), r)
    ensures Send(i, reg[i].value.address, Message(i, JOIN_STRING, reg[i].value.hostname)) in r
  {
    SendBcastMessage(reg, Message(i, JOIN_STRING, reg[i].value.hostname))
  }

  /** The register update of `addClient`: the smallest free slot takes the
      sender's address and name and every other slot keeps its content; a
      full register stays as it is. */
  function Allocate(reg: Registry, from: Address, name: string): (r: Registry)
    requires Valid(reg)
    ensures Valid(r)
    ensures Full(reg) ==> r == reg
    ensures match FreeSlot(reg)
            case None => true
            case Some(i) =>
              && r[i] == Some(Slot(from, name))
              && (forall j :: 0 <= j < |reg| && j != i ==> r[j] == reg[j])
  {
    match FreeSlot(reg)
    case None => reg
    case Some(i) => reg[i := Some(Slot(from, name))]
  }

  /** `addClient`: allocate a slot, then tell everyone connected, the new
      client included, who joined under which identity. With every slot
      connected nothing changes and nothing is sent. */
  function AddClient(reg: Registry, from: Address, name: string): (r: Step)
    requires Valid(reg)
    ensures r.reg == Allocate(reg, from, name)
    ensures Full(reg) <==> r.sends == []
    ensures match FreeSlot(reg)
            case None => true
            case Some(i) => IsBroadcast(r.reg, Message(i, JOIN_STRING, name), r.sends)
  {
    var reg' := Allocate(reg, from, name);
    match FreeSlot(reg)
    case None => Step(reg', [])
    case Some(i) => Step(reg', SendJoinAck(reg', i))
  }

  /** The register update of `removeClient`: slot k is no longer connected
      and every other slot keeps its content. */
  function Release(reg: Registry, k: nat): (r: Registry)
    requires Valid(reg) && 1 <= k <= MAX_CLIENTS
    ensures Valid(r) && !IsActive(r, k)
    ensures forall j :: 0 <= j < |reg| && j != k ==> r[j] == reg[j]
  {
    reg[k := None]
  }

  /** `removeClient` as written, for the request "-k QUIT <name>": first
      "k QUIT <name>" goes to every connected client, k included, then slot
      k is released. The C code indexes the register with k unchecked, so
      it is defined only for k in 1..MAX_CLIENTS. */
  function RemoveClientAsWritten(reg: Registry, cid: int, name: string): (r: Step)
    requires Valid(reg) && -(MAX_CLIENTS as int) <= cid <= -1
    ensures r.reg == Release(reg, -cid)
    ensures IsBroadcast(reg, Message(-cid, QUIT_STRING, name), r.sends)
  {
    var k := -cid;
    var acks := SendBcastMessage(reg, Message(k, QUIT_STRING, name));
    Step(Release(reg, k), acks)
  }

  /** `removeClient` for every quit request the dispatch hands it:
      "k QUIT <name>" goes to every connected client, k being `-1 * cid` in
      `int` arithmetic; slot k is then released when it names one, and the
      register is left as it is when k is beyond it. */
  function RemoveClient(reg: Registry, cid: int, name: string): (r: Step)
    requires Valid(reg) && cid < 0
    ensures IsBroadcast(reg, Message(Negate32(cid), QUIT_STRING, name), r.sends)
    ensures -cid <= MAX_CLIENTS ==> Negate32(cid) == -cid && r.reg == Release(reg, -cid)
    ensures -cid > MAX_CLIENTS ==> r.reg == reg
  {
    if -cid <= MAX_CLIENTS then RemoveClientAsWritten(reg, cid, name)
    else Step(reg, SendBcastMessage(reg, Message(Negate32(cid), QUIT_STRING, name)))
  }

  /** The datagram "-11 QUIT x" decodes to a quit request for identity 11,
      one past the last entry of `clientRegister`: the dispatch hands it to
      `removeClient`, which as written clears an entry outside the array. */
  lemma QuitBeyondRegister()
    ensures var m := ParseMessage("-11 QUIT x");
            && m == Some(Message(-11, QUIT_STRING, "x"))
            && Classify(m.value) == QuitRequest
            && -m.value.cid == MAX_CLIENTS + 1
  {
    assert IntToDecimal(-11) == "-11" by {
      assert NatToDecimal(11) == "11";
    }
    var text := IntToDecimal(-11) + (" " + (QUIT_STRING + (" " + ("x" + ""))));
    assert "" + text == "-11 QUIT x";
    ParseLayout("", -11, " ", QUIT_STRING, " ", "x", "", STR2_WIDTH);
    assert ParseMessage("-11 QUIT x") == Some(Message(-11, QUIT_STRING, "x"));
  }

  /** What `receiveClientMessage` makes of a decoded message. */
  datatype Request = JoinRequest | QuitRequest | ChatText

  /** A message from a positive identity is always chat text: only the
      join code or a negative identity, with a command word, makes a
      request. */
  function Classify(m: Message): (r: Request)
    ensures m.cid > 0 ==> r == ChatText
    ensures r != ChatText ==> m.cid <= 0 && (m.str1 == JOIN_STRING || m.str1 == QUIT_STRING)
  {
    if m.cid == JOIN_CID_CODE && m.str1 == JOIN_STRING then JoinRequest
    else if m.cid < 0 && m.str1 == QUIT_STRING then QuitRequest
    else ChatText
  }

  /** The three cases are told apart by identity sign and command word
      alone, and every message falls in exactly one of them. */
  lemma ClassifyCases(m: Message)
    ensures Classify(m) == JoinRequest <==> m.cid == 0 && m.str1 == JOIN_STRING
    ensures Classify(m) == QuitRequest <==> m.cid < 0 && m.str1 == QUIT_STRING
    ensures Classify(m) == ChatText <==> !(m.cid == 0 && m.str1 == JOIN_STRING) && !(m.cid < 0 && m.str1 == QUIT_STRING)
  {
  }

  /** The dispatch of `receiveClientMessage` on a decoded message. */
  function ReceiveClientMessage(reg: Registry, from: Address, m: Message): (r: Step)
    requires Valid(reg)
    ensures Valid(r.reg)
    ensures Classify(m) == JoinRequest ==> r == AddClient(reg, from, m.str2)
    ensures Classify(m) == QuitRequest ==> r == RemoveClient(reg, m.cid, m.str2)
    ensures Classify(m) == ChatText ==> r.reg == reg && IsBroadcast(reg, m, r.sends)
    ensures ValidMessage(m) ==> forall k :: 0 <= k < |r.sends| ==> ValidMessage(r.sends[k].msg)
  {
    match Classify(m)
    case JoinRequest => AddClient(reg, from, m.str2)
    case QuitRequest => RemoveClient(reg, m.cid, m.str2)
    case ChatText => Step(reg, SendBcastMessage(reg, m))
  }

  /** `receiveClientMessage`: decode, then dispatch. A datagram that does
      not decode is dropped. Every datagram sent carries a message that
      `sendMessage` can encode. */
  function ReceiveDatagram(reg: Registry, from: Address, payload: string): (r: Step)
    requires Valid(reg)
    ensures Valid(r.reg)
    ensures ParseMessage(payload).None? ==> r == Step(reg, [])
    ensures forall k :: 0 <= k < |r.sends| ==> ValidMessage(r.sends[k].msg)
  {
    match ParseMessage(payload)
    case None => Step(reg, [])
    case Some(m) => ReceiveClientMessage(reg, from, m)
  }

  /** A received datagram and its sender. */
  datatype Datagram = Datagram(from: Address, payload: string)

  /** The loop of `startServer` over datagrams received one at a time:
      the register it ends with, and every send in order. */
  function Serve(reg: Registry, inbox: seq<Datagram>): (r: Step)
    requires Valid(reg)
    ensures Valid(r.reg)
    ensures forall k :: 0 <= k < |r.sends| ==> ValidMessage(r.sends[k].msg)
    decreases |inbox|
  {
    if inbox == [] then
      Step(reg, [])
    else
      var first := ReceiveDatagram(reg, inbox[0].from, inbox[0].payload);
      var later := Serve(first.reg, inbox[1..]);
      Step(later.reg, first.sends + later.sends)
  }

  /** One datagram, then the rest: the step taken on the first datagram
      of a non-empty batch is the same whatever follows the batch. */
  lemma ServeStep(reg: Registry, a: seq<Datagram>, b: seq<Datagram>)
    requires Valid(reg) && a != []
    ensures exists first: Step :: Valid(first.reg)
              && Serve(reg, a) == Step(Serve(first.reg, a[1..]).reg, first.sends + Serve(first.reg, a[1..]).sends)
              && Serve(reg, a + b) == Step(Serve(first.reg, a[1..] + b).reg, first.sends + Serve(first.reg, a[1..] + b).sends)
  {
    ConsConcat(a, b);
    var first := ReceiveDatagram(reg, a[0].from, a[0].payload);
    assert Serve(reg, a + b) == Step(Serve(first.reg, a[1..] + b).reg, first.sends + Serve(first.reg, a[1..] + b).sends);
  }

  lemma ConsConcat<T>(a: seq<T>, b: seq<T>)
    requires a != []
    ensures (a + b)[0] == a[0] && (a + b)[1..] == a[1..] + b
  {
  }

  lemma ConcatAssoc<T>(a: seq<T>, b: seq<T>, c: seq<T>)
    ensures a + (b + c) == (a + b) + c
  {
  }

  /** Serving two batches of datagrams one after the other is serving
      their concatenation: the loop keeps no state besides the register. */
  lemma {:induction false} ServeConcat(reg: Registry, a: seq<Datagram>, b: seq<Datagram>)
    requires Valid(reg)
    ensures var first := Serve(reg, a);
            var second := Serve(first.reg, b);
            Serve(reg, a + b) == Step(second.reg, first.sends + second.sends)
    decreases |a|
  {
    if a == [] {
      assert a + b == b;
    } else {
      ServeStep(reg, a, b);
      var first: Step :| Valid(first.reg)
        && Serve(reg, a) == Step(Serve(first.reg, a[1..]).reg, first.sends + Serve(first.reg, a[1..]).sends)
        && Serve(reg, a + b) == Step(Serve(first.reg, a[1..] + b).reg, first.sends + Serve(first.reg, a[1..] + b).sends);
      ServeConcat(first.reg, a[1..], b);
      var rest := Serve(first.reg, a[1..]);
      ConcatAssoc(first.sends, rest.sends, Serve(rest.reg, b).sends);
    }
  }

  /** A broadcast reaches exactly the active identities, each of them once. */
  lemma BroadcastExactlyOnce(reg: Registry, m: Message, sends: seq<Send>, i: int)
    requires |reg| == MAX_CLIENTS + 1 && IsBroadcast(reg, m, sends)
    ensures IsActive(reg, i) <==> exists k :: 0 <= k < |sends| && sends[k].slot == i
    ensures forall k, l :: 0 <= k < |sends| && 0 <= l < |sends| && sends[k].slot == sends[l].slot ==> k == l
  {
    if IsActive(reg, i) {
      assert sends[ActiveBetween(reg, 1, i)].slot == i;
    }
  }

  /** A broadcast sends to every active slot the message at the address
      stored there. */
  lemma BroadcastReaches(reg: Registry, m: Message, sends: seq<Send>, i: nat)
    requires |reg| == MAX_CLIENTS + 1 && IsBroadcast(reg, m, sends) && IsActive(reg, i)
    ensures Send(i, reg[i].value.address, m) in sends
  {
    var k := ActiveBetween(reg, 1, i);
    assert sends[k] == Send(i, reg[i].value.address, m);
  }

  /** The client whose join succeeds receives its own acknowledgement, at
      the address it sent from, carrying the identity it was given. */
  lemma JoinerReceivesOwnAck(reg: Registry, from: Address, name: string)
    requires Valid(reg) && !Full(reg)
    ensures var i := FreeSlot(reg).value;
            Send(i, from, Message(i, JOIN_STRING, name)) in AddClient(reg, from, name).sends
  {
    var i := FreeSlot(reg).value;
    var r := AddClient(reg, from, name);
    BroadcastReaches(r.reg, Message(i, JOIN_STRING, name), r.sends, i);
  }

  /** A connected client k that quits with "-k QUIT <name>" is sent its own
      quit acknowledgement, since the broadcast precedes the release. */
  lemma QuitterReceivesOwnAck(reg: Registry, k: nat, name: string)
    requires Valid(reg) && 1 <= k <= MAX_CLIENTS && IsActive(reg, k)
    ensures Send(k, reg[k].value.address, Message(k, QUIT_STRING, name))
            in RemoveClient(reg, -(k as int), name).sends
  {
    BroadcastReaches(reg, Message(k, QUIT_STRING, name), RemoveClient(reg, -(k as int), name).sends, k);
  }

  /** Releasing a slot that is not connected leaves the register as it is,
      so a repeated quit changes nothing further. */
  lemma ReleaseIsIdempotent(reg: Registry, k: nat)
    requires Valid(reg) && 1 <= k <= MAX_CLIENTS
    ensures !IsActive(reg, k) ==> Release(reg, k) == reg
    ensures Release(Release(reg, k), k) == Release(reg, k)
  {
    if !IsActive(reg, k) {
      assert reg[k := None] == reg;
    }
  }

  /** After identity k is released, a join is given k again as long as every
      smaller identity is still connected: a released slot is reused before
      any higher one. */
  lemma ReleasedSlotIsReused(reg: Registry, k: nat, from: Address, name: string)
    requires Valid(reg) && 1 <= k <= MAX_CLIENTS
    requires forall j :: 1 <= j < k ==> IsActive(reg, j)
    ensures FreeSlot(Release(reg, k)) == Some(k)
    ensures Allocate(Release(reg, k), from, name)[k] == Some(Slot(from, name))
  {
    var released := Release(reg, k);
    assert !IsActive(released, k);
    forall j | 1 <= j < k ensures IsActive(released, j) {
      assert IsActive(reg, j);
    }
    var f := FreeSlot(released).value;
    assert !IsActive(released, f);
    assert f == k;
  }

  /** The register after joins by the given clients, in order, from the
      initial register. */
  function JoinAll(joins: seq<Slot>): (r: Registry)
    ensures Valid(r)
  {
    if joins == [] then Initialize()
    else
      var last := joins[|joins| - 1];
      Allocate(JoinAll(joins[..|joins| - 1]), last.address, last.hostname)
  }

  /** Slots 1..|joins| hold the joined clients in order of arrival; the
      rest are free. */
  predicate FilledInOrder(reg: Registry, joins: seq<Slot>)
    requires |reg| == MAX_CLIENTS + 1
  {
    && |joins| <= MAX_CLIENTS
    && (forall j :: 1 <= j <= |joins| ==> reg[j] == Some(joins[j - 1]))
    && (forall j :: |joins| < j <= MAX_CLIENTS ==> reg[j].None?)
  }

  /** On a register filled in order, the next join takes the next identity. */
  lemma AllocateNext(reg: Registry, joins: seq<Slot>, next: Slot)
    requires Valid(reg) && FilledInOrder(reg, joins) && |joins| < MAX_CLIENTS
    ensures FreeSlot(reg) == Some(|joins| + 1)
    ensures FilledInOrder(Allocate(reg, next.address, next.hostname), joins + [next])
  {
    var n := |joins| + 1;
    assert !IsActive(reg, n);
    forall j | 1 <= j < n ensures IsActive(reg, j) {
      assert reg[j] == Some(joins[j - 1]);
    }
    var f := FreeSlot(reg).value;
    assert !IsActive(reg, f);
    assert f == n;
    var after := Allocate(reg, next.address, next.hostname);
    var joins' := joins + [next];
    forall j | 1 <= j <= n ensures after[j] == Some(joins'[j - 1]) {
      if j < n {
        assert after[j] == reg[j];
      }
    }
  }

  /** From the initial register, the n-th of up to MAX_CLIENTS joins is
      given identity n; the identities handed out are 1..n in arrival order. */
  lemma {:induction false} SequentialJoins(joins: seq<Slot>)
    requires |joins| <= MAX_CLIENTS
    ensures FilledInOrder(JoinAll(joins), joins)
    ensures joins != [] ==> FreeSlot(JoinAll(joins[..|joins| - 1])) == Some(|joins|)
  {
    if joins != [] {
      var before := joins[..|joins| - 1];
      var last := joins[|joins| - 1];
      assert before + [last] == joins;
      var reg := JoinAll(before);
      assert JoinAll(joins) == Allocate(reg, last.address, last.hostname);
      SequentialJoins(before);
      AllocateNext(reg, before, last);
    }
  }

  /** With every identity taken, a further join changes no slot and sends
      nothing: the requester is not answered. */
  lemma JoinWhenFullIsIgnored(joins: seq<Slot>, from: Address, name: string)
    requires |joins| == MAX_CLIENTS
    ensures Full(JoinAll(joins))
    ensures AddClient(JoinAll(joins), from, name) == Step(JoinAll(joins), [])
  {
    SequentialJoins(joins);
  }
}
