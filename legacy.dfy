/**
 * The earlier variant of the relay, main.go: the `chat_id` check of the
 * route handler, the hub's Register and Unregister announcements, and the
 * client's read and write loops. Its hub shares the table, `Send` and the
 * Broadcast case with the socket package (module Hub); rooms are `RoomID`
 * here, and the envelope carries the frame as text in `Content`.
 */
module Legacy {
  import opened Wire
  import opened Hub
  import opened Net

  /** `Message` of main.go. */
  datatype Message = Message(sender: string, roomId: string, content: string, serverIp: string, senderIp: string)

  /** The JSON tags of `Message`'s fields, in declaration order. */
  const Tags: seq<string> := ["sender", "roomID", "content", "server_ip", "sender_ip"]

  /** The members `json.Marshal` writes for each field, each tagged `omitempty`. */
  function Parts(m: Message): seq<seq<Member>>
  {
    [StringMember(Tags[0], m.sender), StringMember(Tags[1], m.roomId), StringMember(Tags[2], m.content),
     StringMember(Tags[3], m.serverIp), StringMember(Tags[4], m.senderIp)]
  }

  /** `json.Marshal` of a `Message`: its fields in declaration order. */
  function Encode(m: Message): Bytes
  {
    Text(JObject(Flatten(Parts(m))))
  }

  /** `json.Unmarshal` into a fresh `Message`; malformed input leaves the zero message. */
  function Decode(b: Bytes): Message
  {
    var ms := Members(b);
    Message(StringField(ms, Tags[0]), RoomOf(b), StringField(ms, Tags[2]),
            StringField(ms, Tags[3]), StringField(ms, Tags[4]))
  }

  /** Decoding the field of tag `Tags[i]` reads that field's own member only. */
  lemma FieldOfEncode(m: Message, i: nat)
    requires i < |Tags|
    ensures StringField(Members(Encode(m)), Tags[i]) == StringField(Parts(m)[i], Tags[i])
    ensures ObjectField(Members(Encode(m)), Tags[i]) == ObjectField(Parts(m)[i], Tags[i])
  {
    EnvelopeTagsApart(Tags[2]);
    FieldOfPart(Parts(m), Tags, i);
  }

  /** The hub routes an encoded envelope by the room it was built with. */
  lemma RoomOfEncode(m: Message)
    ensures RoomOf(Encode(m)) == m.roomId
  {
    FieldOfEncode(m, 1);
    StringMemberRoundTrip(Tags[1], m.roomId);
  }

  /** Decoding an encoded envelope gives it back: an empty field is omitted and decodes as empty. */
  lemma DecodeEncode(m: Message)
    ensures Decode(Encode(m)) == m
  {
    FieldOfEncode(m, 0);
    StringMemberRoundTrip(Tags[0], m.sender);
    RoomOfEncode(m);
    FieldOfEncode(m, 2);
    StringMemberRoundTrip(Tags[2], m.content);
    FieldOfEncode(m, 3);
    StringMemberRoundTrip(Tags[3], m.serverIp);
    FieldOfEncode(m, 4);
    StringMemberRoundTrip(Tags[4], m.senderIp);
  }

  /** What the `/ws` route handler does with one request. */
  datatype Outcome = Rejected(status: nat, error: string) | UpgradeFailed | Connected(client: Client)

  /**
   * The `/ws` handler: without a `chat_id` the request is answered 400 and
   * nothing reaches the hub; a failed upgrade also registers nothing; otherwise
   * a fresh client in room `chat_id` is created and registered exactly once.
   */
  method Connect(chatId: string, upgraded: bool, id: string, localAddr: string) returns (outcome: Outcome, reqs: seq<Request>)
    ensures chatId == "" ==> outcome == Rejected(400, "chat_id is required") && reqs == []
    ensures chatId != "" && !upgraded ==> outcome == UpgradeFailed && reqs == []
    ensures chatId != "" && upgraded ==>
      && outcome.Connected? && fresh(outcome.client)
      && outcome.client.id == id && outcome.client.room == chatId && outcome.client.localAddr == localAddr
      && reqs == [Register(outcome.client)]
  {
    if chatId == "" {
      return Rejected(400, "chat_id is required"), [];
    }
    if !upgraded {
      return UpgradeFailed, [];
    }
    var c := new Client(id, chatId, localAddr);
    outcome, reqs := Connected(c), [Register(c)];
  }

  /** The join announcement: no sender and no room. */
  function JoinMessage(c: Client, serverIp: string): Message
  {
    Message("", "", "New user connected", serverIp, c.localAddr)
  }

  /** The leave announcement: no sender and no room. */
  function LeaveMessage(c: Client, serverIp: string): Message
  {
    Message("", "", "User disconnected", serverIp, c.localAddr)
  }

  /** This hub's announcements; its join announcement skips the newcomer (`Send(jsonMessage, conn)`). */
  function Announcements(serverIp: string): Announcer
  {
    Announcer((c: Client) => Encode(JoinMessage(c, serverIp)), (c: Client) => Encode(LeaveMessage(c, serverIp)), true)
  }

  method HandleRegister(hub: Server, c: Client, addrs: seq<Addr>)
    requires hub.Valid() && c !in hub.closed
    modifies hub
    ensures hub.Valid() && hub.Snapshot() == AfterRegister(old(hub.Snapshot()), c, Announcements(SelectedIp(addrs)))
  {
    hub.Admit(c);
    var ip := LocalIp(addrs);
    hub.Send(Encode(JoinMessage(c, ip)), Some(c));
  }

  method HandleUnregister(hub: Server, c: Client, addrs: seq<Addr>)
    requires hub.Valid()
    modifies hub
    ensures hub.Valid() && hub.Snapshot() == AfterUnregister(old(hub.Snapshot()), c, Announcements(SelectedIp(addrs)))
  {
    if c in hub.members {
      hub.Retire(c);
      var ip := LocalIp(addrs);
      hub.Send(Encode(LeaveMessage(c, ip)), Some(c));
    }
  }

  /** `Server.Start`, over the finite prefix `reqs` of its request stream. */
  method Start(hub: Server, reqs: seq<Request>, addrs: seq<Addr>)
    requires hub.Valid() && Admissible(hub.Snapshot(), reqs, Announcements(SelectedIp(addrs)))
    modifies hub
    ensures hub.Valid() && hub.Snapshot() == Run(old(hub.Snapshot()), reqs, Announcements(SelectedIp(addrs)))
  {
    ghost var ann := Announcements(SelectedIp(addrs));
    var i := 0;
    while i < |reqs|
      invariant 0 <= i <= |reqs|
      invariant hub.Valid() && Admissible(hub.Snapshot(), reqs[i..], ann)
      invariant Run(old(hub.Snapshot()), reqs, ann) == Run(hub.Snapshot(), reqs[i..], ann)
    {
      ghost var before := hub.Snapshot();
      var r := reqs[i];
      assert reqs[i..][0] == r && reqs[i..][1..] == reqs[i + 1..];
      match r {
        case Register(c) =>
          HandleRegister(hub, c, addrs);
        case Unregister(c) =>
          HandleUnregister(hub, c, addrs);
        case Broadcast(msg) =>
          hub.HandleBroadcast(msg);
      }
      assert hub.Snapshot() == Step(before, r, ann);
      i := i + 1;
    }
  }

  /**
   * Register admits the client and sends the join envelope to every other
   * member, whatever its room, but not to the newcomer, whose mailbox stays
   * as it was (empty, for a client new to the hub). The envelope names no room.
   */
  lemma RegisterAnnouncesToOthers(s: HubState, c: Client, serverIp: string, x: Client)
    requires Inv(s) && c !in s.closed
    ensures AfterRegister(s, c, Announcements(serverIp)).members == s.members + {c}
    ensures AfterRegister(s, c, Announcements(serverIp)).closed == s.closed
    ensures AfterRegister(s, c, Announcements(serverIp)).mailbox[c] == (if c in s.mailbox then s.mailbox[c] else [])
    ensures x in s.members - {c} ==>
      AfterRegister(s, c, Announcements(serverIp)).mailbox[x] == s.mailbox[x] + [Encode(JoinMessage(c, serverIp))]
    ensures RoomOf(Encode(JoinMessage(c, serverIp))) == ""
  {
    RoomOfEncode(JoinMessage(c, serverIp));
  }

  /** The envelope the read loop builds around one frame: its text as content, the client's room, no sender. */
  function Envelope(c: Client, text: string, serverIp: string): Message
  {
    Message("", c.room, text, serverIp, c.localAddr)
  }

  /** How the read loop wraps each frame: `Envelope`, then `json.Marshal`. */
  function Wrapper(c: Client, serverIp: string): string -> Bytes
  {
    (x: string) => Encode(Envelope(c, x, serverIp))
  }

  /** `Client.Read`, over the finite sequence `results` of what its reads return. */
  method Read(c: Client, results: seq<ReadResult<string>>, addrs: seq<Addr>) returns (reqs: seq<Request>, stopped: bool)
    ensures reqs == Submitted(c, results, Wrapper(c, SelectedIp(addrs)))
    ensures stopped <==> FirstError(results) < |results|
  {
    ghost var wrap := Wrapper(c, SelectedIp(addrs));
    reqs, stopped := [], false;
    var i := 0;
    while i < |results| && !stopped
      invariant 0 <= i <= |results|
      invariant !stopped ==> forall k :: 0 <= k < i ==> results[k].Frame?
      invariant !stopped ==> reqs + Submitted(c, results[i..], wrap) == Submitted(c, results, wrap)
      invariant stopped ==> FirstError(results) < |results| && reqs + [Unregister(c)] == Submitted(c, results, wrap)
      decreases |results| - i, if stopped then 0 else 1
    {
      match results[i] {
        case ReadError =>
          reqs := reqs + [Unregister(c)];
          stopped := true;
          assert FirstError(results) == i;
        case Frame(text) =>
          var serverIp := LocalIp(addrs);
          var message := Encode(Envelope(c, text, serverIp));
          assert results[i..][1..] == results[i + 1..];
          reqs := reqs + [Broadcast(message)];
          i := i + 1;
      }
    }
    if stopped {
      reqs := reqs + [Unregister(c)];
    } else {
      assert results[i..] == [];
    }
  }

  /**
   * What a member of the sender's room receives for one frame, the sender
   * itself included: the envelope is appended to its mailbox exactly once,
   * and it decodes to the frame's text, the room, and no sender.
   */
  lemma RelayedWithinRoom(s: HubState, c: Client, text: string, serverIp: string, x: Client)
    requires Inv(s) && x in s.members && x.room == c.room
    ensures var b := Encode(Envelope(c, text, serverIp));
      && x in Routed(s, b).mailbox
      && Routed(s, b).mailbox[x] == s.mailbox[x] + [b]
      && Decode(b) == Message("", c.room, text, serverIp, c.localAddr)
  {
    var b := Encode(Envelope(c, text, serverIp));
    DecodeEncode(Envelope(c, text, serverIp));
    RoutedReachesExactlyTheRoom(s, b, x);
  }

  /** Room isolation: a frame read by `c` never reaches the mailbox of a client in another room. */
  lemma IsolatedFromOtherRooms(s: HubState, c: Client, text: string, serverIp: string, x: Client)
    requires Inv(s) && x in s.mailbox && x.room != c.room
    ensures var b := Encode(Envelope(c, text, serverIp));
      x in Routed(s, b).mailbox && Routed(s, b).mailbox[x] == s.mailbox[x]
  {
    var b := Encode(Envelope(c, text, serverIp));
    DecodeEncode(Envelope(c, text, serverIp));
    RoutedReachesExactlyTheRoom(s, b, x);
  }

  /** A websocket frame the write loop sends. */
  datatype WsFrame = TextMessage(data: Bytes) | CloseMessage

  /**
   * `Client.Write`, over the items its mailbox has received and whether the
   * mailbox has been closed: each item verbatim as one text frame, in order,
   * then, once the mailbox is closed and drained, one Close frame and return.
   */
  method Write(items: seq<Bytes>, closed: bool) returns (frames: seq<WsFrame>, finished: bool)
    ensures |frames| == |items| + (if closed then 1 else 0)
    ensures forall i :: 0 <= i < |items| ==> frames[i] == TextMessage(items[i])
    ensures closed ==> frames[|items|] == CloseMessage
    ensures finished == closed
  {
    frames := [];
    for i := 0 to |items|
      invariant |frames| == i
      invariant forall k :: 0 <= k < i ==> frames[k] == TextMessage(items[k])
    {
      frames := frames + [TextMessage(items[i])];
    }
    if closed {
      frames := frames + [CloseMessage];
    }
    finished := closed;
  }
}
