/**
 * The hub of the socket package (socket/server.go): its envelope, the
 * announcements of its Register and Unregister cases, and the hub's run over
 * a stream of requests.
 */
module SocketServer {
  import opened Wire
  import opened Hub
  import opened Net

  /** `Message`: the envelope. `Payload` is a pointer to a JSON object; `None` is the nil pointer. */
  datatype Message = Message(sender: string, channel: string, payload: Option<seq<Member>>, serverIp: string, senderIp: string)

  /** The JSON tags of `Message`'s fields, in declaration order. */
  const Tags: seq<string> := ["sender", "roomID", "payload", "server_ip", "sender_ip"]

  /** The members `json.Marshal` writes for each field, each tagged `omitempty`. */
  function Parts(m: Message): seq<seq<Member>>
  {
    [StringMember(Tags[0], m.sender), StringMember(Tags[1], m.channel), ObjectMember(Tags[2], m.payload),
     StringMember(Tags[3], m.serverIp), StringMember(Tags[4], m.senderIp)]
  }

  /** `json.Marshal` of a `Message`: its fields in declaration order. */
  function Encode(m: Message): Bytes
  {
    Text(JObject(Flatten(Parts(m))))
  }

  /** `json.Unmarshal` into a fresh `Message`; malformed input leaves the zero message. */
  function Decode(b: Bytes): Message
  {
    var ms := Members(b);
    Message(StringField(ms, Tags[0]), RoomOf(b), ObjectField(ms, Tags[2]),
            StringField(ms, Tags[3]), StringField(ms, Tags[4]))
  }

  /** Decoding the field of tag `Tags[i]` reads that field's own member only. */
  lemma FieldOfEncode(m: Message, i: nat)
    requires i < |Tags|
    ensures StringField(Members(Encode(m)), Tags[i]) == StringField(Parts(m)[i], Tags[i])
    ensures ObjectField(Members(Encode(m)), Tags[i]) == ObjectField(Parts(m)[i], Tags[i])
  {
    EnvelopeTagsApart(Tags[2]);
    FieldOfPart(Parts(m), Tags, i);
  }

  /** The hub routes an encoded envelope by the channel it was built with. */
  lemma RoomOfEncode(m: Message)
    ensures RoomOf(Encode(m)) == m.channel
  {
    FieldOfEncode(m, 1);
    StringMemberRoundTrip(Tags[1], m.channel);
  }

  /** Decoding an encoded envelope gives it back: an empty field is omitted and decodes as empty. */
  lemma DecodeEncode(m: Message)
    ensures Decode(Encode(m)) == m
  {
    FieldOfEncode(m, 0);
    StringMemberRoundTrip(Tags[0], m.sender);
    RoomOfEncode(m);
    FieldOfEncode(m, 2);
    ObjectMemberRoundTrip(Tags[2], m.payload);
    FieldOfEncode(m, 3);
    StringMemberRoundTrip(Tags[3], m.serverIp);
    FieldOfEncode(m, 4);
    StringMemberRoundTrip(Tags[4], m.senderIp);
  }

  /** The join announcement of the Register case (Go marshals the payload map with its keys sorted). */
  function JoinMessage(c: Client, serverIp: string): Message
  {
    Message("Server", c.room,
            Some([Member("client_id", JString(c.id)), Member("message", JString("Client " + c.id + " connected"))]),
            serverIp, c.localAddr)
  }

  /** The leave announcement of the Unregister case. */
  function LeaveMessage(c: Client, serverIp: string): Message
  {
    Message("Server", c.room, Some([Member("message", JString("Client " + c.id + " disconnected"))]),
            serverIp, c.localAddr)
  }

  /** The socket hub's announcements; its join announcement reaches the newcomer too (`Send(jsonMessage, nil)`). */
  function Announcements(serverIp: string): Announcer
  {
    Announcer((c: Client) => Encode(JoinMessage(c, serverIp)), (c: Client) => Encode(LeaveMessage(c, serverIp)), false)
  }

  method HandleRegister(hub: Server, c: Client, addrs: seq<Addr>)
    requires hub.Valid() && c !in hub.closed
    modifies hub
    ensures hub.Valid() && hub.Snapshot() == AfterRegister(old(hub.Snapshot()), c, Announcements(SelectedIp(addrs)))
  {
    hub.Admit(c);
    var ip := LocalIp(addrs);
    hub.Send(Encode(JoinMessage(c, ip)), None);
  }

  method HandleUnregister(hub: Server, c: Client, addrs: seq<Addr>)
    requires hub.Valid()
    modifies hub
    ensures hub.Valid() && hub.Snapshot() == AfterUnregister(old(hub.Snapshot()), c, Announcements(SelectedIp(addrs)))
  {
    if c in hub.members {
      hub.Retire(c);
      var ip := LocalIp(addrs);
      hub.Send(Encode(LeaveMessage(c, ip)), Some(c));
    }
  }

  /** `Start`, over the finite prefix `reqs` of its request stream. */
  method Start(hub: Server, reqs: seq<Request>, addrs: seq<Addr>)
    requires hub.Valid() && Admissible(hub.Snapshot(), reqs, Announcements(SelectedIp(addrs)))
    modifies hub
    ensures hub.Valid() && hub.Snapshot() == Run(old(hub.Snapshot()), reqs, Announcements(SelectedIp(addrs)))
  {
    ghost var ann := Announcements(SelectedIp(addrs));
    var i := 0;
    while i < |reqs|
      invariant 0 <= i <= |reqs|
      invariant hub.Valid() && Admissible(hub.Snapshot(), reqs[i..], ann)
      invariant Run(old(hub.Snapshot()), reqs, ann) == Run(hub.Snapshot(), reqs[i..], ann)
    {
      ghost var before := hub.Snapshot();
      var r := reqs[i];
      assert reqs[i..][0] == r && reqs[i..][1..] == reqs[i + 1..];
      match r {
        case Register(c) =>
          HandleRegister(hub, c, addrs);
        case Unregister(c) =>
          HandleUnregister(hub, c, addrs);
        case Broadcast(msg) =>
          hub.HandleBroadcast(msg);
      }
      assert hub.Snapshot() == Step(before, r, ann);
      i := i + 1;
    }
  }

  /**
   * Register admits the client and sends one join envelope to every member,
   * with no room filter: the newcomer itself, whose mailbox was empty and
   * open, and the members of every other channel.
   */
  lemma RegisterAnnouncesToEveryone(s: HubState, c: Client, serverIp: string, x: Client)
    requires Inv(s) && c !in s.closed
    ensures AfterRegister(s, c, Announcements(serverIp)).members == s.members + {c}
    ensures AfterRegister(s, c, Announcements(serverIp)).closed == s.closed
    ensures x in s.members + {c} ==>
      AfterRegister(s, c, Announcements(serverIp)).mailbox[x] ==
        (if x in s.mailbox then s.mailbox[x] else []) + [Encode(JoinMessage(c, serverIp))]
  {
  }

  /**
   * Register is a buffered send in this package (a capacity of 5), so
   * `NewClient` returns before the hub takes it, and a read loop that fails
   * at once can have both its Unregisters taken first. The hub ignores them,
   * admits the client afterwards, and the client then stays a member with an
   * open mailbox for good, since its read loop, the only source of its
   * Unregister, has ended. Nothing in this order makes the hub panic.
   */
  lemma LateRegisterStrandsClient(s: HubState, c: Client, serverIp: string, rest: seq<Request>)
    requires Inv(s) && c !in s.mailbox
    requires forall i :: 0 <= i < |rest| ==> rest[i] != Unregister(c)
    ensures Admissible(s, [Unregister(c), Unregister(c), Register(c)], Announcements(serverIp))
    ensures var t := Run(s, [Unregister(c), Unregister(c), Register(c)] + rest, Announcements(serverIp));
      c in t.members && c !in t.closed
  {
    UnregisteredEarlyStaysMember(s, c, Announcements(serverIp), rest);
  }
}
