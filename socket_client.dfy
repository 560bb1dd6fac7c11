/**
 * The connection pump of the socket package (socket/client.go): `NewClient`,
 * the read loop that turns transport frames into hub requests, and the write
 * loop that turns mailbox items into outbound frames.
 */
module SocketClient {
  import opened Wire
  import opened Hub
  import opened Net
  import opened SocketServer

  /**
   * `NewClient`: a fresh client in `channel`, unknown to the hub (its mailbox
   * is empty and open), and the single Register request it submits.
   */
  method NewClient(hub: Server, id: string, channel: string, localAddr: string) returns (c: Client, reqs: seq<Request>)
    ensures fresh(c) && c.id == id && c.room == channel && c.localAddr == localAddr
    ensures c !in hub.mailbox && c !in hub.closed && c !in hub.members
    ensures reqs == [Register(c)]
  {
    c := new Client(id, channel, localAddr);
    reqs := [Register(c)];
  }

  /**
   * The map the read loop decodes a frame into: the frame's object, or nil for
   * a frame that is not a JSON object (the decode error is ignored).
   */
  function PayloadOf(frame: Bytes): Option<seq<Member>>
  {
    if frame.Text? && frame.doc.JObject? then Some(frame.doc.members) else None
  }

  /** The envelope the read loop builds around one frame. */
  function Envelope(c: Client, frame: Bytes, serverIp: string): Message
  {
    Message(c.id, c.room, PayloadOf(frame), serverIp, c.localAddr)
  }

  /** How the read loop wraps each frame: `Envelope`, then `json.Marshal`. */
  function Wrapper(c: Client, serverIp: string): Bytes -> Bytes
  {
    (x: Bytes) => Encode(Envelope(c, x, serverIp))
  }

  /** `Read`, over the finite sequence `results` of what its reads return. */
  method Read(c: Client, results: seq<ReadResult<Bytes>>, addrs: seq<Addr>) returns (reqs: seq<Request>, stopped: bool)
    ensures reqs == Submitted(c, results, Wrapper(c, SelectedIp(addrs)))
    ensures stopped <==> FirstError(results) < |results|
  {
    ghost var wrap := Wrapper(c, SelectedIp(addrs));
    reqs, stopped := [], false;
    var i := 0;
    while i < |results| && !stopped
      invariant 0 <= i <= |results|
      invariant !stopped ==> forall k :: 0 <= k < i ==> results[k].Frame?
      invariant !stopped ==> reqs + Submitted(c, results[i..], wrap) == Submitted(c, results, wrap)
      invariant stopped ==> FirstError(results) < |results| && reqs + [Unregister(c)] == Submitted(c, results, wrap)
      decreases |results| - i, if stopped then 0 else 1
    {
      match results[i] {
        case ReadError =>
          reqs := reqs + [Unregister(c)];
          stopped := true;
          assert FirstError(results) == i;
        case Frame(f) =>
          var serverIp := LocalIp(addrs);
          var message := Encode(Envelope(c, f, serverIp));
          assert results[i..][1..] == results[i + 1..];
          reqs := reqs + [Broadcast(message)];
          i := i + 1;
      }
    }
    if stopped {
      reqs := reqs + [Unregister(c)];
    } else {
      assert results[i..] == [];
    }
  }

  /** The `gin.H` a mailbox item is written as (`WriteJSON` marshals its keys sorted). */
  function Outbound(m: Message): Json
  {
    JObject([Member("payload", if m.payload.Some? then JObject(m.payload.value) else JNull),
             Member("sender", JString(m.sender)),
             Member("senderIP", JString(m.senderIp)),
             Member("serverIP", JString(m.serverIp))])
  }

  /**
   * `Write`, over the items its mailbox has received and whether the mailbox
   * has been closed: one frame per item in mailbox order, and the loop is
   * finished only once the mailbox is closed and drained.
   */
  method Write(items: seq<Bytes>, closed: bool) returns (frames: seq<Json>, finished: bool)
    ensures |frames| == |items|
    ensures forall i :: 0 <= i < |items| ==> frames[i] == Outbound(Decode(items[i]))
    ensures finished == closed
  {
    frames := [];
    for i := 0 to |items|
      invariant |frames| == i
      invariant forall k :: 0 <= k < i ==> frames[k] == Outbound(Decode(items[k]))
    {
      var message := Decode(items[i]);
      frames := frames + [Outbound(message)];
    }
    finished := closed;
  }

  /**
   * What a member of the sender's channel receives for one frame, the sender
   * itself included: the envelope is appended to its mailbox exactly once,
   * and its write loop turns it into a frame carrying the sender's id, the
   * frame's map and the two addresses, but not the channel.
   */
  lemma RelayedWithinChannel(s: HubState, c: Client, frame: Bytes, serverIp: string, x: Client)
    requires Inv(s) && x in s.members && x.room == c.room
    ensures var b := Encode(Envelope(c, frame, serverIp));
      && x in Routed(s, b).mailbox
      && Routed(s, b).mailbox[x] == s.mailbox[x] + [b]
      && Outbound(Decode(b)) == Outbound(Envelope(c, frame, serverIp))
    ensures forall mem :: mem in Outbound(Envelope(c, frame, serverIp)).members ==> mem.key != "roomID"
  {
    var b := Encode(Envelope(c, frame, serverIp));
    DecodeEncode(Envelope(c, frame, serverIp));
    RoutedReachesExactlyTheRoom(s, b, x);
  }

  /** Room isolation: a frame read by `c` never reaches the mailbox of a client in another channel. */
  lemma IsolatedFromOtherChannels(s: HubState, c: Client, frame: Bytes, serverIp: string, x: Client)
    requires Inv(s) && x in s.mailbox && x.room != c.room
    ensures var b := Encode(Envelope(c, frame, serverIp));
      x in Routed(s, b).mailbox && Routed(s, b).mailbox[x] == s.mailbox[x]
  {
    var b := Encode(Envelope(c, frame, serverIp));
    RoomOfEncode(Envelope(c, frame, serverIp));
    RoutedReachesExactlyTheRoom(s, b, x);
  }
}
