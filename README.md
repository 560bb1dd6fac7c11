# golive relay hub, modelled in Dafny

golive is a WebSocket chat relay. Each client connects to a room. A single
hub process owns the table of connected clients and routes every message a
client sends to all members of that client's room, the sender included. The
hub also announces joins and leaves. Each connection has a read pump and a
write pump:

- the read pump wraps every inbound frame in a JSON envelope and hands it to
  the hub;
- the write pump drains the connection's outbound mailbox onto the wire.

The repository holds two variants of the same design:

- the `socket` package (`socket/server.go`, `socket/client.go`): its
  envelope carries the frame as a JSON object (`payload`);
- the earlier `main.go`: its envelope carries the frame as text (`content`),
  and its `/ws` route rejects a request that has no `chat_id`.

The model is split into these modules:

- `Wire`: the envelope's wire form. A byte string is either a JSON text, given
  by its JSON value, or malformed. Decoding follows `encoding/json`:
  - a key matches a field tag ignoring ASCII case;
  - the last string-valued matching member wins;
  - `null` and values of other types are skipped;
  - a top level that is not an object leaves the zero struct.

  `omitempty` fields are written only when non-empty.
- `Net`: `LocalIp`, the server address stamped on each envelope. The host's
  interface address list is an input.
- `Hub`: the hub's state and everything both variants share:
  - the `Client` class, keyed by object identity;
  - the hub table as the class `Server`: members, one mailbox per admitted
    client (a sequence of everything ever enqueued) and the set of closed
    mailboxes;
  - the primitive operations (admit, close, enqueue, retire);
  - `Send` and the Broadcast case.

  It also holds the value-level specification (`HubState`, `Inv`, `Step`,
  `Run`) and the lemmas about any request stream. The announcements are the
  only thing in which the two variants' Register and Unregister cases differ.
  They are a parameter (`Announcer`), so each lemma is proved once for both.
- `SocketServer` and `SocketClient`: the socket package's envelope, its
  announcements, `Start`, `NewClient` and the read and write pumps.
- `Legacy`: `main.go`'s envelope, its route handler, announcements and `Start`,
  and its read and write pumps.

Go panics become preconditions that the callers discharge. Closing a closed
channel and sending on a closed channel both panic, so closing a mailbox
requires it to be open, and so does enqueueing into one. The hub's methods
verify against these preconditions. It follows that no mailbox is closed twice
and that nothing is enqueued into a closed mailbox.

A loop that runs forever in the source becomes a method over a finite prefix
of its input:

- the hub's `Start` over a sequence of requests;
- a read pump over a sequence of read results;
- a write pump over the items its mailbox received, plus whether it was closed.

Where the code does something other than what the relay is meant to do, the
model follows the code:

- **Join announcements.** A join announcement is meant to go to the
  newcomer's room, excluding the newcomer. `socket/server.go:54` sends it to
  every member of every room, the newcomer included. `main.go:107` sends it to
  every member of every room except the newcomer, and the envelope names no
  room.
- **`LocalIp`.** `LocalIp` is meant to return the first non-loopback IPv4
  address. The loop at `socket/server.go:96-102` and `main.go:147-153` never
  stops early, so it returns the last one.
- **Envelopes with no room.** The Broadcast case compares the decoded room
  with each member's room by plain equality. An envelope with no `roomID`
  therefore reaches the members whose room is the empty string.
- **A Register taken late.** In the socket package Register is a buffered
  send (`socket/server.go:28`, `socket/client.go:29`), so `NewClient` returns
  before the hub takes it. A read loop that fails at once can have both of
  its Unregisters taken first. The hub ignores them, then admits the client,
  and the client stays a member with an open mailbox for good
  (`SocketServer.LateRegisterStrandsClient`). `main.go` sends Register
  unbuffered before starting the read loop (`main.go:51-53`), so there the
  Register is always taken first.

`main.go`'s hub has the same table, `Send` (`main.go:136-142`) and Broadcast
case (`main.go:124-131`) as the socket package. The members `Hub.Server.Send`
and `Hub.Server.HandleBroadcast` model both.

## Model

| member | source | states |
|---|---|---|
| Wire.FirstError | socket/client.go:60-66 | the read loop stops at the first failed read: every earlier read returned a frame, and the read at the returned index failed |
| Wire.StringField | socket/server.go:74-75 | a decoded string field is empty or the string value of a member whose key matches the field's tag ignoring case |
| Wire.ObjectField | socket/client.go:40-41 | a decoded payload pointer is nil, or it is the object of a member whose key matches `payload` |
| Wire.FieldOfPart | socket/server.go:16-22 | when every part of an object is written under its own tag and no two tags match even ignoring case, each field decodes from its own part alone, wherever that part sits |
| Wire.EnvelopeTagsApart | socket/server.go:16-22 | the five tags of either envelope (`main.go:74-80` differs only in `content`) cannot be mistaken for one another, even ignoring case |
| Wire.StringMemberRoundTrip | socket/server.go:17 | a string field written with `omitempty` decodes back to the value written, the empty string included |
| Wire.ObjectMemberRoundTrip | socket/server.go:19 | a pointer field written with `omitempty` decodes back to the value written, nil included |
| Net.LocalIp | socket/server.go:93-104 | the loop returns exactly the selected address of the host's interface list |
| Net.SelectedIpIsLastCandidate | main.go:144-155 | with no non-loopback IPv4 address the answer is "localhost"; otherwise it is the last such address in list order |
| Hub.Client.constructor | socket/client.go:20-27 | a new client carries the id, room and local address it was created with |
| Hub.Server.constructor | socket/server.go:24-31 | a new hub has no members, no mailboxes and nothing closed, and its table is consistent |
| Hub.Server.Admit | socket/server.go:38 | registering makes the client a member, gives a first-time client an empty mailbox, and keeps the table consistent |
| Hub.Server.CloseMailbox | socket/server.go:58 | closing marks exactly that mailbox closed; it may only be done once |
| Hub.Server.Deliver | socket/server.go:78 | enqueueing appends the message to that client's mailbox and nothing else; it is only allowed while the mailbox is open |
| Hub.Server.Retire | socket/server.go:57-59 | a retired member's mailbox is closed and it leaves the member set; its queued items are kept |
| Hub.Server.Send | socket/server.go:85-91 | after the scan, every member except `ignore` has exactly one more copy of the message, and nothing else changed |
| Hub.Server.HandleBroadcast | socket/server.go:73-80 | after the scan, every member whose room equals the decoded `roomID` has exactly one more copy, and nothing else changed |
| Hub.RoutedReachesExactlyTheRoom | socket/server.go:76-80 | a broadcast reaches each member of the decoded room, the sender included, exactly once, and reaches no other mailbox; it keeps the table consistent |
| Hub.SentReachesAllButIgnored | main.go:136-142 | `Send` appends one copy to every member other than `ignore` and leaves every other mailbox, the members and the closed set alone |
| Hub.StepClosed | socket/server.go:56-59 | an event closes at most the mailbox of the member it unregisters and never reopens one |
| Hub.StepKeepsInv | socket/server.go:33-83 | each case of the hub loop keeps every admitted client either a member with an open mailbox or retired |
| Hub.UnregisterRetiresOnce | socket/server.go:56-71 | unregistering a member closes its open mailbox and removes it; every other member, in any room, gets the leave envelope once; the retired client gets nothing more |
| Hub.UnregisterIdempotent | socket/server.go:57 | unregistering a non-member changes nothing, so a second Unregister of the same client is a no-op |
| Hub.RunConcat | socket/server.go:33-35 | the hub taking two request batches one after the other equals taking their concatenation |
| Hub.RunKeepsInv | socket/server.go:33-83 | over any stream that never registers a client whose mailbox is closed, the table stays consistent: no member's mailbox is ever closed |
| Hub.RunOnlyAppends | socket/server.go:76-79 | the hub only appends: whatever a client was sent stays, in order, at the front of its mailbox |
| Hub.RunFreezesClosed | socket/server.go:56-59 | once a mailbox is closed it stays closed, its client never rejoins, and nothing more is put in it |
| Hub.BroadcastsArriveInOrder | socket/server.go:73-80 | two envelopes for a member's room reach its mailbox in the order the hub took them, whatever requests of any client the hub took in between: the first right after what the member had before it, the second last |
| Hub.SubmittedShape | socket/client.go:60-80 | each frame read before the first error yields exactly one Broadcast of its envelope, in read order; a read error yields exactly two Unregisters and nothing after (the same loop is `main.go:181-198`) |
| Hub.ReadErrorRetiresOnce | socket/client.go:55-66 | a read error has the net effect on the hub of the broadcasts followed by a single Unregister (the same loop is `main.go:176-186`) |
| Hub.DoubleUnregisterIsSingle | socket/client.go:55-66 | the second Unregister of a client changes nothing, however many requests of other clients the hub took between the two, unless the client was registered again in between |
| Hub.StaysOut | socket/server.go:36-38 | a client that no request of a stream registers never becomes a member |
| Hub.StaysMember | socket/server.go:56-59 | a member that no request of a stream unregisters stays a member with an open mailbox |
| Hub.AdmissibleConcat | socket/server.go:33-35 | a stream taken after another is admissible exactly when the first is and the second is from the state the first leaves |
| Hub.RegisterOnceIsAdmissible | socket/client.go:20-32 | a stream in which every client registers at most once and is unknown to the hub beforehand never makes the hub register a closed client, in whatever order the hub takes the requests |
| Hub.UnregisteredEarlyStaysMember | socket/server.go:56-59 | Unregisters taken before a new client's Register are ignored, and that Register then makes it a member only its own later Unregister can retire |
| SocketServer.FieldOfEncode | socket/server.go:16-22 | decoding any envelope field reads only the member that field was encoded as |
| SocketServer.DecodeEncode | socket/server.go:16-22 | decoding an encoded envelope gives back every field, an omitted empty field included |
| SocketServer.RoomOfEncode | socket/server.go:74-77 | the hub routes an encoded envelope by the room it was built with |
| SocketServer.HandleRegister | socket/server.go:36-54 | the Register case admits the client, then sends the join envelope to every member with no room filter |
| SocketServer.HandleUnregister | socket/server.go:56-71 | the Unregister case is guarded by membership: it retires a member and sends the leave envelope to all other members |
| SocketServer.Start | socket/server.go:33-83 | the hub loop leaves the table in the state the request stream's specification gives, and keeps it consistent |
| SocketServer.LateRegisterStrandsClient | socket/client.go:29 | when both Unregisters of a new client are taken before its buffered Register, the hub takes the stream without panicking and the client stays a member with an open mailbox whatever other requests follow |
| SocketServer.RegisterAnnouncesToEveryone | socket/server.go:36-54 | Register adds the newcomer, closes nothing, and appends the join envelope once to every member's mailbox, the newcomer's and other rooms' included |
| SocketClient.NewClient | socket/client.go:20-32 | a new client has the given id, channel and address, is unknown to the hub, and submits exactly one Register |
| SocketClient.Read | socket/client.go:54-82 | the read loop submits one Broadcast per frame, wrapping the frame's map with the client's id and channel, and at the first error two Unregisters; it stops exactly when a read fails |
| SocketClient.Write | socket/client.go:34-52 | the write loop emits one frame per mailbox item, in mailbox order, holding that item's decoded sender, addresses and payload; it finishes exactly when the mailbox is closed and drained |
| SocketClient.RelayedWithinChannel | socket/client.go:71-80 | every member of the sender's channel, the sender included, receives the envelope once and writes out the sender's id, the frame's map and both addresses, but not the channel |
| SocketClient.IsolatedFromOtherChannels | socket/server.go:76-80 | a frame read by a client never reaches the mailbox of a client in another channel |
| Legacy.FieldOfEncode | main.go:74-80 | decoding any envelope field reads only the member that field was encoded as |
| Legacy.DecodeEncode | main.go:74-80 | decoding an encoded envelope gives back every field, an omitted empty field included |
| Legacy.RoomOfEncode | main.go:125-128 | the hub routes an encoded envelope by the room it was built with |
| Legacy.Connect | main.go:28-54 | with no `chat_id` the answer is 400 "chat_id is required" and nothing is registered; a failed upgrade registers nothing; otherwise a fresh client in that room is registered once |
| Legacy.HandleRegister | main.go:94-107 | the Register case admits the client, then sends the join envelope to every member except the newcomer |
| Legacy.HandleUnregister | main.go:109-122 | the Unregister case is guarded by membership: it retires a member and sends the leave envelope to all other members |
| Legacy.Start | main.go:91-134 | the hub loop leaves the table in the state the request stream's specification gives, and keeps it consistent |
| Legacy.RegisterAnnouncesToOthers | main.go:94-107 | Register adds the newcomer without sending it anything and appends the join envelope once to every other member in any room; the envelope names no room |
| Legacy.Read | main.go:175-199 | the read loop submits one Broadcast per frame, wrapping the frame's text with the client's room, and at the first error two Unregisters; it stops exactly when a read fails |
| Legacy.RelayedWithinRoom | main.go:189-197 | every member of the sender's room, the sender included, receives the envelope once, and it decodes to the frame's text and the room |
| Legacy.IsolatedFromOtherRooms | main.go:124-131 | a frame read by a client never reaches the mailbox of a client in another room |
| Legacy.Write | main.go:157-173 | the write loop sends each mailbox item verbatim as a text frame, in order; once the mailbox is closed and drained it sends one Close frame and returns |

## Left out

- JSON text syntax is not modelled. A byte string is the JSON value it spells,
  or malformed.
- Case-insensitive key matching folds ASCII letters only. Go's decoder also
  folds a few non-ASCII letters onto ASCII ones (U+017F onto `s`, U+212A onto
  `k`), so a key such as `ſender` would set `Sender`. The model does not
  capture this. The envelopes the hub and the write loops decode are built by
  the relay itself with the exact tags.
- Go's map normalisation of a decoded payload is not modelled: duplicate keys
  are not collapsed and keys are not re-sorted.
- SocketClient.RelayedWithinChannel: the frame's map is relayed with its JSON
  values as received. Go decodes every number into a `float64` and encodes it
  again, so `9007199254740993` is relayed as `9007199254740992` and `1.0` as
  `1`. Numbers keep their literal text in the model, which does no arithmetic.
- SocketClient.Read: the payload's numbers are kept as literal text, not
  rounded through `float64`, for the same reason.
- When a repeated `payload` key decodes into an already non-nil map, Go merges
  the two maps. The model keeps only the last object.
- SocketClient.Read: a frame that is not a JSON object leaves a nil map. Go
  marshals that as `"payload":null`; the model omits the member. Both decode
  to a nil payload, so no reader can tell them apart.
- Legacy.Read: a frame is a string of characters. `json.Marshal` replaces
  invalid UTF-8 in the frame with U+FFFD; bytes are not modelled, so this is
  not captured.
- Legacy.RelayedWithinRoom: "decodes to the frame's text" holds for frames
  that are valid UTF-8. For other frames Go relays the text with U+FFFD
  substituted.
- SocketClient.Write: a mailbox item whose top level is JSON `null` would make
  Go's decode set the message pointer to nil, and the field reads would then
  panic. The model reads a zero message instead. The hub only enqueues
  envelopes it or a read pump built, so such an item cannot occur.
- Goroutines, blocking channel operations and buffer capacities (5 in the
  socket package, unbuffered in `main.go`) are not modelled. Each hub event
  runs to completion; only the order in which the hub takes requests matters.
  Because of this, these are not captured:
  - head-of-line blocking on a slow client;
  - the deadlock in which a read pump blocks on its second Unregister.

  The orders the hub can take requests in are modelled. This includes an
  Unregister taken before its client's Register.
- Go map iteration order is not modelled. `Send` and the Broadcast case visit
  members in an arbitrary order, modelled as an arbitrary choice. Only
  per-recipient properties are stated.
- The hub's Register of a client whose mailbox is already closed (Go panics on
  the first send into it) is excluded by the `Admissible` precondition of
  `Start`. That needs a second Register of a client the hub already retired.
  The relay's own clients register once, so their streams always meet it
  (`Hub.RegisterOnceIsAdmissible`).
- The WebSocket transport is not modelled: reads and writes, their errors
  (write errors are ignored in the source), and the `Conn.Close` calls. The
  Close frame `main.go` writes is modelled.
- The frame type returned by `ReadMessage` is not modelled. The source ignores
  it.
- `uuid.New`, `net.InterfaceAddrs` and `Conn.LocalAddr` are not modelled.
  Client ids, the interface address list and local addresses are parameters.
- Each call to `LocalIp` re-reads the host's interfaces. The model gives every
  call the same address list, so a list that changes between calls is not
  captured.
- `fmt` logging is not modelled.
- Of the gin router, the upgrader settings and `CheckOrigin`, only the
  `chat_id` check and whether the upgrade succeeded are modelled.
