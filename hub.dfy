/**
 * The hub: the one authority that owns the table of connected clients and
 * their outbound mailboxes. Both variants of the relay (socket/server.go and
 * main.go) share this table and its primitive operations; they differ only in
 * the announcements their Register and Unregister cases build (modules
 * SocketServer and Legacy).
 *
 * Each case of the hub's `select` runs to completion before the next is taken,
 * so the hub is modelled as a sequence of events. A Go channel `Send` becomes
 * the sequence of every item ever enqueued on it, and its closed flag the
 * membership of the client in `closed`.
 */
module Hub {
  import opened Wire

  /**
   * One connection. Only the fields the hub and the pumps read are kept, and
   * none of them changes after creation; the object's identity is what the
   * hub's table is keyed by (`map[*Client]bool`).
   */
  class Client {
    const id: string
    /** The room: `Channel` in socket/client.go, `RoomID` in main.go. */
    const room: string
    /** The text of `Conn.LocalAddr()`. */
    const localAddr: string

    constructor (id: string, room: string, localAddr: string)
      ensures this.id == id && this.room == room && this.localAddr == localAddr
    {
      this.id := id;
      this.room := room;
      this.localAddr := localAddr;
    }
  }

  /** A request on one of the hub's three channels. */
  datatype Request = Register(c: Client) | Unregister(c: Client) | Broadcast(msg: Bytes)

  /**
   * The hub's table as a value: the members, the mailbox of every client the
   * hub has admitted (a retired client's mailbox keeps what was sent to it),
   * and the clients whose mailbox has been closed.
   */
  datatype HubState = HubState(members: set<Client>, mailbox: map<Client, seq<Bytes>>, closed: set<Client>)

  /**
   * Every admitted client is either a member or retired, never both: in
   * particular every member's mailbox is open.
   */
  predicate Inv(s: HubState)
  {
    && s.mailbox.Keys == s.members + s.closed
    && s.members !! s.closed
  }

  /** The table `NewServer` starts with. */
  const Empty := HubState({}, map[], {})

  /** `Clients[conn] = true`; a first admission brings an empty mailbox. */
  function Admitted(s: HubState, c: Client): HubState
  {
    HubState(s.members + {c}, if c in s.mailbox then s.mailbox else s.mailbox[c := []], s.closed)
  }

  /** `close(conn.Send)` followed by `delete(Clients, conn)`. */
  function Retired(s: HubState, c: Client): HubState
  {
    HubState(s.members - {c}, s.mailbox, s.closed + {c})
  }

  /** `Send(msg, ignore)`: one copy to every member other than `ignore`. */
  function Sent(s: HubState, msg: Bytes, ignore: Option<Client>): HubState
  {
    s.(mailbox := map c | c in s.mailbox :: if c in s.members && ignore != Some(c) then s.mailbox[c] + [msg] else s.mailbox[c])
  }

  /** The Broadcast case: one copy to every member whose room is the decoded room. */
  function Routed(s: HubState, msg: Bytes): HubState
  {
    s.(mailbox := map c | c in s.mailbox :: if c in s.members && c.room == RoomOf(msg) then s.mailbox[c] + [msg] else s.mailbox[c])
  }

  /**
   * A stream of requests the hub can take without panicking: it never takes
   * the Register of a client whose mailbox it has already closed, since the
   * next send into that mailbox would panic. Every other order is allowed,
   * an Unregister taken before its client's Register included.
   */
  predicate Admissible(s: HubState, reqs: seq<Request>, a: Announcer)
    decreases |reqs|
  {
    reqs == [] ||
    ((reqs[0].Register? ==> reqs[0].c !in s.closed) && Admissible(Step(s, reqs[0], a), reqs[1..], a))
  }

  /**
   * What tells the two variants' Register and Unregister cases apart: the
   * announcement envelope built for a client joining or leaving, and whether
   * the join announcement skips the newcomer itself.
   */
  datatype Announcer = Announcer(join: Client -> Bytes, leave: Client -> Bytes, skipNewcomer: bool)

  /** The Register case: admit, then announce to every member (but the newcomer, if skipped), with no room filter. */
  function AfterRegister(s: HubState, c: Client, a: Announcer): HubState
  {
    Sent(Admitted(s, c), a.join(c), if a.skipNewcomer then Some(c) else None)
  }

  /** The Unregister case: guarded by membership; retire, then announce to everyone else. */
  function AfterUnregister(s: HubState, c: Client, a: Announcer): HubState
  {
    if c in s.members then Sent(Retired(s, c), a.leave(c), Some(c)) else s
  }

  /** One iteration of `Start`'s loop. */
  function Step(s: HubState, r: Request, a: Announcer): HubState
  {
    match r
    case Register(c) => AfterRegister(s, c, a)
    case Unregister(c) => AfterUnregister(s, c, a)
    case Broadcast(msg) => Routed(s, msg)
  }

  /** `Start` taking the requests in the order its `select` received them. */
  function Run(s: HubState, reqs: seq<Request>, a: Announcer): HubState
    decreases |reqs|
  {
    if reqs == [] then s else Run(Step(s, reqs[0], a), reqs[1..], a)
  }

  /** The state of the hub process, `Server` in both variants. */
  class Server {
    var members: set<Client>
    var mailbox: map<Client, seq<Bytes>>
    var closed: set<Client>

    function Snapshot(): HubState
      reads this
    {
      HubState(members, mailbox, closed)
    }

    ghost predicate Valid()
      reads this
    {
      Inv(Snapshot())
    }

    /** `NewServer`: no members, nothing queued. */
    constructor ()
      ensures Valid() && Snapshot() == Empty
    {
      members, mailbox, closed := {}, map[], {};
    }

    /** `Clients[conn] = true`. */
    method Admit(c: Client)
      requires Valid() && c !in closed
      modifies this
      ensures Valid() && Snapshot() == Admitted(old(Snapshot()), c)
    {
      if c !in mailbox {
        mailbox := mailbox[c := []];
      }
      members := members + {c};
    }

    /** `close(conn.Send)`. Closing a closed channel panics in Go, hence the precondition. */
    method CloseMailbox(c: Client)
      requires c in mailbox && c !in closed
      modifies this
      ensures members == old(members) && mailbox == old(mailbox) && closed == old(closed) + {c}
    {
      closed := closed + {c};
    }

    /** `conn.Send <- msg`. Sending on a closed channel panics in Go, hence the precondition. */
    method Deliver(c: Client, msg: Bytes)
      requires c in mailbox && c !in closed
      modifies this
      ensures members == old(members) && closed == old(closed)
      ensures mailbox == old(mailbox)[c := old(mailbox)[c] + [msg]]
    {
      mailbox := mailbox[c := mailbox[c] + [msg]];
    }

    /** The guarded body of the Unregister case: close the member's mailbox, then delete it. */
    method Retire(c: Client)
      requires Valid() && c in members
      modifies this
      ensures Valid() && Snapshot() == Retired(old(Snapshot()), c)
    {
      CloseMailbox(c);
      members := members - {c};
    }

    /** `Send(message, ignore)`: a scan of the members in an arbitrary order. */
    method Send(msg: Bytes, ignore: Option<Client>)
      requires Valid()
      modifies this
      ensures Valid() && Snapshot() == Sent(old(Snapshot()), msg, ignore)
    {
      var pending := members;
      while pending != {}
        invariant pending <= members
        invariant members == old(members) && closed == old(closed)
        invariant mailbox.Keys == old(mailbox).Keys
        invariant forall c :: c in mailbox ==>
          mailbox[c] == if c in members - pending && ignore != Some(c) then old(mailbox)[c] + [msg] else old(mailbox)[c]
        decreases pending
      {
        var c :| c in pending;
        if ignore != Some(c) {
          Deliver(c, msg);
        }
        pending := pending - {c};
      }
      assert mailbox == Sent(old(Snapshot()), msg, ignore).mailbox;
    }

    /** The Broadcast case: decode the envelope's room, then a scan of the members. */
    method HandleBroadcast(msg: Bytes)
      requires Valid()
      modifies this
      ensures Valid() && Snapshot() == Routed(old(Snapshot()), msg)
    {
      var room := RoomOf(msg);
      var pending := members;
      while pending != {}
        invariant pending <= members
        invariant members == old(members) && closed == old(closed)
        invariant mailbox.Keys == old(mailbox).Keys
        invariant forall c :: c in mailbox ==>
          mailbox[c] == if c in members - pending && c.room == room then old(mailbox)[c] + [msg] else old(mailbox)[c]
        decreases pending
      {
        var c :| c in pending;
        if c.room == room {
          Deliver(c, msg);
        }
        pending := pending - {c};
      }
      assert mailbox == Routed(old(Snapshot()), msg).mailbox;
    }
  }

  /**
   * Room isolation and self-visibility: a broadcast appends exactly one copy
   * to the mailbox of each member of the envelope's room, whoever sent it,
   * and leaves every other mailbox, membership and closed flag as it was.
   */
  lemma RoutedReachesExactlyTheRoom(s: HubState, msg: Bytes, x: Client)
    requires Inv(s) && x in s.mailbox
    ensures Inv(Routed(s, msg))
    ensures Routed(s, msg).members == s.members && Routed(s, msg).closed == s.closed
    ensures x in s.members && x.room == RoomOf(msg) ==> Routed(s, msg).mailbox[x] == s.mailbox[x] + [msg]
    ensures !(x in s.members && x.room == RoomOf(msg)) ==> Routed(s, msg).mailbox[x] == s.mailbox[x]
  {
  }

  /** `Send(msg, ignore)` appends exactly one copy to every member but `ignore` and changes nothing else. */
  lemma SentReachesAllButIgnored(s: HubState, msg: Bytes, ignore: Option<Client>, x: Client)
    requires Inv(s) && x in s.mailbox
    ensures Inv(Sent(s, msg, ignore))
    ensures Sent(s, msg, ignore).members == s.members && Sent(s, msg, ignore).closed == s.closed
    ensures x in s.members && ignore != Some(x) ==> Sent(s, msg, ignore).mailbox[x] == s.mailbox[x] + [msg]
    ensures !(x in s.members && ignore != Some(x)) ==> Sent(s, msg, ignore).mailbox[x] == s.mailbox[x]
  {
  }

  /** An event closes at most the mailbox of the client it unregisters, and never reopens one. */
  lemma StepClosed(s: HubState, r: Request, a: Announcer)
    ensures Step(s, r, a).closed == s.closed + (if r.Unregister? && r.c in s.members then {r.c} else {})
    ensures Step(s, r, a).mailbox.Keys == s.mailbox.Keys + (if r.Register? then {r.c} else {})
  {
  }

  /** Every event keeps the table consistent, so no member's mailbox is ever closed. */
  lemma StepKeepsInv(s: HubState, r: Request, a: Announcer)
    requires Inv(s) && (r.Register? ==> r.c !in s.closed)
    ensures Inv(Step(s, r, a))
  {
  }

  /**
   * Unregister of a member closes its mailbox, which was open, and removes
   * it; every remaining member, of whatever room, receives the leave envelope
   * exactly once, and the retired client receives nothing more.
   */
  lemma UnregisterRetiresOnce(s: HubState, c: Client, a: Announcer, y: Client)
    requires Inv(s) && c in s.members
    ensures c !in s.closed
    ensures AfterUnregister(s, c, a).members == s.members - {c}
    ensures AfterUnregister(s, c, a).closed == s.closed + {c}
    ensures AfterUnregister(s, c, a).mailbox[c] == s.mailbox[c]
    ensures y in s.members - {c} ==> AfterUnregister(s, c, a).mailbox[y] == s.mailbox[y] + [a.leave(c)]
  {
  }

  /** Unregister of a non-member changes nothing, so a second Unregister of the same client is a no-op. */
  lemma UnregisterIdempotent(s: HubState, c: Client, a: Announcer)
    ensures c !in s.members ==> AfterUnregister(s, c, a) == s
    ensures AfterUnregister(AfterUnregister(s, c, a), c, a) == AfterUnregister(s, c, a)
  {
  }

  /** Running two batches one after the other is running their concatenation. */
  lemma {:induction false} RunConcat(s: HubState, x: seq<Request>, y: seq<Request>, a: Announcer)
    ensures Run(s, x + y, a) == Run(Run(s, x, a), y, a)
    decreases |x|
  {
    if x == [] {
      assert x + y == y;
    } else {
      assert (x + y)[0] == x[0];
      assert (x + y)[1..] == x[1..] + y;
      RunConcat(Step(s, x[0], a), x[1..], y, a);
    }
  }

  /** The table stays consistent over any admissible stream of requests. */
  lemma {:induction false} RunKeepsInv(s: HubState, reqs: seq<Request>, a: Announcer)
    requires Inv(s) && Admissible(s, reqs, a)
    ensures Inv(Run(s, reqs, a))
    decreases |reqs|
  {
    if reqs != [] {
      StepKeepsInv(s, reqs[0], a);
      RunKeepsInv(Step(s, reqs[0], a), reqs[1..], a);
    }
  }

  /**
   * Unregisters taken before a client's first Register are ignored, and the
   * Register then makes it a member that only a later Unregister of its own
   * can retire.
   */
  lemma UnregisteredEarlyStaysMember(s: HubState, c: Client, a: Announcer, rest: seq<Request>)
    requires Inv(s) && c !in s.mailbox
    requires forall i :: 0 <= i < |rest| ==> rest[i] != Unregister(c)
    ensures Admissible(s, [Unregister(c), Unregister(c), Register(c)], a)
    ensures var t := Run(s, [Unregister(c), Unregister(c), Register(c)] + rest, a);
      c in t.members && c !in t.closed
  {
    var early := [Unregister(c), Unregister(c), Register(c)];
    assert Step(s, Unregister(c), a) == s;
    assert early[1..] == [Unregister(c), Register(c)] && early[1..][1..] == [Register(c)];
    assert Run(s, [Register(c)], a) == AfterRegister(s, c, a);
    assert Run(s, early, a) == AfterRegister(s, c, a);
    assert Admissible(s, [Register(c)], a);
    RunConcat(s, early, rest, a);
    StaysMember(Run(s, early, a), rest, a, c);
  }

  /**
   * Per-recipient order: the hub only ever appends to a mailbox, so whatever
   * a client has been sent stays, in order, at the front of its mailbox.
   */
  lemma {:induction false} RunOnlyAppends(s: HubState, reqs: seq<Request>, a: Announcer, x: Client)
    requires x in s.mailbox
    ensures x in Run(s, reqs, a).mailbox
    ensures s.mailbox[x] <= Run(s, reqs, a).mailbox[x]
    decreases |reqs|
  {
    if reqs != [] {
      var t := Step(s, reqs[0], a);
      assert x in t.mailbox && s.mailbox[x] <= t.mailbox[x];
      RunOnlyAppends(t, reqs[1..], a, x);
    }
  }

  /**
   * A closed mailbox stays closed, its client never becomes a member again,
   * and nothing more is ever put in it: the write loop that drains it sees a
   * final, fixed sequence.
   */
  lemma {:induction false} RunFreezesClosed(s: HubState, reqs: seq<Request>, a: Announcer, x: Client)
    requires Inv(s) && Admissible(s, reqs, a) && x in s.closed
    ensures x in Run(s, reqs, a).closed && x !in Run(s, reqs, a).members
    ensures x in Run(s, reqs, a).mailbox && Run(s, reqs, a).mailbox[x] == s.mailbox[x]
    decreases |reqs|
  {
    if reqs != [] {
      var t := Step(s, reqs[0], a);
      StepKeepsInv(s, reqs[0], a);
      StepClosed(s, reqs[0], a);
      RunFreezesClosed(t, reqs[1..], a, x);
    }
  }

  /** Admissibility of two streams taken one after the other. */
  lemma {:induction false} AdmissibleConcat(s: HubState, x: seq<Request>, y: seq<Request>, a: Announcer)
    ensures Admissible(s, x + y, a) <==> Admissible(s, x, a) && Admissible(Run(s, x, a), y, a)
    decreases |x|
  {
    if x == [] {
      assert x + y == y;
    } else {
      assert (x + y)[0] == x[0];
      assert (x + y)[1..] == x[1..] + y;
      AdmissibleConcat(Step(s, x[0], a), x[1..], y, a);
    }
  }

  /**
   * The relay's own streams are admissible: every client is created unknown
   * to the hub and submits its Register once, in whatever order the hub then
   * takes that Register relative to the other requests.
   */
  lemma {:induction false} RegisterOnceIsAdmissible(s: HubState, reqs: seq<Request>, a: Announcer)
    requires Inv(s)
    requires forall i :: 0 <= i < |reqs| && reqs[i].Register? ==> reqs[i].c !in s.mailbox
    requires forall i, j :: 0 <= i < j < |reqs| && reqs[i].Register? && reqs[j].Register? ==> reqs[i].c != reqs[j].c
    ensures Admissible(s, reqs, a)
    decreases |reqs|
  {
    if reqs != [] {
      var t := Step(s, reqs[0], a);
      StepKeepsInv(s, reqs[0], a);
      StepClosed(s, reqs[0], a);
      var tail := reqs[1..];
      forall i | 0 <= i < |tail| && tail[i].Register?
        ensures tail[i].c !in t.mailbox
      {
        assert tail[i] == reqs[i + 1];
      }
      forall i, j | 0 <= i < j < |tail| && tail[i].Register? && tail[j].Register?
        ensures tail[i].c != tail[j].c
      {
        assert tail[i] == reqs[i + 1] && tail[j] == reqs[j + 1];
      }
      RegisterOnceIsAdmissible(t, tail, a);
    }
  }

  /** A client that no request of the stream registers never becomes a member. */
  lemma {:induction false} StaysOut(s: HubState, reqs: seq<Request>, a: Announcer, c: Client)
    requires c !in s.members
    requires forall i :: 0 <= i < |reqs| ==> reqs[i] != Register(c)
    ensures c !in Run(s, reqs, a).members
    decreases |reqs|
  {
    if reqs != [] {
      assert reqs[0] != Register(c);
      StaysOut(Step(s, reqs[0], a), reqs[1..], a, c);
    }
  }

  /** A member that no request of the stream unregisters stays a member, with its mailbox open. */
  lemma {:induction false} StaysMember(s: HubState, reqs: seq<Request>, a: Announcer, c: Client)
    requires c in s.members && c !in s.closed
    requires forall i :: 0 <= i < |reqs| ==> reqs[i] != Unregister(c)
    ensures c in Run(s, reqs, a).members && c !in Run(s, reqs, a).closed
    decreases |reqs|
  {
    if reqs != [] {
      assert reqs[0] != Unregister(c);
      StepClosed(s, reqs[0], a);
      StaysMember(Step(s, reqs[0], a), reqs[1..], a, c);
    }
  }

  /**
   * Per-recipient order: two envelopes routed to a member's room reach its
   * mailbox in the order the hub took them, whatever other requests, of any
   * client, the hub took in between. The first lands right after what the
   * member had before it; the second is the last item.
   */
  lemma BroadcastsArriveInOrder(s: HubState, pre: seq<Request>, m1: Bytes, mid: seq<Request>, m2: Bytes, a: Announcer, x: Client)
    requires Inv(s) && Admissible(s, pre + [Broadcast(m1)] + mid, a)
    requires x in Run(s, pre, a).members && x.room == RoomOf(m1)
    requires x in Run(s, pre + [Broadcast(m1)] + mid, a).members && x.room == RoomOf(m2)
    ensures var before := Run(s, pre, a);
      var after := Run(s, pre + [Broadcast(m1)] + mid + [Broadcast(m2)], a);
      && x in before.mailbox && x in after.mailbox
      && |before.mailbox[x]| + 1 < |after.mailbox[x]|
      && after.mailbox[x][..|before.mailbox[x]| + 1] == before.mailbox[x] + [m1]
      && after.mailbox[x][|after.mailbox[x]| - 1] == m2
  {
    var first := pre + [Broadcast(m1)];
    var upTo2 := first + mid;
    var before := Run(s, pre, a);
    assert upTo2 == pre + ([Broadcast(m1)] + mid);
    AdmissibleConcat(s, pre, [Broadcast(m1)] + mid, a);
    RunKeepsInv(s, pre, a);
    RunConcat(s, pre, [Broadcast(m1)], a);
    var t1 := Run(s, first, a);
    assert t1 == Routed(before, m1);
    RoutedReachesExactlyTheRoom(before, m1, x);
    RunConcat(s, first, mid, a);
    var t2 := Run(s, upTo2, a);
    RunOnlyAppends(t1, mid, a, x);
    RunKeepsInv(s, upTo2, a);
    RunConcat(s, upTo2, [Broadcast(m2)], a);
    assert Run(s, upTo2 + [Broadcast(m2)], a) == Routed(t2, m2);
    RoutedReachesExactlyTheRoom(t2, m2, x);
  }

  /**
   * The second Unregister of a client changes nothing, however many requests
   * of other clients the hub took in between, as long as the client was not
   * registered again.
   */
  lemma DoubleUnregisterIsSingle(s: HubState, pre: seq<Request>, c: Client, mid: seq<Request>, a: Announcer)
    requires forall i :: 0 <= i < |mid| ==> mid[i] != Register(c)
    ensures Run(s, pre + [Unregister(c)] + mid + [Unregister(c)], a) == Run(s, pre + [Unregister(c)] + mid, a)
  {
    var first := pre + [Unregister(c)];
    RunConcat(s, pre, [Unregister(c)], a);
    var t := Run(s, first, a);
    assert t == AfterUnregister(Run(s, pre, a), c, a);
    StaysOut(t, mid, a, c);
    RunConcat(s, first, mid, a);
    var u := Run(s, first + mid, a);
    RunConcat(s, first + mid, [Unregister(c)], a);
    UnregisterIdempotent(u, c, a);
    assert Run(u, [Unregister(c)], a) == AfterUnregister(u, c, a);
  }

  /**
   * The requests a client's read loop submits for a sequence of reads, given
   * how it wraps one frame into an envelope: one Broadcast per frame; at the
   * first error, Unregister from the error branch and again from the deferred
   * function, and nothing after.
   */
  function Submitted<F>(c: Client, results: seq<ReadResult<F>>, wrap: F -> Bytes): seq<Request>
    decreases |results|
  {
    if results == [] then []
    else match results[0]
      case ReadError => [Unregister(c), Unregister(c)]
      case Frame(f) => [Broadcast(wrap(f))] + Submitted(c, results[1..], wrap)
  }

  /**
   * Each frame read before the first error yields exactly one Broadcast of its
   * envelope, in read order; a read error yields two Unregisters and ends the loop.
   */
  lemma {:induction false} SubmittedShape<F>(c: Client, results: seq<ReadResult<F>>, wrap: F -> Bytes)
    ensures var n := FirstError(results);
      |Submitted(c, results, wrap)| == n + (if n < |results| then 2 else 0)
    ensures forall k :: 0 <= k < FirstError(results) ==>
      Submitted(c, results, wrap)[k] == Broadcast(wrap(results[k].data))
    ensures FirstError(results) < |results| ==>
      Submitted(c, results, wrap)[FirstError(results)..] == [Unregister(c), Unregister(c)]
    decreases |results|
  {
    if results != [] && results[0].Frame? {
      SubmittedShape(c, results[1..], wrap);
      var rest := Submitted(c, results[1..], wrap);
      var all := Submitted(c, results, wrap);
      assert all == [Broadcast(wrap(results[0].data))] + rest;
      forall k | 0 <= k < FirstError(results)
        ensures all[k] == Broadcast(wrap(results[k].data))
      {
        if k > 0 {
          assert all[k] == rest[k - 1] && results[k] == results[1..][k - 1];
        }
      }
      if FirstError(results) < |results| {
        assert all[FirstError(results)..] == rest[FirstError(results[1..])..];
      }
    }
  }

  /**
   * A read error retires the client exactly once: the hub's net effect of the
   * whole request stream is the broadcasts followed by a single Unregister.
   */
  lemma ReadErrorRetiresOnce<F>(s: HubState, c: Client, results: seq<ReadResult<F>>, wrap: F -> Bytes, a: Announcer)
    requires FirstError(results) < |results|
    ensures |Submitted(c, results, wrap)| == FirstError(results) + 2
    ensures var reqs := Submitted(c, results, wrap);
      Run(s, reqs, a) == AfterUnregister(Run(s, reqs[..FirstError(results)], a), c, a)
  {
    var reqs := Submitted(c, results, wrap);
    var n := FirstError(results);
    SubmittedShape(c, results, wrap);
    var pre := reqs[..n];
    assert reqs == pre + [Unregister(c), Unregister(c)] by {
      assert reqs == reqs[..n] + reqs[n..];
    }
    DoubleUnregisterIsSingle(s, pre, c, [], a);
    assert pre + [Unregister(c)] + [] + [Unregister(c)] == pre + [Unregister(c), Unregister(c)];
    assert pre + [Unregister(c)] + [] == pre + [Unregister(c)];
    RunConcat(s, pre, [Unregister(c)], a);
    assert Run(Run(s, pre, a), [Unregister(c)], a) == AfterUnregister(Run(s, pre, a), c, a);
  }
}
