/** Both ends of one direction of a connection, with the byte stream between them:
    what is delivered is what was accepted, for every pattern of short writes,
    short reads and would-blocks. */
module TcpConnection {
  import opened Basics
  import opened Bytes
  import opened TcpWire
  import S = TcpSender
  import R = TcpReceiver

  /** What can happen, in any order: a fragment is handed to the endpoint, the connection
      is established, the socket becomes writable or readable. `room` and `avail` are what
      the network takes and gives then. */
  datatype Event =
    | SendRequest(tag: byte, segments: seq<seq<byte>>, priority: bool, room: nat)
    | PutRequest(destinations: seq<Segment>, segments: seq<seq<byte>>, priority: bool, room: nat)
    | Establish
    | Writable(room: nat)
    | Readable(avail: seq<nat>)

  function Requested(e: Event): Message
    requires e.SendRequest? || e.PutRequest?
  {
    if e.SendRequest? then Send(e.tag, Flatten(e.segments)) else Put(e.destinations, Flatten(e.segments))
  }

  /** What a caller must see to before a request: a well-formed message, and for a PUT
      no segment of 2 GiB to send from. */
  predicate ValidEvent(k: Link, e: Event) {
    && (e.SendRequest? || e.PutRequest? ==> WellFormed(k, Requested(e)))
    && (e.PutRequest? ==> S.ShortSegments(e.segments))
  }

  /** A request on a closed endpoint starts the connection. */
  function StateAfter(state: S.EndpointState, e: Event): S.EndpointState {
    if e.Establish? then S.Connected
    else if (e.SendRequest? || e.PutRequest?) && state == S.Closed then S.Connecting
    else state
  }

  /** What an event asks for, if the endpoint has not failed. */
  function Asked(state: S.EndpointState, e: Event): seq<Message> {
    if state != S.Failed && (e.SendRequest? || e.PutRequest?) then [Requested(e)] else []
  }

  function StateTo(state: S.EndpointState, events: seq<Event>): S.EndpointState {
    if events == [] then state else StateAfter(StateTo(state, events[..|events| - 1]), events[|events| - 1])
  }

  /** The messages asked for, in order. */
  function AllAsked(state: S.EndpointState, events: seq<Event>): seq<Message> {
    if events == [] then []
    else
      var front := events[..|events| - 1];
      AllAsked(state, front) + Asked(StateTo(state, front), events[|events| - 1])
  }

  /** What is delivered once every byte has been read: all of it, except that a PUT
      without data waits for the bytes of a following message. */
  function Expected(msgs: seq<Message>): seq<Message> {
    if msgs != [] && R.Stalls(msgs[|msgs| - 1]) then msgs[..|msgs| - 1] else msgs
  }

  lemma TracksMore(k: Link, active: bool, f: R.RecvFrag, c: R.Cache, todo: seq<Message>, m: Message, incoming: seq<byte>)
    requires R.ValidFrag(f) && R.ValidCache(c) && WellFormed(k, m) && R.Tracking(k, active, f, c, todo, incoming)
    ensures R.Tracking(k, active, f, c, todo + [m], incoming + Wire(k, m))
  {
    UnfoldWires(k, [m], []);
    assert Wires(k, [m]) == Wire(k, m);
    Associative(R.Cached(c), incoming, Wire(k, m));
    if active {
      R.ExpectsMore(k, todo, [m], f, R.Cached(c) + incoming);
    } else {
      WiresAppend(k, todo, [m]);
    }
  }

  /** The bytes of a further message join the end of the stream, written at once or not. */
  lemma Joins(k: Link, active: bool, f: R.RecvFrag, c: R.Cache, todo: seq<Message>, m: Message,
              flight: seq<byte>, before: seq<byte>, written: seq<byte>, after: seq<byte>)
    requires R.ValidFrag(f) && R.ValidCache(c) && WellFormed(k, m) && R.Tracking(k, active, f, c, todo, flight + before)
    requires written + after == before + Wire(k, m)
    ensures R.Tracking(k, active, f, c, todo + [m], (flight + written) + after)
  {
    Associative(flight, written, after);
    Associative(flight, before, Wire(k, m));
    TracksMore(k, active, f, c, todo, m, flight + before);
  }

  /** With no byte left anywhere, at most one message without data is missing. */
  lemma NothingLeft(k: Link, active: bool, f: R.RecvFrag, c: R.Cache, todo: seq<Message>)
    requires ValidLink(k) && R.ValidFrag(f) && R.ValidCache(c) && c.len == 0 && R.Tracking(k, active, f, c, todo, [])
    ensures todo == [] || (|todo| == 1 && R.Stalls(todo[0]))
  {
    assert R.Cached(c) + [] == [];
    if active {
      R.NothingComes(k, todo, f);
    } else {
      R.WiresNonEmpty(k, todo);
    }
  }

  lemma Longer(a: seq<Message>, b: seq<Message>, c: seq<Message>)
    requires a <= b && b <= c
    ensures a <= c
  {
  }

  class Connection {
    const sender: S.Sender
    const receiver: R.Receiver
    /** Bytes written and not read yet. */
    var pending: seq<byte>
    ghost var accepted: seq<Message>
    ghost var todo: seq<Message>

    constructor (link: Link, cacheSize: nat)
      requires ValidLink(link) && 0 < cacheSize <= INT_MAX
      ensures Valid() && fresh(sender) && fresh(receiver)
      ensures accepted == [] && receiver.delivered == [] && receiver.link == link && sender.state == S.Closed
    {
      sender := new S.Sender();
      receiver := new R.Receiver(link, cacheSize);
      pending, accepted, todo := [], [], [];
    }

    /** Conservation: the bytes of the accepted messages are those delivered, those
        in the receiver, those in flight and those the sender still holds. */
    ghost predicate Valid()
      reads this, sender, receiver
    {
      && sender.Valid() && receiver.Valid()
      && accepted == receiver.delivered + todo
      && receiver.Tracks(todo, pending + sender.Backlog())
    }

    /** Hand a fragment that encodes `m` to the endpoint. */
    method Submit(f: S.SendFrag, room: nat, ghost m: Message) returns (rc: int, written: seq<byte>)
      requires Valid() && S.Sound(f) && WellFormed(receiver.link, m) && S.Remaining(f) == Wire(receiver.link, m)
      modifies this, sender
      ensures Valid() && receiver.delivered == old(receiver.delivered) && pending == old(pending) + written
      ensures sender.state == if old(sender.state) == S.Closed then S.Connecting else old(sender.state)
      ensures rc < 0 <==> old(sender.state) == S.Failed
      ensures rc == 1 <==> S.SendsAtOnce(old(sender.state), old(sender.current), f) && written == S.Remaining(f)
      ensures rc <= 1 && (!S.SendsAtOnce(old(sender.state), old(sender.current), f) ==> written == [])
      ensures accepted == if rc < 0 then old(accepted) else old(accepted) + [m]
    {
      ghost var before, flight := sender.Backlog(), pending;
      rc, written := sender.EndpointSend(f, room);
      Accept(rc, written, m, before);
    }

    /** What an endpoint answers to a request is entered into the account. */
    method Accept(rc: int, written: seq<byte>, ghost m: Message, ghost before: seq<byte>)
      requires sender.Valid() && receiver.Valid() && accepted == receiver.delivered + todo && WellFormed(receiver.link, m)
      requires receiver.Tracks(todo, pending + before)
      requires if rc < 0 then written == [] && sender.Backlog() == before else written + sender.Backlog() == before + Wire(receiver.link, m)
      modifies this
      ensures Valid() && pending == old(pending) + written && accepted == if rc < 0 then old(accepted) else old(accepted) + [m]
    {
      ghost var flight := pending;
      pending := pending + written;
      if rc >= 0 {
        Joins(receiver.link, receiver.active, receiver.frag, receiver.cache, todo, m, flight, before, written, sender.Backlog());
        accepted, todo := accepted + [m], todo + [m];
        assert accepted == receiver.delivered + todo;
      } else {
        assert pending == flight;
      }
    }

    /** The socket became writable: one iteration of the send handler, after which
        other events may come in between. With room some of a backlog is written. */
    method WriteEvent(room: nat)
      requires Valid()
      modifies this, sender
      ensures Valid() && receiver.delivered == old(receiver.delivered) && accepted == old(accepted) && sender.state == old(sender.state)
      ensures pending + sender.Backlog() == old(pending) + old(sender.Backlog()) && old(pending) <= pending
      ensures sender.state == S.Connected && room > 0 && old(sender.Backlog()) != [] ==> |sender.Backlog()| < |old(sender.Backlog())|
    {
      if sender.state == S.Connected && sender.current.Some? {
        var done, written := sender.SendCurrent(room);
        ghost var flight := pending;
        pending := pending + written;
        Associative(flight, written, sender.Backlog());
      }
    }

    /** The socket became readable. What the network has is read. */
    method ReadEvent(avail: seq<nat>)
      requires Valid()
      modifies this, receiver
      ensures Valid() && accepted == old(accepted) && old(receiver.delivered) <= receiver.delivered
      ensures R.Reads(0, avail, old(pending), pending)
    {
      ghost var rest;
      pending, rest := receiver.RecvHandler(pending, avail, todo, sender.Backlog());
      todo := rest;
    }

    /** The messages delivered so far are the first of those accepted, in order,
        each once and with the same bytes. */
    lemma DeliversPrefix()
      requires Valid()
      ensures receiver.delivered <= accepted
    {
    }

    /** Once the sender has written everything and the receiver has read
        everything, exactly the expected messages have been delivered; that is
        all of them unless the last is a PUT without data. */
    lemma DeliversAll()
      requires Valid() && pending == [] && sender.Backlog() == []
      ensures receiver.delivered == Expected(accepted)
    {
      assert pending + sender.Backlog() == [];
      NothingLeft(receiver.link, receiver.active, receiver.frag, receiver.cache, todo);
      if todo == [] {
        assert accepted == receiver.delivered;
      } else {
        assert accepted[|accepted| - 1] == todo[0] && accepted[..|accepted| - 1] == receiver.delivered;
      }
    }

    /** A PUT without data is never delivered while it is the last message accepted. */
    lemma LastStalls()
      requires Valid() && accepted != [] && R.Stalls(accepted[|accepted| - 1])
      ensures |receiver.delivered| < |accepted|
    {
      assert receiver.delivered + [] == receiver.delivered;
    }

    /** While the socket is writable and has room, again and again, the backlog is written. */
    method WriteAll(rooms: seq<nat>)
      requires Valid() && sender.state == S.Connected && |rooms| >= |sender.Backlog()| && forall i :: 0 <= i < |rooms| ==> rooms[i] > 0
      modifies this, sender
      ensures Valid() && sender.Backlog() == [] && accepted == old(accepted) && |pending| == |old(pending)| + |old(sender.Backlog())|
    {
      var i := 0;
      while i < |rooms|
        invariant 0 <= i <= |rooms| && Valid() && sender.state == S.Connected && accepted == old(accepted)
        invariant |sender.Backlog()| <= |rooms| - i
        invariant |pending| + |sender.Backlog()| == |old(pending)| + |old(sender.Backlog())|
      {
        ghost var all := pending + sender.Backlog();
        WriteEvent(rooms[i]);
        assert |pending + sender.Backlog()| == |all|;
        i := i + 1;
      }
    }

    /** While the socket is readable and has bytes, again and again, everything is read. */
    method ReadAll(avails: seq<seq<nat>>)
      requires Valid() && |avails| >= |pending| && forall i :: 0 <= i < |avails| ==> R.Offer(avails[i]) > 0
      modifies this, receiver
      ensures Valid() && pending == [] && accepted == old(accepted)
    {
      var i := 0;
      while i < |avails|
        invariant 0 <= i <= |avails| && Valid() && accepted == old(accepted) && |pending| <= |avails| - i
      {
        ReadEvent(avails[i]);
        i := i + 1;
      }
    }

    /** A connected endpoint delivers all that it has accepted, given as many turns with
        room and with bytes as there are bytes on the way; a last PUT without data waits. */
    method Settle(rooms: seq<nat>, avails: seq<seq<nat>>)
      requires Valid() && sender.state == S.Connected
      requires |rooms| >= |sender.Backlog()| && forall i :: 0 <= i < |rooms| ==> rooms[i] > 0
      requires |avails| >= |pending| + |sender.Backlog()| && forall i :: 0 <= i < |avails| ==> R.Offer(avails[i]) > 0
      modifies this, sender, receiver
      ensures Valid() && accepted == old(accepted) && receiver.delivered == Expected(accepted)
    {
      WriteAll(rooms);
      ReadAll(avails);
      DeliversAll();
    }

    /** The socket is writable and readable in turn. */
    method Exchange(rooms: seq<nat>, avails: seq<seq<nat>>)
      requires Valid()
      modifies this, sender, receiver
      ensures Valid() && accepted == old(accepted)
    {
      var i := 0;
      while i < |rooms| && i < |avails|
        invariant Valid() && accepted == old(accepted)
      {
        WriteEvent(rooms[i]);
        ReadEvent(avails[i]);
        i := i + 1;
      }
    }

    method SendEvent(tag: byte, segments: seq<seq<byte>>, priority: bool, room: nat)
      requires Valid() && WellFormed(receiver.link, Send(tag, Flatten(segments)))
      modifies this, sender
      ensures Valid() && receiver.delivered == old(receiver.delivered)
      ensures sender.state == if old(sender.state) == S.Closed then S.Connecting else old(sender.state)
      ensures accepted == old(accepted) + if old(sender.state) == S.Failed then [] else [Send(tag, Flatten(segments))]
    {
      ghost var m := Send(tag, Flatten(segments));
      var f := S.SendFragment(receiver.link, tag, segments, priority, m);
      var rc, written := Submit(f, room, m);
    }

    method PutEvent(destinations: seq<Segment>, segments: seq<seq<byte>>, priority: bool, room: nat)
      requires Valid() && WellFormed(receiver.link, Put(destinations, Flatten(segments))) && S.ShortSegments(segments)
      modifies this, sender
      ensures Valid() && receiver.delivered == old(receiver.delivered)
      ensures sender.state == if old(sender.state) == S.Closed then S.Connecting else old(sender.state)
      ensures accepted == old(accepted) + if old(sender.state) == S.Failed then [] else [Put(destinations, Flatten(segments))]
    {
      ghost var m := Put(destinations, Flatten(segments));
      var f := S.PutFragment(receiver.link, destinations, segments, priority, m);
      var rc, written := Submit(f, room, m);
    }

    method Handle(e: Event)
      requires Valid() && ValidEvent(receiver.link, e)
      modifies this, sender, receiver
      ensures Valid() && old(receiver.delivered) <= receiver.delivered && sender.state == StateAfter(old(sender.state), e)
      ensures accepted == old(accepted) + Asked(old(sender.state), e)
    {
      match e
      case SendRequest(tag, segments, priority, room) => SendEvent(tag, segments, priority, room);
      case PutRequest(destinations, segments, priority, room) => PutEvent(destinations, segments, priority, room);
      case Establish => sender.EndpointConnected();
      case Writable(room) => WriteEvent(room);
      case Readable(avail) => ReadEvent(avail);
    }

    method HandleAll(events: seq<Event>)
      requires Valid() && forall i :: 0 <= i < |events| ==> ValidEvent(receiver.link, events[i])
      modifies this, sender, receiver
      ensures Valid() && old(receiver.delivered) <= receiver.delivered
      ensures sender.state == StateTo(old(sender.state), events) && accepted == old(accepted) + AllAsked(old(sender.state), events)
    {
      if events != [] {
        ghost var state, front, last := sender.state, events[..|events| - 1], events[|events| - 1];
        HandleAll(events[..|events| - 1]);
        ghost var delivered, state' := receiver.delivered, sender.state;
        Handle(events[|events| - 1]);
        Associative(old(accepted), AllAsked(state, front), Asked(state', last));
        Longer(old(receiver.delivered), delivered, receiver.delivered);
      }
    }

    /** Any sequence of events: what is asked for is accepted, in order, and what is
        delivered is the beginning of it; all of it once everything is written and read. */
    method Run(events: seq<Event>)
      requires Valid() && forall i :: 0 <= i < |events| ==> ValidEvent(receiver.link, events[i])
      modifies this, sender, receiver
      ensures Valid() && receiver.delivered <= accepted && old(receiver.delivered) <= receiver.delivered
      ensures sender.state == StateTo(old(sender.state), events) && accepted == old(accepted) + AllAsked(old(sender.state), events)
      ensures pending == [] && sender.Backlog() == [] ==> receiver.delivered == Expected(accepted)
    {
      HandleAll(events);
      if pending == [] && sender.Backlog() == [] {
        DeliversAll();
      }
    }
  }

  /** One PUT of no bytes, and then the socket is writable and readable as often as
      one likes: it is not delivered. */
  method EmptyPut(link: Link, rooms: seq<nat>, avails: seq<seq<nat>>) returns (delivered: seq<Message>)
    requires link.senderBig == link.receiverBig
    ensures delivered == []
  {
    var c := new Connection(link, 1);
    var m := Put([Segment(0, 0)], []);
    ghost var none: seq<seq<byte>> := [];
    assert Flatten(none) == [] && Total(m.segments[1..]) == 0;
    c.PutEvent(m.segments, [], false, 0);
    c.sender.EndpointConnected();
    c.Exchange(rooms, avails);
    c.LastStalls();
    delivered := c.receiver.delivered;
  }
}
