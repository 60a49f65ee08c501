/** The broker as a state machine over values: what the server's handlers do to the subscriber records,
    the two maps, the poll list, the descriptors and the messages sent. */
module Broker {
  import opened Hashing
  import opened Options
  import opened SearchRule
  import opened UIntHash

  /** A descriptor that is open. */
  type Descriptor = x: UInt | x < 0x8000_0000

  const SUBSCRIBE_SUB_MSG: nat := 0
  const UNSUBSCRIBE_SUB_MSG: nat := 1
  const CLOSE_SUB_MSG: nat := 2

  /** A subscriber: the descriptor while connected, the patterns, and what the trie gives as their number. */
  datatype Record = Record(fd: Option<Descriptor>, patterns: set<string>, size: int)

  datatype FdEvent = Opened(fd: Descriptor) | Closed(fd: Descriptor)

  datatype Body = CloseNotice | Publication(topic: string, data: string)

  datatype Packet = Packet(fd: Descriptor, body: Body)

  datatype State = State(
    order: seq<CString>,                // the subscriber list, newest first
    byId: map<CString, Record>,
    byFd: map<Descriptor, CString>,
    poll: seq<Descriptor>,              // the watched descriptors of subscribers
    log: seq<FdEvent>,                  // every descriptor opened or closed so far
    sent: seq<Packet>)                  // every message sent so far

  datatype Event =
    | Connect(id: CString, fd: Descriptor)
    | Message(fd: Descriptor, kind: nat, topic: string)
    | Publish(topic: string, data: string)

  // ---------- descriptors ----------

  ghost function OpenFds(log: seq<FdEvent>): set<Descriptor> {
    if log == [] then {}
    else
      var before := OpenFds(log[..|log| - 1]);
      match log[|log| - 1]
      case Opened(fd) => before + {fd}
      case Closed(fd) => before - {fd}
  }

  /** Only closed descriptors are opened and only open ones closed. */
  ghost predicate LogOk(log: seq<FdEvent>) {
    log == [] ||
    (LogOk(log[..|log| - 1]) &&
     match log[|log| - 1]
     case Opened(fd) => fd !in OpenFds(log[..|log| - 1])
     case Closed(fd) => fd in OpenFds(log[..|log| - 1]))
  }

  ghost function Count(log: seq<FdEvent>, e: FdEvent): nat {
    if log == [] then 0 else Count(log[..|log| - 1], e) + if log[|log| - 1] == e then 1 else 0
  }

  /** What one more opening or closing does to the open descriptors ... */
  lemma OpenAfter(log: seq<FdEvent>, fd: Descriptor)
    ensures OpenFds(log + [Opened(fd)]) == OpenFds(log) + {fd}
    ensures OpenFds(log + [Closed(fd)]) == OpenFds(log) - {fd}
  {
    assert (log + [Opened(fd)])[..|log + [Opened(fd)]| - 1] == log;
    assert (log + [Closed(fd)])[..|log + [Closed(fd)]| - 1] == log;
  }

  /** ... and when it is in order. */
  lemma LogOpen(log: seq<FdEvent>, fd: Descriptor)
    requires LogOk(log) && fd !in OpenFds(log)
    ensures LogOk(log + [Opened(fd)])
  {
    var more := log + [Opened(fd)];
    assert more[..|more| - 1] == log;
  }

  lemma LogClose(log: seq<FdEvent>, fd: Descriptor)
    requires LogOk(log) && fd in OpenFds(log)
    ensures LogOk(log + [Closed(fd)])
  {
    var more := log + [Closed(fd)];
    assert more[..|more| - 1] == log;
  }

  /** Each time a descriptor is opened it is closed at most once, and exactly once if it is not open. */
  lemma {:induction false} OpensBalanceCloses(log: seq<FdEvent>, fd: Descriptor)
    requires LogOk(log)
    ensures Count(log, Opened(fd)) == Count(log, Closed(fd)) + if fd in OpenFds(log) then 1 else 0
    decreases |log|
  {
    if log != [] {
      OpensBalanceCloses(log[..|log| - 1], fd);
    }
  }

  // ---------- the invariant ----------

  ghost predicate Distinct<T>(s: seq<T>) {
    forall i, j | 0 <= i < j < |s| :: s[i] != s[j]
  }

  /** The four indexes agree: the list and the map by id have the same ids, once each; the map by
      descriptor and the poll list have exactly the descriptors of connected records, once each. */
  ghost predicate IndexesAgree(s: State) {
    && Distinct(s.order)
    && (forall id :: id in s.order <==> id in s.byId)
    && (forall fd | fd in s.byFd :: s.byFd[fd] in s.byId && s.byId[s.byFd[fd]].fd == Some(fd))
    && (forall id | id in s.byId && s.byId[id].fd.Some? ::
          s.byId[id].fd.value in s.byFd && s.byFd[s.byId[id].fd.value] == id)
    && Distinct(s.poll)
    && (forall fd :: fd in s.poll <==> fd in s.byFd)
  }

  /** Besides, the open descriptors are those of connected records and the two listening sockets. */
  ghost predicate Inv(s: State, listeners: set<Descriptor>) {
    && IndexesAgree(s)
    && LogOk(s.log)
    && s.byFd.Keys !! listeners
    && OpenFds(s.log) == s.byFd.Keys + listeners
  }

  // ---------- the steps ----------

  ghost function Init(udp: Descriptor, tcp: Descriptor): State {
    State([], map[], map[], [], [Opened(udp), Opened(tcp)], [])
  }

  /** accept returns a descriptor that is not open; poll reports watched descriptors only. */
  ghost predicate Enabled(s: State, e: Event) {
    match e
    case Connect(_, fd) => fd !in OpenFds(s.log)
    case Message(fd, _, _) => fd in s.poll
    case Publish(_, _) => true
  }

  ghost function ConnectStep(s: State, id: CString, fd: Descriptor): State {
    if id !in s.byId then
      State([id] + s.order, s.byId[id := Record(Some(fd), {}, 0)], s.byFd[fd := id], s.poll + [fd],
            s.log + [Opened(fd)], s.sent)
    else if s.byId[id].fd == None then
      s.(byId := s.byId[id := s.byId[id].(fd := Some(fd))], byFd := s.byFd[fd := id], poll := s.poll + [fd],
         log := s.log + [Opened(fd)])
    else
      s.(log := s.log + [Opened(fd), Closed(fd)], sent := s.sent + [Packet(fd, CloseNotice)])
  }

  ghost function Without(s: seq<Descriptor>, fd: Descriptor): seq<Descriptor> {
    if s == [] then [] else if s[0] == fd then s[1..] else [s[0]] + Without(s[1..], fd)
  }

  ghost function SetPatterns(s: State, id: CString, patterns: set<string>, size: int): State
    requires id in s.byId
  {
    s.(byId := s.byId[id := s.byId[id].(patterns := patterns, size := size)])
  }

  /** The patterns of the subscriber that a descriptor leads to. */
  ghost function PatternsAt(s: State, fd: Descriptor): set<string> {
    if fd in s.byFd && s.byFd[fd] in s.byId then s.byId[s.byFd[fd]].patterns else {}
  }

  /** The size of a trie after the removal of a topic. */
  ghost function SizeWithout(r: Record, topic: string): int {
    r.size - if topic in r.patterns then 1 else 0
  }

  ghost function CloseStep(s: State, fd: Descriptor): State
    requires fd in s.byFd && s.byFd[fd] in s.byId
  {
    var id := s.byFd[fd];
    s.(byId := s.byId[id := s.byId[id].(fd := None)], byFd := s.byFd - {fd}, poll := Without(s.poll, fd),
       log := s.log + [Closed(fd)])
  }

  ghost function MessageStep(s: State, fd: Descriptor, kind: nat, topic: string): State
    requires fd in s.byFd && s.byFd[fd] in s.byId
  {
    var id := s.byFd[fd];
    var r := s.byId[id];
    if kind == UNSUBSCRIBE_SUB_MSG then SetPatterns(s, id, r.patterns - {topic}, SizeWithout(r, topic))
    else if kind == SUBSCRIBE_SUB_MSG then SetPatterns(s, id, r.patterns + {topic}, r.size + 1)
    else if kind == CLOSE_SUB_MSG then CloseStep(s, fd)
    else s
  }

  /** One publication to each connected record that wants the topic, in list order. */
  ghost function Deliveries(order: seq<CString>, byId: map<CString, Record>, body: Body): seq<Packet>
    requires body.Publication?
    requires forall id | id in order :: id in byId
  {
    if order == [] then []
    else
      DeliveryTo(byId[order[0]], body) + Deliveries(order[1..], byId, body)
  }

  /** What one record is sent. */
  ghost function DeliveryTo(r: Record, body: Body): seq<Packet>
    requires body.Publication?
  {
    if r.fd.Some? && Wants(r.patterns, body.topic) then [Packet(r.fd.value, body)] else []
  }

  ghost function PublishStep(s: State, topic: string, data: string): State
    requires IndexesAgree(s)
  {
    s.(sent := s.sent + Deliveries(s.order, s.byId, Publication(topic, data)))
  }

  ghost function Step(s: State, e: Event): State
    requires IndexesAgree(s) && Enabled(s, e)
  {
    match e
    case Connect(id, fd) => ConnectStep(s, id, fd)
    case Message(fd, kind, topic) => MessageStep(s, fd, kind, topic)
    case Publish(topic, data) => PublishStep(s, topic, data)
  }

  // ---------- every step keeps the invariant ----------

  lemma InitInv(udp: Descriptor, tcp: Descriptor)
    requires udp != tcp
    ensures Inv(Init(udp, tcp), {udp, tcp})
  {
    OpenAfter([], udp);
    OpenAfter([Opened(udp)], tcp);
    LogOpen([], udp);
    LogOpen([Opened(udp)], tcp);
    assert [Opened(udp)] + [Opened(tcp)] == [Opened(udp), Opened(tcp)];
    assert [] + [Opened(udp)] == [Opened(udp)];
  }

  lemma RefusedIs(s: State, id: CString, fd: Descriptor)
    requires id in s.byId && s.byId[id].fd != None
    ensures ConnectStep(s, id, fd)
         == s.(log := s.log + [Opened(fd)] + [Closed(fd)], sent := s.sent + [Packet(fd, CloseNotice)])
  {
    assert s.log + [Opened(fd)] + [Closed(fd)] == s.log + [Opened(fd), Closed(fd)];
  }

  lemma JoinedIs(s: State, id: CString, fd: Descriptor)
    requires id !in s.byId
    ensures ConnectStep(s, id, fd)
         == State([id] + s.order, s.byId[id := Record(Some(fd), {}, 0)], s.byFd[fd := id], s.poll + [fd],
                  s.log + [Opened(fd)], s.sent)
  {
  }

  lemma RevivedIs(s: State, id: CString, fd: Descriptor)
    requires id in s.byId && s.byId[id].fd == None
    ensures ConnectStep(s, id, fd)
         == s.(byId := s.byId[id := s.byId[id].(fd := Some(fd))], byFd := s.byFd[fd := id], poll := s.poll + [fd],
               log := s.log + [Opened(fd)])
  {
  }

  lemma NotYetKnown(s: State, id: CString, fd: Descriptor, listeners: set<Descriptor>)
    requires Inv(s, listeners) && fd !in OpenFds(s.log)
    ensures fd !in s.byFd
    ensures id !in s.byId ==>
              (forall i | 0 <= i < |s.order| :: s.order[i] != id) && (forall x | x in s.byFd :: s.byFd[x] != id)
  {
  }

  lemma JoinAgrees(s: State, id: CString, fd: Descriptor)
    requires IndexesAgree(s) && id !in s.byId && fd !in s.byFd
    ensures IndexesAgree(ConnectStep(s, id, fd))
  {
    assert id !in s.order && fd !in s.poll;
  }

  lemma JoinKeeps(s: State, id: CString, fd: Descriptor, listeners: set<Descriptor>)
    requires Inv(s, listeners) && fd !in OpenFds(s.log) && id !in s.byId
    ensures Inv(ConnectStep(s, id, fd), listeners)
  {
    hide IndexesAgree, LogOk, OpenFds;
    AgreeIn(s, listeners);
    OpenAfter(s.log, fd);
    LogOpen(s.log, fd);
    JoinAgrees(s, id, fd);
    JoinedIs(s, id, fd);
  }

  lemma ReviveAgrees(s: State, id: CString, fd: Descriptor)
    requires IndexesAgree(s) && id in s.byId && s.byId[id].fd == None && fd !in s.byFd
    ensures IndexesAgree(ConnectStep(s, id, fd))
  {
    assert fd !in s.poll;
  }

  lemma ReviveKeeps(s: State, id: CString, fd: Descriptor, listeners: set<Descriptor>)
    requires Inv(s, listeners) && fd !in OpenFds(s.log) && id in s.byId && s.byId[id].fd == None
    ensures Inv(ConnectStep(s, id, fd), listeners)
  {
    hide IndexesAgree, LogOk, OpenFds;
    AgreeIn(s, listeners);
    OpenAfter(s.log, fd);
    LogOpen(s.log, fd);
    ReviveAgrees(s, id, fd);
    RevivedIs(s, id, fd);
  }

  lemma RefuseKeeps(s: State, id: CString, fd: Descriptor, listeners: set<Descriptor>)
    requires Inv(s, listeners) && fd !in OpenFds(s.log) && id in s.byId && s.byId[id].fd != None
    ensures Inv(ConnectStep(s, id, fd), listeners)
  {
    hide LogOk, OpenFds;
    OpenAfter(s.log, fd);
    LogOpen(s.log, fd);
    OpenAfter(s.log + [Opened(fd)], fd);
    LogClose(s.log + [Opened(fd)], fd);
    RefusedIs(s, id, fd);
  }

  lemma ConnectKeeps(s: State, id: CString, fd: Descriptor, listeners: set<Descriptor>)
    requires Inv(s, listeners) && fd !in OpenFds(s.log)
    ensures Inv(ConnectStep(s, id, fd), listeners)
  {
    hide *;
    if id !in s.byId {
      JoinKeeps(s, id, fd, listeners);
    } else if s.byId[id].fd == None {
      ReviveKeeps(s, id, fd, listeners);
    } else {
      RefuseKeeps(s, id, fd, listeners);
    }
  }

  lemma {:induction false} WithoutOne(s: seq<Descriptor>, fd: Descriptor)
    requires Distinct(s)
    ensures Distinct(Without(s, fd)) && fd !in Without(s, fd)
    ensures forall x | x != fd :: x in Without(s, fd) <==> x in s
  {
    if s != [] {
      WithoutOne(s[1..], fd);
      assert s == [s[0]] + s[1..];
      assert s[0] !in s[1..];
    }
  }

  lemma NextDelivery(order: seq<CString>, byId: map<CString, Record>, body: Body, j: nat)
    requires body.Publication? && j <= |order|
    requires forall id | id in order :: id in byId
    ensures j == |order| ==> Deliveries(order[j..], byId, body) == []
    ensures j < |order| ==> order[j] in byId
                            && Deliveries(order[j..], byId, body)
                               == DeliveryTo(byId[order[j]], body) + Deliveries(order[j + 1..], byId, body)
    ensures order[0..] == order
  {
    if j < |order| {
      assert order[j..][1..] == order[j + 1..];
    }
  }

  lemma PublishedIs(s: State, topic: string, data: string, listeners: set<Descriptor>)
    requires Inv(s, listeners)
    ensures forall id | id in s.order :: id in s.byId
    ensures PublishStep(s, topic, data) == s.(sent := s.sent + Deliveries(s.order, s.byId, Publication(topic, data)))
    ensures Inv(PublishStep(s, topic, data), listeners)
  {
  }

  lemma DeliveryIs(r: Record, body: Body)
    requires body.Publication?
    ensures DeliveryTo(r, body)
         == if r.fd != None && Wants(r.patterns, body.topic) then [Packet(r.fd.value, body)] else []
  {
  }

  lemma ConnectedIsOpen(s: State, id: CString, listeners: set<Descriptor>)
    requires Inv(s, listeners) && id in s.byId
    ensures s.byId[id].fd != None ==> s.byId[id].fd.value in OpenFds(s.log) && s.byId[id].fd.value in s.byFd
  {
  }

  lemma ClosedIs(s: State, fd: Descriptor)
    requires fd in s.byFd && s.byFd[fd] in s.byId
    ensures CloseStep(s, fd)
         == s.(byId := s.byId[s.byFd[fd] := s.byId[s.byFd[fd]].(fd := None)], byFd := s.byFd - {fd},
               poll := Without(s.poll, fd), log := s.log + [Closed(fd)])
  {
  }

  lemma MessageIs(s: State, fd: Descriptor, kind: nat, topic: string)
    requires fd in s.byFd && s.byFd[fd] in s.byId
    ensures var id, r := s.byFd[fd], s.byId[s.byFd[fd]];
            MessageStep(s, fd, kind, topic)
            == if kind == UNSUBSCRIBE_SUB_MSG then SetPatterns(s, id, r.patterns - {topic}, SizeWithout(r, topic))
               else if kind == SUBSCRIBE_SUB_MSG then SetPatterns(s, id, r.patterns + {topic}, r.size + 1)
               else if kind == CLOSE_SUB_MSG then CloseStep(s, fd)
               else s
  {
  }

  /** What a message does by the number that stands for its kind. */
  lemma MessageInNumbers(s: State, fd: Descriptor, topic: string)
    requires fd in s.byFd && s.byFd[fd] in s.byId
    ensures PatternsAt(MessageStep(s, fd, 0, topic), fd) == PatternsAt(s, fd) + {topic}
    ensures PatternsAt(MessageStep(s, fd, 1, topic), fd) == PatternsAt(s, fd) - {topic}
    ensures fd !in MessageStep(s, fd, 2, topic).byFd
    ensures forall kind: nat | kind > 2 :: MessageStep(s, fd, kind, topic) == s
  {
  }

  lemma KindsInNumbers()
    ensures SUBSCRIBE_SUB_MSG == 0 && UNSUBSCRIBE_SUB_MSG == 1 && CLOSE_SUB_MSG == 2
  {
  }

  /** A watched descriptor leads to a connected record. */
  lemma WatchedHasRecord(s: State, fd: Descriptor, listeners: set<Descriptor>)
    requires Inv(s, listeners) && (fd in s.poll || fd in s.byFd)
    ensures fd in s.poll && fd in s.byFd && s.byFd[fd] in s.byId && s.byId[s.byFd[fd]].fd == Some(fd)
    ensures fd in OpenFds(s.log)
    ensures Distinct(s.poll)
  {
  }

  lemma CloseAgrees(s: State, fd: Descriptor)
    requires IndexesAgree(s) && fd in s.byFd && s.byFd[fd] in s.byId
    ensures IndexesAgree(CloseStep(s, fd))
  {
    hide Without;
    WithoutOne(s.poll, fd);
  }

  lemma CloseKeeps(s: State, fd: Descriptor, listeners: set<Descriptor>)
    requires Inv(s, listeners) && fd in s.byFd
    ensures Inv(CloseStep(s, fd), listeners)
  {
    hide IndexesAgree, LogOk, OpenFds;
    WatchedHasRecord(s, fd, listeners);
    AgreeIn(s, listeners);
    OpenAfter(s.log, fd);
    LogClose(s.log, fd);
    CloseAgrees(s, fd);
    ClosedIs(s, fd);
  }

  lemma SetPatternsIs(s: State, id: CString, patterns: set<string>, size: int)
    requires id in s.byId
    ensures SetPatterns(s, id, patterns, size).byId == s.byId[id := s.byId[id].(patterns := patterns, size := size)]
    ensures SetPatterns(s, id, patterns, size).order == s.order && SetPatterns(s, id, patterns, size).byFd == s.byFd
    ensures SetPatterns(s, id, patterns, size).poll == s.poll
    ensures SetPatterns(s, id, patterns, size).log == s.log && SetPatterns(s, id, patterns, size).sent == s.sent
  {
  }

  lemma PatternsKeep(s: State, id: CString, patterns: set<string>, size: int, listeners: set<Descriptor>)
    requires Inv(s, listeners) && id in s.byId
    ensures Inv(SetPatterns(s, id, patterns, size), listeners)
  {
    hide LogOk, OpenFds;
  }

  lemma MessageKeeps(s: State, fd: Descriptor, kind: nat, topic: string, listeners: set<Descriptor>)
    requires Inv(s, listeners) && fd in s.poll
    ensures fd in s.byFd && s.byFd[fd] in s.byId
    ensures Inv(MessageStep(s, fd, kind, topic), listeners)
  {
    hide *;
    WatchedHasRecord(s, fd, listeners);
    MessageIs(s, fd, kind, topic);
    var id, r := s.byFd[fd], s.byId[s.byFd[fd]];
    CloseKeeps(s, fd, listeners);
    PatternsKeep(s, id, r.patterns - {topic}, SizeWithout(r, topic), listeners);
    PatternsKeep(s, id, r.patterns + {topic}, r.size + 1, listeners);
  }

  lemma StepKeeps(s: State, e: Event, listeners: set<Descriptor>)
    requires Inv(s, listeners) && Enabled(s, e)
    ensures Inv(Step(s, e), listeners)
  {
    hide Inv, IndexesAgree, OpenFds, ConnectStep, MessageStep, PublishStep;
    AgreeIn(s, listeners);
    match e
    case Connect(id, fd) => ConnectKeeps(s, id, fd, listeners);
    case Message(fd, kind, topic) => MessageKeeps(s, fd, kind, topic, listeners);
    case Publish(topic, data) => PublishedIs(s, topic, data, listeners);
  }

  lemma AgreeIn(s: State, listeners: set<Descriptor>)
    requires Inv(s, listeners)
    ensures IndexesAgree(s)
  {
  }
}
