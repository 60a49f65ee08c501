/** What holds of the broker over whole runs. */
module BrokerRuns {
  import opened Alphabet
  import opened Broker
  import opened Hashing
  import opened KeyRuns
  import opened Levels
  import opened Matching
  import opened Options
  import opened SearchRule

  /** The state after a run from s; an impossible event is not taken. */
  ghost function Run(s: State, es: seq<Event>): State {
    if es == [] then s
    else
      var t := Run(s, es[..|es| - 1]);
      if IndexesAgree(t) && Enabled(t, es[|es| - 1]) then Step(t, es[|es| - 1]) else t
  }

  /** A sequence of events, each possible in the state that the ones before it lead to. */
  ghost predicate Possible(s: State, es: seq<Event>) {
    es == [] ||
    (Possible(s, es[..|es| - 1]) && Enabled(Run(s, es[..|es| - 1]), es[|es| - 1]))
  }

  lemma RunNothing(s: State)
    ensures Run(s, []) == s && Possible(s, [])
  {
  }

  lemma RunOneMore(s: State, es: seq<Event>, e: Event)
    requires IndexesAgree(Run(s, es)) && Enabled(Run(s, es), e)
    ensures Run(s, es + [e]) == Step(Run(s, es), e)
    ensures Possible(s, es) ==> Possible(s, es + [e])
  {
    assert (es + [e])[..|es + [e]| - 1] == es;
  }

  /** Runs compose. */
  lemma {:induction false} RunConcat(s: State, a: seq<Event>, b: seq<Event>)
    ensures Run(s, a + b) == Run(Run(s, a), b)
    ensures Possible(s, a + b) <==> Possible(s, a) && Possible(Run(s, a), b)
    decreases |b|
  {
    if b == [] {
      assert a + b == a;
    } else {
      RunConcat(s, a, b[..|b| - 1]);
      assert (a + b)[..|a + b| - 1] == a + b[..|b| - 1];
    }
  }

  /** Every state of a possible run has agreeing indexes and open descriptors to match. */
  lemma {:induction false} RunsKeep(s: State, es: seq<Event>, listeners: set<Descriptor>)
    requires Inv(s, listeners) && Possible(s, es)
    ensures Inv(Run(s, es), listeners)
    decreases |es|
  {
    if es != [] {
      var before := es[..|es| - 1];
      RunsKeep(s, before, listeners);
      StepKeeps(Run(s, before), es[|es| - 1], listeners);
    }
  }

  /** Every reachable state has agreeing indexes and open descriptors to match. */
  lemma ReachableStatesAgree(udp: Descriptor, tcp: Descriptor, es: seq<Event>)
    requires udp != tcp && Possible(Init(udp, tcp), es)
    ensures Inv(Run(Init(udp, tcp), es), {udp, tcp})
  {
    InitInv(udp, tcp);
    RunsKeep(Init(udp, tcp), es, {udp, tcp});
  }

  // ---------- pattern histories ----------

  /** What subscribing and unsubscribing do to the trie of a subscriber. */
  type Request = Op<char>

  ghost function PatternsOf(requests: seq<Request>): set<string> {
    Entries(requests).Keys
  }

  /** The id given on the latest connection with the descriptor. */
  ghost function LatestLogin(es: seq<Event>, fd: Descriptor): Option<CString> {
    if es == [] then None
    else
      var last := es[|es| - 1];
      if last.Connect? && last.fd == fd then Some(last.id) else LatestLogin(es[..|es| - 1], fd)
  }

  /** The requests in the messages that arrived on descriptors that id had logged in with. */
  ghost function History(es: seq<Event>, id: CString): seq<Request> {
    if es == [] then []
    else
      var before, last := es[..|es| - 1], es[|es| - 1];
      History(before, id) + RequestBy(last, if last.Message? then LatestLogin(before, last.fd) else None, id)
  }

  /** The request in an event, if the event is a message from id. */
  ghost function RequestBy(e: Event, sender: Option<CString>, id: CString): (requests: seq<Request>)
    ensures |requests| <= 1
  {
    if e.Message? && sender == Some(id) then
      if e.kind == SUBSCRIBE_SUB_MSG then [Store(e.topic, TOPIC_VALUE)]
      else if e.kind == UNSUBSCRIBE_SUB_MSG then [Drop(e.topic)]
      else []
    else []
  }

  lemma StepLogins(s: State, e: Event, fd: Descriptor, listeners: set<Descriptor>)
    requires Inv(s, listeners) && Enabled(s, e) && fd in Step(s, e).byFd
    ensures if e.Connect? && e.fd == fd then Step(s, e).byFd[fd] == e.id
            else fd in s.byFd && Step(s, e).byFd[fd] == s.byFd[fd]
  {
  }

  lemma {:induction false} LoginsKnown(udp: Descriptor, tcp: Descriptor, es: seq<Event>, fd: Descriptor)
    requires udp != tcp && Possible(Init(udp, tcp), es) && fd in Run(Init(udp, tcp), es).byFd
    ensures LatestLogin(es, fd) == Some(Run(Init(udp, tcp), es).byFd[fd])
    decreases |es|
  {
    hide Step, IndexesAgree, Inv;
    if es != [] {
      var before, last := es[..|es| - 1], es[|es| - 1];
      var s := Run(Init(udp, tcp), before);
      ReachableStatesAgree(udp, tcp, before);
      AgreeIn(s, {udp, tcp});
      StepLogins(s, last, fd, {udp, tcp});
      if !(last.Connect? && last.fd == fd) {
        LoginsKnown(udp, tcp, before, fd);
      }
    }
  }

  ghost function PatternsIn(s: State, id: CString): set<string> {
    if id in s.byId then s.byId[id].patterns else {}
  }

  lemma StepPatterns(s: State, e: Event, sender: Option<CString>, id: CString)
    requires IndexesAgree(s) && Enabled(s, e)
    requires e.Message? ==> sender == Some(s.byFd[e.fd])
    ensures RequestBy(e, sender, id) == [] ==> PatternsIn(Step(s, e), id) == PatternsIn(s, id)
    ensures RequestBy(e, sender, id) != [] ==>
              var op := RequestBy(e, sender, id)[0];
              PatternsIn(Step(s, e), id)
              == if op.Store? then PatternsIn(s, id) + {op.key} else PatternsIn(s, id) - {op.key}
  {
  }

  /** The patterns of an id are what its own requests make them, whatever else has happened: closing,
      reconnecting on another descriptor, a refused second login, or other clients' messages. */
  lemma {:induction false} PatternsAreHistory(udp: Descriptor, tcp: Descriptor, es: seq<Event>, id: CString)
    requires udp != tcp && Possible(Init(udp, tcp), es)
    ensures PatternsIn(Run(Init(udp, tcp), es), id) == PatternsOf(History(es, id))
    decreases |es|
  {
    hide PatternsIn, Entries, Repeats, IndexesAgree, Step, RequestBy, Inv;
    if es == [] {
      NothingYet(udp, tcp, id);
    } else {
      var before, last := es[..|es| - 1], es[|es| - 1];
      var s := Run(Init(udp, tcp), before);
      ReachableStatesAgree(udp, tcp, before);
      AgreeIn(s, {udp, tcp});
      PatternsAreHistory(udp, tcp, before, id);
      if last.Message? {
        WatchedHasRecord(s, last.fd, {udp, tcp});
        LoginsKnown(udp, tcp, before, last.fd);
      }
      var sender := if last.Message? then LatestLogin(before, last.fd) else None;
      StepPatterns(s, last, sender, id);
      OneMoreRequest(History(before, id), RequestBy(last, sender, id));
    }
  }

  lemma OneMoreRequest(requests: seq<Request>, more: seq<Request>)
    requires |more| <= 1
    ensures more == [] ==> requests + more == requests
    ensures more != [] ==>
              var op := more[0];
              && PatternsOf(requests + more)
                 == (if op.Store? then PatternsOf(requests) + {op.key} else PatternsOf(requests) - {op.key})
              && |Entries(requests + more)| + Repeats(requests + more)
                 == SizeAfter(PatternsOf(requests), |Entries(requests)| + Repeats(requests), op)
  {
    hide Entries, Repeats;
    if more != [] {
      assert more == [more[0]];
      Appended(requests, more[0]);
      KeysApplied(Entries(requests), more[0]);
    }
  }

  lemma NothingYet(udp: Descriptor, tcp: Descriptor, id: CString)
    ensures PatternsIn(Init(udp, tcp), id) == PatternsOf([])
    ensures SizeIn(Init(udp, tcp), id) == |Entries<char>([])| + Repeats<char>([])
  {
  }

  // ---------- the sizes of the tries ----------

  ghost function SizeIn(s: State, id: CString): int {
    if id in s.byId then s.byId[id].size else 0
  }

  lemma StepSize(s: State, e: Event, sender: Option<CString>, id: CString)
    requires IndexesAgree(s) && Enabled(s, e)
    requires e.Message? ==> sender == Some(s.byFd[e.fd])
    ensures RequestBy(e, sender, id) == [] ==> SizeIn(Step(s, e), id) == SizeIn(s, id)
    ensures RequestBy(e, sender, id) != [] ==>
              SizeIn(Step(s, e), id) == SizeAfter(PatternsIn(s, id), SizeIn(s, id), RequestBy(e, sender, id)[0])
  {
  }

  /** The size of the trie of an id is the number of its patterns plus the number of times it asked for a pattern
      it already had. */
  lemma {:induction false} SizeIsHistory(udp: Descriptor, tcp: Descriptor, es: seq<Event>, id: CString)
    requires udp != tcp && Possible(Init(udp, tcp), es)
    ensures SizeIn(Run(Init(udp, tcp), es), id) == |Entries(History(es, id))| + Repeats(History(es, id))
    decreases |es|
  {
    hide SizeIn, PatternsIn, PatternsOf, Entries, Repeats, IndexesAgree, Step, RequestBy, Inv, SizeAfter;
    if es == [] {
      NothingYet(udp, tcp, id);
    } else {
      var before, last := es[..|es| - 1], es[|es| - 1];
      var s := Run(Init(udp, tcp), before);
      ReachableStatesAgree(udp, tcp, before);
      AgreeIn(s, {udp, tcp});
      SizeIsHistory(udp, tcp, before, id);
      PatternsAreHistory(udp, tcp, before, id);
      if last.Message? {
        WatchedHasRecord(s, last.fd, {udp, tcp});
        LoginsKnown(udp, tcp, before, last.fd);
      }
      var sender := if last.Message? then LatestLogin(before, last.fd) else None;
      StepSize(s, last, sender, id);
      OneMoreRequest(History(before, id), RequestBy(last, sender, id));
    }
  }

  // ---------- publishing ----------

  ghost function CountTo(packets: seq<Packet>, fd: Descriptor): nat {
    if packets == [] then 0 else (if packets[0].fd == fd then 1 else 0) + CountTo(packets[1..], fd)
  }

  lemma {:induction false} CountToConcat(a: seq<Packet>, b: seq<Packet>, fd: Descriptor)
    ensures CountTo(a + b, fd) == CountTo(a, fd) + CountTo(b, fd)
    decreases |a|
  {
    if a == [] {
      assert a + b == b;
    } else {
      assert (a + b)[1..] == a[1..] + b;
      CountToConcat(a[1..], b, fd);
    }
  }

  ghost predicate Receives(byId: map<CString, Record>, id: CString, fd: Descriptor, topic: string)
    requires id in byId
  {
    byId[id].fd == Some(fd) && Wants(byId[id].patterns, topic)
  }

  lemma {:induction false} DeliveriesTo(order: seq<CString>, byId: map<CString, Record>, body: Body, fd: Descriptor)
    requires body.Publication? && Distinct(order)
    requires forall id | id in order :: id in byId
    requires forall a, b | a in order && b in order && byId[a].fd == byId[b].fd && byId[a].fd.Some? :: a == b
    ensures CountTo(Deliveries(order, byId, body), fd)
            == if exists id | id in order :: Receives(byId, id, fd, body.topic) then 1 else 0
    ensures forall p | p in Deliveries(order, byId, body) :: p.body == body
    decreases |order|
  {
    if order != [] {
      var id, rest := order[0], order[1..];
      assert order == [id] + rest;
      DeliveriesTo(rest, byId, body, fd);
      var r := byId[id];
      var here := DeliveryTo(r, body);
      CountToConcat(here, Deliveries(rest, byId, body), fd);
      assert CountTo(here, fd) == if Receives(byId, id, fd, body.topic) then 1 else 0;
      assert id !in rest;
      if Receives(byId, id, fd, body.topic) {
        assert !exists x | x in rest :: Receives(byId, x, fd, body.topic);
      }
    }
  }

  /** Publishing sends one message to each connected subscriber with at least one pattern that takes the
      topic, however many do, and none on any other descriptor. */
  lemma PublishReachesExactly(s: State, topic: string, data: string, fd: Descriptor)
    requires IndexesAgree(s)
    ensures var added := PublishStep(s, topic, data).sent[|s.sent|..];
            && PublishStep(s, topic, data).sent == s.sent + added
            && (forall p | p in added :: p.body == Publication(topic, data))
            && CountTo(added, fd) == if fd in s.byFd && Wants(s.byId[s.byFd[fd]].patterns, topic) then 1 else 0
  {
    var body := Publication(topic, data);
    DeliveriesTo(s.order, s.byId, body, fd);
    assert PublishStep(s, topic, data).sent[|s.sent|..] == Deliveries(s.order, s.byId, body);
    if fd in s.byFd && Wants(s.byId[s.byFd[fd]].patterns, topic) {
      assert s.byFd[fd] in s.order && Receives(s.byId, s.byFd[fd], fd, topic);
    }
  }

  /** For a topic without empty levels, that is whoever has a pattern that matches it as documented. */
  lemma PublishReachesMatching(s: State, topic: string, data: string, fd: Descriptor)
    requires IndexesAgree(s) && NoEmptyLevel(Split(topic))
    ensures CountTo(PublishStep(s, topic, data).sent[|s.sent|..], fd)
            == if fd in s.byFd && exists w | w in s.byId[s.byFd[fd]].patterns :: Matches(w, topic) then 1 else 0
  {
    PublishReachesExactly(s, topic, data, fd);
    if fd in s.byFd {
      WantsDocumented(s.byId[s.byFd[fd]].patterns, topic);
    }
  }

  /** Over a whole run: a publication reaches exactly the connected descriptors whose latest login is of an id
      that has asked for a pattern that takes the topic and has not taken it back since. */
  lemma PublishFollowsRequests(udp: Descriptor, tcp: Descriptor, es: seq<Event>, topic: string, data: string,
                               fd: Descriptor)
    requires udp != tcp && Possible(Init(udp, tcp), es)
    ensures var s := Run(Init(udp, tcp), es);
            && (fd in s.byFd <==> fd in OpenFds(s.log) && fd != udp && fd != tcp)
            && (fd in s.byFd ==> LatestLogin(es, fd) != None)
            && CountTo(Run(Init(udp, tcp), es + [Publish(topic, data)]).sent[|s.sent|..], fd)
               == if fd in s.byFd && Wants(PatternsOf(History(es, LatestLogin(es, fd).value)), topic) then 1 else 0
  {
    var s := Run(Init(udp, tcp), es);
    ReachableStatesAgree(udp, tcp, es);
    RunOneMore(Init(udp, tcp), es, Publish(topic, data));
    PublishReachesExactly(s, topic, data, fd);
    if fd in s.byFd {
      LoginsKnown(udp, tcp, es, fd);
      PatternsAreHistory(udp, tcp, es, s.byFd[fd]);
    }
  }

  // ---------- stopping ----------

  ghost function Connected(order: seq<CString>, byId: map<CString, Record>): seq<Descriptor>
    requires forall id | id in order :: id in byId
  {
    if order == [] then []
    else (if byId[order[0]].fd.Some? then [byId[order[0]].fd.value] else []) + Connected(order[1..], byId)
  }

  ghost function Notices(fds: seq<Descriptor>): (sent: seq<Packet>)
    ensures |sent| == |fds| && forall i | 0 <= i < |fds| :: sent[i] == Packet(fds[i], CloseNotice)
  {
    seq(|fds|, i requires 0 <= i < |fds| => Packet(fds[i], CloseNotice))
  }

  ghost function Closings(fds: seq<Descriptor>): (log: seq<FdEvent>)
    ensures |log| == |fds| && forall i | 0 <= i < |fds| :: log[i] == Closed(fds[i])
  {
    seq(|fds|, i requires 0 <= i < |fds| => Closed(fds[i]))
  }

  /** The descriptors still to be closed while the server stops are distinct and open, and besides them
      only the two sockets are open. */
  ghost predicate StillOpen(fds: seq<Descriptor>, log: seq<FdEvent>, udp: Descriptor, tcp: Descriptor) {
    && Distinct(fds) && udp !in fds && tcp !in fds && udp != tcp
    && forall fd :: fd in OpenFds(log) <==> fd in fds || fd == udp || fd == tcp
  }

  lemma NoneClosed(s: State, udp: Descriptor, tcp: Descriptor)
    requires Inv(s, {udp, tcp}) && udp != tcp
    ensures forall id | id in s.order :: id in s.byId
    ensures StillOpen(Connected(s.order, s.byId), s.log, udp, tcp)
  {
    ConnectedAre(s.order, s.byId);
  }

  lemma OneClosed(fds: seq<Descriptor>, log: seq<FdEvent>, udp: Descriptor, tcp: Descriptor)
    requires StillOpen(fds, log, udp, tcp) && fds != []
    ensures fds[0] in OpenFds(log) && StillOpen(fds[1..], log + [Closed(fds[0])], udp, tcp)
  {
    assert fds == [fds[0]] + fds[1..];
    OpenAfter(log, fds[0]);
  }

  lemma SocketsLeft(log: seq<FdEvent>, udp: Descriptor, tcp: Descriptor)
    requires StillOpen([], log, udp, tcp)
    ensures udp in OpenFds(log) && tcp in OpenFds(log + [Closed(udp)])
  {
    OpenAfter(log, udp);
  }

  /** What one record's closing adds to the account. */
  lemma NextClosing(order: seq<CString>, byId: map<CString, Record>, j: nat)
    requires j <= |order| && forall id | id in order :: id in byId
    ensures order[0..] == order
    ensures j == |order| ==> Connected(order[j..], byId) == []
    ensures j < |order| && byId[order[j]].fd == None ==> Connected(order[j..], byId) == Connected(order[j + 1..], byId)
    ensures j < |order| && byId[order[j]].fd != None ==>
              && Connected(order[j..], byId) != [] && Connected(order[j..], byId)[0] == byId[order[j]].fd.value
              && Connected(order[j..], byId)[1..] == Connected(order[j + 1..], byId)
  {
    if j < |order| {
      assert order[j..][1..] == order[j + 1..];
    }
  }

  /** `log` and `sent` become `lastLog` and `lastSent` once the given descriptors have been closed. */
  ghost predicate ToClose(fds: seq<Descriptor>, log: seq<FdEvent>, sent: seq<Packet>,
                          lastLog: seq<FdEvent>, lastSent: seq<Packet>) {
    log + Closings(fds) == lastLog && sent + Notices(fds) == lastSent
  }

  lemma ToCloseNext(fds: seq<Descriptor>, log: seq<FdEvent>, sent: seq<Packet>, lastLog: seq<FdEvent>,
                    lastSent: seq<Packet>)
    requires ToClose(fds, log, sent, lastLog, lastSent)
    ensures fds == [] ==> log == lastLog && sent == lastSent
    ensures fds != [] ==>
              ToClose(fds[1..], log + [Closed(fds[0])], sent + [Packet(fds[0], CloseNotice)], lastLog, lastSent)
  {
    hide Closings, Notices;
    if fds != [] {
      FirstClosing(log, fds);
      FirstNotice(sent, fds);
    } else {
      assert Closings(fds) == [] && Notices(fds) == [];
    }
  }

  lemma ToCloseAll(fds: seq<Descriptor>, log: seq<FdEvent>, sent: seq<Packet>)
    ensures ToClose(fds, log, sent, log + Closings(fds), sent + Notices(fds))
  {
  }

  /** Everything is closed: the subscribers' descriptors in list order, then the two sockets. */
  ghost function StopLog(s: State, udp: Descriptor, tcp: Descriptor): seq<FdEvent>
    requires IndexesAgree(s)
  {
    s.log + Closings(Connected(s.order, s.byId)) + [Closed(udp), Closed(tcp)]
  }

  lemma {:induction false} ConnectedAre(order: seq<CString>, byId: map<CString, Record>)
    requires Distinct(order)
    requires forall id | id in order :: id in byId
    requires forall a, b | a in order && b in order && byId[a].fd == byId[b].fd && byId[a].fd.Some? :: a == b
    ensures Distinct(Connected(order, byId))
    ensures forall fd :: fd in Connected(order, byId) <==> exists id | id in order :: byId[id].fd == Some(fd)
    decreases |order|
  {
    if order != [] {
      var id, rest := order[0], order[1..];
      assert order == [id] + rest;
      ConnectedAre(rest, byId);
      assert id !in rest;
    }
  }

  lemma {:induction false} CloseAll(log: seq<FdEvent>, fds: seq<Descriptor>)
    requires LogOk(log) && Distinct(fds) && forall fd | fd in fds :: fd in OpenFds(log)
    ensures LogOk(log + Closings(fds))
    ensures forall fd :: fd in OpenFds(log + Closings(fds)) <==> fd in OpenFds(log) && fd !in fds
    decreases |fds|
  {
    hide LogOk, OpenFds, Closings;
    if fds == [] {
      assert log + Closings(fds) == log;
    } else {
      var rest := fds[1..];
      assert fds == [fds[0]] + rest;
      LogClose(log, fds[0]);
      OpenAfter(log, fds[0]);
      assert fds[0] !in rest;
      CloseAll(log + [Closed(fds[0])], rest);
      FirstClosing(log, fds);
    }
  }

  lemma FirstClosing(log: seq<FdEvent>, fds: seq<Descriptor>)
    requires fds != []
    ensures log + Closings(fds) == log + [Closed(fds[0])] + Closings(fds[1..])
  {
    assert Closings(fds) == [Closed(fds[0])] + Closings(fds[1..]);
  }

  lemma FirstNotice(sent: seq<Packet>, fds: seq<Descriptor>)
    requires fds != []
    ensures sent + Notices(fds) == sent + [Packet(fds[0], CloseNotice)] + Notices(fds[1..])
  {
    assert Notices(fds) == [Packet(fds[0], CloseNotice)] + Notices(fds[1..]);
  }

  /** After stopping, every descriptor has been closed as often as it was opened. */
  lemma StopClosesEverything(s: State, udp: Descriptor, tcp: Descriptor, fd: Descriptor)
    requires udp != tcp && Inv(s, {udp, tcp})
    ensures LogOk(StopLog(s, udp, tcp)) && OpenFds(StopLog(s, udp, tcp)) == {}
    ensures Count(StopLog(s, udp, tcp), Opened(fd)) == Count(StopLog(s, udp, tcp), Closed(fd))
  {
    var fds := Connected(s.order, s.byId);
    ConnectedAre(s.order, s.byId);
    assert forall x :: x in fds <==> x in s.byFd;
    CloseAll(s.log, fds);
    var log := s.log + Closings(fds);
    assert OpenFds(log) == {udp, tcp};
    OpenAfter(log, udp);
    OpenAfter(log + [Closed(udp)], tcp);
    LogClose(log, udp);
    LogClose(log + [Closed(udp)], tcp);
    assert log + [Closed(udp)] + [Closed(tcp)] == StopLog(s, udp, tcp);
    OpensBalanceCloses(StopLog(s, udp, tcp), fd);
  }
}
