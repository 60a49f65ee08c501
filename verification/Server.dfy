/** The server of server.c: its handlers over the subscriber list, the two hash maps, the records with
    their tries, and the poll array. Each handler takes the step of the broker that the ghost `state`
    records, and `log` and `sent` are written where descriptors are opened or closed and messages sent. */
module Server {
  import opened Alphabet
  import opened Astray
  import opened Broker
  import opened BrokerRuns
  import opened HashMap
  import opened Hashing
  import opened LinkedList
  import opened Options
  import opened Registry
  import opened Rounds
  import opened SearchRule
  import opened Subscriber
  import opened Subscription
  import opened Trie
  import opened TriePaths
  import opened UIntHash

  class Server {
    const udpSockFd: Descriptor
    const tcpSockFd: Descriptor
    const subsById: HashMap<CString, Sub>
    const subsByFd: HashMap<Descriptor, Sub>
    const subs: List<Sub>
    var pfds: array<PollFd>
    var nfds: nat
    var maxNfds: nat

    ghost var state: State
    ghost var log: seq<FdEvent>
    ghost var sent: seq<Packet>
    ghost var Repr: set<object>

    ghost function Core(): set<object>
      reads this, subsById, subsByFd, subs
    {
      {this, pfds} + subsById.Repr + subsByFd.Repr + subs.Repr
    }

    ghost predicate CoreOk()
      reads *
    {
      && subsById.Valid() && subsByFd.Valid() && subs.Valid()
      && subsById.Repr !! subsByFd.Repr && subsById.Repr !! subs.Repr && subsByFd.Repr !! subs.Repr
      && this !in subsById.Repr + subsByFd.Repr + subs.Repr
      && pfds !in subsById.Repr + subsByFd.Repr + subs.Repr
    }

    /** The records as values. */
    ghost function Views(): Records
      reads *
    {
      map id | id in subsById.contents :: subsById.contents[id].View()
    }

    /** The object invariant: the data structures stand for `state`, which the broker can be in. */
    ghost predicate Valid()
      reads *
    {
      && CoreOk() && Core() <= Repr
      && RecordsFit(Views(), Core(), state.byId) && Within(Views(), Repr)
      && IndexesFit(subsById.contents, subsByFd.contents, subs.contents, state)
      && PollFits(pfds[..], nfds, maxNfds, udpSockFd, tcpSockFd, state.poll)
      && Inv(state, {udpSockFd, tcpSockFd})
      && state.log == log && state.sent == sent && udpSockFd != tcpSockFd
    }

    /** init_poll_fds and init_subs, once the two sockets are open. */
    constructor (udpSockFd: Descriptor, tcpSockFd: Descriptor)
      requires udpSockFd != tcpSockFd
      ensures Valid() && fresh(Repr)
      ensures this.udpSockFd == udpSockFd && this.tcpSockFd == tcpSockFd
      ensures state == Init(udpSockFd, tcpSockFd)
      ensures maxNfds == 256 && nfds == 3 && pfds.Length == 256
      ensures pfds[0].fd == 0 && pfds[1].fd == udpSockFd && pfds[2].fd == tcpSockFd
      ensures subsById.hmax == 2 && subsByFd.hmax == 2
      ensures forall id: CString :: subsById.hash(id) == HashFrom(id)
      ensures forall a: CString, b: CString :: subsById.compare(a, b) == CompareStrings(a, b)
      ensures forall fd: Descriptor :: subsByFd.hash(fd) == HashUInt(fd)
      ensures forall a: Descriptor, b: Descriptor :: subsByFd.compare(a, b) == CompareUInts(a, b)
    {
      hide *;
      var byId, byFd, list, polled := NewStructures(udpSockFd, tcpSockFd);
      this.udpSockFd := udpSockFd;
      this.tcpSockFd := tcpSockFd;
      subsById := byId;
      subsByFd := byFd;
      subs := list;
      pfds := polled;
      maxNfds := 256;
      nfds := 3;
      state := Init(udpSockFd, tcpSockFd);
      log := [Opened(udpSockFd), Opened(tcpSockFd)];
      sent := [];
      Repr := {this, polled} + byId.Repr + byFd.Repr + list.Repr;
      new;
      InitInv(udpSockFd, tcpSockFd);
      Starts();
    }

    lemma Starts()
      requires subsById.Valid() && subsByFd.Valid() && subs.Valid()
      requires subsById.contents == map[] && subsByFd.contents == map[] && subs.contents == []
      requires subsById.Repr !! subsByFd.Repr && subsById.Repr !! subs.Repr && subsByFd.Repr !! subs.Repr
      requires this !in subsById.Repr + subsByFd.Repr + subs.Repr
      requires pfds !in subsById.Repr + subsByFd.Repr + subs.Repr
      requires Repr == {this, pfds} + subsById.Repr + subsByFd.Repr + subs.Repr
      requires pfds.Length == maxNfds && maxNfds > 3 && nfds == 3
      requires pfds[0].fd == 0 && pfds[1].fd == udpSockFd && pfds[2].fd == tcpSockFd
      requires state == Init(udpSockFd, tcpSockFd) && Inv(state, {udpSockFd, tcpSockFd})
      requires log == [Opened(udpSockFd), Opened(tcpSockFd)] && sent == [] && udpSockFd != tcpSockFd
      ensures Valid()
    {
    }

    lemma Parts()
      requires Valid()
      ensures CoreOk() && Core() <= Repr && RecordsFit(Views(), Core(), state.byId) && Within(Views(), Repr)
      ensures IndexesFit(subsById.contents, subsByFd.contents, subs.contents, state)
      ensures PollFits(pfds[..], nfds, maxNfds, udpSockFd, tcpSockFd, state.poll)
      ensures Inv(state, {udpSockFd, tcpSockFd}) && IndexesAgree(state) && state.log == log && state.sent == sent
      ensures this in Repr && pfds in Repr && subsById.Repr <= Repr && subsByFd.Repr <= Repr && subs.Repr <= Repr
      ensures subsById.Valid() && subsByFd.Valid() && subs.Valid()
      ensures nfds == |state.poll| + 3 <= maxNfds == pfds.Length && udpSockFd != tcpSockFd
    {
    }

    /** What the handlers may change. */
    lemma Reach()
      requires Valid()
      ensures this in Repr && pfds in Repr && subsById.Repr <= Repr && subsByFd.Repr <= Repr && subs.Repr <= Repr
      ensures subsById in subsById.Repr && subsByFd in subsByFd.Repr && subs in subs.Repr
      ensures this !in subsById.Repr && this !in subsByFd.Repr && this !in subs.Repr
      ensures pfds !in subsById.Repr && pfds !in subsByFd.Repr && pfds !in subs.Repr
      ensures 3 <= nfds <= maxNfds == pfds.Length
    {
    }

    lemma Polls()
      requires Valid()
      ensures PollFits(pfds[..], nfds, maxNfds, udpSockFd, tcpSockFd, state.poll)
    {
    }

    lemma IdsValid()
      requires Valid()
      ensures subsById.Valid()
    {
    }

    lemma FdsValid()
      requires Valid()
      ensures subsByFd.Valid()
    {
    }

    lemma Accounts()
      requires Valid()
      ensures state.log == log && state.sent == sent && IndexesAgree(state)
    {
    }

    lemma Assemble()
      requires CoreOk() && Core() <= Repr && RecordsFit(Views(), Core(), state.byId) && Within(Views(), Repr)
      requires IndexesFit(subsById.contents, subsByFd.contents, subs.contents, state)
      requires PollFits(pfds[..], nfds, maxNfds, udpSockFd, tcpSockFd, state.poll)
      requires Inv(state, {udpSockFd, tcpSockFd}) && state.log == log && state.sent == sent && udpSockFd != tcpSockFd
      ensures Valid()
    {
    }

    /** The record of an id: its fields, and the objects it shares with nothing else. */
    lemma RecordOf(id: CString)
      requires Valid() && id in state.byId
      ensures id in subsById.contents
      ensures var sub := subsById.contents[id];
              && sub.View().valid && sub.id == id && sub.subscriptions != null && sub.subscriptions.Valid()
              && FdFits(sub.sockFd, state.byId[id].fd) && sub.View().keys == state.byId[id].patterns
              && sub.View().size == state.byId[id].size
              && sub.subscriptions.entries.Keys == state.byId[id].patterns
              && sub.View().foot == {sub} + sub.subscriptions.Repr && sub !in sub.subscriptions.Repr
              && sub.View().foot !! Core() && sub.View().foot <= Repr
              && sub.View() == Views()[id] && sub.subscriptions in sub.subscriptions.Repr
              && this !in sub.subscriptions.Repr && pfds !in sub.subscriptions.Repr
    {
      assert RecordFits(id, Views()[id], Core(), state.byId[id]);
      subsById.contents[id].ViewIs();
    }

    /** The objects of the core and of the other records lie apart from those of the record. */
    ghost predicate Separate(sub: Sub)
      reads *
    {
      && sub.View().valid && sub.subscriptions != null
      && this !in subsById.Repr + subsByFd.Repr + subs.Repr
      && (forall x {:trigger subsById.contents[x]} | x in subsById.contents ::
            subsById.contents[x].View().valid && this !in subsById.contents[x].View().foot)
      && subsById.Valid() && subsByFd.Valid() && subs.Valid()
      && sub.View().foot !! {this, pfds} + subsById.Repr + subsByFd.Repr + subs.Repr
      && (forall x {:trigger subsById.contents[x]} | x in subsById.contents && subsById.contents[x] != sub ::
            subsById.contents[x].View().foot !! sub.View().foot)
    }

    /** The core and the records, but for the one given, are as they were. */
    twostate predicate Others(new sub: Sub?)
      reads *
    {
      && subsById.Valid() && subsByFd.Valid() && subs.Valid()
      && subsById.contents == old(subsById.contents) && subsById.Repr == old(subsById.Repr)
      && subsByFd.contents == old(subsByFd.contents) && subsByFd.Repr == old(subsByFd.Repr)
      && subs.contents == old(subs.contents) && subs.Repr == old(subs.Repr)
      && pfds == old(pfds) && pfds[..] == old(pfds[..])
      && (forall x {:trigger subsById.contents[x]} | x in subsById.contents && subsById.contents[x] != sub ::
            subsById.contents[x].View() == old(subsById.contents[x].View()))
    }

    /** Records share no objects with the core or with each other. */
    lemma Apart(id: CString)
      requires Valid() && id in state.byId
      ensures id in subsById.contents && subsById.contents[id].View().foot <= Repr
      ensures forall x {:trigger subsById.contents[x]} | x in subsById.contents ::
                subsById.contents[x].View().valid && subsById.contents[x].View().foot !! Core()
      ensures forall x {:trigger subsById.contents[x]} | x in subsById.contents && x != id ::
                subsById.contents[x].View().foot !! subsById.contents[id].View().foot
      ensures Core() == {this, pfds} + subsById.Repr + subsByFd.Repr + subs.Repr
      ensures subsById in subsById.Repr && subsByFd in subsByFd.Repr && subs in subs.Repr
      ensures subsById.Valid() && subsByFd.Valid() && subs.Valid()
      ensures this !in subsById.Repr + subsByFd.Repr + subs.Repr
    {
      hide *;
      Parts();
      CoreIs();
      CoreInRepr();
      IdsAgree();
      RecordOf(id);
      subsById.contents[id].ViewIs();
      forall x {:trigger subsById.contents[x]} | x in subsById.contents
        ensures subsById.contents[x].View().valid && subsById.contents[x].View().foot !! Core()
        ensures x != id ==> subsById.contents[x].View().foot !! subsById.contents[id].View().foot
      {
        RecordOf(x);
        subsById.contents[x].ViewIs();
        if x != id {
          FootsApart(Views(), Core(), state.byId, id, x);
        }
      }
    }

    /** What a handler may change in a record. */
    lemma RecordReach(id: CString)
      requires Valid() && id in state.byId
      ensures id in subsById.contents && subsById.contents[id].subscriptions != null
      ensures subsById.contents[id].View().valid && subsById.contents[id].View().foot <= Repr
      ensures subsById.contents[id].subscriptions.Repr <= Repr && subsById.contents[id] in Repr
      ensures this !in subsById.contents[id].subscriptions.Repr && pfds !in subsById.contents[id].subscriptions.Repr
      ensures subsById.contents[id].View().keys == state.byId[id].patterns
      ensures subsById.contents[id].View().size == state.byId[id].size
    {
      hide *;
      RecordOf(id);
    }

    lemma RecordSeparate(id: CString)
      requires Valid() && id in state.byId
      ensures id in subsById.contents && Separate(subsById.contents[id])
    {
      hide CoreOk, Core, Views, Valid, RecordsFit, Within, IndexesFit, PollFits, Inv, Sub.View, Sub.Footprint,
           HashMap.Valid, HashMap.Consistent, List.Valid;
      Apart(id);
      RecordOf(id);
    }

    lemma CoreIs()
      ensures Core() == {this, pfds} + subsById.Repr + subsByFd.Repr + subs.Repr
      ensures CoreOk() ==> this !in subsById.Repr + subsByFd.Repr + subs.Repr
    {
    }

    lemma IdsAgree()
      requires Valid()
      ensures state.byId.Keys == subsById.contents.Keys == Views().Keys
    {
    }

    lemma CoreInRepr()
      requires subsById.Valid() && subsByFd.Valid() && subs.Valid()
      ensures subsById in subsById.Repr && subsByFd in subsByFd.Repr && subs in subs.Repr
    {
    }

    /** After a change to one record alone. */
    twostate lemma ViewsAfter(new id: CString)
      requires subsById.contents == old(subsById.contents) && id in subsById.contents
      requires forall x {:trigger subsById.contents[x]} | x in subsById.contents && x != id ::
                 subsById.contents[x].View() == old(subsById.contents[x].View())
      ensures Views() == old(Views())[id := subsById.contents[id].View()]
    {
    }

    /** The invariant of the old state, part by part. */
    twostate lemma OldParts()
      requires old(Valid())
      ensures old(CoreOk()) && old(Core()) <= old(Repr)
      ensures RecordsFit(old(Views()), old(Core()), old(state).byId) && Within(old(Views()), old(Repr))
      ensures IndexesFit(old(subsById.contents), old(subsByFd.contents), old(subs.contents), old(state))
      ensures PollFits(old(pfds[..]), old(nfds), old(maxNfds), udpSockFd, tcpSockFd, old(state).poll)
      ensures Inv(old(state), {udpSockFd, tcpSockFd}) && IndexesAgree(old(state))
      ensures old(state).log == old(log) && old(state).sent == old(sent) && udpSockFd != tcpSockFd
      ensures old(Views()).Keys == old(state).byId.Keys == old(subsById.contents).Keys
      ensures forall x {:trigger old(Views())[x]} | x in old(subsById.contents) ::
                && old(Views())[x] == old(subsById.contents[x].View()) && old(Views())[x].id == x
                && old(Views())[x].valid
                && FdFits(old(Views())[x].sockFd, old(state).byId[x].fd)
                && old(Views())[x].keys == old(state).byId[x].patterns
                && old(Views())[x].size == old(state).byId[x].size
    {
    }

    /** The core is as it was. */
    twostate lemma CoreKept()
      requires old(CoreOk())
      requires subsById.Valid() && subsByFd.Valid() && subs.Valid()
      requires subsById.Repr == old(subsById.Repr) && subsByFd.Repr == old(subsByFd.Repr) && subs.Repr == old(subs.Repr)
      requires pfds == old(pfds)
      ensures CoreOk() && Core() == old(Core())
    {
    }

    twostate lemma ValidAfterPatterns(new id: CString, new patterns: set<string>, new size: int)
      requires old(Valid()) && id in old(state).byId && id in old(subsById.contents)
      requires id in subsById.contents && Others(subsById.contents[id]) && nfds == old(nfds) && maxNfds == old(maxNfds)
      requires var v := subsById.contents[id].View();
               && v == old(subsById.contents[id].View()).(keys := patterns, size := size, foot := v.foot)
               && (forall o | o in v.foot :: o in old(subsById.contents[id].View()).foot || o !in old(Repr))
               && Repr == old(Repr) + v.foot
      requires state == SetPatterns(old(state), id, patterns, size) && log == old(log) && sent == old(sent)
      ensures Valid()
    {
      hide CoreOk, Core, Views, Valid, RecordsFit, Within, IndexesFit, PollFits, Inv, IndexesAgree, SetPatterns,
           Sub.View, HashMap.Valid, HashMap.Consistent, List.Valid, FdFits;
      OldParts();
      CoreKept();
      ViewsAfter(id);
      SetPatternsIs(old(state), id, patterns, size);
      RecordChanges(old(Views()), old(Core()), old(state).byId, old(Repr), id, subsById.contents[id].View(),
                    state.byId[id]);
      IndexesKept(subsById.contents, subsByFd.contents, subs.contents, old(state), state);
      PatternsKeep(old(state), id, patterns, size, {udpSockFd, tcpSockFd});
      Assemble();
    }

    /** The objects that the values of the core and of the other records depend on lie apart. */
    lemma Feet(sub: Sub)
      requires Separate(sub)
      ensures subsById.Valid() && subsByFd.Valid() && subs.Valid()
      ensures sub.subscriptions.Valid() && this !in sub.subscriptions.Repr && pfds !in sub.subscriptions.Repr
      ensures sub.subscriptions.Repr !! subsById.Repr && sub.subscriptions.Repr !! subsByFd.Repr
      ensures sub.subscriptions.Repr !! subs.Repr
      ensures subsById in subsById.Repr && subsByFd in subsByFd.Repr && subs in subs.Repr
      ensures this !in subsById.Repr && this !in subsByFd.Repr && this !in subs.Repr
      ensures forall x {:trigger subsById.contents[x]} | x in subsById.contents ::
                && subsById.contents[x].subscriptions != null
                && this !in subsById.contents[x].subscriptions.Repr
                && (subsById.contents[x] != sub ==>
                      && subsById.contents[x] !in sub.subscriptions.Repr
                      && subsById.contents[x].subscriptions !in sub.subscriptions.Repr
                      && subsById.contents[x].subscriptions.Repr !! sub.subscriptions.Repr)
    {
      forall x {:trigger subsById.contents[x]} | x in subsById.contents
        ensures subsById.contents[x].View().foot == {subsById.contents[x]} + subsById.contents[x].subscriptions.Repr
      {
        subsById.contents[x].ViewIs();
      }
      sub.ViewIs();
    }

    twostate lemma OthersParts(new sub: Sub?)
      requires Others(sub)
      ensures subsById.contents == old(subsById.contents) && pfds == old(pfds) && pfds[..] == old(pfds[..])
    {
    }

    twostate lemma OthersIntro(new sub: Sub?)
      requires subsById.Valid() && subsByFd.Valid() && subs.Valid()
      requires subsById.contents == old(subsById.contents) && subsById.Repr == old(subsById.Repr)
      requires subsByFd.contents == old(subsByFd.contents) && subsByFd.Repr == old(subsByFd.Repr)
      requires subs.contents == old(subs.contents) && subs.Repr == old(subs.Repr)
      requires pfds == old(pfds) && pfds[..] == old(pfds[..])
      requires forall x {:trigger subsById.contents[x]} | x in subsById.contents && subsById.contents[x] != sub ::
                 subsById.contents[x].View() == old(subsById.contents[x].View())
      ensures Others(sub)
    {
    }

    /** rmv_subscription on a record of this server, with the account of the step: all else stays. */
    method RemoveTopic(sub: Sub, topic: string, ghost state: State)
      requires Separate(sub) && sub.View().valid && sub.subscriptions != null
      requires !GoesAstray(sub.View().keys, TOPIC_ALPHABET, topic)
      modifies sub.subscriptions.Repr, this`state
      ensures Others(sub) && this.state == state
      ensures sub.View() == old(sub.View()).(keys := old(sub.View()).keys - {topic},
                                             size := old(sub.View()).size
                                                     - if topic in old(sub.View()).keys then 1 else 0)
    {
      hide *;
      Feet(sub);
      this.state := state;
      sub.RemoveSubscription(topic);
      OthersIntro(sub);
    }

    /** rmv_subscription. */
    method Unsubscribe(sub: Sub, topic: string)
      requires Valid() && sub.id in state.byId && sub.id in subsById.contents && subsById.contents[sub.id] == sub
      requires !GoesAstray(state.byId[sub.id].patterns, TOPIC_ALPHABET, topic)
      modifies Repr
      ensures Valid() && Repr == old(Repr) && pfds == old(pfds) && nfds == old(nfds) && pfds[..] == old(pfds[..])
      ensures var r := old(state).byId[sub.id];
              state == SetPatterns(old(state), sub.id, r.patterns - {topic}, SizeWithout(r, topic))
    {
      hide *;
      Reach();
      RecordReach(sub.id);
      RecordSeparate(sub.id);
      ghost var r := state.byId[sub.id];
      SizeWithoutIs(r, topic);
      RemoveTopic(sub, topic, SetPatterns(state, sub.id, r.patterns - {topic}, SizeWithout(r, topic)));
      OthersParts(sub);
      assert Valid() by {
        ValidAfterPatterns(sub.id, r.patterns - {topic}, SizeWithout(r, topic));
      }
    }

    /** add_subscription on a record of this server, with the account of the step: all else stays. */
    method InsertTopic(sub: Sub, topic: string, ghost state: State) returns (ok: bool)
      requires Separate(sub) && sub.View().valid && sub.subscriptions != null && sub.View().foot <= Repr
      modifies sub.subscriptions.Repr, this`state, this`Repr
      ensures ok <==> Over(topic, TOPIC_ALPHABET)
      ensures ok ==> fresh(Repr - old(Repr))
      ensures ok ==> forall o | o in sub.View().foot :: o in old(sub.View().foot) || o !in old(Repr)
      ensures log == old(log) && sent == old(sent)
      ensures ok ==> Others(sub) && this.state == state && Repr == old(Repr) + sub.View().foot
      ensures ok ==> sub.View() == old(sub.View()).(keys := old(sub.View()).keys + {topic},
                                                    size := old(sub.View()).size + 1, foot := sub.View().foot)
    {
      hide *;
      Feet(sub);
      this.state := state;
      ok := sub.AddSubscription(topic);
      if ok {
        ghost var foot := sub.View().foot;
        Repr := Repr + foot;
        OthersIntro(sub);
      }
    }

    /** add_subscription. At a topic outside the alphabet the program exits, with nothing closed or sent. */
    method Subscribe(sub: Sub, topic: string) returns (ok: bool)
      requires Valid() && sub.id in state.byId && sub.id in subsById.contents && subsById.contents[sub.id] == sub
      modifies Repr
      ensures ok <==> Over(topic, TOPIC_ALPHABET)
      ensures !ok ==> log == old(log) && sent == old(sent)
      ensures ok ==> Valid() && fresh(Repr - old(Repr))
      ensures ok ==> pfds == old(pfds) && nfds == old(nfds) && pfds[..] == old(pfds[..])
      ensures ok ==>
                var r := old(state).byId[sub.id];
                state == SetPatterns(old(state), sub.id, r.patterns + {topic}, r.size + 1)
    {
      hide *;
      Reach();
      RecordReach(sub.id);
      RecordSeparate(sub.id);
      ghost var r := state.byId[sub.id];
      ok := InsertTopic(sub, topic, SetPatterns(state, sub.id, r.patterns + {topic}, r.size + 1));
      if ok {
        OthersParts(sub);
        assert Valid() by {
          ValidAfterPatterns(sub.id, r.patterns + {topic}, r.size + 1);
        }
      }
    }

    // ---------- descriptors and messages ----------

    /** accept: a descriptor that was not open is. */
    method Accept(fd: Descriptor)
      requires fd !in OpenFds(log)
      modifies this`log
      ensures log == old(log) + [Opened(fd)]
    {
      log := log + [Opened(fd)];
    }

    /** close: it never fails, because the descriptor is open. */
    method Close(fd: int)
      requires 0 <= fd < 0x8000_0000 && fd in OpenFds(log)
      modifies this`log
      ensures log == old(log) + [Closed(fd)]
    {
      log := log + [Closed(fd)];
    }

    /** send, on an open descriptor. */
    method Send(fd: int, body: Body)
      requires 0 <= fd < 0x8000_0000 && fd in OpenFds(log)
      modifies this`sent
      ensures sent == old(sent) + [Packet(fd, body)]
    {
      sent := sent + [Packet(fd, body)];
    }

    /** srv_closes_sub_connection: a connected subscriber is told and its socket closed. */
    method SrvClosesSubConnection(sub: Sub)
      requires sub.sockFd == -1 || (0 <= sub.sockFd < 0x8000_0000 && sub.sockFd in OpenFds(log))
      modifies sub`sockFd, this`log, this`sent
      ensures sub.sockFd == -1
      ensures old(sub.sockFd) == -1 ==> log == old(log) && sent == old(sent)
      ensures old(sub.sockFd) != -1 ==>
                && log == old(log) + [Closed(old(sub.sockFd))]
                && sent == old(sent) + [Packet(old(sub.sockFd), CloseNotice)]
      ensures old(sub.View()).valid && this !in old(sub.View()).foot ==> sub.View() == old(sub.View()).(sockFd := -1)
    {
      hide Trie.Valid, OpenFds;
      sub.ViewIs();
      if sub.sockFd != -1 {
        Send(sub.sockFd, CloseNotice);
        Close(sub.sockFd);
        sub.sockFd := -1;
      }
    }

    /** After a step that only opened or closed descriptors and sent messages. */
    twostate lemma ValidAfterTraffic()
      requires old(Valid()) && Others(null) && nfds == old(nfds) && maxNfds == old(maxNfds) && Repr == old(Repr)
      requires state == old(state).(log := log, sent := sent) && Inv(state, {udpSockFd, tcpSockFd})
      ensures Valid()
    {
      hide CoreOk, Core, Views, Valid, RecordsFit, Within, IndexesFit, PollFits, Inv, IndexesAgree, Sub.View,
           HashMap.Valid, HashMap.Consistent, List.Valid;
      OldParts();
      CoreKept();
      ViewsSame();
      IndexesKept(subsById.contents, subsByFd.contents, subs.contents, old(state), state);
      Assemble();
    }

    twostate lemma ViewsSame()
      requires Others(null)
      ensures Views() == old(Views())
    {
    }

    /** The values of the core and of the records do not depend on the server's own fields, nor on a
        record outside. */
    ghost predicate Detached(outside: Sub?)
      reads *
    {
      && subsById.Valid() && subsByFd.Valid() && subs.Valid()
      && this !in subsById.Repr && this !in subsByFd.Repr && this !in subs.Repr
      && outside !in subsById.Repr && outside !in subsByFd.Repr && outside !in subs.Repr
      && forall x {:trigger subsById.contents[x]} | x in subsById.contents ::
           && subsById.contents[x].subscriptions != null && this !in subsById.contents[x].subscriptions.Repr
           && subsById.contents[x] != outside && outside !in subsById.contents[x].subscriptions.Repr
    }

    lemma Independent(outside: Sub?)
      requires Valid() && outside !in Repr
      ensures Detached(outside)
    {
      hide *;
      Parts();
      CoreIs();
      IdsAgree();
      forall x {:trigger subsById.contents[x]} | x in subsById.contents
        ensures subsById.contents[x].subscriptions != null && this !in subsById.contents[x].subscriptions.Repr
        ensures subsById.contents[x] != outside && outside !in subsById.contents[x].subscriptions.Repr
      {
        RecordOf(x);
      }
      DetachedIntro(outside);
    }

    lemma DetachedIntro(outside: Sub?)
      requires subsById.Valid() && subsByFd.Valid() && subs.Valid()
      requires this !in subsById.Repr && this !in subsByFd.Repr && this !in subs.Repr
      requires outside !in subsById.Repr && outside !in subsByFd.Repr && outside !in subs.Repr
      requires forall x {:trigger subsById.contents[x]} | x in subsById.contents ::
           && subsById.contents[x].subscriptions != null && this !in subsById.contents[x].subscriptions.Repr
           && subsById.contents[x] != outside && outside !in subsById.contents[x].subscriptions.Repr
      ensures Detached(outside)
    {
    }

    method AcceptAndClose(newSub: Sub, ghost next: State)
      requires 0 <= newSub.sockFd < 0x8000_0000 && newSub.sockFd !in OpenFds(log) && Detached(newSub)
      modifies newSub`sockFd, this`log, this`sent, this`state
      ensures Others(null)
      ensures log == old(log) + [Opened(old(newSub.sockFd))] + [Closed(old(newSub.sockFd))]
      ensures sent == old(sent) + [Packet(old(newSub.sockFd), CloseNotice)] && state == next
    {
      hide Sub.View, HashMap.Valid, HashMap.Consistent, List.Valid, OpenFds;
      OpenAfter(log, newSub.sockFd);
      Accept(newSub.sockFd);
      SrvClosesSubConnection(newSub);
      state := next;
    }

    twostate lemma ValidAfterRefusal(new id: CString, new fd: Descriptor)
      requires old(Valid()) && Others(null) && nfds == old(nfds) && maxNfds == old(maxNfds) && Repr == old(Repr)
      requires id in old(state).byId && old(state).byId[id].fd != None && fd !in OpenFds(old(log))
      requires state == ConnectStep(old(state), id, fd)
      requires log == old(log) + [Opened(fd)] + [Closed(fd)] && sent == old(sent) + [Packet(fd, CloseNotice)]
      ensures Valid()
    {
      hide *;
      OldParts();
      ConnectKeeps(old(state), id, fd, {udpSockFd, tcpSockFd});
      RefusedIs(old(state), id, fd);
      ValidAfterTraffic();
    }

    /** A second login under a connected id: the newcomer is told and closed. */
    method Refuse(newSub: Sub)
      requires Valid() && newSub.id in state.byId && state.byId[newSub.id].fd != None
      requires 0 <= newSub.sockFd < 0x8000_0000 && newSub.sockFd !in OpenFds(log)
      requires newSub !in Repr
      modifies newSub`sockFd, this
      ensures Valid() && Repr == old(Repr) && pfds == old(pfds) && pfds[..] == old(pfds[..]) && nfds == old(nfds)
      ensures state == ConnectStep(old(state), newSub.id, old(newSub.sockFd))
    {
      hide *;
      Reach();
      Independent(newSub);
      ghost var fd: Descriptor := newSub.sockFd;
      AcceptAndClose(newSub, ConnectStep(state, newSub.id, fd));
      OthersParts(null);
      assert Valid() by {
        ValidAfterRefusal(newSub.id, fd);
      }
    }

    // ---------- connecting ----------

    /** The core is in order and the given records lie apart from it. */
    ghost predicate Standing(records: set<Sub>)
      reads *
    {
      CoreOk() && forall r | r in records :: r.View().valid && r.View().foot !! Core() && r.View().foot <= Repr
    }

    /** The given records are as they were. */
    twostate predicate Steady(records: set<Sub>)
      reads *
    {
      forall r | r in records :: r.View() == old(r.View())
    }

    lemma StandingFacts(records: set<Sub>)
      requires Standing(records)
      ensures subsById.Valid() && subsByFd.Valid() && subs.Valid()
      ensures subsById.Repr !! subsByFd.Repr && subsById.Repr !! subs.Repr && subsByFd.Repr !! subs.Repr
      ensures this !in subsById.Repr && this !in subsByFd.Repr && this !in subs.Repr
      ensures pfds !in subsById.Repr && pfds !in subsByFd.Repr && pfds !in subs.Repr
      ensures subsById in subsById.Repr && subsByFd in subsByFd.Repr && subs in subs.Repr
      ensures forall r | r in records ::
                && r.subscriptions != null
                && r !in subsById.Repr && r !in subsByFd.Repr && r !in subs.Repr
                && r.subscriptions !in subsById.Repr && r.subscriptions !in subsByFd.Repr
                && r.subscriptions !in subs.Repr
                && r.subscriptions.Repr !! subsById.Repr && r.subscriptions.Repr !! subsByFd.Repr
                && r.subscriptions.Repr !! subs.Repr && pfds !in r.subscriptions.Repr && this !in r.subscriptions.Repr
    {
      forall r | r in records
        ensures r.View().foot == {r} + r.subscriptions.Repr && r.subscriptions != null
      {
        r.ViewIs();
      }
    }

    /** The core may have taken in new objects. */
    twostate lemma StandingAfter(records: set<Sub>)
      requires old(Standing(records)) && Steady(records) && old(Repr) == Repr
      requires CoreOk() && forall o | o in Core() :: o in old(Core()) || o !in Repr
      ensures Standing(records)
    {
    }

    /** The socket of one record may have changed. */
    twostate lemma StandingAfterField(new sub: Sub, records: set<Sub>)
      requires sub in records && old(Standing(records)) && old(Repr) == Repr && CoreOk() && Core() == old(Core())
      requires forall r | r in records && r != sub :: r.View() == old(r.View())
      requires sub.View() == old(sub.View()).(sockFd := sub.sockFd)
      ensures Standing(records)
    {
    }

    lemma CoreIntro()
      requires subsById.Valid() && subsByFd.Valid() && subs.Valid()
      requires subsById.Repr !! subsByFd.Repr && subsById.Repr !! subs.Repr && subsByFd.Repr !! subs.Repr
      requires this !in subsById.Repr && this !in subsByFd.Repr && this !in subs.Repr
      requires pfds !in subsById.Repr && pfds !in subsByFd.Repr && pfds !in subs.Repr
      ensures CoreOk() && Core() == {this, pfds} + subsById.Repr + subsByFd.Repr + subs.Repr
    {
    }

    twostate lemma SteadyIntro(records: set<Sub>)
      requires forall r | r in records :: r.View() == old(r.View())
      ensures Steady(records)
    {
    }

    /** ht_put of a record under its descriptor. */
    method PutFd(fd: Descriptor, sub: Sub, ghost records: set<Sub>)
      requires Standing(records)
      modifies subsByFd.Repr
      ensures Standing(records) && fresh(subsByFd.Repr - old(subsByFd.Repr))
      ensures forall r | r in records :: r.View() == old(r.View())
      ensures subsByFd.contents == old(subsByFd.contents)[fd := sub]
      ensures subsById.contents == old(subsById.contents) && subsById.Repr == old(subsById.Repr)
      ensures subs.contents == old(subs.contents) && subs.Repr == old(subs.Repr)
      ensures pfds[..] == old(pfds[..])
    {
      hide *;
      CoreIs();
      StandingFacts(records);
      subsByFd.Put(fd, sub);
      CoreIntro();
      SteadyIntro(records);
      StandingAfter(records);
    }

    /** ht_put of a record under its id. */
    method PutId(id: CString, sub: Sub, ghost records: set<Sub>)
      requires Standing(records)
      modifies subsById.Repr
      ensures Standing(records) && fresh(subsById.Repr - old(subsById.Repr))
      ensures forall r | r in records :: r.View() == old(r.View())
      ensures subsById.contents == old(subsById.contents)[id := sub]
      ensures subsByFd.contents == old(subsByFd.contents) && subsByFd.Repr == old(subsByFd.Repr)
      ensures subs.contents == old(subs.contents) && subs.Repr == old(subs.Repr)
      ensures pfds[..] == old(pfds[..])
    {
      hide *;
      CoreIs();
      StandingFacts(records);
      subsById.Put(id, sub);
      CoreIntro();
      SteadyIntro(records);
      StandingAfter(records);
    }

    /** ll_add_nth_node at the front of the subscriber list. */
    method AddToList(sub: Sub, ghost records: set<Sub>)
      requires Standing(records)
      modifies subs.Repr
      ensures Standing(records) && fresh(subs.Repr - old(subs.Repr))
      ensures forall r | r in records :: r.View() == old(r.View())
      ensures subs.contents == [sub] + old(subs.contents)
      ensures subsById.contents == old(subsById.contents) && subsById.Repr == old(subsById.Repr)
      ensures subsByFd.contents == old(subsByFd.contents) && subsByFd.Repr == old(subsByFd.Repr)
      ensures pfds[..] == old(pfds[..])
    {
      hide *;
      CoreIs();
      StandingFacts(records);
      subs.AddNth(0, sub);
      assert subs.contents == [sub] + old(subs.contents);
      CoreIntro();
      SteadyIntro(records);
      StandingAfter(records);
    }

    /** The assignments of add_pfd. */
    method WatchFd(fd: Descriptor)
      requires pfds.Length == maxNfds && 3 <= nfds <= maxNfds
      modifies this`pfds, this`nfds, this`maxNfds, pfds
      ensures pfds == old(pfds) || fresh(pfds)
      ensures pfds.Length == maxNfds && old(maxNfds) <= maxNfds && nfds == old(nfds) + 1 <= maxNfds
      ensures maxNfds == if old(nfds) == old(maxNfds) then 2 * old(maxNfds) else old(maxNfds)
      ensures forall i | 0 <= i < old(nfds) :: pfds[..][i] == old(pfds[..])[i]
      ensures pfds[..][old(nfds)] == PollFd(fd, false)
    {
      if nfds == maxNfds {
        maxNfds := maxNfds * 2;
        pfds := Realloc(pfds, maxNfds);
      }
      pfds[nfds] := PollFd(fd, false);
      nfds := nfds + 1;
    }

    /** add_pfd: watches the descriptor, in a doubled array when the old one is full. */
    method AddPfd(fd: Descriptor, ghost poll: seq<Descriptor>, ghost records: set<Sub>)
      requires Standing(records) && PollFits(pfds[..], nfds, maxNfds, udpSockFd, tcpSockFd, poll)
      requires pfds.Length == maxNfds && 3 <= nfds <= maxNfds
      modifies this`pfds, this`nfds, this`maxNfds, pfds
      ensures Standing(records) && (pfds == old(pfds) || fresh(pfds))
      ensures forall r | r in records :: r.View() == old(r.View())
      ensures PollFits(pfds[..], nfds, maxNfds, udpSockFd, tcpSockFd, poll + [fd])
      ensures subsById.contents == old(subsById.contents) && subsById.Repr == old(subsById.Repr)
      ensures subsByFd.contents == old(subsByFd.contents) && subsByFd.Repr == old(subsByFd.Repr)
      ensures subs.contents == old(subs.contents) && subs.Repr == old(subs.Repr)
      ensures Watched(old(pfds[..]), old(nfds), pfds[..], nfds)
    {
      hide *;
      CoreIs();
      StandingFacts(records);
      WatchFd(fd);
      WatchedIntro(old(pfds[..]), old(nfds), pfds[..], nfds);
      PollGrows(old(pfds[..]), old(nfds), old(maxNfds), udpSockFd, tcpSockFd, poll, pfds[..], maxNfds, fd);
      CoreIntro();
      SteadyIntro(records);
      StandingAfter(records);
    }

    ghost function AllRecords(): set<Sub>
      reads subsById
    {
      set id | id in subsById.contents :: subsById.contents[id]
    }

    lemma AllStand()
      requires Valid()
      ensures Standing(AllRecords())
      ensures forall id | id in subsById.contents :: subsById.contents[id] in AllRecords()
    {
      hide *;
      Parts();
      IdsAgree();
      forall r | r in AllRecords() ensures r.View().valid && r.View().foot !! Core() && r.View().foot <= Repr {
        var id := IdOf(r);
        RecordOf(id);
      }
      StandingIntro();
    }

    lemma IdOf(r: Sub) returns (id: CString)
      requires r in AllRecords()
      ensures id in subsById.contents && subsById.contents[id] == r
    {
      id :| id in subsById.contents && subsById.contents[id] == r;
    }

    lemma StandingIntro()
      requires CoreOk()
      requires forall r | r in AllRecords() :: r.View().valid && r.View().foot !! Core() && r.View().foot <= Repr
      ensures Standing(AllRecords())
      ensures forall id | id in subsById.contents :: subsById.contents[id] in AllRecords()
    {
    }

    /** accept, with the core and the records as they were. */
    method AcceptFd(fd: Descriptor, ghost records: set<Sub>)
      requires Standing(records) && fd !in OpenFds(log)
      modifies this`log
      ensures Standing(records) && log == old(log) + [Opened(fd)]
      ensures forall r | r in records :: r.View() == old(r.View())
    {
      hide *;
      CoreIs();
      StandingFacts(records);
      Accept(fd);
      CoreIntro();
      SteadyIntro(records);
      StandingAfter(records);
    }

    /** trie_create for a record that is about to join. */
    method GiveTrie(newSub: Sub, ghost records: set<Sub>)
      requires Standing(records) && newSub !in Repr && newSub !in Core()
      modifies newSub`subscriptions, this`Repr
      ensures Standing(records + {newSub}) && Repr == old(Repr) + newSub.View().foot
      ensures forall r | r in records :: r.View() == old(r.View())
      ensures newSub.View().valid && newSub.View().keys == {} && newSub.View().size == 0
      ensures newSub.View().id == newSub.id
      ensures newSub.View().sockFd == newSub.sockFd && newSub.View().foot !! old(Repr)
      ensures newSub.subscriptions != null && newSub.View().foot == {newSub} + newSub.subscriptions.Repr
      ensures fresh(newSub.subscriptions.Repr)
    {
      hide *;
      CoreIs();
      StandingFacts(records);
      OutsideCore(newSub, records);
      newSub.CreateSubscriptions();
      ghost var foot := newSub.View().foot;
      Repr := Repr + foot;
      CoreIntro();
      SteadyIntro(records);
      StandingWith(newSub, records);
    }

    twostate lemma StandingWith(new newSub: Sub, records: set<Sub>)
      requires old(Standing(records)) && Steady(records) && CoreOk() && Core() == old(Core())
      requires newSub.View().valid && newSub.View().foot !! Core() && Repr == old(Repr) + newSub.View().foot
      ensures Standing(records + {newSub})
    {
    }

    lemma OutsideCore(newSub: Sub, records: set<Sub>)
      requires Standing(records) && newSub !in Repr
      ensures newSub !in records && forall r | r in records ::
                r.subscriptions != null && newSub !in r.subscriptions.Repr
    {
      forall r | r in records ensures r.subscriptions != null && newSub !in r.subscriptions.Repr && newSub != r {
        r.ViewIs();
      }
    }

    twostate lemma ViewsJoined(new newSub: Sub)
      requires subsById.contents == old(subsById.contents)[newSub.id := newSub]
      requires newSub.id !in old(subsById.contents)
      requires forall id {:trigger old(subsById.contents)[id]} | id in old(subsById.contents) ::
                 old(subsById.contents)[id].View() == old(subsById.contents[id].View())
      ensures Views() == old(Views())[newSub.id := newSub.View()]
    {
    }

    /** The core has taken in new objects only. */
    twostate predicate CoreGrown()
      reads *
    {
      CoreOk() && forall o | o in Core() :: o in old(Core()) || o !in old(Repr)
    }

    twostate lemma ValidAfterJoin(new newSub: Sub, new fd: Descriptor)
      requires old(Valid()) && newSub.id !in old(state).byId && fd !in OpenFds(old(log)) && newSub.sockFd == fd
      requires CoreGrown() && Core() <= Repr && newSub.View().foot <= Repr && old(Repr) <= Repr
      requires subsById.contents == old(subsById.contents)[newSub.id := newSub]
      requires subsByFd.contents == old(subsByFd.contents)[fd := newSub]
      requires subs.contents == [newSub] + old(subs.contents)
      requires forall id {:trigger old(subsById.contents)[id]} | id in old(subsById.contents) ::
                 old(subsById.contents)[id].View() == old(subsById.contents[id].View())
      requires newSub.View().valid && newSub.View().keys == {} && newSub.View().size == 0
      requires newSub.View().id == newSub.id && newSub.View().sockFd == fd
      requires newSub.View().foot !! old(Repr) && newSub.View().foot !! Core()
      requires PollFits(pfds[..], nfds, maxNfds, udpSockFd, tcpSockFd, old(state).poll + [fd])
      requires state == ConnectStep(old(state), newSub.id, fd)
      requires log == old(log) + [Opened(fd)] && sent == old(sent)
      ensures Valid()
    {
      hide *;
      OldParts();
      ViewsJoined(newSub);
      JoinedIs(old(state), newSub.id, fd);
      CoreWithin();
      CoreGrows(old(Views()), old(Core()), Core(), old(state).byId, old(Repr));
      NotYetKnown(old(state), newSub.id, fd, {udpSockFd, tcpSockFd});
      FdFitsSome(fd);
      RecordJoins(old(Views()), Core(), old(state).byId, old(Repr), newSub.id, newSub.View(), Record(Some(fd), {}, 0));
      IndexesJoin(old(subsById.contents), old(subsByFd.contents), old(subs.contents), old(state), state, newSub.id,
                  fd, newSub);
      ConnectKeeps(old(state), newSub.id, fd, {udpSockFd, tcpSockFd});
      WithinMore(Views(), old(Repr) + newSub.View().foot, Repr);
      Assemble();
    }

    twostate lemma CoreGrownIntro()
      requires CoreOk() && Core() == {this, pfds} + subsById.Repr + subsByFd.Repr + subs.Repr
      requires pfds == old(pfds) || pfds !in old(Repr)
      requires forall o | o in subsById.Repr :: o in old(subsById.Repr) || o !in old(Repr)
      requires forall o | o in subsByFd.Repr :: o in old(subsByFd.Repr) || o !in old(Repr)
      requires forall o | o in subs.Repr :: o in old(subs.Repr) || o !in old(Repr)
      ensures CoreGrown()
    {
    }

    twostate lemma CoreWithin()
      requires CoreGrown()
      ensures CoreOk() && forall o | o in Core() :: o in old(Core()) || o !in old(Repr)
    {
    }

    /** Writes the ghost account of a step. */
    ghost method Account(state: State, repr: set<object>, records: set<Sub>)
      requires Standing(records)
      modifies this`state, this`Repr
      ensures this.state == state && Repr == repr && CoreOk() && Core() == old(Core())
      ensures forall r | r in records :: r.View() == old(r.View())
    {
      hide *;
      CoreIs();
      StandingFacts(records);
      this.state := state;
      this.Repr := repr;
      CoreIntro();
    }

    /** The list and both maps take in the same record. */
    method JoinIndexes(newSub: Sub, fd: Descriptor, ghost records: set<Sub>)
      requires Standing(records) && newSub in records
      modifies subs.Repr, subsByFd.Repr, subsById.Repr
      ensures Standing(records) && pfds[..] == old(pfds[..])
      ensures forall r | r in records :: r.View() == old(r.View())
      ensures subs.contents == [newSub] + old(subs.contents) && fresh(subs.Repr - old(subs.Repr))
      ensures subsByFd.contents == old(subsByFd.contents)[fd := newSub] && fresh(subsByFd.Repr - old(subsByFd.Repr))
      ensures subsById.contents == old(subsById.contents)[newSub.id := newSub]
      ensures fresh(subsById.Repr - old(subsById.Repr))
    {
      hide *;
      AddToList(newSub, records);
      PutFd(fd, newSub, records);
      PutId(newSub.id, newSub, records);
    }

    lemma RecordOutside(sub: Sub, records: set<Sub>)
      requires Standing(records) && sub in records
      ensures sub.View().valid && sub.View().foot !! Core() && this !in sub.View().foot
    {
    }

    /** The new record is watched, gets its trie, and joins the list and both maps. */
    method Join(newSub: Sub, fd: Descriptor, ghost poll: seq<Descriptor>, ghost records: set<Sub>, ghost next: State)
      requires Standing(records) && newSub !in Repr && newSub !in Core() && newSub.sockFd == fd && fd !in OpenFds(log)
      requires PollFits(pfds[..], nfds, maxNfds, udpSockFd, tcpSockFd, poll)
      requires pfds.Length == maxNfds && 3 <= nfds <= maxNfds
      modifies newSub`subscriptions, this`log, this`pfds, this`nfds, this`maxNfds, this`state, this`Repr, pfds
      modifies subs.Repr, subsByFd.Repr, subsById.Repr
      ensures CoreOk() && state == next && log == old(log) + [Opened(fd)]
      ensures Repr == old(Repr) + newSub.View().foot + Core() && fresh(newSub.View().foot - {newSub})
      ensures newSub.View().valid && newSub.View().keys == {} && newSub.View().size == 0
      ensures newSub.View().id == newSub.id
      ensures newSub.View().sockFd == fd && newSub.View().foot !! old(Repr) && newSub.View().foot !! Core()
      ensures forall r | r in records :: r.View() == old(r.View())
      ensures PollFits(pfds[..], nfds, maxNfds, udpSockFd, tcpSockFd, poll + [fd])
      ensures Watched(old(pfds[..]), old(nfds), pfds[..], nfds) && (pfds == old(pfds) || fresh(pfds))
      ensures Core() == {this, pfds} + subsById.Repr + subsByFd.Repr + subs.Repr
      ensures subs.contents == [newSub] + old(subs.contents) && fresh(subs.Repr - old(subs.Repr))
      ensures subsByFd.contents == old(subsByFd.contents)[fd := newSub] && fresh(subsByFd.Repr - old(subsByFd.Repr))
      ensures subsById.contents == old(subsById.contents)[newSub.id := newSub]
      ensures fresh(subsById.Repr - old(subsById.Repr))
    {
      hide *;
      CoreIs();
      StandingFacts(records);
      AcceptFd(fd, records);
      AddPfd(fd, poll, records);
      CoreIs();
      GiveTrie(newSub, records);
      ghost var all := records + {newSub};
      JoinIndexes(newSub, fd, all);
      RecordOutside(newSub, all);
      CoreIs();
      Account(next, Repr + Core(), all);
      CoreIs();
    }

    /** add_new_sub. */
    method AddNewSub(newSub: Sub)
      requires Valid() && newSub !in Repr && newSub.id !in state.byId
      requires 0 <= newSub.sockFd < 0x8000_0000 && newSub.sockFd !in OpenFds(log)
      modifies Repr, newSub
      ensures Valid() && fresh(Repr - old(Repr) - {newSub})
      ensures state == ConnectStep(old(state), newSub.id, old(newSub.sockFd))
      ensures Watched(old(pfds[..]), old(nfds), pfds[..], nfds)
    {
      hide *;
      Reach();
      Polls();
      AllStand();
      CoreIs();
      var fd: Descriptor := newSub.sockFd;
      Join(newSub, fd, state.poll, AllRecords(), ConnectStep(state, newSub.id, fd));
      CoreGrownIntro();
      assert Valid() by {
        ValidAfterJoin(newSub, fd);
      }
    }

    lemma AloneFacts(sub: Sub, records: set<Sub>)
      requires Standing(records) && forall r | r in records && r != sub :: sub !in r.View().foot
      ensures forall r | r in records && r != sub :: r.subscriptions != null && sub !in r.subscriptions.Repr
      ensures forall r | r in records :: r.View().valid
    {
      forall r | r in records && r != sub ensures r.subscriptions != null && sub !in r.subscriptions.Repr {
        r.ViewIs();
      }
    }

    lemma RecordAlone(sub: Sub)
      requires Valid() && sub.id in state.byId && sub.id in subsById.contents && subsById.contents[sub.id] == sub
      ensures sub in AllRecords() && forall r | r in AllRecords() && r != sub :: sub !in r.View().foot
      ensures forall x {:trigger subsById.contents[x]} | x in subsById.contents && x != sub.id ::
                subsById.contents[x] in AllRecords() && subsById.contents[x] != sub
    {
      hide *;
      Apart(sub.id);
      IdsAgree();
      forall x {:trigger subsById.contents[x]} | x in subsById.contents && x != sub.id
        ensures subsById.contents[x] != sub
      {
        RecordOf(x);
      }
      sub.ViewIs();
      forall r | r in AllRecords() && r != sub ensures sub !in r.View().foot {
        var id := IdOf(r);
      }
      AllStand();
    }

    twostate lemma ValidAfterRevive(new sub: Sub, new fd: Descriptor)
      requires old(Valid()) && sub.id in old(state).byId && old(state).byId[sub.id].fd == None
      requires fd !in OpenFds(old(log))
      requires sub.id in old(subsById.contents) && old(subsById.contents)[sub.id] == sub
      requires CoreGrown() && Core() <= Repr && old(Repr) <= Repr
      requires subsById.contents == old(subsById.contents) && subs.contents == old(subs.contents)
      requires subsByFd.contents == old(subsByFd.contents)[fd := sub]
      requires forall x {:trigger subsById.contents[x]} | x in subsById.contents && x != sub.id ::
                 subsById.contents[x].View() == old(subsById.contents[x].View())
      requires sub.View() == old(subsById.contents[sub.id].View()).(sockFd := fd)
      requires PollFits(pfds[..], nfds, maxNfds, udpSockFd, tcpSockFd, old(state).poll + [fd])
      requires state == ConnectStep(old(state), sub.id, fd)
      requires log == old(log) + [Opened(fd)] && sent == old(sent)
      ensures Valid()
    {
      hide *;
      OldParts();
      ViewsAfter(sub.id);
      RevivedIs(old(state), sub.id, fd);
      CoreWithin();
      CoreGrows(old(Views()), old(Core()), Core(), old(state).byId, old(Repr));
      FdFitsSome(fd);
      RecordChanges(old(Views()), Core(), old(state).byId, old(Repr) + Core(), sub.id, sub.View(), state.byId[sub.id]);
      IndexesRevive(old(subsById.contents), old(subsByFd.contents), old(subs.contents), old(state), state, sub.id, fd);
      ConnectKeeps(old(state), sub.id, fd, {udpSockFd, tcpSockFd});
      WithinMore(Views(), old(Repr) + Core() + sub.View().foot, Repr);
      Assemble();
    }

    /** The socket of a known record is set. */
    method SetSockFd(sub: Sub, sockFd: int, ghost records: set<Sub>)
      requires Standing(records) && sub in records
      requires forall r | r in records && r != sub :: sub !in r.View().foot
      modifies sub`sockFd
      ensures Standing(records) && sub.sockFd == sockFd
      ensures forall r | r in records && r != sub :: r.View() == old(r.View())
      ensures sub.View() == old(sub.View()).(sockFd := sockFd)
    {
      hide *;
      CoreIs();
      StandingFacts(records);
      AloneFacts(sub, records);
      SetField(sub, sockFd);
      CoreIntro();
      StandingAfterField(sub, records);
    }

    /** The new descriptor is set, watched, and leads to the record. */
    method Reconnect(sub: Sub, fd: Descriptor, ghost poll: seq<Descriptor>, ghost records: set<Sub>, ghost next: State)
      requires Standing(records) && sub in records && fd !in OpenFds(log)
      requires forall r | r in records && r != sub :: sub !in r.View().foot
      requires PollFits(pfds[..], nfds, maxNfds, udpSockFd, tcpSockFd, poll)
      requires pfds.Length == maxNfds && 3 <= nfds <= maxNfds
      modifies sub`sockFd, this`log, this`pfds, this`nfds, this`maxNfds, this`state, this`Repr, pfds, subsByFd.Repr
      ensures CoreGrown() && Repr == old(Repr) + Core() && state == next && log == old(log) + [Opened(fd)]
      ensures forall r | r in records && r != sub :: r.View() == old(r.View())
      ensures sub.View() == old(sub.View()).(sockFd := fd)
      ensures PollFits(pfds[..], nfds, maxNfds, udpSockFd, tcpSockFd, poll + [fd])
      ensures Watched(old(pfds[..]), old(nfds), pfds[..], nfds) && (pfds == old(pfds) || fresh(pfds))
      ensures Core() == {this, pfds} + subsById.Repr + subsByFd.Repr + subs.Repr
      ensures subsByFd.contents == old(subsByFd.contents)[fd := sub] && fresh(subsByFd.Repr - old(subsByFd.Repr))
      ensures subsById.contents == old(subsById.contents) && subsById.Repr == old(subsById.Repr)
      ensures subs.contents == old(subs.contents) && subs.Repr == old(subs.Repr)
    {
      hide *;
      CoreIs();
      StandingFacts(records);
      AcceptFd(fd, records);
      SetSockFd(sub, fd, records);
      AddPfd(fd, poll, records);
      PutFd(fd, sub, records);
      CoreIs();
      Account(next, Repr + Core(), records);
      CoreIs();
      CoreGrownIntro();
    }

    /** revive_sub_connection: a record known from an earlier connection gets the new descriptor. */
    method ReviveSubConnection(sub: Sub, fd: Descriptor)
      requires Valid() && sub.id in state.byId && sub.id in subsById.contents && subsById.contents[sub.id] == sub
      requires state.byId[sub.id].fd == None && fd !in OpenFds(log)
      modifies Repr
      ensures Valid() && fresh(Repr - old(Repr))
      ensures state == ConnectStep(old(state), sub.id, fd)
      ensures Watched(old(pfds[..]), old(nfds), pfds[..], nfds)
    {
      hide *;
      Reach();
      Polls();
      AllStand();
      RecordAlone(sub);
      RecordOf(sub.id);
      CoreIs();
      Reconnect(sub, fd, state.poll, AllRecords(), ConnectStep(state, sub.id, fd));
      assert Valid() by {
        ValidAfterRevive(sub, fd);
      }
    }

    /** handle_listen_tcp_msg: a new connection, with the characters received for its id. */
    method HandleListenTcpMsg(received: string, fd: Descriptor)
      requires Valid() && fd !in OpenFds(log)
      modifies Repr
      ensures Valid() && fresh(Repr - old(Repr))
      ensures state == ConnectStep(old(state), ReadId(received), fd)
      ensures var id := ReadId(received);
              if id in old(state).byId && old(state).byId[id].fd != None
              then pfds[..] == old(pfds[..]) && nfds == old(nfds)
              else Watched(old(pfds[..]), old(nfds), pfds[..], nfds)
    {
      hide *;
      var id := ReadId(received);
      Reach();
      IdsValid();
      IdsAgree();
      subsById.ValidParts();
      var newSub := new Sub(id, fd);
      var known := subsById.HasKey(id);
      if known {
        var oldSub := subsById.Get(id);
        RecordOf(id);
        SockFdTells(oldSub.value.sockFd, state.byId[id].fd);
        if oldSub.value.sockFd == -1 {
          ReviveSubConnection(oldSub.value, fd);
        } else {
          Refuse(newSub);
        }
      } else {
        AddNewSub(newSub);
      }
    }

    // ---------- messages from subscribers ----------

    /** The loop of sub_closes_srv_connection that shifts the poll array. */
    method ShiftPfds(idx: nat)
      requires idx < nfds <= pfds.Length
      modifies pfds, this`nfds
      ensures Unwatched(old(pfds[..]), old(nfds), pfds[..], nfds, idx) && nfds == old(nfds) - 1
    {
      var j := idx;
      while j < nfds - 1
        invariant idx <= j <= nfds - 1
        invariant forall i | 0 <= i < idx :: pfds[..][i] == old(pfds[..])[i]
        invariant forall i | idx <= i < j :: pfds[..][i] == old(pfds[..])[i + 1]
        invariant forall i | j <= i < nfds :: pfds[..][i] == old(pfds[..])[i]
        modifies pfds
      {
        pfds[j] := pfds[j + 1];
        j := j + 1;
      }
      nfds := nfds - 1;
    }

    /** ht_remove_entry for a descriptor. */
    method RemoveFd(fd: Descriptor, ghost records: set<Sub>)
      requires Standing(records)
      modifies subsByFd.Repr
      ensures Standing(records) && subsByFd.Repr == old(subsByFd.Repr)
      ensures forall r | r in records :: r.View() == old(r.View())
      ensures subsByFd.contents == old(subsByFd.contents) - {fd}
      ensures subsById.contents == old(subsById.contents) && subsById.Repr == old(subsById.Repr)
      ensures subs.contents == old(subs.contents) && subs.Repr == old(subs.Repr)
      ensures pfds[..] == old(pfds[..])
    {
      hide *;
      CoreIs();
      StandingFacts(records);
      subsByFd.ValidParts();
      subsByFd.RemoveEntry(fd);
      CoreIntro();
      SteadyIntro(records);
      StandingAfter(records);
    }

    /** close, with the core and the records as they were. */
    method CloseFd(fd: int, ghost records: set<Sub>)
      requires Standing(records) && 0 <= fd < 0x8000_0000 && fd in OpenFds(log)
      modifies this`log
      ensures Standing(records) && log == old(log) + [Closed(fd)]
      ensures forall r | r in records :: r.View() == old(r.View())
    {
      hide *;
      CoreIs();
      StandingFacts(records);
      Close(fd);
      CoreIntro();
      SteadyIntro(records);
      StandingAfter(records);
    }

    /** The poll array shifted, with the core and the records as they were. */
    method Unwatch(idx: nat, ghost records: set<Sub>)
      requires Standing(records) && idx < nfds <= pfds.Length
      modifies this`nfds, pfds
      ensures Standing(records) && nfds == old(nfds) - 1
      ensures forall r | r in records :: r.View() == old(r.View())
      ensures Unwatched(old(pfds[..]), old(nfds), pfds[..], nfds, idx)
      ensures subsById.contents == old(subsById.contents) && subsById.Repr == old(subsById.Repr)
      ensures subsByFd.contents == old(subsByFd.contents) && subsByFd.Repr == old(subsByFd.Repr)
      ensures subs.contents == old(subs.contents) && subs.Repr == old(subs.Repr)
    {
      hide *;
      CoreIs();
      StandingFacts(records);
      ShiftPfds(idx);
      CoreIntro();
      SteadyIntro(records);
      StandingAfter(records);
    }

    /** The assignments of sub_closes_srv_connection. */
    method Disconnect(sub: Sub, idx: nat, ghost poll: seq<Descriptor>, ghost records: set<Sub>, ghost next: State)
      requires Standing(records) && sub in records
      requires forall r | r in records && r != sub :: sub !in r.View().foot
      requires 3 <= idx < nfds <= pfds.Length && pfds[idx].fd == sub.sockFd && sub.sockFd in OpenFds(log)
      requires PollFits(pfds[..], nfds, maxNfds, udpSockFd, tcpSockFd, poll) && Distinct(poll)
      modifies sub`sockFd, this`log, this`nfds, this`state, this`Repr, pfds, subsByFd.Repr
      ensures CoreOk() && Core() == old(Core()) && state == next && Repr == old(Repr) && nfds == old(nfds) - 1
      ensures log == old(log) + [Closed(old(pfds[idx].fd))]
      ensures forall r | r in records && r != sub :: r.View() == old(r.View())
      ensures sub.View() == old(sub.View()).(sockFd := -1)
      ensures Unwatched(old(pfds[..]), old(nfds), pfds[..], nfds, idx)
      ensures PollFits(pfds[..], nfds, maxNfds, udpSockFd, tcpSockFd, Without(poll, old(pfds[idx].fd)))
      ensures subsByFd.contents == old(subsByFd.contents) - {old(pfds[idx].fd)} && subsByFd.Repr == old(subsByFd.Repr)
      ensures subsById.contents == old(subsById.contents) && subsById.Repr == old(subsById.Repr)
      ensures subs.contents == old(subs.contents) && subs.Repr == old(subs.Repr)
    {
      hide *;
      CoreIs();
      StandingFacts(records);
      CloseFd(sub.sockFd, records);
      SetSockFd(sub, -1, records);
      RemoveFd(pfds[idx].fd, records);
      Unwatch(idx, records);
      CoreIs();
      Account(next, Repr, records);
      PollShrinks(old(pfds[..]), old(nfds), maxNfds, udpSockFd, tcpSockFd, poll, pfds[..], nfds, idx,
                  old(pfds[idx].fd));
    }

    twostate lemma ValidAfterClose(new sub: Sub, new fd: Descriptor)
      requires old(Valid()) && fd in old(state).byFd && old(state).byFd[fd] == sub.id
      requires sub.id in old(subsById.contents) && old(subsById.contents)[sub.id] == sub
      requires CoreOk() && Core() == old(Core()) && Repr == old(Repr)
      requires subsById.contents == old(subsById.contents) && subs.contents == old(subs.contents)
      requires subsByFd.contents == old(subsByFd.contents) - {fd}
      requires forall x {:trigger subsById.contents[x]} | x in subsById.contents && x != sub.id ::
                 subsById.contents[x].View() == old(subsById.contents[x].View())
      requires sub.View() == old(subsById.contents[sub.id].View()).(sockFd := -1)
      requires PollFits(pfds[..], nfds, maxNfds, udpSockFd, tcpSockFd, Without(old(state).poll, fd))
      requires sub.id in old(state).byId && state == CloseStep(old(state), fd)
      requires log == old(log) + [Closed(fd)] && sent == old(sent)
      ensures Valid()
    {
      hide *;
      OldParts();
      ViewsAfter(sub.id);
      ClosedIs(old(state), fd);
      FdFitsSome(fd);
      RecordChanges(old(Views()), Core(), old(state).byId, old(Repr), sub.id, sub.View(), state.byId[sub.id]);
      IndexesDrop(old(subsById.contents), old(subsByFd.contents), old(subs.contents), old(state), state, fd);
      CloseKeeps(old(state), fd, {udpSockFd, tcpSockFd});
      WithinMore(Views(), old(Repr) + sub.View().foot, Repr);
      Assemble();
    }

    /** The record that a watched descriptor leads to. */
    lemma Watching(idx: nat)
      requires Valid() && 3 <= idx < nfds
      ensures idx < nfds <= pfds.Length && pfds[..][idx] == pfds[idx]
      ensures var fd := pfds[idx].fd;
              && fd == state.poll[idx - 3] && fd in state.poll && fd in state.byFd && state.byFd[fd] in state.byId
              && fd in OpenFds(log) && fd in subsByFd.contents && state.byFd[fd] in subsById.contents
              && subsByFd.contents[fd] == subsById.contents[state.byFd[fd]]
              && subsByFd.contents[fd].id == state.byFd[fd] && subsByFd.contents[fd].sockFd == fd
      ensures Distinct(state.poll) && PollFits(pfds[..], nfds, maxNfds, udpSockFd, tcpSockFd, state.poll)
      ensures pfds.Length == maxNfds && nfds == |state.poll| + 3
    {
      assert pfds[..][idx - 3 + 3] == pfds[idx];
      WatchedHasRecord(state, state.poll[idx - 3], {udpSockFd, tcpSockFd});
      RecordOf(state.byFd[state.poll[idx - 3]]);
    }

    /** sub_closes_srv_connection: the index steps back to where the next descriptor has moved. */
    method SubClosesSrvConnection(sub: Sub, idx: nat) returns (next: nat)
      requires Valid() && 3 <= idx < nfds && idx < pfds.Length
      requires pfds[idx].fd in state.byFd && state.byFd[pfds[idx].fd] == sub.id && sub.id in state.byId
      requires pfds[idx].fd in subsByFd.contents && subsByFd.contents[pfds[idx].fd] == sub
      modifies Repr
      ensures Valid() && Repr == old(Repr) && next == idx - 1
      ensures state == CloseStep(old(state), old(pfds[idx].fd))
      ensures Unwatched(old(pfds[..]), old(nfds), pfds[..], nfds, idx) && nfds == old(nfds) - 1
    {
      hide *;
      Reach();
      Watching(idx);
      AllStand();
      RecordAlone(sub);
      RecordOf(sub.id);
      CoreIs();
      ghost var fd := pfds[idx].fd;
      Disconnect(sub, idx, state.poll, AllRecords(), CloseStep(state, fd));
      assert Valid() by {
        ValidAfterClose(sub, fd);
      }
      next := idx - 1;
    }

    /** handle_sub_msg: the map by descriptor always has the sender's record. A request for a pattern outside
        the alphabet makes the program exit. */
    method HandleSubMsg(idx: nat, kind: nat, topic: string) returns (next: nat, exited: bool)
      requires Valid() && 3 <= idx < nfds && idx < pfds.Length
      requires kind == UNSUBSCRIBE_SUB_MSG ==> !GoesAstray(PatternsAt(state, pfds[idx].fd), TOPIC_ALPHABET, topic)
      modifies Repr
      ensures exited <==> kind == 0 && !Over(topic, TOPIC_ALPHABET)
      ensures exited ==> log == old(log) && sent == old(sent)
      ensures !exited ==> Valid() && fresh(Repr - old(Repr))
      ensures old(pfds[idx].fd) in old(state).poll
      ensures old(pfds[idx].fd) in old(state).byFd && old(state).byFd[old(pfds[idx].fd)] in old(state).byId
      ensures !exited ==> state == MessageStep(old(state), old(pfds[idx].fd), kind, topic)
      ensures !exited ==>
                if kind == CLOSE_SUB_MSG
                then
                  && next == idx - 1 && nfds == old(nfds) - 1
                  && Unwatched(old(pfds[..]), old(nfds), pfds[..], nfds, idx)
                else next == idx && nfds == old(nfds) && pfds[..] == old(pfds[..])
      ensures !exited && kind == 0 ==>
                PatternsAt(state, old(pfds[idx].fd)) == PatternsAt(old(state), old(pfds[idx].fd)) + {topic}
      ensures !exited && kind == 1 ==>
                PatternsAt(state, old(pfds[idx].fd)) == PatternsAt(old(state), old(pfds[idx].fd)) - {topic}
      ensures !exited && kind == 2 ==> old(pfds[idx].fd) !in state.byFd
      ensures !exited && kind > 2 ==> state == old(state)
    {
      hide *;
      Reach();
      Watching(idx);
      MessageIs(state, pfds[idx].fd, kind, topic);
      PatternsAtIs(state, pfds[idx].fd);
      MessageInNumbers(state, pfds[idx].fd, topic);
      KindsInNumbers();
      FdsValid();
      subsByFd.ValidParts();
      var found := subsByFd.Get(pfds[idx].fd);
      var sub := found.value;
      next, exited := idx, false;
      if kind == UNSUBSCRIBE_SUB_MSG {
        Unsubscribe(sub, topic);
      } else if kind == SUBSCRIBE_SUB_MSG {
        var ok := Subscribe(sub, topic);
        exited := !ok;
      } else if kind == CLOSE_SUB_MSG {
        next := SubClosesSrvConnection(sub, idx);
      }
    }

    // ---------- publishing ----------

    /** One round of the loop of handle_udp_msg. */
    method Offer(sub: Sub, topic: string, data: string, ghost r: Record, ghost records: set<Sub>)
      requires Standing(records) && sub in records
      requires FdFits(sub.View().sockFd, r.fd) && sub.View().keys == r.patterns
      requires r.fd != None ==> !Strays(r.patterns, TOPIC_ALPHABET, "", topic)
      requires r.fd != None ==> r.fd.value in OpenFds(log)
      modifies this`sent
      ensures Standing(records) && forall x | x in records :: x.View() == old(x.View())
      ensures sent == old(sent) + DeliveryTo(r, Publication(topic, data))
      ensures subs.Valid() && subs.contents == old(subs.contents)
    {
      hide *;
      CoreIs();
      StandingFacts(records);
      RecordStands(sub, records);
      sub.ViewIs();
      SockFdTells(sub.sockFd, r.fd);
      DeliveryIs(r, Publication(topic, data));
      if sub.sockFd != -1 {
        RootStands(sub.subscriptions);
        RootCall(sub.subscriptions.entries.Keys, topic);
        var answer := IsSubscribed(sub.subscriptions, sub.subscriptions.root, "", topic, true);
        if answer == Yes {
          Send(sub.sockFd, Publication(topic, data));
        }
      }
      CoreIntro();
      SteadyIntro(records);
      StandingAfter(records);
    }

    lemma RecordStands(sub: Sub, records: set<Sub>)
      requires Standing(records) && sub in records
      ensures sub.View().valid
    {
    }

    /** The subscriber list stands for the records of `byId` in the given order. */
    ghost predicate ListStands(order: seq<CString>, byId: map<CString, Record>, records: set<Sub>)
      reads *
    {
      && subs.Valid() && |subs.contents| == |order| == subs.size
      && forall j {:trigger subs.contents[j]} {:trigger order[j]} | 0 <= j < |subs.contents| ::
           && order[j] in byId && subs.contents[j] in records
           && FdFits(subs.contents[j].View().sockFd, byId[order[j]].fd)
           && subs.contents[j].View().keys == byId[order[j]].patterns
           && (byId[order[j]].fd != None ==> byId[order[j]].fd.value in OpenFds(log))
    }

    lemma ListStandsAt(order: seq<CString>, byId: map<CString, Record>, records: set<Sub>, j: nat)
      requires ListStands(order, byId, records)
      ensures subs.Valid() && |subs.contents| == |order| == subs.size
      ensures forall id | id in order :: id in byId
      ensures j < |order| ==>
                && order[j] in byId && subs.contents[j] in records
                && FdFits(subs.contents[j].View().sockFd, byId[order[j]].fd)
                && subs.contents[j].View().keys == byId[order[j]].patterns
                && (byId[order[j]].fd != None ==> byId[order[j]].fd.value in OpenFds(log))
    {
      forall id | id in order ensures id in byId {
        var i :| 0 <= i < |order| && order[i] == id;
        assert subs.contents[i] in records;
      }
    }

    twostate lemma ListStandsAfter(new order: seq<CString>, new byId: map<CString, Record>, records: set<Sub>)
      requires old(ListStands(order, byId, records)) && subs.Valid()
      requires subs.contents == old(subs.contents) && subs.size == old(subs.size) && log == old(log)
      requires forall r | r in records :: r.View() == old(r.View())
      ensures ListStands(order, byId, records)
    {
      forall j {:trigger subs.contents[j]} | 0 <= j < |subs.contents|
        ensures subs.contents[j] in records
      {
        assert old(subs.contents)[j] in records;
      }
    }

    /** The list, record by record. */
    lemma Listed()
      requires Valid()
      ensures ListStands(state.order, state.byId, AllRecords())
    {
      hide *;
      Parts();
      AllStand();
      subs.Chain(0);
      ListFits(subsById.contents, subsByFd.contents, subs.contents, state);
      forall j {:trigger subs.contents[j]} | 0 <= j < |subs.contents|
        ensures state.order[j] in state.byId && subs.contents[j] in AllRecords()
        ensures FdFits(subs.contents[j].View().sockFd, state.byId[state.order[j]].fd)
        ensures subs.contents[j].View().keys == state.byId[state.order[j]].patterns
        ensures state.byId[state.order[j]].fd != None ==> state.byId[state.order[j]].fd.value in OpenFds(log)
      {
        RecordOf(state.order[j]);
        subs.contents[j].ViewIs();
        ConnectedIsOpen(state, state.order[j], {udpSockFd, tcpSockFd});
      }
      ListStandsIntro(state.order, state.byId, AllRecords());
    }

    lemma ListStandsIntro(order: seq<CString>, byId: map<CString, Record>, records: set<Sub>)
      requires subs.Valid() && |subs.contents| == |order| == subs.size
      requires forall j {:trigger subs.contents[j]} {:trigger order[j]} | 0 <= j < |subs.contents| ::
                 && order[j] in byId && subs.contents[j] in records
                 && FdFits(subs.contents[j].View().sockFd, byId[order[j]].fd)
                 && subs.contents[j].View().keys == byId[order[j]].patterns
                 && (byId[order[j]].fd != None ==> byId[order[j]].fd.value in OpenFds(log))
      ensures ListStands(order, byId, records)
    {
    }

    /** The loop of handle_udp_msg over the subscriber list. */
    method Broadcast(topic: string, data: string, ghost order: seq<CString>, ghost byId: map<CString, Record>,
                     ghost records: set<Sub>)
      requires Standing(records) && ListStands(order, byId, records) && Answerable(byId, topic)
      requires forall id | id in order :: id in byId
      modifies this`sent
      ensures Standing(records) && forall r | r in records :: r.View() == old(r.View())
      ensures sent == old(sent) + Deliveries(order, byId, Publication(topic, data))
    {
      hide *;
      ghost var body := Publication(topic, data);
      ListStandsAt(order, byId, records, 0);
      NextDelivery(order, byId, body, 0);
      subs.Chain(0);
      var current := subs.head;
      ghost var j := 0;
      while current != null
        invariant Standing(records) && forall r | r in records :: r.View() == old(r.View())
        invariant subs.Valid() && j <= |order| && current == subs.At(j)
        invariant sent + Deliveries(order[j..], byId, body) == old(sent) + Deliveries(order, byId, body)
        decreases |order| - j
      {
        ListStandsAfter(order, byId, records);
        ListStandsAt(order, byId, records, j);
        subs.Chain(j);
        NextDelivery(order, byId, body, j);
        AnswerableAt(byId, topic, order[j]);
        Offer(current.data, topic, data, byId[order[j]], records);
        subs.Chain(j);
        current := current.next;
        j := j + 1;
      }
      subs.Chain(j);
      NextDelivery(order, byId, body, j);
    }

    /** handle_udp_msg: a publication, already received. */
    method HandleUdpMsg(topic: string, data: string)
      requires Valid() && Answerable(state.byId, topic)
      modifies this`sent, this`state, this`Repr
      ensures Valid() && Repr == old(Repr)
      ensures IndexesAgree(old(state)) && state == PublishStep(old(state), topic, data)
    {
      hide *;
      Parts();
      AllStand();
      Listed();
      CoreIs();
      PublishedIs(state, topic, data, {udpSockFd, tcpSockFd});
      ghost var next := PublishStep(state, topic, data);
      Broadcast(topic, data, state.order, state.byId, AllRecords());
      Account(next, Repr, AllRecords());
      CoreIs();
      assert Valid() by {
        StandingFacts({});
        OthersIntro(null);
        ValidAfterTraffic();
      }
    }

    // ---------- the main loop ----------

    /** The loop of main over the subscribers: each descriptor that was ready when it began is handled
        once, in order, whichever of the handlers close their connections, up to the first request at which
        the program exits. */
    method Sweep(letters: map<Descriptor, Letter>) returns (ghost handled: seq<Descriptor>, exited: bool)
      requires Valid() && 3 <= nfds <= pfds.Length && LettersOk(ReadyFrom(pfds[..], 3, nfds), letters, state)
      modifies Repr
      ensures Distinct(ReadyFrom(old(pfds[..]), 3, old(nfds)))
      ensures handled == BeforeFatal(ReadyFrom(old(pfds[..]), 3, old(nfds)), letters)
      ensures exited <==> handled != ReadyFrom(old(pfds[..]), 3, old(nfds))
      ensures forall fd | fd in handled :: fd in letters
      ensures Possible(old(state), Messages(handled, letters))
      ensures log == Run(old(state), Messages(handled, letters)).log
      ensures sent == Run(old(state), Messages(handled, letters)).sent
      ensures !exited ==> Valid() && fresh(Repr - old(Repr)) && state == Run(old(state), Messages(handled, letters))
    {
      hide *;
      handled, exited := [], false;
      ghost var ready := ReadyFrom(pfds[..], 3, nfds);
      SweepBegins(ready, letters, state);
      Once();
      var i := 3;
      while i < nfds
        invariant Valid() && fresh(Repr - old(Repr)) && 3 <= i <= nfds <= pfds.Length && !exited
        invariant Halfway(handled, ReadyFrom(pfds[..], i, nfds), ready, letters, old(state), state)
        decreases nfds - i
      {
        ReadyNext(pfds[..], i, nfds);
        if pfds[i].revents {
          ghost var fd, now := pfds[i].fd, state;
          ghost var rest := ReadyFrom(pfds[..], i + 1, nfds);
          HalfwayParts(handled, [fd] + rest, ready, letters, old(state), now);
          Accounts();
          i, exited := HandleReady(i, letters, rest);
          if exited {
            SweepEnds(handled, [fd] + rest, ready, letters, old(state), now);
            return;
          }
          SweepGoesOn(handled, fd, rest, ready, letters, old(state), now, state);
          handled := handled + [fd];
        }
        i := i + 1;
      }
      ReadyNext(pfds[..], i, nfds);
      NothingFatal(letters);
      Accounts();
      SweepEnds(handled, [], ready, letters, old(state), state);
    }

    /** The step of the loop: the message on a ready descriptor, with the rest still to come. */
    method HandleReady(i: nat, letters: map<Descriptor, Letter>, ghost rest: seq<Descriptor>)
      returns (next: nat, exited: bool)
      requires Valid() && 3 <= i < nfds <= pfds.Length && pfds[i].revents
      requires rest == ReadyFrom(pfds[..], i + 1, nfds) && LettersOk([pfds[i].fd] + rest, letters, state)
      modifies Repr
      ensures old(pfds[i].fd) in letters && old(pfds[i].fd) in old(state).poll
      ensures old(pfds[i].fd) in old(state).byFd && old(state).byFd[old(pfds[i].fd)] in old(state).byId
      ensures BeforeFatal([old(pfds[i].fd)] + rest, letters)
           == (if exited then [] else [old(pfds[i].fd)] + BeforeFatal(rest, letters))
      ensures exited ==> log == old(log) && sent == old(sent)
      ensures !exited ==> Valid() && fresh(Repr - old(Repr))
      ensures !exited ==> 3 <= next + 1 <= nfds <= pfds.Length && nfds - next == old(nfds) - i
      ensures !exited ==> ReadyFrom(pfds[..], next + 1, nfds) == rest && LettersOk(rest, letters, state)
      ensures !exited ==>
                var letter := letters[old(pfds[i].fd)];
                state == MessageStep(old(state), old(pfds[i].fd), letter.kind, letter.topic)
    {
      hide *;
      NextLetter(i, rest, letters);
      KindsInNumbers();
      ghost var p, n := pfds[..], nfds;
      var letter := letters[pfds[i].fd];
      next, exited := HandleSubMsg(i, letter.kind, letter.topic);
      if !exited {
        Reach();
        if letter.kind == CLOSE_SUB_MSG {
          ReadyUnwatched(p, n, pfds[..], nfds, i, i);
        }
      }
    }

    /** The next message does not go astray, nor do those behind it once it has been handled. */
    lemma NextLetter(i: nat, rest: seq<Descriptor>, letters: map<Descriptor, Letter>)
      requires Valid() && 3 <= i < nfds <= pfds.Length && pfds[i].revents
      requires rest == ReadyFrom(pfds[..], i + 1, nfds) && LettersOk([pfds[i].fd] + rest, letters, state)
      ensures var fd := pfds[i].fd;
              && fd in letters && fd in state.byFd && state.byFd[fd] in state.byId
              && (letters[fd].kind == UNSUBSCRIBE_SUB_MSG ==>
                    !GoesAstray(PatternsAt(state, fd), TOPIC_ALPHABET, letters[fd].topic))
              && LettersOk(rest, letters, MessageStep(state, fd, letters[fd].kind, letters[fd].topic))
              && BeforeFatal([fd] + rest, letters)
                 == (if letters[fd].kind == SUBSCRIBE_SUB_MSG && !Over(letters[fd].topic, TOPIC_ALPHABET) then []
                     else [fd] + BeforeFatal(rest, letters))
    {
      hide *;
      Parts();
      Watching(i);
      ghost var fd := pfds[i].fd;
      ReadyOnce(pfds[..], nfds, maxNfds, udpSockFd, tcpSockFd, state.poll, i);
      ReadyWithin(pfds[..], nfds, maxNfds, udpSockFd, tcpSockFd, state.poll, i);
      ReadyNext(pfds[..], i, nfds);
      FirstLetter(fd, rest, letters, state, {udpSockFd, tcpSockFd});
    }

    lemma Once()
      requires Valid() && 3 <= nfds <= pfds.Length
      ensures Distinct(ReadyFrom(pfds[..], 3, nfds))
    {
      hide *;
      Parts();
      Reach();
      WatchedOnce(state);
      ReadyOnce(pfds[..], nfds, maxNfds, udpSockFd, tcpSockFd, state.poll, 3);
    }

    /** What poll writes to the array. */
    method Report(a: Arrivals)
      requires nfds <= pfds.Length
      modifies pfds
      ensures Polled(old(pfds[..]), pfds[..], nfds, a)
    {
      var i := 0;
      while i < nfds
        invariant i <= nfds
        invariant forall k {:trigger pfds[k]} | 0 <= k < pfds.Length :: pfds[k].fd == old(pfds[k]).fd
        invariant forall k {:trigger pfds[k]} | 0 <= k < i :: pfds[k].revents <==> IsReady(a, k, pfds[k].fd)
      {
        pfds[i] := PollFd(pfds[i].fd, IsReady(a, i, pfds[i].fd));
        i := i + 1;
      }
    }

    twostate lemma ValidAfterPoll(new a: Arrivals)
      requires old(Valid()) && CoreOk() && Core() == old(Core()) && Repr == old(Repr)
      requires subsById.contents == old(subsById.contents) && subsByFd.contents == old(subsByFd.contents)
      requires subs.contents == old(subs.contents)
      requires forall x {:trigger subsById.contents[x]} | x in subsById.contents ::
                 subsById.contents[x].View() == old(subsById.contents[x].View())
      requires nfds == old(nfds) && maxNfds == old(maxNfds) && Polled(old(pfds[..]), pfds[..], nfds, a)
      requires state == old(state) && log == old(log) && sent == old(sent)
      ensures Valid()
    {
      hide *;
      OldParts();
      ViewsKept();
      PolledFits(old(pfds[..]), pfds[..], nfds, maxNfds, udpSockFd, tcpSockFd, state.poll, a);
      Assemble();
    }

    twostate lemma ViewsKept()
      requires subsById.contents == old(subsById.contents)
      requires forall x {:trigger subsById.contents[x]} | x in subsById.contents ::
                 subsById.contents[x].View() == old(subsById.contents[x].View())
      ensures Views() == old(Views())
    {
    }

    /** poll, for the given arrivals. */
    method Poll(a: Arrivals)
      requires Valid()
      modifies pfds
      ensures Valid() && 3 <= nfds <= pfds.Length
      ensures pfds[1].revents <==> a.publication != None
      ensures pfds[2].revents <==> a.login != None
      ensures ReadyFrom(pfds[..], 3, nfds) == Having(state.poll, a.letters)
    {
      hide *;
      Parts();
      AllStand();
      CoreIs();
      StandingFacts(AllRecords());
      Report(a);
      PolledFits(old(pfds[..]), pfds[..], nfds, maxNfds, udpSockFd, tcpSockFd, state.poll, a);
      CoreIntro();
      assert Valid() by {
        ValidAfterPoll(a);
      }
    }

    /** One round of the loop of main, when there is no command on the standard input. */
    method Round(a: Arrivals) returns (exited: bool)
      requires Valid() && ArrivalsOk(a, state)
      modifies Repr
      ensures exited <==> RoundExits(old(state).poll, a)
      ensures Possible(old(state), RoundEvents(old(state).poll, a))
      ensures log == Run(old(state), RoundEvents(old(state).poll, a)).log
      ensures sent == Run(old(state), RoundEvents(old(state).poll, a)).sent
      ensures !exited ==>
                Valid() && fresh(Repr - old(Repr)) && state == Run(old(state), RoundEvents(old(state).poll, a))
    {
      hide *;
      Reach();
      Poll(a);
      Accounts();
      Reach();
      EventsAre(a);
      ArrivalsAre(a, state);
      RunNothing(state);
      ghost var ready := Having(state.poll, a.letters);
      if pfds[1].revents {
        RunPublish(state, a.publication.value.0, a.publication.value.1);
        LettersKept(ready, a.letters, Publish(a.publication.value.0, a.publication.value.1));
        HandleUdpMsg(a.publication.value.0, a.publication.value.1);
      }
      ghost var s1, p, n := state, pfds[..], nfds;
      assert s1 == Run(old(state), PublishEvents(a)) && Possible(old(state), PublishEvents(a));
      RunNothing(s1);
      Accounts();
      if pfds[2].revents {
        RunConnect(state, a.login.value.0, a.login.value.1);
        LettersKept(ready, a.letters, Connect(a.login.value.0, a.login.value.1));
        ReadWhole(a.login.value.0);
        HandleListenTcpMsg(a.login.value.0, a.login.value.1);
        ReadyJoined(p, n, pfds[..], nfds);
      }
      ghost var s2 := state;
      assert s2 == Run(s1, ConnectEvents(a)) && Possible(s1, ConnectEvents(a));
      Reach();
      ghost var handled;
      handled, exited := Sweep(a.letters);
      RoundIs(old(state), s1, s2, a, handled);
    }

    /** The publication and the login of a round leave the letters in order. */
    lemma LettersKept(fds: seq<Descriptor>, letters: map<Descriptor, Letter>, e: Event)
      requires Valid() && LettersOk(fds, letters, state) && !e.Message? && (forall fd | fd in fds :: fd in state.poll)
      requires e.Connect? ==> e.fd !in OpenFds(log)
      ensures e.Publish? ==>
                && IndexesAgree(state) && LettersOk(fds, letters, PublishStep(state, e.topic, e.data))
                && forall fd | fd in fds :: fd in PublishStep(state, e.topic, e.data).poll
      ensures e.Connect? ==> LettersOk(fds, letters, ConnectStep(state, e.id, e.fd))
    {
      hide *;
      Parts();
      PossibleNow(state, e);
      if e.Publish? {
        PublishedIs(state, e.topic, e.data, {udpSockFd, tcpSockFd});
      }
      StepsAre(state, e);
      LettersStay(fds, letters, state, e, {udpSockFd, tcpSockFd});
    }

    // ---------- stopping ----------

    /** srv_closes_sub_connection on a record of this server. */
    method CloseOut(sub: Sub, ghost r: Record, ghost records: set<Sub>)
      requires Standing(records) && sub in records && FdFits(sub.sockFd, r.fd)
      requires forall x | x in records && x != sub :: sub !in x.View().foot
      requires r.fd != None ==> r.fd.value in OpenFds(log)
      modifies sub`sockFd, this`log, this`sent
      ensures Standing(records) && sub.sockFd == -1
      ensures forall x | x in records && x != sub :: x.View() == old(x.View())
      ensures sub.View() == old(sub.View()).(sockFd := -1)
      ensures r.fd == None ==> log == old(log) && sent == old(sent)
      ensures r.fd != None ==>
                log == old(log) + [Closed(r.fd.value)] && sent == old(sent) + [Packet(r.fd.value, CloseNotice)]
    {
      hide *;
      CoreIs();
      StandingFacts(records);
      AloneFacts(sub, records);
      SockFdTells(sub.sockFd, r.fd);
      RecordOutside(sub, records);
      SrvClosesSubConnection(sub);
      CoreIntro();
      StandingAfterField(sub, records);
    }

    /** No two of the records share an object. */
    ghost predicate Alone(records: set<Sub>)
      reads *
    {
      forall a, b | a in records && b in records && a != b :: a.View().foot !! b.View().foot
    }

    lemma AloneFrom(sub: Sub, records: set<Sub>)
      requires Alone(records) && sub in records
      ensures forall x | x in records && x != sub :: sub !in x.View().foot
    {
      sub.ViewIs();
    }

    twostate lemma AloneAfter(new sub: Sub, records: set<Sub>)
      requires old(Alone(records)) && sub in records
      requires forall x | x in records && x != sub :: x.View() == old(x.View())
      requires sub.View() == old(sub.View()).(sockFd := sub.sockFd)
      ensures Alone(records)
    {
    }

    /** The step of the first loop of stop_program. */
    method CloseNth(sub: Sub, ghost order: seq<CString>, ghost byId: map<CString, Record>, ghost j: nat,
                    ghost records: set<Sub>, ghost lastLog: seq<FdEvent>, ghost lastSent: seq<Packet>)
      requires Standing(records) && Alone(records) && sub in records
      requires j < |order| && (forall id | id in order :: id in byId) && FdFits(sub.View().sockFd, byId[order[j]].fd)
      requires StillOpen(Connected(order[j..], byId), log, udpSockFd, tcpSockFd)
      requires ToClose(Connected(order[j..], byId), log, sent, lastLog, lastSent)
      modifies sub`sockFd, this`log, this`sent
      ensures Standing(records) && Alone(records) && sub.sockFd == -1 && subs.Valid() && this !in subs.Repr
      ensures forall x | x in records && x != sub :: x.View() == old(x.View())
      ensures StillOpen(Connected(order[j + 1..], byId), log, udpSockFd, tcpSockFd)
      ensures ToClose(Connected(order[j + 1..], byId), log, sent, lastLog, lastSent)
    {
      hide *;
      NextClosing(order, byId, j);
      sub.ViewIs();
      AloneFrom(sub, records);
      if byId[order[j]].fd != None {
        OneClosed(Connected(order[j..], byId), log, udpSockFd, tcpSockFd);
        ToCloseNext(Connected(order[j..], byId), log, sent, lastLog, lastSent);
      }
      CloseOut(sub, byId[order[j]], records);
      AloneAfter(sub, records);
      StandingFacts(records);
    }

    lemma ListApart(records: set<Sub>)
      requires Standing(records)
      ensures this !in subs.Repr
    {
    }

    /** The first loop of stop_program. */
    method CloseEach(ghost order: seq<CString>, ghost byId: map<CString, Record>, ghost records: set<Sub>)
      requires Standing(records) && ListStands(order, byId, records) && Alone(records)
      requires Distinct(subs.contents) && forall id | id in order :: id in byId
      requires StillOpen(Connected(order, byId), log, udpSockFd, tcpSockFd)
      modifies records`sockFd, this`log, this`sent
      ensures subs.Valid() && this !in subs.Repr && StillOpen([], log, udpSockFd, tcpSockFd)
      ensures log == old(log) + Closings(Connected(order, byId)) && sent == old(sent) + Notices(Connected(order, byId))
      ensures forall k | 0 <= k < |subs.contents| :: subs.contents[k] in records && subs.contents[k].sockFd == -1
    {
      hide *;
      ghost var fds := Connected(order, byId);
      ghost var lastLog, lastSent := log + Closings(fds), sent + Notices(fds);
      ListStandsAt(order, byId, records, 0);
      forall k {:trigger subs.contents[k]} | 0 <= k < |order|
        ensures subs.contents[k] in records && FdFits(subs.contents[k].View().sockFd, byId[order[k]].fd)
      {
        ListStandsAt(order, byId, records, k);
      }
      NextClosing(order, byId, 0);
      ToCloseAll(fds, log, sent);
      subs.Chain(0);
      ListApart(records);
      var current := subs.head;
      ghost var j := 0;
      while current != null
        invariant Standing(records) && Alone(records) && subs.Valid() && this !in subs.Repr
        invariant j <= |order| && current == subs.At(j)
        invariant StillOpen(Connected(order[j..], byId), log, udpSockFd, tcpSockFd)
        invariant ToClose(Connected(order[j..], byId), log, sent, lastLog, lastSent)
        invariant forall k {:trigger subs.contents[k]} | 0 <= k < j :: subs.contents[k].sockFd == -1
        invariant forall k {:trigger subs.contents[k]} | j <= k < |order| ::
                    subs.contents[k].View() == old(subs.contents[k].View())
        decreases |order| - j
      {
        subs.Chain(j);
        NextClosing(order, byId, j);
        OthersInList(subs.contents, j);
        CloseNth(current.data, order, byId, j, records, lastLog, lastSent);
        subs.Chain(j);
        current := current.next;
        j := j + 1;
      }
      subs.Chain(j);
      NextClosing(order, byId, j);
      ToCloseNext([], log, sent, lastLog, lastSent);
    }

    /** free_sub: closes the socket if it is still open. */
    method FreeSub(sub: Sub)
      requires sub.sockFd == -1 || (0 <= sub.sockFd < 0x8000_0000 && sub.sockFd in OpenFds(log))
      modifies this`log
      ensures log == if sub.sockFd == -1 then old(log) else old(log) + [Closed(sub.sockFd)]
    {
      if sub.sockFd != -1 {
        Close(sub.sockFd);
      }
    }

    /** The loop of ll_free on the subscriber list, which finds nothing left to close. */
    method FreeEach()
      requires subs.Valid() && this !in subs.Repr
      requires forall k | 0 <= k < |subs.contents| :: subs.contents[k].sockFd == -1
      modifies this`log
      ensures log == old(log)
    {
      hide *;
      subs.Chain(0);
      var current := subs.head;
      ghost var j := 0;
      while current != null
        invariant subs.Valid() && j <= |subs.contents| && current == subs.At(j) && log == old(log)
        decreases |subs.contents| - j
      {
        subs.Chain(j);
        FreeSub(current.data);
        subs.Chain(j);
        current := current.next;
        j := j + 1;
      }
    }

    lemma RecordsAlone()
      requires Valid()
      ensures Alone(AllRecords()) && Distinct(subs.contents)
    {
      hide *;
      Parts();
      IdsAgree();
      forall a, b | a in AllRecords() && b in AllRecords() && a != b ensures a.View().foot !! b.View().foot {
        var x := IdOf(a);
        var y := IdOf(b);
        RecordOf(x);
        RecordOf(y);
        FootsApart(Views(), Core(), state.byId, x, y);
      }
      AloneIntro(AllRecords());
      ListFits(subsById.contents, subsByFd.contents, subs.contents, state);
      DistinctAt(state);
      forall i, j | 0 <= i < j < |subs.contents| ensures subs.contents[i] != subs.contents[j] {
        RecordOf(state.order[i]);
        RecordOf(state.order[j]);
      }
      DistinctIntro(subs.contents);
    }

    lemma AloneIntro(records: set<Sub>)
      requires forall a, b | a in records && b in records && a != b :: a.View().foot !! b.View().foot
      ensures Alone(records)
    {
    }

    /** stop_program: every connected subscriber is told and closed, then the two sockets. */
    method StopProgram()
      requires Valid()
      modifies Repr
      ensures IndexesAgree(old(state)) && forall id | id in old(state).order :: id in old(state).byId
      ensures log == StopLog(old(state), udpSockFd, tcpSockFd)
      ensures |log| >= 2 && log[|log| - 2..] == [Closed(udpSockFd), Closed(tcpSockFd)]
      ensures sent == old(sent) + Notices(Connected(old(state).order, old(state).byId))
      ensures forall k | 0 <= k < |subs.contents| :: subs.contents[k].sockFd == -1
    {
      hide *;
      Reach();
      Accounts();
      AllStand();
      Listed();
      RecordsAlone();
      ListStandsAt(state.order, state.byId, AllRecords(), 0);
      StandsWithin(AllRecords());
      NothingClosed();
      CloseEach(state.order, state.byId, AllRecords());
      FreeEach();
      SocketsLeft(log, udpSockFd, tcpSockFd);
      Close(udpSockFd);
      Close(tcpSockFd);
      StopLogIs(old(state), udpSockFd, tcpSockFd);
    }

    lemma NothingClosed()
      requires Valid()
      ensures forall id | id in state.order :: id in state.byId
      ensures StillOpen(Connected(state.order, state.byId), log, udpSockFd, tcpSockFd)
    {
      hide *;
      Parts();
      NoneClosed(state, udpSockFd, tcpSockFd);
    }

    lemma StandsWithin(records: set<Sub>)
      requires Standing(records)
      ensures records <= Repr
    {
      forall r | r in records ensures r in Repr {
        r.ViewIs();
      }
    }
  }

  /** The empty maps, list and poll array of init_subs and init_poll_fds. */
  method NewStructures(udpSockFd: Descriptor, tcpSockFd: Descriptor)
    returns (byId: HashMap<CString, Sub>, byFd: HashMap<Descriptor, Sub>, list: List<Sub>, pfds: array<PollFd>)
    ensures byId.Valid() && byFd.Valid() && list.Valid()
    ensures byId.contents == map[] && byFd.contents == map[] && list.contents == []
    ensures fresh(byId.Repr) && fresh(byFd.Repr) && fresh(list.Repr) && fresh(pfds)
    ensures byId.Repr !! byFd.Repr && byId.Repr !! list.Repr && byFd.Repr !! list.Repr
    ensures pfds !in byId.Repr + byFd.Repr + list.Repr
    ensures pfds.Length == 256 && pfds[0].fd == 0 && pfds[1].fd == udpSockFd && pfds[2].fd == tcpSockFd
    ensures byId.hmax == 2 && byFd.hmax == 2
    ensures forall id: CString :: byId.hash(id) == HashFrom(id)
    ensures forall a: CString, b: CString :: byId.compare(a, b) == CompareStrings(a, b)
    ensures forall fd: Descriptor :: byFd.hash(fd) == HashUInt(fd)
    ensures forall a: Descriptor, b: Descriptor :: byFd.compare(a, b) == CompareUInts(a, b)
  {
    hide *;
    KeysCompare();
    byId := new HashMap<CString, Sub>(2, HashId, CompareIds);
    byFd := new HashMap<Descriptor, Sub>(2, HashFd, CompareFds);
    list := new List<Sub>();
    pfds := new PollFd[256](i => PollFd(if i == 0 then 0 else if i == 1 then udpSockFd else tcpSockFd, false));
  }

  /** The state that a round begins in, if it does. */
  ghost function RoundStart(s: State, rounds: seq<Arrivals>, i: nat): State
    requires i <= |rounds|
  {
    Run(s, RoundsEvents(s, rounds[..i]))
  }

  /** The program has not ended in a round before that one. */
  ghost predicate Reaches(s: State, rounds: seq<Arrivals>, i: nat)
    requires i <= |rounds|
  {
    forall j | 0 <= j < i :: !RoundExits(RoundStart(s, rounds, j).poll, rounds[j])
  }

  lemma ReachesIs(s: State, rounds: seq<Arrivals>, i: nat)
    requires i <= |rounds|
    ensures Reaches(s, rounds, i) <==>
              forall j | 0 <= j < i ::
                !RoundExits(Run(s, RoundsEvents(s, rounds[..j])).poll, rounds[j])
  {
    hide Run, RoundsEvents, RoundExits;
    assert forall j | 0 <= j < i :: RoundStart(s, rounds, j) == Run(s, RoundsEvents(s, rounds[..j]));
  }

  /** main: the given rounds, and then the exit command, unless the program has ended in one of the rounds. */
  method Serve(udpSockFd: Descriptor, tcpSockFd: Descriptor, rounds: seq<Arrivals>)
    returns (srv: Server, ghost served: nat, exited: bool)
    requires udpSockFd != tcpSockFd
    requires forall i | 0 <= i < |rounds| && Reaches(Init(udpSockFd, tcpSockFd), rounds, i) ::
               ArrivalsOk(rounds[i], RoundStart(Init(udpSockFd, tcpSockFd), rounds, i))
    ensures served <= |rounds|
    ensures if exited
            then
              && served > 0 && Reaches(Init(udpSockFd, tcpSockFd), rounds, served - 1)
              && RoundExits(RoundStart(Init(udpSockFd, tcpSockFd), rounds, served - 1).poll, rounds[served - 1])
            else served == |rounds| && Reaches(Init(udpSockFd, tcpSockFd), rounds, served)
    ensures Possible(Init(udpSockFd, tcpSockFd), RoundsEvents(Init(udpSockFd, tcpSockFd), rounds[..served]))
    ensures var last := RoundStart(Init(udpSockFd, tcpSockFd), rounds, served);
            && Inv(last, {udpSockFd, tcpSockFd}) && (forall id | id in last.order :: id in last.byId)
            && srv.log == (if exited then last.log else StopLog(last, udpSockFd, tcpSockFd))
            && srv.sent == last.sent + (if exited then [] else Notices(Connected(last.order, last.byId)))
    ensures LogOk(srv.log) && (!exited ==> OpenFds(srv.log) == {})
    ensures !exited ==>
              forall fd {:trigger Count(srv.log, Opened(fd))} ::
                Count(srv.log, Opened(fd)) == Count(srv.log, Closed(fd))
  {
    hide *;
    ghost var start := Init(udpSockFd, tcpSockFd);
    srv := new Server(udpSockFd, tcpSockFd);
    var i := 0;
    exited := false;
    RoundsStart(start, rounds);
    while i < |rounds|
      invariant i <= |rounds| && !exited && srv.Valid() && fresh(srv.Repr)
      invariant srv.udpSockFd == udpSockFd && srv.tcpSockFd == tcpSockFd
      invariant srv.state == RoundStart(start, rounds, i) && Reaches(start, rounds, i)
      invariant Possible(start, RoundsEvents(start, rounds[..i]))
    {
      srv.Reach();
      NextRound(start, rounds, i);
      exited := srv.Round(rounds[i]);
      i := i + 1;
      if exited {
        served := i;
        FactsAt(start, rounds, i, udpSockFd, tcpSockFd);
        assert srv.sent + [] == srv.sent;
        return;
      }
    }
    served := i;
    FactsAt(start, rounds, i, udpSockFd, tcpSockFd);
    srv.Reach();
    srv.Accounts();
    srv.StopProgram();
    ghost var last := RoundStart(start, rounds, i);
    forall fd {:trigger Count(srv.log, Opened(fd))}
      ensures LogOk(srv.log) && OpenFds(srv.log) == {} && Count(srv.log, Opened(fd)) == Count(srv.log, Closed(fd))
    {
      StopClosesEverything(last, udpSockFd, tcpSockFd, fd);
    }
    StopClosesEverything(last, udpSockFd, tcpSockFd, udpSockFd);
  }

  lemma NextRound(s: State, rounds: seq<Arrivals>, i: nat)
    requires i < |rounds| && Possible(s, RoundsEvents(s, rounds[..i])) && Reaches(s, rounds, i)
    ensures var t := RoundStart(s, rounds, i);
            && RoundStart(s, rounds, i + 1) == Run(t, RoundEvents(t.poll, rounds[i]))
            && (Possible(t, RoundEvents(t.poll, rounds[i])) ==> Possible(s, RoundsEvents(s, rounds[..i + 1])))
            && (!RoundExits(t.poll, rounds[i]) ==> Reaches(s, rounds, i + 1))
  {
    RoundsMore(s, rounds, i);
  }

  lemma FactsAt(s: State, rounds: seq<Arrivals>, i: nat, udp: Descriptor, tcp: Descriptor)
    requires udp != tcp && s == Init(udp, tcp) && i <= |rounds| && Possible(s, RoundsEvents(s, rounds[..i]))
    ensures var last := RoundStart(s, rounds, i);
            && Inv(last, {udp, tcp}) && IndexesAgree(last) && LogOk(last.log)
            && forall id | id in last.order :: id in last.byId
  {
    ReachableStatesAgree(udp, tcp, RoundsEvents(s, rounds[..i]));
  }

  lemma RoundsStart(s: State, rounds: seq<Arrivals>)
    ensures RoundStart(s, rounds, 0) == s && Possible(s, RoundsEvents(s, rounds[..0])) && Reaches(s, rounds, 0)
  {
  }

  /** What the main loop takes for granted of a round: accept returns a descriptor that is not open, and neither
      the searches for the publication nor the lookups for unsubscriptions go astray. */
  ghost predicate ArrivalsOk(a: Arrivals, s: State) {
    && LettersOk(Having(s.poll, a.letters), a.letters, s)
    && (a.publication != None ==> Answerable(s.byId, a.publication.value.0))
    && (a.login != None ==> a.login.value.1 !in OpenFds(s.log))
  }

  /** The same in terms of stored patterns and topics. */
  lemma ArrivalsOkIff(a: Arrivals, s: State)
    ensures ArrivalsOk(a, s) <==>
              && (forall fd | fd in s.poll && fd in a.letters && a.letters[fd].kind == 1 ::
                    !GoesAstray(PatternsAt(s, fd), TOPIC_ALPHABET, a.letters[fd].topic))
              && (a.publication != None ==>
                    forall id | id in s.byId && s.byId[id].fd != None ::
                      !Strays(s.byId[id].patterns, TOPIC_ALPHABET, "", a.publication.value.0))
              && (a.login != None ==> a.login.value.1 !in OpenFds(s.log))
  {
    hide GoesAstray, Strays, OpenFds, TOPIC_ALPHABET, PatternsAt;
  }

  lemma ArrivalsAre(a: Arrivals, s: State)
    requires ArrivalsOk(a, s)
    ensures LettersOk(Having(s.poll, a.letters), a.letters, s)
    ensures a.publication != None ==> Answerable(s.byId, a.publication.value.0)
    ensures a.login != None ==> a.login.value.1 !in OpenFds(s.log)
    ensures RoundExits(s.poll, a)
       <==> BeforeFatal(Having(s.poll, a.letters), a.letters) != Having(s.poll, a.letters)
  {
    ExitsWithin(Having(s.poll, a.letters), a.letters);
  }

  /** The first of the messages, and those behind it once it has been handled. */
  lemma FirstLetter(fd: Descriptor, rest: seq<Descriptor>, letters: map<Descriptor, Letter>, s: State,
                    listeners: set<Descriptor>)
    requires Inv(s, listeners) && LettersOk([fd] + rest, letters, s) && Distinct([fd] + rest)
    requires forall x | x in [fd] + rest :: x in s.poll
    ensures fd in letters && fd in s.byFd && s.byFd[fd] in s.byId && LetterOk(letters[fd], PatternsAt(s, fd))
    ensures letters[fd].kind == UNSUBSCRIBE_SUB_MSG ==>
              !GoesAstray(PatternsAt(s, fd), TOPIC_ALPHABET, letters[fd].topic)
    ensures LettersOk(rest, letters, MessageStep(s, fd, letters[fd].kind, letters[fd].topic))
    ensures BeforeFatal([fd] + rest, letters)
         == (if letters[fd].kind == SUBSCRIBE_SUB_MSG && !Over(letters[fd].topic, TOPIC_ALPHABET) then []
             else [fd] + BeforeFatal(rest, letters))
  {
    hide Inv, IndexesAgree, PatternsAt, MessageStep, GoesAstray, Over, OpenFds;
    var all := [fd] + rest;
    assert all[0] == fd && all[1..] == rest;
    WatchedHasRecord(s, fd, listeners);
    AgreeIn(s, listeners);
    var e := Message(fd, letters[fd].kind, letters[fd].topic);
    StepsAre(s, e);
    forall x | x in rest ensures x in all && x != fd {
      var i :| 0 <= i < |rest| && rest[i] == x;
      assert all[i + 1] == x;
    }
    LettersStay(rest, letters, s, e, listeners);
  }

  lemma NothingFatal(letters: map<Descriptor, Letter>)
    ensures BeforeFatal([], letters) == []
  {
  }

  lemma PossibleNow(s: State, e: Event)
    requires !e.Message? && (e.Connect? ==> e.fd !in OpenFds(s.log))
    ensures Enabled(s, e)
  {
  }

  /** The search of no connected subscriber goes astray on the topic. */
  ghost predicate Answerable(byId: map<CString, Record>, topic: string) {
    forall id | id in byId && byId[id].fd != None :: !Strays(byId[id].patterns, TOPIC_ALPHABET, "", topic)
  }

  lemma AnswerableAt(byId: map<CString, Record>, topic: string, id: CString)
    requires Answerable(byId, topic) && id in byId
    ensures byId[id].fd != None ==> !Strays(byId[id].patterns, TOPIC_ALPHABET, "", topic)
  {
  }

  /** A topic over the alphabet is one that can be answered, whoever is connected with whatever patterns. */
  lemma OverAnswerable(byId: map<CString, Record>, topic: string)
    requires Over(topic, TOPIC_ALPHABET)
    ensures Answerable(byId, topic)
  {
    forall id | id in byId ensures !Strays(byId[id].patterns, TOPIC_ALPHABET, "", topic) {
      OverNeverStrays(byId[id].patterns, TOPIC_ALPHABET, "", topic);
    }
  }

  lemma SizeWithoutIs(r: Record, topic: string)
    ensures SizeWithout(r, topic) == r.size - if topic in r.patterns then 1 else 0
  {
  }

  lemma PatternsAtIs(s: State, fd: Descriptor)
    ensures fd in s.byFd && s.byFd[fd] in s.byId ==> PatternsAt(s, fd) == s.byId[s.byFd[fd]].patterns
  {
  }

  lemma ReadyJoined(p: seq<PollFd>, n: nat, q: seq<PollFd>, m: nat)
    requires 3 <= n <= |p| && (Watched(p, n, q, m) || (q == p && m == n))
    ensures m <= |q| && ReadyFrom(q, 3, m) == ReadyFrom(p, 3, n)
  {
    if Watched(p, n, q, m) {
      ReadyWatched(p, n, q, m, 3);
    }
  }

  lemma RoundIs(s: State, s1: State, s2: State, a: Arrivals, handled: seq<Descriptor>)
    requires s1 == Run(s, PublishEvents(a)) && Possible(s, PublishEvents(a))
    requires s2 == Run(s1, ConnectEvents(a)) && Possible(s1, ConnectEvents(a))
    requires handled == BeforeFatal(Having(s.poll, a.letters), a.letters) && Possible(s2, Messages(handled, a.letters))
    ensures Run(s2, Messages(handled, a.letters)) == Run(s, RoundEvents(s.poll, a))
    ensures Possible(s, RoundEvents(s.poll, a))
  {
    RunConcat(s, PublishEvents(a), ConnectEvents(a));
    RunConcat(s, PublishEvents(a) + ConnectEvents(a), Messages(handled, a.letters));
  }

  lemma EventsAre(a: Arrivals)
    ensures PublishEvents(a)
         == if a.publication == None then [] else [Publish(a.publication.value.0, a.publication.value.1)]
    ensures ConnectEvents(a) == if a.login == None then [] else [Connect(a.login.value.0, a.login.value.1)]
  {
  }

  lemma OthersInList(list: seq<Sub>, j: nat)
    requires Distinct(list) && j < |list|
    ensures forall k | 0 <= k < |list| && k != j :: list[k] != list[j]
  {
  }

  lemma DistinctAt(s: State)
    requires IndexesAgree(s)
    ensures forall i, j | 0 <= i < j < |s.order| :: s.order[i] != s.order[j]
  {
  }

  lemma DistinctIntro(list: seq<Sub>)
    requires forall i, j | 0 <= i < j < |list| :: list[i] != list[j]
    ensures Distinct(list)
  {
  }

  lemma StopLogIs(s: State, udp: Descriptor, tcp: Descriptor)
    requires IndexesAgree(s)
    ensures StopLog(s, udp, tcp) == s.log + Closings(Connected(s.order, s.byId)) + [Closed(udp)] + [Closed(tcp)]
  {
  }

  lemma WatchedOnce(s: State)
    requires IndexesAgree(s)
    ensures Distinct(s.poll)
  {
  }

  lemma SockFdTells(sockFd: int, fd: Option<Descriptor>)
    requires FdFits(sockFd, fd)
    ensures sockFd == -1 <==> fd == None
    ensures fd != None ==> sockFd == fd.value
  {
  }

  method SetField(sub: Sub, sockFd: int)
    requires sub.View().valid
    modifies sub`sockFd
    ensures sub.sockFd == sockFd && sub.View() == old(sub.View()).(sockFd := sockFd)
  {
    hide Trie.Valid;
    sub.ViewIs();
    sub.sockFd := sockFd;
  }

  /** realloc. */
  method Realloc(p: array<PollFd>, n: nat) returns (q: array<PollFd>)
    requires p.Length <= n
    ensures fresh(q) && q.Length == n && forall i | 0 <= i < p.Length :: q[i] == p[i]
  {
    q := new PollFd[n](_ => PollFd(0, false));
    for i := 0 to p.Length
      modifies q
      invariant forall k | 0 <= k < i :: q[k] == p[k]
    {
      q[i] := p[i];
    }
  }

  function HashId(id: CString): nat {
    HashFrom(id)
  }

  function CompareIds(a: CString, b: CString): int {
    CompareStrings(a, b)
  }

  function HashFd(fd: Descriptor): nat {
    HashUInt(fd)
  }

  function CompareFds(a: Descriptor, b: Descriptor): int {
    CompareUInts(a, b)
  }

  /** Both comparisons tell keys apart, which is what the hash maps need. */
  lemma KeysCompare()
    ensures Compares(CompareIds) && Compares(CompareFds)
    ensures forall id: CString :: HashId(id) == HashFrom(id)
    ensures forall a: CString, b: CString :: CompareIds(a, b) == CompareStrings(a, b)
    ensures forall fd: Descriptor :: HashFd(fd) == HashUInt(fd)
    ensures forall a: Descriptor, b: Descriptor :: CompareFds(a, b) == CompareUInts(a, b)
  {
    hide HashFrom, HashUInt, CompareStrings;
    CStringsCompare();
  }
}
