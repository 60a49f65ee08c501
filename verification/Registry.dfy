/** How the server's data structures, taken as values, stand for a state of the broker. */
module Registry {
  import opened Broker
  import opened Hashing
  import opened Options
  import opened Rounds
  import opened Subscriber

  /** struct pollfd: the watched descriptor and whether it has become readable. */
  datatype PollFd = PollFd(fd: Descriptor, revents: bool)

  type Records = map<CString, SubView>

  ghost predicate FdFits(sockFd: int, fd: Option<Descriptor>) {
    if fd == None then sockFd == -1 else sockFd == fd.value
  }

  ghost predicate RecordFits(id: CString, v: SubView, core: set<object>, r: Record) {
    v.id == id && v.valid && v.foot !! core && FdFits(v.sockFd, r.fd) && v.keys == r.patterns && v.size == r.size
  }

  /** The records hold what the state says and share no objects with each other or with the core. */
  ghost predicate RecordsFit(records: Records, core: set<object>, byId: map<CString, Record>) {
    && records.Keys == byId.Keys
    && (forall id | id in records :: RecordFits(id, records[id], core, byId[id]))
    && (forall a, b | a in records && b in records && a != b :: records[a].foot !! records[b].foot)
  }

  lemma FootsApart(records: Records, core: set<object>, byId: map<CString, Record>, a: CString, b: CString)
    requires RecordsFit(records, core, byId) && a in records && b in records && a != b
    ensures records[a].foot !! records[b].foot
  {
  }

  ghost predicate Within(records: Records, repr: set<object>) {
    forall id | id in records :: records[id].foot <= repr
  }

  /** The list and the two maps hold the same records. */
  ghost predicate IndexesFit(ids: map<CString, Sub>, fds: map<Descriptor, Sub>, list: seq<Sub>, s: State) {
    && ids.Keys == s.byId.Keys
    && |list| == |s.order|
    && (forall i | 0 <= i < |list| :: s.order[i] in ids && list[i] == ids[s.order[i]])
    && fds.Keys == s.byFd.Keys
    && (forall fd | fd in fds :: s.byFd[fd] in ids && fds[fd] == ids[s.byFd[fd]])
  }

  /** The poll array: standard input, the two sockets, then the subscribers' descriptors. */
  ghost predicate PollFits(p: seq<PollFd>, nfds: nat, maxNfds: nat, udp: Descriptor, tcp: Descriptor,
                           poll: seq<Descriptor>) {
    && |p| == maxNfds && 3 <= nfds <= maxNfds
    && p[0].fd == 0 && p[1].fd == udp && p[2].fd == tcp
    && nfds == |poll| + 3
    && (forall i | 0 <= i < |poll| :: p[i + 3].fd == poll[i])
  }

  /** The core may take in new objects. */
  lemma CoreGrows(records: Records, core: set<object>, more: set<object>, byId: map<CString, Record>, repr: set<object>)
    requires RecordsFit(records, core, byId) && Within(records, repr)
    requires forall o | o in more :: o in core || o !in repr
    ensures RecordsFit(records, more, byId)
  {
    forall id | id in records ensures records[id].foot !! more {
      assert records[id].foot <= repr;
    }
  }

  /** One record may change, and take in new objects. */
  lemma RecordChanges(records: Records, core: set<object>, byId: map<CString, Record>, repr: set<object>,
                      id: CString, v: SubView, r: Record)
    requires RecordsFit(records, core, byId) && Within(records, repr) && core <= repr && id in records
    requires v.id == id && v.valid && FdFits(v.sockFd, r.fd) && v.keys == r.patterns && v.size == r.size
    requires forall o | o in v.foot :: o in records[id].foot || o !in repr
    ensures RecordsFit(records[id := v], core, byId[id := r])
    ensures Within(records[id := v], repr + v.foot)
  {
    var after := records[id := v];
    forall a | a in after ensures RecordFits(a, after[a], core, byId[id := r][a]) {
      assert RecordFits(a, records[a], core, byId[a]);
    }
    forall a, b | a in after && b in after && a != b ensures after[a].foot !! after[b].foot {
      assert records[a].foot <= repr && records[b].foot <= repr && records[a].foot !! records[b].foot;
    }
  }

  /** A record with new objects may join. */
  lemma RecordJoins(records: Records, core: set<object>, byId: map<CString, Record>, repr: set<object>,
                    id: CString, v: SubView, r: Record)
    requires RecordsFit(records, core, byId) && Within(records, repr) && id !in records
    requires v.id == id && v.valid && FdFits(v.sockFd, r.fd) && v.keys == r.patterns && v.size == r.size
    requires v.foot !! core && v.foot !! repr
    ensures RecordsFit(records[id := v], core, byId[id := r])
    ensures Within(records[id := v], repr + v.foot)
  {
    var after := records[id := v];
    forall a | a in after ensures RecordFits(a, after[a], core, byId[id := r][a]) {
      if a != id {
        assert RecordFits(a, records[a], core, byId[a]);
      }
    }
    forall a, b | a in after && b in after && a != b ensures after[a].foot !! after[b].foot {
      if a != id {
        assert records[a].foot <= repr;
      }
      if b != id {
        assert records[b].foot <= repr;
      }
    }
  }

  lemma IndexesKept(ids: map<CString, Sub>, fds: map<Descriptor, Sub>, list: seq<Sub>, s: State, s': State)
    requires IndexesFit(ids, fds, list, s)
    requires s'.byId.Keys == s.byId.Keys && s'.order == s.order && s'.byFd == s.byFd
    ensures IndexesFit(ids, fds, list, s')
  {
  }

  /** A new record joins the front of the list and both maps. */
  lemma IndexesJoin(ids: map<CString, Sub>, fds: map<Descriptor, Sub>, list: seq<Sub>, s: State, s': State,
                    id: CString, fd: Descriptor, sub: Sub)
    requires IndexesFit(ids, fds, list, s) && id !in s.byId && fd !in s.byFd
    requires s'.byId.Keys == s.byId.Keys + {id} && s'.order == [id] + s.order && s'.byFd == s.byFd[fd := id]
    requires forall i | 0 <= i < |s.order| :: s.order[i] != id
    requires forall x | x in s.byFd :: s.byFd[x] != id
    ensures IndexesFit(ids[id := sub], fds[fd := sub], [sub] + list, s')
  {
  }

  /** A record known before gets a descriptor. */
  lemma IndexesRevive(ids: map<CString, Sub>, fds: map<Descriptor, Sub>, list: seq<Sub>, s: State, s': State,
                      id: CString, fd: Descriptor)
    requires IndexesFit(ids, fds, list, s) && id in s.byId
    requires s'.byId.Keys == s.byId.Keys && s'.order == s.order && s'.byFd == s.byFd[fd := id]
    ensures IndexesFit(ids, fds[fd := ids[id]], list, s')
  {
  }

  /** A record loses its descriptor. */
  lemma IndexesDrop(ids: map<CString, Sub>, fds: map<Descriptor, Sub>, list: seq<Sub>, s: State, s': State,
                    fd: Descriptor)
    requires IndexesFit(ids, fds, list, s) && fd in s.byFd
    requires s'.byId.Keys == s.byId.Keys && s'.order == s.order && s'.byFd == s.byFd - {fd}
    ensures IndexesFit(ids, fds - {fd}, list, s')
  {
  }

  lemma DistinctTail(poll: seq<Descriptor>, k: nat)
    requires Distinct(poll) && 0 < k < |poll|
    ensures Distinct(poll[1..]) && poll[0] != poll[k] == poll[1..][k - 1]
  {
  }

  lemma {:induction false} WithoutAt(poll: seq<Descriptor>, k: nat)
    requires Distinct(poll) && k < |poll|
    ensures Without(poll, poll[k]) == poll[..k] + poll[k + 1..]
  {
    if k == 0 {
      assert poll[..0] + poll[1..] == poll[1..];
    } else {
      hide Distinct;
      DistinctTail(poll, k);
      WithoutAt(poll[1..], k - 1);
      assert poll[..k] + poll[k + 1..] == [poll[0]] + (poll[1..][..k - 1] + poll[1..][k..]);
    }
  }

  /** add_pfd on the array as a value, which may have been moved to a larger one first. */
  lemma PollGrows(p: seq<PollFd>, nfds: nat, maxNfds: nat, udp: Descriptor, tcp: Descriptor, poll: seq<Descriptor>,
                  q: seq<PollFd>, more: nat, fd: Descriptor)
    requires PollFits(p, nfds, maxNfds, udp, tcp, poll)
    requires |q| == more && maxNfds <= more && nfds < more && forall i | 0 <= i < nfds :: q[i] == p[i]
    requires q[nfds].fd == fd
    ensures PollFits(q, nfds + 1, more, udp, tcp, poll + [fd])
  {
  }

  lemma FdFitsSome(fd: Descriptor)
    ensures FdFits(fd, Some(fd)) && FdFits(-1, None)
  {
  }

  lemma WithinMore(records: Records, repr: set<object>, more: set<object>)
    requires Within(records, repr) && repr <= more
    ensures Within(records, more)
  {
  }

  /** One more watched descriptor, which is not ready. */
  ghost predicate Watched(p: seq<PollFd>, n: nat, q: seq<PollFd>, m: nat) {
    m == n + 1 <= |q| && n <= |p| && (forall i | 0 <= i < n :: q[i] == p[i]) && !q[n].revents
  }

  lemma WatchedIntro(p: seq<PollFd>, n: nat, q: seq<PollFd>, m: nat)
    requires m == n + 1 <= |q| && n <= |p| && (forall i | 0 <= i < n :: q[i] == p[i]) && !q[n].revents
    ensures Watched(p, n, q, m)
  {
  }

  /** One watched descriptor less: the ones behind it move up. */
  ghost predicate Unwatched(p: seq<PollFd>, n: nat, q: seq<PollFd>, m: nat, k: nat) {
    && k < n <= |p| && m == n - 1 <= |q|
    && (forall i | 0 <= i < k :: q[i] == p[i])
    && (forall i | k <= i < m :: q[i] == p[i + 1])
  }

  lemma PollShrinks(p: seq<PollFd>, nfds: nat, maxNfds: nat, udp: Descriptor, tcp: Descriptor, poll: seq<Descriptor>,
                    q: seq<PollFd>, m: nat, idx: nat, fd: Descriptor)
    requires PollFits(p, nfds, maxNfds, udp, tcp, poll) && Distinct(poll) && 3 <= idx < nfds && p[idx].fd == fd
    requires |q| == |p| && Unwatched(p, nfds, q, m, idx)
    ensures PollFits(q, m, maxNfds, udp, tcp, Without(poll, fd))
  {
    assert p[idx - 3 + 3].fd == poll[idx - 3];
    WithoutAt(poll, idx - 3);
  }

  lemma ListFits(ids: map<CString, Sub>, fds: map<Descriptor, Sub>, list: seq<Sub>, s: State)
    requires IndexesFit(ids, fds, list, s)
    ensures |list| == |s.order| && ids.Keys == s.byId.Keys
    ensures forall j {:trigger list[j]} | 0 <= j < |list| :: s.order[j] in ids && list[j] == ids[s.order[j]]
  {
  }

  // ---------- what poll reports ----------

  predicate IsReady(a: Arrivals, i: nat, fd: Descriptor) {
    if i == 0 then false
    else if i == 1 then a.publication != None
    else if i == 2 then a.login != None
    else fd in a.letters
  }

  ghost predicate Polled(p: seq<PollFd>, q: seq<PollFd>, nfds: nat, a: Arrivals) {
    && |q| == |p| >= nfds
    && (forall i {:trigger q[i]} | 0 <= i < |p| :: q[i].fd == p[i].fd)
    && (forall i {:trigger q[i]} | 0 <= i < nfds :: q[i].revents <==> IsReady(a, i, q[i].fd))
  }

  /** The descriptors reported ready from place i on. */
  ghost function ReadyFrom(p: seq<PollFd>, i: nat, n: nat): seq<Descriptor>
    requires i <= n <= |p|
    decreases n - i
  {
    if i == n then [] else (if p[i].revents then [p[i].fd] else []) + ReadyFrom(p, i + 1, n)
  }

  lemma ReadyNext(p: seq<PollFd>, i: nat, n: nat)
    requires i <= n <= |p|
    ensures i == n ==> ReadyFrom(p, i, n) == []
    ensures i < n && p[i].revents ==> ReadyFrom(p, i, n) == [p[i].fd] + ReadyFrom(p, i + 1, n)
    ensures i < n && !p[i].revents ==> ReadyFrom(p, i, n) == ReadyFrom(p, i + 1, n)
  {
  }

  lemma OneInFront(fd: Descriptor, fds: seq<Descriptor>)
    requires Distinct(fds) && fd !in fds
    ensures Distinct([fd] + fds)
  {
  }

  lemma {:induction false} ReadyAre(p: seq<PollFd>, i: nat, n: nat)
    requires i <= n <= |p|
    ensures forall fd :: fd in ReadyFrom(p, i, n) <==> exists k | i <= k < n :: p[k].fd == fd && p[k].revents
    decreases n - i
  {
    if i < n {
      ReadyAre(p, i + 1, n);
    }
  }

  lemma WatchedApart(p: seq<PollFd>, n: nat, max: nat, udp: Descriptor, tcp: Descriptor, poll: seq<Descriptor>, i: nat)
    requires PollFits(p, n, max, udp, tcp, poll) && Distinct(poll) && 3 <= i < n
    ensures n <= |p| && forall k | i < k < n :: p[k].fd != p[i].fd
  {
    forall k | i < k < n ensures p[k].fd != p[i].fd {
      assert p[k - 3 + 3].fd == poll[k - 3] && p[i - 3 + 3].fd == poll[i - 3];
    }
  }

  /** Only watched descriptors come up. */
  lemma {:induction false} ReadyWithin(p: seq<PollFd>, n: nat, max: nat, udp: Descriptor, tcp: Descriptor,
                                       poll: seq<Descriptor>, i: nat)
    requires PollFits(p, n, max, udp, tcp, poll) && 3 <= i <= n <= |p|
    ensures forall fd | fd in ReadyFrom(p, i, n) :: fd in poll
    decreases n - i
  {
    if i < n {
      ReadyWithin(p, n, max, udp, tcp, poll, i + 1);
      assert p[i - 3 + 3].fd == poll[i - 3];
    }
  }

  /** Each descriptor that is ready comes up once. */
  lemma {:induction false} ReadyOnce(p: seq<PollFd>, n: nat, max: nat, udp: Descriptor, tcp: Descriptor,
                                     poll: seq<Descriptor>, i: nat)
    requires PollFits(p, n, max, udp, tcp, poll) && Distinct(poll) && 3 <= i <= n <= |p|
    ensures Distinct(ReadyFrom(p, i, n))
    decreases n - i
  {
    hide *;
    ReadyNext(p, i, n);
    if i == n {
      NoneTwice();
    } else {
      WatchedApart(p, n, max, udp, tcp, poll, i);
      ReadyOnce(p, n, max, udp, tcp, poll, i + 1);
      ReadyAre(p, i + 1, n);
      OneInFront(p[i].fd, ReadyFrom(p, i + 1, n));
    }
  }

  lemma NoneTwice()
    ensures Distinct<Descriptor>([])
  {
  }

  /** Once a place is taken out, what was behind it is still to come. */
  lemma {:induction false} ReadyUnwatched(p: seq<PollFd>, n: nat, q: seq<PollFd>, m: nat, k: nat, i: nat)
    requires Unwatched(p, n, q, m, k) && k <= i <= m
    ensures ReadyFrom(q, i, m) == ReadyFrom(p, i + 1, n)
    decreases m - i
  {
    if i < m {
      ReadyUnwatched(p, n, q, m, k, i + 1);
    }
  }

  /** What joins during a round is not served in it. */
  lemma {:induction false} ReadyWatched(p: seq<PollFd>, n: nat, q: seq<PollFd>, m: nat, i: nat)
    requires Watched(p, n, q, m) && i <= n
    ensures ReadyFrom(q, i, m) == ReadyFrom(p, i, n)
    decreases n - i
  {
    if i < n {
      ReadyWatched(p, n, q, m, i + 1);
    }
  }

  lemma {:induction false} ReadyPolled(p: seq<PollFd>, q: seq<PollFd>, n: nat, max: nat, udp: Descriptor,
                                       tcp: Descriptor, poll: seq<Descriptor>, a: Arrivals, i: nat)
    requires PollFits(p, n, max, udp, tcp, poll) && Polled(p, q, n, a) && 3 <= i <= n
    ensures ReadyFrom(q, i, n) == Having(poll[i - 3..], a.letters)
    decreases n - i
  {
    if i < n {
      ReadyPolled(p, q, n, max, udp, tcp, poll, a, i + 1);
      assert poll[i - 3..][1..] == poll[i + 1 - 3..];
      assert p[i - 3 + 3].fd == poll[i - 3];
    }
  }

  lemma PolledFits(p: seq<PollFd>, q: seq<PollFd>, n: nat, max: nat, udp: Descriptor, tcp: Descriptor,
                   poll: seq<Descriptor>, a: Arrivals)
    requires PollFits(p, n, max, udp, tcp, poll) && Polled(p, q, n, a)
    ensures PollFits(q, n, max, udp, tcp, poll)
    ensures q[1].revents <==> a.publication != None
    ensures q[2].revents <==> a.login != None
    ensures ReadyFrom(q, 3, n) == Having(poll, a.letters)
  {
    ReadyPolled(p, q, n, max, udp, tcp, poll, a, 3);
    assert poll[3 - 3..] == poll;
  }
}
