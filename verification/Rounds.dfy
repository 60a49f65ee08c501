/** The rounds of the main loop as events of the broker. */
module Rounds {
  import opened Alphabet
  import opened Broker
  import opened BrokerRuns
  import opened Hashing
  import opened Options
  import TriePaths

  /** What a subscriber's message says. */
  datatype Letter = Letter(kind: nat, topic: string)

  /** What poll reports: a publication, a connection with the id it gives and the descriptor that accept
      returns for it, and a message on each of some descriptors. */
  datatype Arrivals = Arrivals(
    publication: Option<(string, string)>, login: Option<(CString, Descriptor)>, letters: map<Descriptor, Letter>)

  ghost function Having(fds: seq<Descriptor>, letters: map<Descriptor, Letter>): (r: seq<Descriptor>)
    ensures forall fd :: fd in r <==> fd in fds && fd in letters
  {
    if fds == [] then [] else (if fds[0] in letters then [fds[0]] else []) + Having(fds[1..], letters)
  }

  ghost function Messages(fds: seq<Descriptor>, letters: map<Descriptor, Letter>): (es: seq<Event>)
    requires forall fd | fd in fds :: fd in letters
    ensures |es| == |fds|
    ensures forall i | 0 <= i < |fds| :: es[i] == Message(fds[i], letters[fds[i]].kind, letters[fds[i]].topic)
  {
    seq(|fds|, i requires 0 <= i < |fds| => Message(fds[i], letters[fds[i]].kind, letters[fds[i]].topic))
  }

  ghost function PublishEvents(a: Arrivals): seq<Event> {
    if a.publication == None then [] else [Publish(a.publication.value.0, a.publication.value.1)]
  }

  ghost function ConnectEvents(a: Arrivals): seq<Event> {
    if a.login == None then [] else [Connect(a.login.value.0, a.login.value.1)]
  }

  /** A request for a pattern that leaves the alphabet, at which the program exits. */
  predicate Fatal(letter: Letter) {
    letter.kind == SUBSCRIBE_SUB_MSG && !Over(letter.topic, TOPIC_ALPHABET)
  }

  /** The descriptors up to the first with such a request. */
  ghost function BeforeFatal(fds: seq<Descriptor>, letters: map<Descriptor, Letter>): (r: seq<Descriptor>)
    ensures r <= fds && forall fd | fd in r :: fd in letters && !Fatal(letters[fd])
    ensures r != fds ==> |r| < |fds| && (fds[|r|] in letters ==> Fatal(letters[fds[|r|]]))
  {
    if fds == [] || fds[0] !in letters || Fatal(letters[fds[0]]) then []
    else
      assert fds == [fds[0]] + fds[1..];
      [fds[0]] + BeforeFatal(fds[1..], letters)
  }

  /** The events of one round: the publication, the connection, then the messages on the descriptors that
      were watched when the round began, in the order of the poll array, up to one that ends the program. */
  ghost function RoundEvents(poll: seq<Descriptor>, a: Arrivals): seq<Event> {
    PublishEvents(a) + ConnectEvents(a) + Messages(BeforeFatal(Having(poll, a.letters), a.letters), a.letters)
  }

  /** In a round with both, the publication comes before the connection, and messages behind both. */
  lemma RoundOrder(poll: seq<Descriptor>, a: Arrivals)
    requires a.publication != None && a.login != None
    ensures |RoundEvents(poll, a)| >= 2
    ensures RoundEvents(poll, a)[0] == Publish(a.publication.value.0, a.publication.value.1)
    ensures RoundEvents(poll, a)[1] == Connect(a.login.value.0, a.login.value.1)
    ensures forall i | 2 <= i < |RoundEvents(poll, a)| :: RoundEvents(poll, a)[i].Message?
  {
  }

  /** The program ends in the round. */
  ghost predicate RoundExits(poll: seq<Descriptor>, a: Arrivals) {
    exists fd | fd in Having(poll, a.letters) :: Fatal(a.letters[fd])
  }

  lemma ExitsWithin(fds: seq<Descriptor>, letters: map<Descriptor, Letter>)
    requires forall fd | fd in fds :: fd in letters
    ensures BeforeFatal(fds, letters) != fds <==> exists fd | fd in fds :: Fatal(letters[fd])
  {
  }

  /** The events of a whole run of rounds. */
  ghost function RoundsEvents(s: State, rounds: seq<Arrivals>): seq<Event> {
    if rounds == [] then []
    else
      var before := RoundsEvents(s, rounds[..|rounds| - 1]);
      before + RoundEvents(Run(s, before).poll, rounds[|rounds| - 1])
  }

  lemma RoundsNext(s: State, rounds: seq<Arrivals>, i: nat)
    requires i < |rounds|
    ensures RoundsEvents(s, rounds[..0]) == []
    ensures var before := RoundsEvents(s, rounds[..i]);
            RoundsEvents(s, rounds[..i + 1]) == before + RoundEvents(Run(s, before).poll, rounds[i])
  {
    hide Run, RoundEvents;
    assert rounds[..i + 1][..i] == rounds[..i];
  }

  lemma RoundsMore(s: State, rounds: seq<Arrivals>, i: nat)
    requires i < |rounds| && Possible(s, RoundsEvents(s, rounds[..i]))
    ensures RoundsEvents(s, rounds[..0]) == []
    ensures var t := Run(s, RoundsEvents(s, rounds[..i]));
            var more := RoundEvents(t.poll, rounds[i]);
            && Run(s, RoundsEvents(s, rounds[..i + 1])) == Run(t, more)
            && (Possible(t, more) ==> Possible(s, RoundsEvents(s, rounds[..i + 1])))
  {
    hide *;
    RoundsNext(s, rounds, i);
    var before := RoundsEvents(s, rounds[..i]);
    RunConcat(s, before, RoundEvents(Run(s, before).poll, rounds[i]));
  }

  lemma MessagesMore(fds: seq<Descriptor>, letters: map<Descriptor, Letter>, fd: Descriptor)
    requires fd in letters && forall x | x in fds :: x in letters
    ensures forall x | x in fds + [fd] :: x in letters
    ensures Messages(fds + [fd], letters) == Messages(fds, letters) + [Message(fd, letters[fd].kind, letters[fd].topic)]
  {
  }

  lemma RunMessage(s: State, es: seq<Event>, fd: Descriptor, kind: nat, topic: string)
    requires IndexesAgree(Run(s, es)) && fd in Run(s, es).poll
    ensures fd in Run(s, es).byFd && Run(s, es).byFd[fd] in Run(s, es).byId
    ensures Run(s, es + [Message(fd, kind, topic)]) == MessageStep(Run(s, es), fd, kind, topic)
    ensures Possible(s, es) ==> Possible(s, es + [Message(fd, kind, topic)])
  {
    RunOneMore(s, es, Message(fd, kind, topic));
  }

  lemma RunPublish(s: State, topic: string, data: string)
    requires IndexesAgree(s)
    ensures Run(s, [Publish(topic, data)]) == PublishStep(s, topic, data) && Possible(s, [Publish(topic, data)])
  {
    RunOneMore(s, [], Publish(topic, data));
    assert [] + [Publish(topic, data)] == [Publish(topic, data)];
  }

  lemma RunConnect(s: State, id: CString, fd: Descriptor)
    requires IndexesAgree(s) && fd !in OpenFds(s.log)
    ensures Run(s, [Connect(id, fd)]) == ConnectStep(s, id, fd) && Possible(s, [Connect(id, fd)])
  {
    RunOneMore(s, [], Connect(id, fd));
    assert [] + [Connect(id, fd)] == [Connect(id, fd)];
  }

  // ---------- lookups that do not go astray ----------

  /** The lookup for an unsubscription does not go astray. */
  ghost predicate LetterOk(letter: Letter, patterns: set<string>) {
    letter.kind == UNSUBSCRIBE_SUB_MSG ==> !TriePaths.GoesAstray(patterns, TOPIC_ALPHABET, letter.topic)
  }

  /** There is a message for each of the descriptors, and its lookup does not go astray. */
  ghost predicate LettersOk(fds: seq<Descriptor>, letters: map<Descriptor, Letter>, s: State) {
    forall fd | fd in fds :: fd in letters && LetterOk(letters[fd], PatternsAt(s, fd))
  }

  lemma StepsAre(s: State, e: Event)
    requires IndexesAgree(s) && Enabled(s, e)
    ensures e.Connect? ==> Step(s, e) == ConnectStep(s, e.id, e.fd)
    ensures e.Publish? ==> Step(s, e) == PublishStep(s, e.topic, e.data)
    ensures e.Message? ==>
              e.fd in s.byFd && s.byFd[e.fd] in s.byId && Step(s, e) == MessageStep(s, e.fd, e.kind, e.topic)
  {
  }

  /** What is not a message on a watched descriptor leaves the patterns behind it alone. */
  lemma OthersPatterns(s: State, e: Event, fd: Descriptor)
    requires IndexesAgree(s) && Enabled(s, e) && fd in s.poll && !(e.Message? && e.fd == fd)
    requires e.Connect? ==> e.fd !in s.byFd
    ensures PatternsAt(Step(s, e), fd) == PatternsAt(s, fd)
  {
  }

  lemma LettersStay(fds: seq<Descriptor>, letters: map<Descriptor, Letter>, s: State, e: Event,
                    listeners: set<Descriptor>)
    requires Inv(s, listeners) && Enabled(s, e) && LettersOk(fds, letters, s)
    requires forall fd | fd in fds :: fd in s.poll && !(e.Message? && e.fd == fd)
    ensures LettersOk(fds, letters, Step(s, e))
  {
    hide LetterOk, PatternsAt, Step, Enabled, IndexesAgree;
    AgreeIn(s, listeners);
    ConnectsUnknown(s, e, listeners);
    forall fd | fd in fds ensures LetterOk(letters[fd], PatternsAt(Step(s, e), fd)) {
      OthersPatterns(s, e, fd);
    }
  }

  lemma ConnectsUnknown(s: State, e: Event, listeners: set<Descriptor>)
    requires Inv(s, listeners) && Enabled(s, e)
    ensures e.Connect? ==> e.fd !in s.byFd
  {
  }

  // ---------- the sweep over the ready descriptors ----------

  /** How far a sweep has come: the messages on some of the ready descriptors have been handled, the rest is to come. */
  ghost predicate Halfway(handled: seq<Descriptor>, rest: seq<Descriptor>, ready: seq<Descriptor>,
                          letters: map<Descriptor, Letter>, s: State, now: State) {
    && handled + rest == ready && handled + BeforeFatal(rest, letters) == BeforeFatal(ready, letters)
    && (forall fd | fd in handled :: fd in letters) && LettersOk(rest, letters, now)
    && now == Run(s, Messages(handled, letters)) && Possible(s, Messages(handled, letters))
  }

  lemma SweepBegins(ready: seq<Descriptor>, letters: map<Descriptor, Letter>, s: State)
    requires LettersOk(ready, letters, s)
    ensures Halfway([], ready, ready, letters, s, s)
  {
    assert Messages([], letters) == [];
  }

  lemma SweepGoesOn(handled: seq<Descriptor>, fd: Descriptor, rest: seq<Descriptor>, ready: seq<Descriptor>,
                    letters: map<Descriptor, Letter>, s: State, now: State, next: State)
    requires Halfway(handled, [fd] + rest, ready, letters, s, now) && IndexesAgree(now)
    requires BeforeFatal([fd] + rest, letters) == [fd] + BeforeFatal(rest, letters) && LettersOk(rest, letters, next)
    requires fd in letters && fd in now.poll && fd in now.byFd && now.byFd[fd] in now.byId
    requires next == MessageStep(now, fd, letters[fd].kind, letters[fd].topic)
    ensures Halfway(handled + [fd], rest, ready, letters, s, next)
  {
    hide *;
    HalfwayParts(handled, [fd] + rest, ready, letters, s, now);
    RunMessage(s, Messages(handled, letters), fd, letters[fd].kind, letters[fd].topic);
    MessagesMore(handled, letters, fd);
    assert handled + [fd] + rest == handled + ([fd] + rest);
    assert handled + [fd] + BeforeFatal(rest, letters) == handled + ([fd] + BeforeFatal(rest, letters));
    HalfwayIntro(handled + [fd], rest, ready, letters, s, next);
  }

  /** The sweep is over: nothing is left, or the program exits. */
  lemma SweepEnds(handled: seq<Descriptor>, rest: seq<Descriptor>, ready: seq<Descriptor>,
                  letters: map<Descriptor, Letter>, s: State, now: State)
    requires Halfway(handled, rest, ready, letters, s, now) && BeforeFatal(rest, letters) == []
    ensures handled == BeforeFatal(ready, letters) && (handled != ready <==> rest != [])
    ensures forall fd | fd in handled :: fd in letters
    ensures now == Run(s, Messages(handled, letters)) && Possible(s, Messages(handled, letters))
  {
    hide BeforeFatal, LettersOk, Run, Possible;
    assert handled + [] == handled;
    if rest != [] {
      assert |ready| > |handled|;
    }
  }

  lemma HalfwayParts(handled: seq<Descriptor>, rest: seq<Descriptor>, ready: seq<Descriptor>,
                     letters: map<Descriptor, Letter>, s: State, now: State)
    requires Halfway(handled, rest, ready, letters, s, now)
    ensures handled + rest == ready && handled + BeforeFatal(rest, letters) == BeforeFatal(ready, letters)
    ensures forall fd | fd in handled :: fd in letters
    ensures now == Run(s, Messages(handled, letters)) && Possible(s, Messages(handled, letters))
    ensures LettersOk(rest, letters, now)
  {
  }

  lemma HalfwayIntro(handled: seq<Descriptor>, rest: seq<Descriptor>, ready: seq<Descriptor>,
                     letters: map<Descriptor, Letter>, s: State, now: State)
    requires handled + rest == ready && handled + BeforeFatal(rest, letters) == BeforeFatal(ready, letters)
    requires forall fd | fd in handled :: fd in letters
    requires now == Run(s, Messages(handled, letters)) && Possible(s, Messages(handled, letters))
    requires LettersOk(rest, letters, now)
    ensures Halfway(handled, rest, ready, letters, s, now)
  {
  }
}
