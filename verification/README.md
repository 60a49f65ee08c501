# Verification of the publish/subscribe broker

The program is a message broker. UDP clients publish a topic with some data; TCP clients log in with an id,
subscribe to topic patterns and unsubscribe from them, and every publication is sent on to the connected
clients that have a pattern for its topic. This project models the broker's server in Dafny, from the linked
list up to the main loop, and proves what each layer promises to the next:

* `LinkedList`: the singly linked list with a tail pointer stands for a sequence (`list.c`).
* `HashTable`, `HashMap`, `Hashing`, `UIntHash`: the chained hash map that doubles under load stands for a finite
  map, each pair in the bucket of its hash; the hash of a string has a closed form, and that of a descriptor can be
  undone (`hashmap.c`).
* `Alphabet`, `TriePaths`, `Trie`, `KeyRuns`, `TrieRuns`: the subscription trie stands for a finite map from strings,
  has a node for every prefix of a stored key and no other, and looks the same whenever its keys are the same
  (`trie.c`).
* `Levels`, `Matching`, `SearchRule`, `Astray`, `Subscription`: the backtracking search with `+` and `*` decides a
  rule that is stated on the levels of pattern and topic, with no mention of the trie (`server.c`, `is_subscribed`).
* `Broker`, `BrokerRuns`, `Rounds`: the server as a state machine over values, its invariant, what holds over whole
  runs, and the rounds of the main loop as runs.
* `PatternLaws`: what subscribing and unsubscribing change about the topics that are sent.
* `Subscriber`, `Registry`, `Server`: the server proper, with its list, two maps, records, tries and poll array on the
  heap. Every handler takes exactly one step of the state machine and keeps the structures in agreement with it.

`Server.Serve` puts the layers together: for any number of rounds of the main loop, ended by the exit command or by the
first request at which the program exits, the heap structures follow a run of `Broker`, so every theorem about runs is
one about the server.

How the state is modelled: a `Server` carries a ghost `state` of the state machine, a ghost `log` of every descriptor
opened or closed and a ghost `sent` of every message sent. `log` and `sent` are written only where the server calls
accept, close or send; `Valid()` says that the heap structures stand for `state`. `poll`, `accept` and `recv` are
represented by their results (`Arrivals`): the publication, the login and the messages of one round.

Where the code departs from its documentation, the code is modelled and the departure is delimited exactly:

* The assignment sheet in the repository lets `*` replace any number of levels, and the repository's `README.md`
  (line 40) only says that names can contain the two wildcards. `Matching.Matches`, called the documented rule below,
  is a reading of that: a level `+` stands for exactly one level and a level `*` for one or more. The search agrees with
  it for a topic, whatever the patterns, if and only if the topic has no empty level (`Matching.DeliversIffMatches`).
  In general a wildcard never starts at an empty first level, and a `*` that starts at an empty level takes at least
  two. If any number is read as including none, a pattern meets that reading on all topics without empty levels if and
  only if it has no `*` level, is nothing but `*`, or has an empty level and so takes none of these topics
  (`Matching.AnyLevelsIff`); every other pattern loses the topic that it becomes without one of its stars, as `a/*/b`
  loses `a/b` (`Matching.StarTakesALevel`).
* Replacing `+` by `*` in a pattern never loses a given topic if and only if the levels of that topic after its first
  are non-empty (`Matching.PlusToStarIff`).
* `size` of a trie is documented as the number of keys (`trie.h`, line 37). It is that number if and only if no key was
  inserted while it was stored; each such insert counts one more (`TrieRuns.Perform`). `add_subscription` does not
  look whether the topic is stored, so for a subscriber it is the number of its patterns plus the number of times it
  asked for a pattern it already had, over any run (`BrokerRuns.SizeIsHistory`).
* `tail` of a list is the last node only while the list is not empty; a stale one is left behind otherwise
  (`LinkedList.List.RemoveNth`).
* The walks over a trie look up the slot of a character without a check for -1 (`server.c`, line 255, and `trie.c`,
  line 132), so a character outside the topic alphabet can lead them astray. `Astray.Strays` says exactly when that
  happens to the search, in terms of stored patterns and topic, and `TriePaths.GoesAstray` when it happens to a lookup.
  `Subscription.IsSubscribed` and `Trie.Trie.Search` report it, and their answers are right in all other cases. The
  search goes astray on a topic for no set of patterns if and only if the topic is written in the alphabet
  (`Astray.NeverAstrayIff`). The insert of a key outside the alphabet ends the program, in the model as in the code.
  The alphabet is that of the printable ASCII characters other than the space (`Alphabet.Printable`).

Assumed of the environment: `accept` returns a descriptor that is not open; each receive delivers one whole message;
allocation succeeds and the counters do not overflow. Nothing is promised of a run in which a lookup goes astray:
`Server.HandleUdpMsg`, `Server.HandleSubMsg` and the main loop ask that it does not; `Server.ArrivalsOkIff` spells this
out for a round. A request for a pattern outside the alphabet is no such case: there the program exits, and the main
loop stops with it.

## Model

| member | source | states |
|---|---|---|
| Matching.DeliversIffMatches | server.c:198-264 | the search's rule gives the documented answer on a topic for every pattern exactly when the topic has no empty level |
| Matching.DeliversImpliesMatches | server.c:198-264 | a delivery is never spurious, on any topic: the documented rule allows it as well |
| Matching.StarAtEmptyLevel | server.c:233-251 | a `*` that would have to stand for a single empty level is never delivered |
| Matching.NoLongerThanTopic | server.c:218-263 | every level of a delivered pattern takes at least one level of the topic |
| Matching.StarTakesALevel | server.c:232-251 | concretely, `*` does not stand for no level |
| Matching.AnyLevelsIff | server.c:232-251 | with a star read as any number of levels, none included, the search answers a pattern as read on all topics without empty levels exactly when the pattern has no star, is only a star, or has an empty level |
| Matching.PlusToStarIff | server.c:218-251 | turning a `+` into `*` never loses a topic exactly when the topic's later levels are non-empty |
| Matching.EmptyLevelExamples | server.c:206-251 | concrete topics with an empty level on which search and documentation differ |
| Matching.Literals | server.c:253-263 | levels that are no wildcards, at the front of pattern and topic alike, make no difference to what the rest decides |
| Matching.StarThen | server.c:232-251 | a star and one literal level behind it take exactly the topics that end in this level |
| Matching.TestedPlus | test.py:573-633 | the outcomes that the repository's tests expect of `+` patterns |
| Matching.TestedStar | test.py:636-715 | the outcomes that they expect of a `*` alone and in front |
| Matching.TestedCompound | test.py:636-715 | the outcomes that they expect of a `*` behind literal levels and between them |
| Levels.JoinSplit | server.c:206-216 | cutting a string at the slashes and joining it again gives the string back |
| Levels.SplitJoin | server.c:206-216 | joining levels without slashes and cutting again gives the levels back |
| Levels.AfterLevels | server.c:235-250 | what the loop over `*` leaves of a topic after k levels are the levels from k on |
| SearchRule.SomeCallOnEmpty | server.c:202-204 | at the end of the topic the answer is whether the path itself is a stored pattern |
| SearchRule.SomeCallOnSlash | server.c:206-216 | a leading slash must be followed in the trie, on the first call as on the later ones |
| SearchRule.SomeLevelsUnfold | server.c:218-263 | some stored pattern takes the rest of the topic exactly if one does through `+`, through `*`, or through the literal level |
| SearchRule.WantsDocumented | server.c:291-304 | for a topic without empty levels a subscriber's patterns are tried as documented |
| Subscription.SkipToBoundary | server.c:221-225 | the inner loops stop at the next slash or at the end |
| Subscription.FollowLevel | server.c:253-262 | the literal walk arrives at the node of the whole level, or there is no stored key below, or it goes astray, which it does exactly at a character outside the alphabet that it comes to |
| Subscription.TryStar | server.c:232-251 | the loop over `*` finds a delivery exactly if some admissible number of levels gives one, and goes astray exactly if one does before; it terminates |
| Subscription.IsSubscribed | server.c:198-264 | on every topic, empty levels and any characters included: the search goes astray exactly under `Strays`, and else answers yes exactly if some stored pattern below the node takes the rest of the topic; terminates although `pos` may be 0 |
| Astray.NowhereToStray | server.c:211-220 | the search cannot go astray below a missing child |
| Astray.OverNeverStrays | server.c:254-262 | on a topic over the alphabet the search never goes astray |
| Astray.ChainStrays | server.c:254-262 | a pattern that goes along with the topic up to another character and then on leads the search to that character, whatever the wildcards before it |
| Astray.NeverAstrayIff | server.c:198-264 | the search goes astray on a topic for no set of patterns exactly when the topic uses the alphabet |
| PatternLaws.Asked | server.c:295-297 | from the root, a subscriber is sent a topic exactly if it wants it |
| PatternLaws.AskAroundRemoval | server.c:384-388 | unsubscribing gains no topic and loses one exactly if the pattern was there and took it and no other pattern does |
| PatternLaws.AskAroundInsertion | server.c:390-393 | subscribing loses no topic and gains one exactly if the pattern takes it and no other did |
| Alphabet.GetIndexFromAlphabet | trie.c:57-64 | the first position of the letter, or -1 |
| Alphabet.PositionUnique | trie.c:57-64 | a letter has one position although the alphabet repeats some, so positions tell letters apart |
| Alphabet.Printable | msg.h:31-35 | a character is in the topic alphabet exactly if it is from `!` to `~` |
| Alphabet.TopicAlphabetRepeats | msg.h:31-35 | the topic alphabet does repeat `+` and `*` |
| TriePaths.WalkInjective | trie.c:88-101 | different keys lead to different nodes |
| TriePaths.PathsArePrefixes | trie.c:166-198 | the paths of a pruned trie are the root and the prefixes of the stored words, no others |
| TriePaths.WordsDeterminePaths | trie.c:166-198 | the stored words determine which nodes there are |
| Trie.Trie.constructor | trie.c:29-55 | an empty trie of one node that satisfies the invariant |
| Trie.TrieNode.constructor | trie.c:9-27 | a node with no value, no mark and empty slots |
| Trie.Trie.CreateChild | trie.c:93-97 | a new child keeps the trie linked and adds exactly its path |
| Trie.Trie.Mark | trie.c:78-86 | the end of an inserted key holds the new value, and `size` counts the insert whether or not the key was there |
| Trie.Trie.DropChild | trie.c:189-194 | dropping a superfluous child keeps the trie linked and takes exactly its path |
| Trie.Trie.Unmark | trie.c:170-176 | the end of a removed key no longer ends a word; `size` drops exactly if it did |
| Trie.Trie.Insert | trie.c:74-108 | the key is stored with the value and nothing else changes, `size` growing by one in any case; or the key leaves the alphabet and the program ends |
| Trie.Trie.InsertHelper | trie.c:74-103 | inserting the rest of a key below a node adds its word and keeps the trie linked and pruned, or ends the program at a character outside the alphabet |
| Trie.Trie.SearchHelper | trie.c:120-137 | below a node, the value of the word that the rest of the key spells, if there is one; astray exactly where it reads the slot -1 |
| Trie.Trie.Search | trie.c:120-142 | the value of a stored key, and nothing for any other; astray exactly if it comes to a character outside the alphabet while there are nodes |
| TriePaths.LeavesAt | trie.c:131-136 | following a key leaves the alphabet exactly if the part in front of some character outside it leads to a node |
| Trie.Trie.Remove | trie.c:166-203 | the key is gone, every other key is left, its prefixes and extensions among them; `size` drops exactly if the key was stored |
| Trie.Trie.RemoveEnd | trie.c:169-178 | at the end of the key the word is gone, and the node is superfluous exactly if it has no child |
| Trie.Trie.PruneChild | trie.c:187-197 | a superfluous child goes, and the node is superfluous exactly if it has no child and ends no word |
| Trie.Trie.RemoveHelper | trie.c:166-198 | the trie stays pruned, no new nodes appear, and the result tells whether the node has become superfluous |
| Trie.Trie.NodesArePrefixes | trie.c:166-198 | there is a node for a string exactly if it is empty or begins a stored key |
| TrieRuns.CountersExact | trie.c:93-97 | `n_Nodes` is the number of nodes, `n_children` the number of non-null slots, and a leaf other than the root ends a word |
| TrieRuns.DrawingShows | trie.h:22-43 | what two tries are compared by shows every node, its value, its mark, where its children are and how many it counts |
| TrieRuns.Canonical | trie.c:74-203 | tries with the same entries have the same nodes, marks, values and counters, however they were built |
| TrieRuns.InsertAndRemove | trie.c:105-203 | inserting a key that is not stored and removing it restores nodes, marks, values and all counters |
| TrieRuns.Perform | trie.h:37 | over any sequence of inserts and removals `size` is the number of keys plus the inserts of stored keys, hence the number of keys exactly if there were none |
| KeyRuns.Appended | trie.c:78-86 | the number of keys and of repeated inserts together follow `size` through every insert and removal |
| KeyRuns.RepeatsCounted | trie.h:37 | the repeats are none exactly if no insert was of a key stored at the time |
| TrieRuns.SizeFloor | trie.h:37 | in every valid trie `size` is at least the number of keys |
| TrieRuns.InsertTwice | trie.c:78-86 | a key inserted twice makes a trie with one key and `size` two |
| LinkedList.List.GetNth | list.c:27-55 | the node at the place, or nothing when there is none |
| LinkedList.List.Unlink | list.c:75-85 | which links and which of head and tail change when a node is taken out |
| LinkedList.List.Link | list.c:119-144 | which links and which of head and tail change when a node is put in, at the front, in the middle or at the end |
| LinkedList.List.RemoveNth | list.c:57-89 | the node at min(n, size-1) is unlinked and returned; on an empty list nothing happens; `tail` is left stale when the last node goes |
| LinkedList.List.AddNth | list.c:91-147 | the element is inserted at min(n, size), all others keep their order |
| HashTable.Lookup | hashmap.c:82-112 | a key's own bucket answers for the whole map |
| HashTable.TakeOut | hashmap.c:195-222 | taking a pair out of its bucket takes its key out of the map and one off the size |
| HashTable.AllBucketsIn | hashmap.c:133-145 | once the pairs of all old buckets are back, the map is the old one |
| HashTable.DoublingSuffices | hashmap.c:189-192 | a map that has just reached the load threshold stays below it in twice the buckets, all the way while its pairs are put back |
| HashTable.LoadFactor | hashmap.c:189-192 | the test on whole numbers is that of the quotient of pairs and buckets, as a real number, against 0.75 |
| HashMap.HashMap.constructor | hashmap.c:57-80 | an empty map |
| HashMap.HashMap.InItsBucket | hashmap.c:175-181 | each pair is in the bucket of its hash modulo the number of buckets and in no other, with its value |
| HashMap.HashMap.HasKey | hashmap.c:82-96 | whether the map has the key |
| HashMap.HashMap.Get | hashmap.c:98-112 | the value of the key, or nothing |
| HashMap.HashMap.Append | hashmap.c:176-184 | a pair with a new key joins the end of its bucket and the map |
| HashMap.HashMap.DropAt | hashmap.c:207-214 | the pair at a position of a bucket leaves it and the map |
| HashMap.HashMap.Put | hashmap.c:154-193 | the key maps to the value, all else stays; the buckets double once, exactly if there are at least 3/4 as many pairs as buckets, and then there are fewer |
| HashMap.HashMap.DoubleHmax | hashmap.c:114-152 | the same map in twice the buckets; no put inside it doubles again, so the mutual recursion ends |
| HashMap.HashMap.PutAll | hashmap.c:134-145 | the pairs of one old bucket come back without another doubling |
| HashMap.HashMap.RemoveEntry | hashmap.c:195-222 | the key is gone, all else stays; nothing happens for a missing key |
| Hashing.HashString | hashmap.c:15-25 | the loop of shifts and adds computes the start value and every character, multiplied by 33 once for each character behind, modulo 2^32 |
| Hashing.HashInClosedForm | hashmap.c:15-25 | the recurrence on prefixes and the sum over the whole string give the same hash |
| Hashing.HashesInNumbers | hashmap.c:15-25 | the hashes of three strings as numbers |
| UIntHash.HashBack | hashmap.c:4-13 | the descriptor can be computed back from its hash, by undoing the two multiplications and three shifts |
| UIntHash.HashesApart | hashmap.c:4-13 | different descriptors have different hashes |
| UIntHash.HashOfFour | hashmap.c:4-13 | the hash of descriptor 4 as a number |
| Hashing.UIntsCompare | hashmap.c:27-38 | descriptors are compared as numbers |
| Hashing.FirstDifference | hashmap.c:40-46 | behind a common front, ids compare as the first characters that differ do, the end of an id being the smallest |
| Hashing.ReadWhole | server.c:365-367 | an id without a terminator inside is read as it was sent |
| Hashing.StringsCompare | hashmap.c:40-46 | ids compare as equal only with themselves, so they then hash equally; the order is antisymmetric |
| Broker.OpensBalanceCloses | server.c:83-95 | a descriptor is closed as often as it was opened, or once less while it is open |
| Broker.InitInv | server.c:59-103 | the server starts with agreeing indexes |
| Broker.MessageInNumbers | msg.h:7-9 | kind 0 adds the topic to the sender's patterns, 1 takes it out, 2 ends the connection, any other number does nothing |
| Broker.KindsInNumbers | msg.h:7-9 | the numbers of the three kinds |
| Broker.JoinKeeps | server.c:307-331 | a first login keeps the indexes in agreement |
| Broker.ReviveKeeps | server.c:333-344 | so does a returning one |
| Broker.RefuseKeeps | server.c:107-126 | so does a refused one |
| Broker.ConnectKeeps | server.c:307-382 | a login of a new, a returning or a connected id keeps the indexes in agreement and the open descriptors accounted for |
| Broker.CloseKeeps | server.c:395-413 | so does closing a connection |
| Broker.StepKeeps | server.c:437-477 | so does every step |
| Broker.WatchedHasRecord | server.c:420-421 | a watched descriptor always leads to a connected record, so the lookup in the map never fails |
| BrokerRuns.ReachableStatesAgree | server.c:437-477 | in every reachable state list, both maps and poll array agree, and the open descriptors are those of connected records and the two sockets |
| BrokerRuns.RunConcat | server.c:452-477 | runs compose |
| BrokerRuns.PatternsAreHistory | server.c:384-435 | over any run the patterns of an id are the result of its own requests, whatever else happens |
| BrokerRuns.SizeIsHistory | server.c:384-435 | over any run the size of the trie of an id is the number of its patterns plus the number of its requests for a pattern it already had |
| BrokerRuns.LoginsKnown | server.c:307-344 | the record a descriptor leads to is that of the latest login on it |
| BrokerRuns.PublishReachesExactly | server.c:291-304 | a publication adds one message for each connected subscriber with a pattern for it, however many match, and none for anyone else |
| BrokerRuns.PublishReachesMatching | server.c:291-304 | for a topic without empty levels these are the subscribers with a pattern that matches as documented |
| BrokerRuns.PublishFollowsRequests | server.c:266-435 | over any run, a publication reaches exactly the connected descriptors whose id has asked for a pattern that takes the topic and not taken it back |
| BrokerRuns.StopClosesEverything | server.c:128-147 | after stopping, nothing is open and every descriptor has been closed as often as opened |
| Registry.ReadyOnce | server.c:471-476 | the descriptors that are ready come up once each |
| Registry.ReadyAre | server.c:471-476 | what comes up from a place on are exactly the ready descriptors from there on |
| Registry.ReadyWithin | server.c:471-476 | only watched descriptors come up |
| Registry.ReadyUnwatched | server.c:404-409 | after the array is shifted and the index stepped back, what was behind it is still to come |
| Registry.ReadyWatched | server.c:183-196 | what joins during a round is not served in it |
| Registry.PollShrinks | server.c:404-409 | shifting the array drops exactly the closed descriptor and keeps the order |
| Subscriber.Sub.RemoveSubscription | server.c:384-388 | the topic is no longer among the patterns, the size drops exactly if it was, all else in the record stays |
| Subscriber.Sub.AddSubscription | server.c:390-393 | the topic is among the patterns, with the first byte of the value stored, the size grows by one in any case, all else in the record stays; or the topic leaves the alphabet and the program ends |
| Server.Server.constructor | server.c:59-103 | the invariant holds of the state with no subscribers; standard input and the two sockets are watched |
| Server.NewStructures | server.c:59-103 | empty maps of two buckets each, by id and by descriptor with their hashes and comparisons, an empty list and a poll array of 256, sharing nothing |
| Server.Server.SrvClosesSubConnection | server.c:107-126 | a connected subscriber is told and closed once; one without a connection is left alone |
| Server.Server.Unsubscribe | server.c:384-388 | the record loses the pattern and its size follows; no other record or index changes |
| Server.Server.Subscribe | server.c:390-393 | the record gains the pattern and its size grows; no other record or index changes; or the program exits with nothing closed or sent |
| Server.Server.WatchFd | server.c:183-196 | the descriptor is appended; the array doubles exactly if it was full and keeps what it had |
| Server.Server.AddNewSub | server.c:307-331 | poll array, list and both maps take in the new record, with an empty trie |
| Server.Server.ReviveSubConnection | server.c:333-344 | the known record gets the new descriptor and keeps its patterns |
| Server.Server.Refuse | server.c:107-126 | the newcomer is told and closed; nothing else changes |
| Server.Server.HandleListenTcpMsg | server.c:346-382 | takes the login step of the state machine for the id in front of the first terminator received, in all three cases, and keeps the invariant |
| Server.Server.ShiftPfds | server.c:404-408 | the loop moves everything behind the index one place up |
| Server.Server.SubClosesSrvConnection | server.c:395-413 | takes the closing step; the index ends where the next descriptor has moved |
| Server.Server.HandleSubMsg | server.c:415-435 | the map always has the sender's record, and a message takes its step: 0 adds the topic, 1 takes it out, 2 closes, any other number does nothing; the program exits exactly at a 0 with a pattern outside the alphabet |
| Server.Server.Offer | server.c:294-301 | one record is sent the publication exactly if it is connected and has a pattern for the topic |
| Server.Server.Broadcast | server.c:291-304 | walking the list with a search in each connected record's trie sends exactly the deliveries of the state machine, in list order |
| Server.Server.HandleUdpMsg | server.c:266-305 | unless the search of a connected subscriber goes astray on the topic, takes the publishing step and keeps the invariant |
| Server.OverAnswerable | server.c:291-304 | on a topic over the alphabet no search goes astray, whoever is connected with whatever patterns |
| Server.ArrivalsOkIff | server.c:452-477 | what is asked of a round: no topic to unsubscribe and no publication leads a lookup astray, and accept returns a new descriptor |
| Server.Server.Sweep | server.c:471-476 | every descriptor ready at the start is handled once and in order, whichever handlers close their connections, up to the first request at which the program exits; log and messages are those of the events before it; terminates |
| Server.Server.HandleReady | server.c:472-475 | one step of the loop: a message is handled, with the rest still to come, or the program exits |
| Rounds.BeforeFatal | server.c:428-434 | what comes before the first request for a pattern outside the alphabet |
| Rounds.RoundOrder | server.c:461-476 | within a round the publication comes first, then the login, then the messages |
| Rounds.ExitsWithin | server.c:428-434 | something is left over exactly if there is such a request |
| Rounds.OthersPatterns | server.c:415-435 | a step other than a message on a watched descriptor leaves the patterns behind it alone |
| Server.Server.Round | server.c:452-477 | one round takes the publication, the login and the messages as one possible run of the state machine; it ends the program exactly if a ready subscriber asks for a pattern outside the alphabet |
| Server.Server.CloseEach | server.c:129-134 | tells and closes every connected subscriber in list order |
| Server.Server.FreeSub | server.c:83-95 | closes the descriptor exactly if the record still has one |
| Server.Server.FreeEach | server.c:83-95 | freeing the records closes nothing a second time |
| Server.Server.StopProgram | server.c:128-147 | every connected subscriber is told and closed, in list order, then the UDP and the TCP socket, each once |
| Server.ReachesIs | server.c:452-477 | a round is reached if none before it, in the state that it began in, ended the program |
| Server.Serve | server.c:437-480 | any rounds, and then the exit command unless a round ends the program: log and messages are those of a possible run of the state machine, and after the command every descriptor has been closed as often as opened |

## Left out

- Sockets, `poll`, `recv` and `send` themselves, partial TCP reads, Nagle options: a login, message or publication
  arrives whole.
- Parsing of the standard input, except that the exit command stops the server.
- The text printed on the terminal.
- `subscriber.c`, with the decoding of the payload types; payloads are opaque strings here.
- Memory: `malloc` and `free`, and the ends of the program through `DIE` other than the one in `trie_insert`. Freed
  nodes and records are simply no longer reached; only descriptors are accounted for.
- 32-bit wrap-around of counters (`size`, `hmax`, `n_Nodes`) is not modelled; the hash functions do work modulo 2^32.
- The load test `size / hmax >= 0.75` in double precision is written as `4 * size >= 3 * hmax`, which is the same for
  32-bit counts; `HashTable.LoadFactor` proves it of the exact quotient.
- Keys and values of the hash map and list elements are stored as they are instead of being copied byte by byte; in
  particular the record given to the list is the one both maps refer to.
- The limits of 10 characters for ids and 50 for topics: everything is proved for strings of any length.
- The nested loops and the three recursive calls of `is_subscribed` are spread over four methods, `IsSubscribed`,
  `TryStar`, `FollowLevel` and `SkipToBoundary`.
- Error messages of the list functions on a null list; a list reference is never null here.
- The entry in the log for an accepted descriptor is written in the branch that deals with it, after the id is known.
