# A routed message network, modelled and proved

The repository simulates a small network. A controller holds a weighted graph of routers, admits
routers to it and tells each who its neighbours are. Routers exchange distance vectors, forward
packets and pings by next hop, and answer them. All of them talk in short text messages that a
regular-expression engine recognises. This project models five connected parts of it in Dafny and
proves what they guarantee.

Every part has the same shape: specification functions on values say what the code computes, classes
with the loops and the fields of the original are proved equal to those functions, and the theorems
are lemmas about the functions and about runs of them. `dafny verify dfyconfig.toml` checks
everything.

## The parts

- **Routing** (`Topology`, `RouteTable`, `DistanceVector`, `Divergence`). One router processing the current vector
  of a neighbour is an atomic step; a schedule is any sequence of steps over a fixed topology.
  Distances received for a neighbour are compared and stored without the cost of the link to the
  sender (router/router.cpp:284 and :298), so the topology matters: `NoShortcut` says that no other
  neighbour of u is nearer to its neighbour s than the link u-s is long. Without shortcuts every
  reachable state is loop free and |V| - 2 complete phases make all tables exact. With one, some
  run stores a distance no walk has, so the condition is exact for safety. If moreover no other walk
  matches the link, exact tables do not last and no number of complete phases is ever enough; where
  that holds of every link, and on three routers, the condition is exact for convergence too.
- **Forwarding** (`Message`, `Forwarding`, `RouterExec`). Messages in flight are a multiset and any
  router may handle any message that has reached it. Acknowledgements carry no time to live in their
  printed form, so they arrive with the default and are never dropped; a packet or ping turns round
  where its time to live is used up. The fate of one conversation is computed along the path and then
  shown to be the same amid any other traffic, and so is what the users are shown: the text at the
  destination, the outcome at the source, and nothing anywhere else.
- **Client records** (`HashTable`, `InfoTable`). The chained table is modelled as coded. Adding never
  compares the head of a chain and removing the second element of a chain drops the first as well
  (controller/hashtable.c:181-190 and :248); both are stated as exact conditions, and the table is
  followed through every run, lossy removals included. The client records avoid the first by their
  guard and can meet the second.
- **Controller** (`Controller`, `ControllerExec`, `ControllerEffects`, `Lists`). The state holds the records in the hash table as
  coded. The up-to-date flags are cache bits. Coherence says that every connected node has its record
  and that a node whose flag is set was last sent the list that would be computed now. A run of link
  edits, disconnections, logins, logouts and polls stays coherent if and only if no logout takes the
  record of another connected node along, which any two routers named by one character, or by two
  that begin alike, can make happen. `ControllerEffects` says edge by edge and flag by flag what each
  command does. `Lists` shows that the lists sent read back, and that a router reading its list gets
  the initial table of the routing protocol.
- **Regular expressions and messages** (`Chars` to `MessageStream`). `RegexTree` gives the language of
  a pattern, `RegexParser` the grammar, which `RegexRender` shows to read back every tree from its
  written form, `RegexCompiler` the arena, `RegexMatcher` and `Regex` the matcher with its one node of
  lookahead. `RegexAcceptance` says exactly what the matcher accepts on
  lists of characters and starred sets (the dot, the sixteen predefined classes, bracket classes), and
  exactly on which lists that is the regular language; from that the 33 message patterns are shown to
  be disjoint, and printing followed by parsing is the identity on protocol messages. `Framing` and `MessageStream`
  cover escaping, framing and whole streams.

## Where the code departs from what it is meant to do

The model keeps the code as it is and states exactly when it works.

- common/messages.c:234 assigns where it should compare. The framer therefore ends frames at newlines
  only, and a buffer with two or more messages is read as one unreadable text (`CodedDelivers`). With
  the comparison it would deliver them (`MeantDelivers`).
- common/messages.c:349 looks for the destination of a `message` command in the whole line, so a
  router whose name occurs in the word "message" gets the wrong text (`MessageCommand`).
- common/messages.c:789 refuses substrings of one character, so `load x` names no file (`FileCommand`).
- common/messages.c:167 leaves a final special character unescaped; a text ending in a backslash comes
  back without it (`OutputInput`).
- An empty neighbour list is decoded to the empty string (common/messages.c:524-528), which
  router/router.cpp:317 then reads from its second character on; `OnWire` records the decoding.
- controller/hashtable.c:248 and :181-190, as described above (`RemoveIff`, `AddIff`). In use: two
  linked routers log in, the first leaves and returns, and its next poll follows a null record at
  controller/exec.c:328-330 (`LogoutLosesNeighbor`, `ShortNamesLose`).
- controller/hashtable.c:223 divides by the key count before looking the key up, so removing from an
  empty table is excluded.
- router/router.cpp:284 and :298, as described above (`SafeIffNoShortcut`, `NeverSettles`). The topology
  of config/carre/carre.dot is such a case (`CarreNeverSettles`).
- trex/trex.c:403-433 lets a last star over a class that holds the terminating zero (`\S*`, `\W*`, `.*`)
  read the zero as its first character: `a\S*` does not accept "a" (`LastStarTakes`, `LastNonSpace`).
- trex/trex.c:190 compares the number of a node with a character in the range check of a class; the
  parser threads the number of nodes made so that it fails where the code fails: a range behind many
  characters is refused (`CompileRendered`, `RangeAfter`).
- router/exec.cpp:319 counts answers that nothing resets, so the k-th complete `ping` command reports
  k hundred per cent (`SuccessAddsUp`).
- trex/trex.c:440-458 takes the first alternative that matches and never gives it up: `ab|abc` does not
  accept "abc" (`AlternativesAccepted`).
- trex/trex.c:419-421 can never be taken; the matcher asserts it.
- Erasing while iterating (router/router.cpp:270 and :388-393) has no defined meaning; it is modelled as
  dropping every entry that meets the condition.

## Model

| member | source | states |
|---|---|---|
| RouteTable.LoopIsMerge | router/router.cpp:264-308 | Processing a vector pair by pair gives, whatever the order of the pairs, the table in which every destination is decided on its own |
| RouteTable.Router.ParseVector | router/router.cpp:239-310 | The update loop, subscript insertions included. Of what the vector does not list, exactly the entries learnt through the sender go and all others stay; each listed destination is learnt, bettered, corrected or kept by comparing the offer with what was known (without the link cost for a neighbour) |
| RouteTable.Router.ParseNeighborhood | router/router.cpp:315-400 | A listed neighbour gets the new weight, or a complete entry if it had none; unlisted neighbours go, and so does every destination behind an unlisted one; the rest stays; an empty list empties the table |
| RouteTable.Router.Vector | router/routetable.cpp:33-54 | The vector lists exactly the known destinations but the client itself, each once, with its stored distance |
| RouteTable.Router.NextClient | router/routetable.cpp:16-31 | Unknown destinations raise the exception and change nothing; otherwise the next hop's connection, inserting a default entry for a missing hop |
| DistanceVector.InitInv | router/router.cpp:315-400 | Tables of neighbour entries only satisfy the protocol invariant |
| DistanceVector.StepInv | router/router.cpp:239-310 | One exchange keeps the invariant, and no stored distance grows or disappears |
| DistanceVector.RunInv | router/router.cpp:239-310 | So does every run: all stored distances stay costs of real walks |
| DistanceVector.NextHopCloser | router/router.cpp:264-308 | The next hop for s is s itself or a router that knows s at a strictly smaller distance |
| DistanceVector.LoopFree | router/router.cpp:264-308 | Following next hops visits no router twice, reaches the destination and costs no more than the stored distance |
| DistanceVector.ReachableSafe | router/router.cpp:239-310 | All of this in every state reachable from the initial tables, converged or not |
| DistanceVector.PhaseExtends | router/router.cpp:239-310 | One complete phase of exchanges lengthens by one link the walks every table takes into account |
| DistanceVector.Convergence | router/router.cpp:239-310 | After V - 2 complete phases, in any order within a phase, every table holds exactly the shortest distances |
| DistanceVector.SafeIffNoShortcut | router/router.cpp:284-298 | Stored distances are real in every reachable state if and only if no link has a shorter way round through a neighbour |
| DistanceVector.TriangleBreaks | router/router.cpp:284-298 | Three routers with a shortcut reach a table with a distance that no walk has |
| Divergence.LinkShortcutDiverges | router/router.cpp:284-298 | With a shortcut over a link some complete phase from the initial tables ends in tables that are not exact |
| Divergence.ThreeRouters | router/router.cpp:239-310 | On three routers, complete phases always converge if and only if there is no shortcut |
| Divergence.SaneRun | router/router.cpp:239-310 | On any topology, shortcuts or not, every reachable entry is the link itself or came from a neighbour that still knows the destination |
| Divergence.ExactSpoils | router/router.cpp:264-308 | Over a link that is the only cheapest walk a shortcut makes exact tables inexact again within one more exchange |
| Divergence.NeverSettles | router/router.cpp:239-310 | Then for every number of complete phases some run of at least as many ends in tables that are not exact |
| Divergence.SettlesIff | router/router.cpp:239-310 | Where every link is the only cheapest walk, the tables are exact after V - 2 complete phases, or after any number of them, if and only if there is no shortcut |
| Divergence.CarreNeverSettles | config/carre/carre.dot:21-43 | On the shipped square topology no number of complete phases makes exact tables certain |
| DistanceVector.NeighborhoodInits | router/router.cpp:315-400 | The controller's neighbour list, processed by a router with an empty table, yields its initial table |
| DistanceVector.Deliver | router/router.cpp:239-310 | One router's vector handed to another's update is one exchange of the protocol |
| Forwarding.Carried | router/exec.cpp:255-262 | A message whose time to live is printed loses one per router and follows the next hops |
| Forwarding.Returned | router/exec.cpp:352-359 | Answers printed without a time to live are never dropped on their way |
| Forwarding.PacketFate | router/exec.cpp:230-270 | A packet with time to live t over L hops is acknowledged if L <= t + 1 and reported too far otherwise |
| Forwarding.PacketOutcome | router/exec.cpp:230-270 | Amid any other traffic: one message of the conversation in flight or one outcome shown, never both and never two |
| Forwarding.PacketShown | router/exec.cpp:230-270 | Everything shown of a packet: its data at the destination if L <= t + 1, and the outcome at the source; otherwise no router shows the data |
| Forwarding.PacketShownInTraffic | router/exec.cpp:230-270 | Amid any other traffic the handlings of the packet have shown a beginning of that, and all of it once the outcome is there |
| Forwarding.AskedAtMost | router/exec.cpp:255-294 | Whatever the tables, loops included, a packet or ping is passed on at most its time to live |
| Forwarding.PingFate | router/exec.cpp:271-297 | A ping with time to live i is answered by router i + 1 of the path, or by the destination, and nobody but the prober is shown anything |
| Forwarding.StepsTrack | router/exec.cpp:162-365 | In any interleaving a conversation evolves as if it were alone |
| Forwarding.EndToEnd | router/exec.cpp:230-270 | Over converged tables a large enough time to live gets every packet acknowledged |
| RouterExec.Exec.OnPacket | router/exec.cpp:230-270 | Table, messages sent and exception of the packet handler; the user is shown the text, the delivery or the failure, and nothing when the packet is for another router |
| RouterExec.Exec.OnPing | router/exec.cpp:271-297 | The same for the ping handler |
| RouterExec.Exec.OnPongMessage | router/exec.cpp:299-360 | The same for the pong handler: ping echoes first, then the hops of a traceroute; other pongs show nothing |
| RouterExec.Exec.Reverse | router/sock_actions.cpp:13-36 | The ends are swapped and the default time to live restored |
| RouterExec.Exec.Forward | router/sock_actions.cpp:39-55 | The message goes to the connection of the next hop, or the exception is raised |
| RouterExec.HandedToNextHop | router/sock_actions.cpp:39-55 | Under the routing invariant the connection a message is handed to is the one to the next hop the forwarding results speak of, and the lookup changes nothing |
| RouterExec.Exec.SendText | router/prompt_actions.cpp:18-56 | One packet is sent, with the text, the two names, the default time to live and a fresh sequence number, which is recorded as unacknowledged |
| RouterExec.Exec.SendPings | router/prompt_actions.cpp:59-93 | The configured number of pings is sent, the i-th with the next sequence number but i and the default time to live |
| RouterExec.Exec.SendProbes | router/prompt_actions.cpp:96-130 | Ten probes are sent, the i-th with the next sequence number but i and time to live i, counting from zero |
| RouterExec.TextSeen | router/exec.cpp:230-270 | What becomes of a text sent: the user at the destination is shown it and the sender that it was delivered, or the sender that it was not, and nobody else anything |
| RouterExec.EchoesShown | router/exec.cpp:307-337 | While pings are awaited every pong is shown as an echo of the router that answered, and the last one brings the success rate |
| RouterExec.SuccessAddsUp | router/exec.cpp:319-333 | The count of answers is never reset: the k-th ping command that gets all its answers reports k hundred per cent |
| RouterExec.Traceroute | router/prompt_actions.cpp:96-130 | If the answers are those to the probes SendProbes sends, the hops shown are the routers of the next-hop path in order, and the final count is its length |
| HashTable.AddIff | controller/hashtable.c:105-210 | Adding answers afterwards like the map with the key set if and only if the key was not at the head of its chain |
| HashTable.RemoveIff | controller/hashtable.c:220-267 | Removing answers afterwards like the map without the key if and only if the key was not second in its chain |
| HashTable.RemovalForgetsOther | controller/hashtable.c:248-251 | From the empty table of 128 buckets: any two keys of one bucket, at 128 and at 64, are added, and removing the first loses the second as well |
| HashTable.RunRefines | controller/hashtable.c:105-345 | Over every run that avoids those two cases the table answers like a finite map and stays well formed |
| HashTable.RemoveExact | controller/hashtable.c:220-267 | After any removal exactly the key and, if it was second, the head of its chain are gone; the table stays sound |
| HashTable.RunExact | controller/hashtable.c:105-345 | Over every run, lossy removals included, the table answers like the map that loses those victims too, and never counts fewer keys than it holds |
| HashTable.IterateGood | controller/hashtable.c:499-531 | Iterating removes exactly the entries the callback selects and keeps the table well formed |
| HashTable.ResizeGood | controller/hashtable.c:454-490 | Resizing keeps the mapping and the count |
| HashTable.NoNestedResize | controller/hashtable.c:107-112 | None of the additions made while resizing reaches the load factor, so the mutual recursion ends |
| HashTable.ExpandSized | controller/hashtable.c:107-112 | Below the key limit the bucket count stays a power of two between 2 and 32768, and the load stays bounded |
| HashTable.ContractSized | controller/hashtable.c:223-228 | The same when the table contracts |
| HashTable.CountIsSize | controller/hashtable.c:176-207 | The key count is the number of keys of the map the table stands for |
| HashTable.HashIs | controller/hashtable.c:432-444 | The bucket from two bytes: the first characters of the pairs with their places, and both characters of the pairs |
| HashTable.SmallTable | controller/hashtable.c:432-444 | In a table of up to 256 buckets only the first character of each pair counts |
| HashTable.SameStartCollides | controller/hashtable.c:432-444 | Names of two characters that begin alike share a bucket of the table as created, and of the next smaller one |
| InfoTable.HashMap.AddElement | controller/hashtable.c:105-210 | The pointer walk along a chain, with its expansion, computes Add |
| InfoTable.HashMap.RemoveKey | controller/hashtable.c:220-267 | The removing walk computes Remove and reports whether the key was there |
| InfoTable.HashMap.LookUp | controller/hashtable.c:277-308 | The lookup walk finds the value of the key in its chain |
| InfoTable.HashMap.ResizeTo | controller/hashtable.c:454-490 | Refilling from the last element to the first computes Resize; terminates |
| InfoTable.HashMap.IterateAll | controller/hashtable.c:499-531 | The loop over buckets and chains computes Iterate |
| InfoTable.HashMap.DoHash | controller/hashtable.c:432-444 | The hash loop over pairs of bytes computes Hash, below the bucket count |
| InfoTable.ClientTable.AddInfo | controller/info_table.c:29-36 | The has-key guard makes adding safe: the record is added exactly when there was none |
| InfoTable.ClientTable.DeleteInfo | controller/info_table.c:43-46 | Exactly the record and, if it was second, the head of its chain go; the table is the map without the record if and only if it was not second |
| InfoTable.ClientTable.ModifyKey | controller/info_table.c:54-66 | A record moves to a free key, or nothing changes; nothing else changes if and only if nothing moved or the old record was not second in its chain |
| InfoTable.ClientTable.GetInfo | controller/info_table.c:74-76 | The record stored for the key |
| Controller.StepCoherent | controller/exec.c:54-385 | A command or message keeps the controller coherent if and only if it is no logout that takes the record of another connected node along |
| Controller.RunCoherent | controller/exec.c:54-385 | A run from a coherent state is coherent throughout if and only if none of its logouts does that |
| Controller.PollTruthful | controller/exec.c:300-363 | As long as none does, a poll is answered without a crash, and `ok` only if the list last sent is the list that would be sent now |
| Controller.LoginOutcome | controller/exec.c:232-298 | As long as none does, every connected node has its record, and a login grants the requested node if it exists and is free, else a free node, and fails exactly when all are connected |
| Controller.AddLinkKeeps | controller/exec.c:108-126 | Adding a link keeps coherence |
| Controller.UpdateLinkKeeps | controller/exec.c:128-142 | Changing a weight keeps coherence |
| Controller.DelLinkKeeps | controller/exec.c:144-159 | Deleting a link keeps coherence |
| Controller.DisconnectKeeps | controller/exec.c:161-189 | Detaching a node keeps coherence |
| Controller.LoginKeeps | controller/exec.c:232-298 | A login keeps coherence |
| Controller.LogoutIff | controller/exec.c:365-385 | A logout keeps coherence if and only if it does not take the record of another connected node along |
| Controller.LogoutRecords | controller/exec.c:365-385 | After a logout every connected node has its record if and only if the removed record was not second behind that of a connected node |
| Controller.PollCrashes | controller/exec.c:318-345 | A poll follows a null record if and only if a list is due and some connected neighbour has no record |
| Controller.LogoutLosesNeighbor | controller/exec.c:365-385 | A run from the start in which any two linked nodes of one bucket log in, one leaves and returns, and its poll crashes |
| Controller.ShortNamesLose | controller/exec.c:365-385 | Any two nodes named by one character are such nodes |
| Controller.NumberedNamesLose | controller/exec.c:365-385 | So are any two nodes named by two characters that begin alike, as all nodes of the shipped configurations are |
| ControllerEffects.AddLinkEffect | controller/exec.c:108-126 | A link is added behind the others unless the two nodes are linked; exactly its two ends lose their flag |
| ControllerEffects.UpdateLinkEffect | controller/exec.c:128-142 | The first link between the two nodes gets the new weight, all others stay; exactly its two ends lose their flag |
| ControllerEffects.DelLinkEffect | controller/exec.c:144-159 | The first link between the two nodes goes, all others stay in order; without parallel links there is none afterwards |
| ControllerEffects.DisconnectEffect | controller/exec.c:161-189 | All links of the node go and no others; the node and exactly those it was linked to lose their flag |
| ControllerEffects.LoginEffect | controller/exec.c:232-298 | The node asked for if it is free, else the first free one in order; its record, its connection, and exactly which flags go |
| ControllerEffects.LogoutEffect | controller/exec.c:365-385 | The node is no longer connected; exactly those linked to it lose their flag |
| ControllerEffects.PollEffect | controller/exec.c:300-363 | The short answer goes exactly to unknown nodes and those up to date; a list makes the node so |
| Lists.PollReadsBack | controller/exec.c:300-363 | Taken apart at the separators, with atoi, the list of a poll gives in the order of the graph exactly the edges of the node with a connected other end: that end, the weight, and the address and port stored for it |
| Lists.PollInits | router/router.cpp:315-400 | A router with an empty table that reads that list gets its initial table in the network of the connected nodes |
| Lists.VectorReadsBack | router/routetable.cpp:33-54 | A vector as printed reads back as the pairs it was printed from |
| ControllerExec.Session.OnPoll | controller/exec.c:300-363 | The loop that writes the neighbour list computes Poll |
| ControllerExec.Session.OnLogin | controller/exec.c:232-298 | The login handler computes Grant and Login |
| ControllerExec.Session.OnLogout | controller/exec.c:365-385 | The logout handler computes Logout, in the table of records as it is |
| ControllerExec.Session.OnDisconnect | controller/exec.c:161-189 | The edge-deleting loop computes Disconnect |
| RegexParser.NeverPastEnd | trex/trex.c:113-343 | A pattern not ending in a lone backslash is never read past its end |
| RegexRender.CompileWritten | trex/trex.c:113-343 | Every tree of characters, classes, anchors, boundaries, groups, alternatives and repetitions, written out, compiles to itself, unless a range of a class comes too late, and then it is refused; it is never read past its end |
| RegexCompiler.Compiler.Compile | trex/trex.c:531-574 | The arena rooted at node 0 holds exactly the parser's tree, without sharing, within its allocation; errors agree |
| RegexCompiler.Compiler.NewNode | trex/trex.c:83-99 | A node is appended, the arena doubling when it is full |
| RegexCompiler.Compiler.CharNode | trex/trex.c:136-172 | Escapes, predefined classes and boundaries as the parser has them |
| RegexCompiler.Compiler.ClassNode | trex/trex.c:174-221 | The members of a class, chained behind its node |
| RegexCompiler.Compiler.Element | trex/trex.c:236-318 | An atom, its quantifier and what follows, built as the parser's tree |
| RegexCompiler.Compiler.List | trex/trex.c:320-343 | Anchors and alternatives, built as the parser's tree |
| RegexArena.HoldsElsewhere | trex/trex.c:83-99 | Writing outside a tree's nodes leaves the tree alone |
| RegexMatcher.Sound | trex/trex.c:385-528 | Whatever the lookahead decided and whatever lies behind the text, an accepted text is in the pattern's language |
| RegexMatcher.GreedyBound | trex/trex.c:403-433 | A repetition is tried at most 65536 times; every recursive call of the matcher goes strictly ahead |
| Regex.TRex.MatchNode | trex/trex.c:385-528 | The matcher on the arena agrees with the matcher on trees, and terminates |
| Regex.TRex.MatchGreedy | trex/trex.c:388-439 | So does the greedy loop with its lookahead |
| Regex.TRex.Match | trex/trex.c:586-596 | The match function accepts exactly what Accepts says, and only texts of the language |
| RegexRender.CompileRendered | trex/trex.c:129-318 | Compiling the written form of characters and starred sets gives their tree, unless a range of a class comes too late in the pattern, and then it is refused |
| RegexRender.RangeAfter | trex/trex.c:188-191 | A class with one range is accepted behind k characters if and only if k + 2 is at most the code of what the upper end is written with |
| RegexAcceptance.AcceptsFits | trex/trex.c:388-439 | On every list of characters and starred sets the matcher accepts exactly the texts that fit, for texts below 65536 characters and any memory behind them |
| RegexAcceptance.AcceptsLanguage | trex/trex.c:388-439 | The matcher accepts exactly the regular language of such a list if and only if no star has the next character the list insists on, or at the end the terminating zero, in its set |
| RegexAcceptance.LastStarTakes | trex/trex.c:403-433 | A last star over a set that holds the terminating zero accepts what its language allows, except that it must not be left with nothing |
| RegexAcceptance.LastNonSpace | trex/trex.c:403-433 | `a\S*` does not accept "a" although its language has it |
| RegexAcceptance.StarThenFinal | trex/trex.c:388-439 | A starred set and a final c: x + c with x in the set; if c is in the set too, x is not empty and has no c after its first character |
| RegexAcceptance.TrailingAny | trex/trex.c:505-508 | A trailing `.*` accepts exactly the non-empty texts |
| RegexAcceptance.AnyThenFinal | trex/trex.c:388-439 | `.*` and a final c: x + c with x non-empty and no c in x after its first character |
| RegexOperators.AlternativesAccepted | trex/trex.c:440-459 | A list of words accepts one of them if and only if no earlier word is a beginning of it |
| RegexOperators.GroupAccepted | trex/trex.c:460-490 | A group matches what its contents match, captured or not |
| RegexOperators.RepeatedAccepted | trex/trex.c:388-439 | A set repeated between m and n times accepts exactly the texts of that many of its characters, but for the empty text if the set holds the terminating zero |
| RegexOperators.AnchorsAccepted | trex/trex.c:499-504 | An anchored word accepts that word only; an end inside a pattern accepts nothing |
| RegexOperators.BoundariesAccepted | trex/trex.c:491-498 | A text that begins and ends with a visible character begins and ends at word boundaries |
| MessagePatterns.FitsText | common/messages.c:19-54 | A pattern of the table accepts a text word by word |
| MessagePatterns.PatternDecides | common/messages.c:19-54 | The matcher decides the language of a pattern of the table if and only if the pattern has no `.*` |
| MessageDispatch.PatternReadsBack | common/messages.c:61-70 | Compiling each of the 33 patterns succeeds and gives the tree of its words |
| MessageDispatch.MatchedFits | common/messages.c:290-297 | The real matcher accepts a text by a pattern exactly when the text fits it word by word |
| MessageDispatch.Unique | common/messages.c:19-54 | The fields of a text tell the only pattern that may accept it |
| MessageDispatch.NoOverlap | common/messages.c:19-54 | No text is accepted by two of the 33 patterns |
| MessageDispatch.Dispatched | common/messages.c:290-298 | The pattern found first is the only one: the order of the table is irrelevant |
| MessageDispatch.Patterns.constructor | common/messages.c:61-70 | The table is compiled once, every entry to its tree |
| MessageDispatch.Patterns.Find | common/messages.c:290-298 | The loop finds the first pattern that accepts |
| Decimal.AtoiPrint | common/messages.c:609-637 | Reading a printed number gives it back |
| Strtok.TokenOfJoin | common/messages.c:431-444 | Splitting at spaces undoes joining with spaces, as long as the fields are not empty |
| Strtok.Tokenizer.Take | common/messages.c:316-320 | The scan of one call gives the next token and moves behind it |
| MessageParser.Parser.Parse | common/messages.c:278-551 | The parser, with its dispatch loop and its tokenizer, computes Parse |
| MessageParser.Parser.ReadPacket | common/messages.c:426-445 | The fields of a data packet, or the misuse of a null pointer when fields are missing |
| MessageText.RoundTrip | common/messages.c:558-643 | Printed and parsed through the real matcher, a protocol message comes back, up to unprinted fields, if and only if its numbers are not negative and its data is not empty |
| MessageText.MessageCommand | common/messages.c:342-354 | A `message` command is read right if and only if the destination does not occur in the word `message` |
| MessageText.FileCommand | common/messages.c:303-310 | `load` and `save` keep a file name of two characters or more and lose a shorter one |
| MessageText.LinkCommand | common/messages.c:314-329 | The link commands are read as typed |
| MessageText.NamedCommand | common/messages.c:337-360 | `route`, `disconnect` and `ping` are read as the word typed and the router named |
| MessageText.DelLinkCommand | common/messages.c:330-336 | `del link` is read with its two ends in the order typed |
| MessageText.BareCommand | common/messages.c:311-313 | `show topology`, `routetable`, `quit` and `debug` are read as such |
| MessageText.UnknownText | common/messages.c:544-548 | A text that fits no pattern is read as no message |
| MessageText.ReadFields | common/messages.c:278-551 | Which fields of a protocol message its receiver finds |
| MessageText.RoutedPrinted | common/messages.c:605-637 | The printed form of packets, pings and pongs, character by character |
| MessageText.OthersPrinted | common/messages.c:565-604 | The printed form of the other protocol messages |
| Framing.OutputInput | common/messages.c:731-769 | Reading what was escaped gives the text back if and only if it does not end in a backslash, else the text without it |
| Framing.FirstCharacter | common/messages.c:147-210 | What the two passes do to the first character: a backslash is put before, or taken from, exactly stars and backslashes |
| Framing.PlainText | common/messages.c:147-210 | A text without stars and backslashes is sent and read as it is |
| Framing.EscapeLength | common/messages.c:152-162 | The size counted in the first pass is enough, exactly so unless the last character is special |
| Framing.EscapeText | common/messages.c:147-180 | The two passes compute Escape, every store within the buffer |
| Framing.UnescapeText | common/messages.c:189-210 | The loop computes Unescape |
| Framing.TreatInput | common/messages.c:731-744 | Unescapes and strips a final star |
| Framing.TreatOutput | common/messages.c:752-769 | Escapes and appends the final star |
| Framing.CodedRoundTrip | common/messages.c:229-266 | As coded, a stream of texts comes back if and only if there is at most one and it does not end in a backslash |
| Framing.MeantRoundTrip | common/messages.c:229-266 | With the comparison that is meant, the first 49 texts come back in order; no escaped star ends a frame |
| MessageStream.MultilineParse | common/messages.c:217-271 | The framer as coded: cuts at newlines only, at most 49 messages, and wipes the buffer it reads |
| MessageStream.HopIsPrintAndParse | router/sock_actions.cpp:39-55 | The hop of the forwarding model is printing a message and parsing the text |
| MessageStream.MeantDelivers | common/messages.c:217-271 | Printed, framed, cut as meant and read, up to 49 messages arrive as sent |
| MessageStream.CodedDelivers | common/messages.c:217-271 | Cut as coded, a stream of messages arrives as sent if and only if it holds at most one |

## Left out

- Sockets, select, threads, sleeping and wall-clock timing: delivery is a step. Round-trip durations and the ping averages built from them are not modelled.
- The Graphviz library and the reading and writing of dot files: the graph is a list of weighted edges over a list of nodes, and loading gives both.
- Displays, prompts, configuration files and the example chat programs: user interface only.
- Memory allocation failure, leaks, the lifetime of returned buffers (router/routetable.cpp:53), the fixed buffers of mess__toString and of the neighbour list (controller/exec.c:217-219) and the copy modes of the hash table.
- The regular-expression captures and trex_search: nothing in the program reads them. For `\b` and `\B` the language only says that nothing is consumed.
- Characters above 127 and the signedness of char; the greedy acceptance results are for texts below 65536 characters, where the loop counter does not run out.
- The width of int in atoi, sequence numbers and distances: numbers are unbounded, except the sixteen-bit hash and the packed repetition bounds, which are modelled at their width.
- The routers' methods take vectors and neighbour lists as lists of pairs; that the texts read back as these is `Lists`, where strtok is a function on strings and not the scan with its saved position, which is modelled for messages.
- The order in which a map is iterated: vectors and removals are proved for every order.
- Topology changes while routing runs, and LINK entries that arrive before the neighbour list: convergence and loop freedom are about a fixed topology.
- Convergence: is not an equivalence where a shortcut exists but every link with one has another walk that costs no more; such a link is given up once the shortcut has been taken, and its distance is then learnt like that of a router further away. Where one of those links is the only cheapest walk, NeverSettles is the other half. Safety is an equivalence on every topology.
- RunRefines: does not say what a table answers after a removal of a second chain element or the replacement of a head; RunExact follows the first, and AddIff says that the table then differs from the map.
- AcceptsLanguage: is about lists of characters and starred sets; groups, alternatives, anchors, boundaries and the other repetitions have Sound in any combination, and exact acceptance each in a pattern of its own (`RegexOperators`).
- RoundTrip: covers the messages mess__toString prints, with identifiers of word characters and bracketed lists without spaces. Commands typed by a user have no printed form; MessageCommand, FileCommand and LinkCommand cover the reading of those with arguments.
- MeantRoundTrip: is about texts without newlines that end neither in a star nor in a backslash.
- MultilineParse: what the buffer holds afterwards is stated for texts without newlines only.
