# Verified model of the network-authority experiment

This Dafny project models the logic of `experiments/network_authority` that decides things: the scripted DNS
codec and its validator, the resolver client and its closed vocabulary, the seccomp and cgroup programs that
confine a child, the message protocols between child, connector, broker and fixture, the publication of
records, and the two places where a producer and an independent verifier must derive the same document.
Everything is stated over all inputs, all interleavings or all reachable states.

How the model is laid out:

- `Common` — results, octets, network byte order, and sequence facts.
- `DnsNames`, `DnsMessages`, `DnsValidation` — names, queries, scripted responses and the validator, as methods with
  the source's loops and as the functions they compute.
- `DnsExactness`, `DnsAcceptance` — the validator against a declarative meaning of an acceptable response.
- `DnsAmbiguity`, `DnsRefusals` — which refusal a response gets, in terms of its octets and answers.
- `DnsScripts`, `DnsVerdicts`, `DnsServer` — what the scripted server emits, and what validating it yields.
- `Resolver` — `resolve_once`, the rejection codes and the facts made of them.
- `ClassicBpf`, `SeccompFilters` — an interpreter for classic BPF and the three filters; a platform assigns any
  numbers to the system calls and defines any subset of the optional ones.
- `Ebpf`, `Endpoints` — an interpreter for the eBPF instructions used (64-bit registers, sign-extended 32-bit
  immediates as in section 4.3 of RFC 9669) and the two sets of `connect` programs.
- `ChannelNetwork`, `Messages` — processes that run scripts of writes and exact reads over bounded byte channels. A step
  moves any positive number of octets and any process may move next. One sequential schedule that projects to the
  scripts is enough for every run to succeed (`ChannelNetwork.EveryRunSucceeds`).
- `ProxyRelay`, `ReuseBroker`, `ReuseChannel` — the concrete protocols. Each loop of a transport helper is a sequence
  of such steps, and a mismatch, a truncation or a wrong end of stream makes its process fail.
- `Publication` — `write_new` as a state machine over file-system operations, with failures, racing writers and stops.
- `Utf8`, `BrokerJson`, `Broker` — UTF-8 (section 3 of RFC 3629), canonical JSON with escaping (section 7 of RFC 8259), framed requests, and the broker on a
  channel that returns any nonempty chunk it likes.
- `Measurement` — integer aggregates and the packed lifecycle record.
- `Comparison` — the comparison document as its producer and its verifier derive it.

Places where the code does less than one might expect, kept as they are and stated exactly:

- A response of the script `cname-allowed` for `allowed.test` itself names that owner twice and never resolves
  (`DnsVerdicts.ScriptResolves`); the client then returns `address-ambiguous`, the one code outside the closed
  vocabulary of facts (`Resolver.AliasOfItselfIsUnclassified`). Which responses do this is stated on their octets
  (`DnsAmbiguity.AddressAmbiguousExact`, `Resolver.FactVocabulary`) and for the scripts (`Resolver.ScriptedGapExact`).
- `cname-loop` cannot be answered for a name whose encoding is longer than 226 octets (`DnsScripts.ResponseForTotal`).
- The immediate-compare `connect4` program denies everything once bit 31 of the little-endian address word is set,
  because the comparison sign-extends its immediate (`Endpoints.ImmediateConnect4Exact`, `Endpoints.ControlsAgreeExactly`).
- A published entry can still be lost to a machine stop until its directory has been flushed
  (`Publication.LossExact`), and a failure before the link leaves the temporary file (`Publication.TemporariesExact`).
- The measurement verifier has no upper bound on samples, so it accepts lists the producer refuses
  (`Measurement.SummariesAgree`).
- Escaping joins a high surrogate to a low one that follows it, so the round trip and injectivity hold exactly up to
  that joining (`BrokerJson.RoundTripExact`, `BrokerJson.EscapeInjectiveExactly`); payloads with surrogates cannot be
  encoded and are refused (`Broker.DecodeExact`).

## Model

| member | source | states |
|---|---|---|
| `DnsNames.EncodeName` | experiments/network_authority/scripted_dns.py:79-111 | the loop returns the wire form of exactly the canonical names, and the source's error otherwise |
| `DnsNames.NameEncodingExact` | experiments/network_authority/scripted_dns.py:79-111 | encoding succeeds if and only if the name is canonical (nonempty labels of the grammar, 1 to 63 octets, 255 in all), and then gives the length-prefixed labels and the root |
| `DnsNames.JoinSplit` | experiments/network_authority/scripted_dns.py:86-88 | joining the labels of any text with dots gives the text back |
| `DnsNames.SplitJoin` | experiments/network_authority/scripted_dns.py:118-137 | splitting joined dot-free labels gives the labels back |
| `DnsNames.DecodeName` | experiments/network_authority/scripted_dns.py:114-137 | the offset loop computes the specified decoding at any offset of any octets, errors included |
| `DnsNames.NameDecodingExact` | experiments/network_authority/scripted_dns.py:114-137 | a name and end are decoded at an offset if and only if the slice up to that end is the wire form of that canonical name, whatever follows |
| `DnsNames.WirePrefixFree` | experiments/network_authority/scripted_dns.py:79-137 | two canonical names whose wire forms both stand at one offset are equal |
| `DnsMessages.ParseQueryExact` | experiments/network_authority/scripted_dns.py:148-177 | a packet parses to a query if and only if it is that well-formed query's packet |
| `DnsMessages.ParseBuiltQuery` | experiments/network_authority/scripted_dns.py:148-189 | parsing undoes building, with recursion desired |
| `DnsMessages.BuildQueryPacket` | experiments/network_authority/scripted_dns.py:180-189 | building succeeds exactly for a 16-bit nonzero identifier, an address type and a canonical name |
| `DnsMessages.QueryOctets` | experiments/network_authority/scripted_dns.py:180-189 | a built query octet by octet |
| `DnsMessages.AcceptedQueryIsBuilt` | experiments/network_authority/scripted_dns.py:148-189 | every accepted query is the built one except for the recursion-desired bit |
| `DnsMessages.ResourceRecordWire` | experiments/network_authority/scripted_dns.py:192-221 | a record's octets are its owner (or the reference to the question), type, class, lifetime, size and payload |
| `DnsMessages.RecordOctets` | experiments/network_authority/scripted_dns.py:192-221 | a record octet by octet: owner or reference, type, class 1, lifetime 1, size, payload |
| `DnsExactness.OwnerDecodingExact` | experiments/network_authority/scripted_dns.py:140-145 | an owner is read up to an end if and only if its name stands there in full, or the reference when it is the question's name |
| `DnsExactness.RecordAtExact` | experiments/network_authority/scripted_dns.py:335-361 | a record is read up to an end if and only if the slice is that record's wire form with one of the two owner spellings |
| `DnsValidation.ReadAnswers` | experiments/network_authority/scripted_dns.py:330-364 | the loop fills the two dictionaries with all records in order, refusing repeated owners |
| `DnsValidation.FollowChain` | experiments/network_authority/scripted_dns.py:366-374 | the walk terminates and returns the specified chain or error on every dictionary |
| `DnsValidation.ValidateResolution` | experiments/network_authority/scripted_dns.py:293-389 | the whole validator computes the specified result |
| `DnsAcceptance.WalkSound` | experiments/network_authority/scripted_dns.py:366-374 | a returned chain follows the aliases, has no repeats, at most four names, and stops where no alias continues |
| `DnsAcceptance.WalkComplete` | experiments/network_authority/scripted_dns.py:366-374 | every such chain is the one that the walk returns |
| `DnsAcceptance.ConclusionExact` | experiments/network_authority/scripted_dns.py:366-389 | the final checks accept if and only if the records, as a multiset, are those of one permitted chain ending in the address |
| `DnsAcceptance.HeaderCheckExact` | experiments/network_authority/scripted_dns.py:303-328 | the header and question checks pass if and only if the response starts with the one registered head for that query and answer count |
| `DnsAcceptance.ValidationExact` | experiments/network_authority/scripted_dns.py:293-389 | a response is accepted with a resolution if and only if it is that head followed by wire forms of exactly the chain's records, nothing off the chain and no octet left over |
| `DnsAcceptance.AcceptedResponse` | experiments/network_authority/scripted_dns.py:293-389 | an accepted chain starts at the question, has at most four distinct names, and its length is the header's answer count |
| `DnsAcceptance.OrderIndependent` | experiments/network_authority/scripted_dns.py:330-389 | every permutation of an accepted response's records is accepted with the same resolution |
| `DnsAmbiguity.AddressAmbiguousExact` | experiments/network_authority/scripted_dns.py:334-361 | a response is refused as an ambiguous address if and only if its registered head is followed by fewer records than announced, of distinct owners, and then by a record of the question's type with a wrong size or an address of an owner already named |
| `DnsRefusals.QueryRefusals` | experiments/network_authority/scripted_dns.py:148-177 | each refusal of a query exactly when: size, header, missing or trailing fields, type or class |
| `DnsRefusals.HeaderRefusals` | experiments/network_authority/scripted_dns.py:303-328 | each of the six header refusals exactly when: size, flags and counts, AD bit, question, truncation with and without data |
| `DnsRefusals.HeaderRefusalExact` | experiments/network_authority/scripted_dns.py:293-328 | a whole response gets such a refusal if and only if its header does |
| `DnsRefusals.RecordRefusals` | experiments/network_authority/scripted_dns.py:335-361 | the refusals of a record behind a readable owner, each exactly when: too short, wrong class, lifetime or size, another type, an alias followed by more octets |
| `DnsRefusals.TrailingBytesExact` | experiments/network_authority/scripted_dns.py:363-364 | octets are left over if and only if all announced records of distinct owners stand there and something follows |
| `DnsRefusals.AliasRefusals` | experiments/network_authority/scripted_dns.py:366-374 | an alias is refused if and only if none is allowed, and a loop or depth if and only if the aliases lead to no end within four distinct names |
| `DnsRefusals.TerminalRefusals` | experiments/network_authority/scripted_dns.py:375-382 | stray answers, an undeclared service and a changed address, each exactly when, in terms of the chain and its records |
| `DnsRefusals.ChainRefusalExact` | experiments/network_authority/scripted_dns.py:293-389 | a whole response gets one of these five refusals if and only if its answers do and nothing trails them |
| `DnsScripts.ResponseForTotal` | experiments/network_authority/scripted_dns.py:224-290 | a scripted response fails only by the 512-octet bound, exactly for a loop with an encoded name longer than 226, and otherwise has the stated length |
| `DnsScripts.ResponseForPlanned` | experiments/network_authority/scripted_dns.py:224-290 | the response is the question head with the script's flags followed by its planned records |
| `DnsVerdicts.ScriptVerdict` | experiments/network_authority/scripted_dns.py:224-389 | validating any scripted response to any query gives one stated verdict per script, error included |
| `DnsVerdicts.ScriptResolves` | experiments/network_authority/scripted_dns.py:224-389 | with the declared service required, the scripted responses that resolve are exactly those listed by name, script, ordinal, transport and alias permission |
| `DnsServer.Serve` | experiments/network_authority/scripted_dns.py:404-510 | a run ends well if and only if its first packets are all answerable, and every entry is numbered by the earlier askings of its question and holds the scripted answer |
| `DnsServer.OrdinalIrrelevant` | experiments/network_authority/scripted_dns.py:224-290 | whether a query can be answered does not depend on its ordinal |
| `DnsServer.RebindResolvesOnce` | experiments/network_authority/scripted_dns.py:248-249 | in a rebinding run exactly the first asking of `allowed.test` per type resolves |
| `Resolver.FactVocabulary` | experiments/network_authority/resolution_cell.py:102-129 | whenever `resolve_once` returns under the declared service, its fact is accepted if and only if the octets it judged (the datagram, or the TCP message after truncation) are not an ambiguous response in the sense of `DnsAmbiguity.AddressAmbiguousExact` |
| `Resolver.ObservationExact` | experiments/network_authority/resolution_indirection_client.py:117-196 | whenever `resolve_once` returns: its question, exactly the responses heard, the timeout codes, or the resolution or reason of the judged octets |
| `Resolver.FactExact` | experiments/network_authority/run_resolution_direct_case.py:367-382 | the fact is resolved if and only if the judged octets validate, then with the address and terminal name they validate to; otherwise it has the reported reason; its transports are those heard, or one UDP query for a timeout |
| `Resolver.ReturnsExactly` | experiments/network_authority/resolution_indirection_client.py:88-196 | for every query, flag and socket outcome, `resolve_once` returns if and only if the query can be built and a timeout or a right-sized response arrived that validates, is the registered malformed reply, or fails with a diagnostic that has a code |
| `Resolver.TcpMessageExact` | experiments/network_authority/resolution_indirection_client.py:149-154 | a TCP stream is one message if and only if it is the message's length and octets, with nothing after |
| `Resolver.ValidationDiagnostic` | experiments/network_authority/resolution_indirection_client.py:34-52 | every error of the validator has a rejection code or is a diagnostic of the name codec |
| `Resolver.ScriptedOutcome` | experiments/network_authority/resolution_indirection_client.py:97-196 | for every script, name, ordinal and flag the client reports the script's event: a timeout, the malformed reply, or the verdict, and after the fallback the verdict on the TCP answer |
| `Resolver.ScriptedGapExact` | experiments/network_authority/run_resolution_direct_case.py:367-382 | among all scripted runs the fact is refused exactly when the script aliases the asked name to itself |
| `Resolver.ScriptedFact` | experiments/network_authority/run_resolution_direct_case.py:367-382 | the whole fact of every scripted run: the declared address and `allowed.test` exactly where the script resolves, and otherwise the one reason of that script and name |
| `Resolver.AliasOfItselfIsUnclassified` | experiments/network_authority/run_resolution_direct_case.py:367-382 | the failing input: the alias script asked for its own target is answered, yields `address-ambiguous`, and that fact is refused |
| `Resolver.FallbackResolves` | experiments/network_authority/resolution_indirection_client.py:143-196 | a truncated datagram followed by TCP, at any two ordinals, is observed as both transports and resolves exactly for `allowed.test` |
| `ClassicBpf.HaltsWithinLength` | experiments/network_authority/preconnected_child_control.c:188-249 | no execution of a filter takes more steps than the filter has instructions, whatever the data |
| `ClassicBpf.TracksSound` | experiments/network_authority/preconnected_child_control.c:188-249 | a static claim about which instructions see the system-call number in the accumulator holds on every execution |
| `SeccompFilters.DenyRuns` | experiments/network_authority/preconnected_child_control.c:41-43 | a flattened list of deny blocks of any length returns EPERM on a listed number and falls through with the accumulator kept otherwise |
| `SeccompFilters.FcntlRuns` | experiments/network_authority/preconnected_child_control.c:188-249 | the argument block denies the two duplicating commands and reloads the number |
| `SeccompFilters.SocketRuns` | experiments/network_authority/routing_child_control.c:114-165 | the socket block lets only the two inet families with stream type pass |
| `SeccompFilters.PreconnectedExact` | experiments/network_authority/preconnected_child_control.c:188-249 | for every input, architecture and subset of optional calls the interpreted filter kills on another architecture, denies every listed call but `fcntl` and `fcntl` with command 0 or 1030, and allows the rest |
| `SeccompFilters.RoutingExact` | experiments/network_authority/routing_child_control.c:114-165 | the same for the routing filter: `socket` only for families 2 and 10 with type 1 in its low four bits, and of the other listed calls only those that connect, inspect or hand on descriptors |
| `SeccompFilters.BrokerExact` | experiments/network_authority/broker_child_control.c:137-177 | the same for the broker filter: every listed call is denied except those that only hand on descriptors |
| `SeccompFilters.FiltersOrdered` | experiments/network_authority/broker_child_control.c:137-177 | on the interpreted programs, what the preconnected filter allows the broker filter allows, and what that allows the routing filter allows |
| `SeccompFilters.PreconnectedAccumulator` | experiments/network_authority/preconnected_child_control.c:188-249 | at every deny block of every execution the accumulator holds the system-call number |
| `SeccompFilters.BrokerAccumulator` | experiments/network_authority/broker_child_control.c:137-177 | the same for the broker filter |
| `SeccompFilters.RoutingAccumulator` | experiments/network_authority/routing_child_control.c:114-165 | the same for the routing filter |
| `Endpoints.PatchMapFd` | experiments/network_authority/routing_endpoint_control.c:210-221 | the loop rewrites every unpatched map reference in place and reports success exactly when there was one |
| `Endpoints.MapProgramPatches` | experiments/network_authority/routing_endpoint_control.c:330-374 | each map program has exactly one reference, and patching it gives the program with that descriptor |
| `Endpoints.StoredKey` | experiments/network_authority/routing_endpoint_control.c:330-374 | the words stored one by one on the stack read back as the key's octets |
| `Endpoints.KeyBytesInjective` | experiments/network_authority/routing_endpoint_control.c:330-374 | different word tuples of one length have different key octets |
| `Endpoints.PatchedConnect4Exact` | experiments/network_authority/routing_endpoint_control.c:330-344 | the patched IPv4 program returns 1 exactly on the registered address and port |
| `Endpoints.PatchedConnect6Exact` | experiments/network_authority/routing_endpoint_control.c:345-368 | the patched IPv6 program returns 1 exactly on the registered four words and port |
| `Endpoints.ImmediateConnect4Exact` | experiments/network_authority/cgroup_endpoint_control.c:214-226 | the immediate-compare program allows only the registered tuple, and that only when bit 31 of the address word is clear |
| `Endpoints.ImmediateConnect6Denies` | experiments/network_authority/cgroup_endpoint_control.c:227-230 | the immediate IPv6 program denies every tuple |
| `Endpoints.ControlsAgreeExactly` | experiments/network_authority/cgroup_endpoint_control.c:214-226 | the two IPv4 controls agree on every tuple if and only if bit 31 of the allowed address word is clear |
| `ChannelNetwork.EveryRunSucceeds` | experiments/network_authority/resolution_network_client.py:72-92 | for any scripts with a sequential schedule and any capacity that it fits: no run fails, all runs are bounded, a run is stuck only when all have finished, and each channel then carried its sender's stream, read to the end when the schedule leaves nothing behind |
| `ChannelNetwork.EveryRunCompletes` | experiments/network_authority/resolution_network_client.py:72-92 | every run can be continued to a finished one |
| `ChannelNetwork.FinishedMeansExact` | experiments/network_authority/resolution_network_client.py:72-92 | in any network, with or without a schedule: channels keep their capacity, and when all have finished each channel carried its sender's script and was read as its receiver's script expects |
| `Messages.StepsLinearize` | experiments/network_authority/run_resolution_preconnected_case.py:128-168 | any list of messages is such a schedule for the scripts it projects to, at any positive capacity |
| `Messages.CrossingSequential` | experiments/network_authority/run_resolution_preconnected_case.py:166-168 | both ends announcing their end before reading the other's is sequentially possible |
| `ProxyRelay.RelayLinearizes` | experiments/network_authority/run_resolution_preconnected_case.py:128-168 | child, connector and fixture scripts for any list of exchanges have a sequential schedule |
| `ProxyRelay.RelayStreams` | experiments/network_authority/run_resolution_preconnected_case.py:128-168 | the connector's channels carry the requests, the zero octet and the end one way and the responses and the end the other, as in the direct exchange |
| `ProxyRelay.RelayTransparent` | experiments/network_authority/run_resolution_preconnected_case.py:128-168 | for any exchanges, interleaving and fragmentation the relay can end only with all three successful, and the fixture has then read and sent exactly the streams of the direct exchange |
| `ProxyRelay.DirectSucceeds` | experiments/network_authority/resolution_indirection_client.py:284-307 | the direct exchange can end only in success, with the same two streams read to the end |
| `ProxyRelay.RelayCompletes` | experiments/network_authority/run_resolution_preconnected_case.py:128-168 | every run of the relay and of the direct exchange can be continued to that end |
| `ProxyRelay.SocksOctets` | experiments/network_authority/decision_proxy_fixture.py:32-35 | the SOCKS exchanges field by field: one method, no authentication, a named host with its length and port 443, and the answering address |
| `ProxyRelay.ProxyScripts` | experiments/network_authority/resolution_network_client.py:137-158 | the written-out CONNECT and SOCKS5 parts of the parties are those scripts |
| `ProxyRelay.ProxyRelayCorrect` | experiments/network_authority/decision_proxy_fixture.py:56-95 | CONNECT and SOCKS5 through the connector: no deadlock, no failure, bounded runs, and the fixture has read and sent what it does with `proxy_exchange` |
| `ProxyRelay.HttpRelayCorrect` | experiments/network_authority/run_resolution_preconnected_case.py:108-125 | the HTTP relay can end only in success, the fixture has read exactly the request and the child exactly the response |
| `ReuseChannel.OneExchangeAnswered` | experiments/network_authority/connection_reuse_channel.py:54-78 | in every interleaving, whatever the order of the close and the second write, both peers return the same events, one probe is read and one sentinel answered, and no state is stuck before that |
| `ReuseChannel.MoveKeeps` | experiments/network_authority/connection_reuse_fixture.py:28-44 | every partial read or write, close, broken pipe, reset or end keeps the invariant on phases and queues and uses up work |
| `ReuseChannel.EndsAreReached` | experiments/network_authority/connection_reuse_channel.py:66-77 | for every configuration there are runs that end by a broken pipe, by a reset and by the end of the stream |
| `ReuseChannel.ResetWriteExact` | experiments/network_authority/connection_reuse_channel.py:66-70 | a reset can meet the second write itself if and only if the probe has at least two octets |
| `ReuseBroker.FrameEvents` | experiments/network_authority/connection_reuse_channel.py:20-28 | reading a frame as size and value performs the events of reading it whole, and the size octets spell the value's size |
| `ReuseBroker.BrokerReuseCorrect` | experiments/network_authority/connection_reuse_channel.py:31-51 | both broker peers finish in every run, with two requests read one way and one answer and one rejection the other |
| `Publication.NeverPartial` | experiments/network_authority/record_common.py:89-118 | over all runs with failures and stops the path is absent, keeps what it held, or holds one writer's complete and flushed bytes |
| `Publication.NeverChanges` | experiments/network_authority/record_common.py:89-118 | visible bytes stay the same for ever after a directory flush, and until the next stop before it |
| `Publication.LossExact` | experiments/network_authority/record_common.py:110-114 | some step can make a visible path absent if and only if its directory has not been flushed |
| `Publication.SuccessIsPermanent` | experiments/network_authority/record_common.py:89-118 | a call that returned has published its own bytes, through every later call, failure and stop |
| `Publication.OneSuccess` | experiments/network_authority/record_common.py:109-118 | over all calls and restarts at most one returns, and none if the path existed |
| `Publication.LinksBounded` | experiments/network_authority/record_common.py:109-110 | links succeed at most once, plus once for each stop, and never onto an existing path |
| `Publication.OneLink` | experiments/network_authority/record_common.py:109-110 | without a stop at most one link succeeds |
| `Publication.TemporariesExact` | experiments/network_authority/record_common.py:92-118 | for a call begun after any run, stops and restarts included, that has since ended by itself: its temporary survives if and only if the call failed between its creation and the link, or in its removal |
| `Publication.ExactlyOneWins` | experiments/network_authority/record_common.py:89-118 | a race with no other faults ends with one winner, every other call failing on the existing path, and no temporary |
| `Publication.ExistingPathWins` | experiments/network_authority/record_common.py:89-118 | with an existing path every such call fails on it, leaves no temporary and changes nothing |
| `Publication.EveryRunCompletes` | experiments/network_authority/record_common.py:89-118 | every run, whatever failed or stopped in it, can be continued without a fault until every call has returned, raised or been stopped |
| `Publication.EveryRaceIsWon` | experiments/network_authority/record_common.py:89-118 | every faultless race can be run to its end, and then some call has returned and the path holds its bytes |
| `Publication.FailuresExact` | experiments/network_authority/record_common.py:92-118 | a call ends by failing at an operation in some run if and only if it can attempt it: a write needs data, the directory is opened only where no path existed |
| `Utf8.DecodeExact` | experiments/network_authority/explicit_broker.py:60-73 | octets decode to a text if and only if they are its one encoding, so the size bound is on the payload's own octets |
| `BrokerJson.EscapeReads` | experiments/network_authority/explicit_broker.py:38-41 | every text of code points is read back from its escaped form with its surrogate pairs joined, whatever follows the quote |
| `BrokerJson.RoundTripExact` | experiments/network_authority/explicit_broker.py:38-41 | a text is read back as itself if and only if no high surrogate is directly followed by a low one |
| `BrokerJson.EscapeInjectiveExactly` | experiments/network_authority/explicit_broker.py:38-41 | two texts are written alike if and only if they are equal once their surrogate pairs are joined |
| `BrokerJson.ShortForms` | experiments/network_authority/explicit_broker.py:38-41 | exactly seven characters have a two-octet escape, by letter, and exactly the other printable ones stand for themselves |
| `BrokerJson.LongForms` | experiments/network_authority/explicit_broker.py:38-41 | every other character takes one or two escapes of four lower-case hexadecimal digits |
| `BrokerJson.SurrogatesCollide` | experiments/network_authority/explicit_broker.py:38-41 | the failing input: any high and low surrogate are written like the character they form, and read as that character |
| `BrokerJson.ObjectJoins` | experiments/network_authority/explicit_broker.py:38-66 | every object of string members is parsed back from its canonical form with surrogate pairs joined |
| `BrokerJson.ObjectReads` | experiments/network_authority/explicit_broker.py:38-66 | an object of encodable members is parsed back as it was |
| `Broker.UniqueObject` | experiments/network_authority/explicit_broker.py:44-52 | the loop builds the specified dictionary or refuses |
| `Broker.DictionaryExact` | experiments/network_authority/explicit_broker.py:44-52 | it refuses exactly lists with a repeated name, and otherwise holds exactly the members |
| `Broker.DecodeExact` | experiments/network_authority/explicit_broker.py:55-78 | a request decodes to a payload if and only if it is the canonical request of a payload of 1 to 1024 UTF-8 octets that fits a frame |
| `Broker.RequestsInjective` | experiments/network_authority/explicit_broker.py:55-78 | different requestable payloads have different requests |
| `Broker.SizesOf` | experiments/network_authority/explicit_broker.py:168-175 | request, answer and failure sizes in terms of the escaped payload |
| `Broker.SuccessFits` | experiments/network_authority/explicit_broker.py:105-111 | the answer to any accepted request is five octets shorter and so always fits a frame |
| `Broker.ObjectsSay` | experiments/network_authority/explicit_broker.py:168-175 | read back, a request asks to echo its payload, an answer is ok with that payload, a refusal is an error, with the members in key order |
| `Broker.RequestOctets` | experiments/network_authority/explicit_broker.py:38-78 | the request octet by octet around the escaped payload |
| `Broker.SuccessOctets` | experiments/network_authority/explicit_broker.py:170-170 | the echoing answer octet by octet around the escaped payload |
| `Broker.FailureOctets` | experiments/network_authority/explicit_broker.py:175-175 | the refusal octet by octet |
| `Broker.FrameExact` | experiments/network_authority/explicit_broker.py:93-111 | a whole stream is a frame of a payload if and only if it is what `write_frame` emits for it |
| `Broker.Channel.ReadExact` | experiments/network_authority/explicit_broker.py:81-90 | for every chunking, exactly the first octets, or truncation when there are fewer |
| `Broker.Channel.ReadFrame` | experiments/network_authority/explicit_broker.py:93-102 | for every chunking, the frame that the whole stream is, or its error |
| `Broker.Channel.WriteFrame` | experiments/network_authority/explicit_broker.py:105-111 | writes nothing for an empty or oversized payload, else the frame and the end of the stream |
| `Broker.Channel.ServeBroker` | experiments/network_authority/explicit_broker.py:156-178 | sends the specified answer for the whole incoming stream and returns 0 exactly when it echoes |
| `Broker.ServedExact` | experiments/network_authority/explicit_broker.py:156-178 | the answer echoes a payload if and only if the service was reached, the payload is requestable and the stream was the one frame of its canonical request |
| `Broker.AnswerSays` | experiments/network_authority/explicit_broker.py:156-178 | every stream is answered with one frame whose object says ok and repeats the payload if the stream was answered, and otherwise that the request failed |
| `Measurement.PercentileExact` | experiments/network_authority/measurement_observation.py:38-44 | a number is the reported percentile if and only if at least 95% of the samples are at most it and fewer than 95% are below it |
| `Measurement.MedianExact` | experiments/network_authority/measurement_observation.py:32-37 | a number is the reported median if and only if it is the rounded-down midpoint of a lower and an upper median of the samples |
| `Measurement.SummaryExists` | experiments/network_authority/measurement_observation.py:24-44 | a summary is made if and only if the count is right and every sample is positive and at most ten minutes, and it lists exactly the samples in order |
| `Measurement.SummaryPermutes` | experiments/network_authority/measurement_observation.py:21-45 | both summaries ignore the order of the samples, refusals included |
| `Measurement.SortOrders` | experiments/network_authority/measurement_observation.py:31-31 | sorting gives an ordered permutation |
| `Measurement.OrderedUnique` | experiments/network_authority/measurement_observation.py:31-31 | there is only one, whatever the sorting algorithm |
| `Measurement.SummariesAgree` | experiments/network_authority/verify_network_measurement.py:405-414 | on a hundred samples the verifier reproduces every summary the producer makes, and accepts more exactly when some sample exceeds the producer's bound |
| `Measurement.LifecycleObservation` | experiments/network_authority/measurement_observation.py:47-77 | the loop returns the observation of the outcomes or the first applicable error, and never the padding error |
| `Measurement.ObservationUnique` | experiments/network_authority/measurement_observation.py:47-77 | a list of outcomes has one observation, octet by octet |
| `Measurement.PassesDecoded` | experiments/network_authority/measurement_observation.py:59-63 | the bits decode to exactly the passed iterations, as many as the passed count |
| `Measurement.PassedIsPopulation` | experiments/network_authority/measurement_observation.py:56-77 | the passed count is the population count of the whole record |
| `Comparison.FillIndex` | experiments/network_authority/compare_network_results.py:237-242 | the loop both sides use fills the specified index or refuses |
| `Comparison.IndexedExact` | experiments/network_authority/compare_network_results.py:236-244 | an index exists if and only if the keys are distinct, and holds exactly the listed slices |
| `Comparison.IndexPermutes` | experiments/network_authority/compare_network_results.py:236-244 | the index does not depend on the order of the list |
| `Comparison.ProductKeysExact` | experiments/network_authority/compare_network_results.py:311-311 | the product lists every slice, mechanism and architecture at its place, as many as there are |
| `Comparison.ClassifyExact` | experiments/network_authority/comparison_domain.py:145-153 | the scan for one matching rule and the verifier's dictionary classify alike |
| `Comparison.CheckInventory` | experiments/network_authority/compare_network_results.py:245-254 | the set comparisons pass if and only if all slices share one matrix and all measurements the registered domain |
| `Comparison.SliceSources` | experiments/network_authority/compare_network_results.py:256-261 | the loop lists each slice's commit, or refuses if and only if some slice mixes commits |
| `Comparison.ProducerMechanism` | experiments/network_authority/compare_network_results.py:264-297 | a mechanism's row, refused exactly when a complete mechanism lacks its registered, classified authority |
| `Comparison.VerifierMechanism` | experiments/network_authority/verify_network_comparison.py:383-414 | the same, derived the verifier's way |
| `Comparison.CompareVerifiedResults` | experiments/network_authority/compare_network_results.py:229-328 | gives a document if and only if the slices are comparable, and then the one described field by field, with one input for every slice, mechanism and architecture in order |
| `Comparison.DeriveExpected` | experiments/network_authority/verify_network_comparison.py:349-444 | the verifier's derivation meets the same description; indexing, inventory checks and slice commits are the shared loops above, the mechanism rows and their classification are its own |
| `Comparison.DocumentUnique` | experiments/network_authority/verify_network_comparison.py:416-444 | the description admits one document |
| `Comparison.DerivationsAgree` | experiments/network_authority/verify_network_comparison.py:349-444 | two derivations over permuted slices both refuse or give equal documents |
| `Comparison.Recheck` | experiments/network_authority/verify_network_comparison.py:349-444 | producer and verifier called on permuted lists return the same result |
| `Comparison.CompleteExact` | experiments/network_authority/compare_network_results.py:299-321 | a comparison is complete if and only if no mechanism is classified as an incomplete experiment |
| `Comparison.RegisteredDomainValid` | experiments/network_authority/comparison_domain.py:79-109 | the registered rules are unambiguous, none means incomplete, and every registered profile has one |

## Left out

- Sockets, TLS handshakes, timeouts, subprocesses and file walking: only byte queues, channels and file-system steps are modelled.
- SHA-256, TOML and general JSON: digests are opaque names, and only objects of string members are parsed.
- IP addresses are their octets; their textual form and the checks on it are not modelled.
- DnsNames.EncodeName: lower-casing is that of ASCII, so a name with an upper-case letter outside ASCII is refused with the error for its label and not the one for its case.
- Broker.DecodeExact: does not tell the source's different errors apart; a member whose value is not a string is refused while parsing, where the code refuses it by its field or its type.
- Broker.Channel.ServeBroker: fetching the remote service is a parameter that says whether it succeeded; a failing local write is not modelled.
- DnsServer.Serve: arrivals before the deadline are a list in order, so polling, socket errors and the clock are not modelled.
- Resolver.ReturnsExactly: socket outcomes are parameters, and the endpoint and deadline are taken as registered.
- ProxyRelay.HttpRelayCorrect: the fixture reads exactly the request, where the code reads until the blank line and then compares.
- ReuseBroker.BrokerReuseCorrect: the size read first is compared with the expected size, where the code bounds it and reads that many octets; `ReuseBroker.FrameEvents` states that the expected size octets spell the size that is then read.
- ReuseChannel.OneExchangeAnswered: error numbers other than a broken pipe and a reset are not produced by the modelled channel.
- Publication.NeverPartial: other programs that touch the directory are not modelled, and temporary names are fresh.
- Measurement.LifecycleObservation: the octets are kept as they are, without the hexadecimal spelling.
- Comparison.CompareVerifiedResults: the schema constant, the null production selection and the unread conclusion field are not part of the record types.
- The transport helpers `_write_all`, `_read_exact`, `_read` and `_write` appear as the steps of the channel machines, one step for each system call.
- The routing, bypass and resolution classification tables, the record publishers and the matrix loaders: mostly constant tables and field-by-field checks.
- Descriptor closing, privilege drops and exec in the C controls, the Landlock controls and the probes: kernel behaviour.
