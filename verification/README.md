# Verified models of the proxy panel

Dafny models of the panel's self-contained protocols, each next to the properties it is relied on for. `dafny verify
dfyconfig.toml` checks all of them.

| file | part |
|---|---|
| `Wrappers.dfy`, `Collections.dfy`, `Bytes.dfy` | shared results and small facts; octet strings, big-endian numbers, exclusive or |
| `WsFrames.dfy`, `WsClient.dfy` | the node agent's hand-written WebSocket client: frame codec, handshake, dispatch, reassembly |
| `VlessInbound.dfy`, `TrafficMeter.dfy` | the container core: byte stream over messages, request header, metered relay, concurrent counters |
| `SlidingSet.dfy`, `TokenGuard.dfy`, `AgeTrim.dfy`, `SubGuard.dfy` | the subscription guard: windows, bans, sliding sets, capacity trimming |
| `FarmLedger.dfy`, `Farm.dfy` | the farm game and its conservation law |
| `HealthEscalation.dfy` | failure counting, restarts and alarms |
| `ReportRouting.dfy`, `OnlineWindow.dfy` | attribution of traffic records to nodes; the online-user window |
| `TrafficLedger.dfy`, `TrafficReport.dfy` | the four traffic tables and the recording of a report |
| `AgentHub.dfy` | agent connections, ping and pong timers, pending commands |
| `SyncDebounce.dfy` | the debounced configuration sync |
| `Text.dfy`, `NodeNames.dfy` | the repair of duplicate node names |

Code that changes state is a class with a `Valid()` predicate that ties its fields to a ghost history; the history
properties are lemmas about plain functions, which the methods are shown to follow. Choices the code does not make itself
(random masks, network delivery, the scheduling of relays) are nondeterministic.

Four results differ from what one might expect of the code:

- The rate limiter accepts up to 2 * tokenMaxReq - 1 requests in an interval of one window, one less than two full windows,
  because the request that opens a window cannot share such an interval with the next window. The bound is exact.
- Repairing duplicate names can rename the only row that held a name, when an earlier duplicate was given that very name
  (`NodeNames.FirstHolderRenamed`). `NodeNames.FirstsKeepIff` says, for every list, exactly when it does not.
- The online total leaves out users who are no longer in the user table (`OnlineWindow.LostUserRun`), so it is the size of
  the union of all nodes exactly when every user whom the reports make online is in the user table
  (`OnlineWindow.Online.UpdateOnlineCache`).
- Reports of unlisted user agents are told apart by token, address and user agent joined with colons, which addresses and
  user agents may contain as well: different pairs can share a key (`SubGuard.ReportKeysShared`).

## Model

| member | source | states |
|---|---|---|
| `WsFrames.ParseEncoded` | node-agent/agent.js:1069-1125 | A frame written with any opcode, mask (or none) and payload, in whichever of the three length forms its length needs, is read back as exactly that frame, whatever octets follow it |
| `WsFrames.ParsePrefix` | node-agent/agent.js:1069-1097 | A frame that has been read lies inside the buffer, does not depend on the octets after it, and is not read from any shorter prefix |
| `WsFrames.WireRoundTrip` | node-agent/agent.js:995-998 | Any list of frames laid end to end is read back frame by frame, and reading goes on with the octets after them |
| `WsFrames.WireAlone` | node-agent/agent.js:995-998 | Any list of frames laid end to end is read back with nothing left over |
| `WsFrames.ParseAllSplit` | node-agent/agent.js:995-998 | Reading a longer buffer extends what was read from its prefix: octets that arrive later only add frames |
| `WsFrames.LengthFieldReads` | node-agent/agent.js:1069-1085 | The length octets of all three forms (below 126, below 65536, above) are read back as the length, and the mask bit as it was written |
| `WsFrames.PayloadBound` | node-agent/agent.js:1069-1097 | A payload that was read is never longer than a frame can carry back |
| `WsFrames.ParseWsFrame` | node-agent/agent.js:1069-1097 | The parser with its early exits and in-place unmasking meets the frame specification the round trips are about |
| `WsFrames.BuildWsFrame` | node-agent/agent.js:1099-1122 | The writer, filling the header field by field and masking in place, produces a frame laid out as RFC 6455 section 5.2 says, with every payload bit flipped exactly where the mask has a one |
| `WsFrames.XorInPlace` | node-agent/agent.js:1092-1094 | The loop flips in octet i exactly the bits that are one in mask octet i modulo 4, for every octet |
| `WsFrames.EncodedOnWire` | node-agent/agent.js:1099-1122 | A written frame octet by octet, as RFC 6455 section 5.2 lays it out: flag and opcode, mask flag and length in the shortest of the three forms, mask key, and every payload octet differing from the given one in exactly the bits of its mask octet |
| `WsFrames.ParsedUnmasks` | node-agent/agent.js:1086-1097 | A masked payload is unmasked bit by bit with the key in front of it |
| `WsFrames.XorXor` | node-agent/agent.js:1092-1094 | Masking twice with one key gives the data back |
| `Bytes.XorBitsTwice` | node-agent/agent.js:1092-1094 | Bitwise exclusive or with one number twice is the identity, at any width |
| `Bytes.XorByteBits` | node-agent/agent.js:1092-1094 | Each of the eight bits of an exclusive or is one exactly when the two octets differ in it |
| `Bytes.BigEndianRoundTrip` | node-agent/agent.js:1109-1116 | Big-endian writing then reading gives the number back when it fits the width |
| `Bytes.ToBigEndianRoundTrip` | node-agent/agent.js:1077-1085 | Big-endian reading then writing gives the octets back |
| `Bytes.BigEndianFirst` | node-agent/agent.js:1077-1085 | The first octet of a big-endian number is its most significant one |
| `WsClient.ChunkIndependence` | node-agent/agent.js:975-1024 | However one byte stream is cut into socket chunks, the same events (open or failure, messages, pong replies, close) come out in the same order and the connection ends with the same buffer and fragment state, handshake included |
| `WsClient.FeedAllIsFlat` | node-agent/agent.js:975-1024 | Handling chunk after chunk is handling the flat stream at once |
| `WsClient.FeedSplit` | node-agent/agent.js:975-1024 | Two chunks in a row do what their concatenation does |
| `WsClient.FeedSettles` | node-agent/agent.js:975-1024 | After every chunk nothing that could be consumed is left in the buffer |
| `WsClient.FragmentedMessage` | node-agent/agent.js:1000-1022 | A message cut into any number of fragments, with pings and pongs between them and the octets in any chunks, comes out once as the concatenation of its fragments, after one pong per ping in order, with nothing left over |
| `WsClient.Messages` | node-agent/agent.js:1000-1022 | A whole session of messages, each in one frame or cut into fragments, with pings and pongs inside and between them, cut into any chunks: every message comes out once and whole and every ping is answered once, all in the order sent, with nothing left over |
| `WsClient.PongsAnswer` | node-agent/agent.js:1019-1021 | The pongs of a session answer its pings, payload by payload and in order |
| `WsClient.WholeMessage` | node-agent/agent.js:1000-1005 | A message in one frame comes out as it is and leaves a message under reassembly alone |
| `WsClient.CloseFrame` | node-agent/agent.js:1013-1018 | A close frame ends the connection with the code in its first two octets, 1000 when it has fewer, and nothing after it is looked at |
| `WsClient.IgnoredFrame` | node-agent/agent.js:1000-1022 | Unknown opcodes, pongs and continuations of nothing leave no trace |
| `WsClient.Handshake` | node-agent/agent.js:978-992 | The octets before the first CR LF CR LF decide: with the digits 101 among them the connection opens and the rest is frames already, without them the connection fails for good |
| `WsClient.IndexStable` | node-agent/agent.js:979 | More octets never move the first blank line |
| `WsClient.RawWs.OnData` | node-agent/agent.js:975-1024 | The handler that rewrites buffer, upgraded and fragmented does what the stream specification says, answers every ping with one masked pong frame of the same payload, and never emits anything after a failure or close |
| `WsClient.RawWs.Dispatch` | node-agent/agent.js:1000-1022 | One frame changes fragment state, events and socket writes as the frame specification says |
| `WsClient.RawWs.SendWsFrame` | node-agent/agent.js:1099-1125 | Whatever mask is drawn, exactly one write is made: a final frame with that opcode, laid out and masked as RFC 6455 says, from which a peer reads that payload |
| `WsClient.RawWs.Deliver` | node-agent/agent.js:975-1024 | A socket delivering chunks until it is destroyed realises the chunk-by-chunk specification, and over the whole run every ping is answered once, in order, with one masked pong frame of its payload |
| `WsClient.RawWs.OnSocketClose` | node-agent/agent.js:1032-1045 | A closing or ending socket emits close 1006 and writes nothing, unless the connection is already finished, so there is at most one failure or close event |
| `VlessInbound.PayloadIsConcat` | container-core/proxy.go:24-46 | The stream of a queue of messages is the concatenation of its text and binary payloads; empty and other messages leave no trace |
| `VlessInbound.WsStream.Read` | container-core/proxy.go:24-46 | A read returns the next octets of the flat stream, at most as many as asked for, and reports an error only when nothing is left, for every way the network may deliver a message |
| `VlessInbound.WsStream.ReadFull` | container-core/vless.go:38-40 | Exactly the next n octets are taken when there are that many, across any message boundaries |
| `VlessInbound.WsStream.Discard` | container-core/vless.go:54-58 | Exactly n octets are skipped when there are that many |
| `VlessInbound.RequestRoundTrip` | container-core/vless.go:35-105 | Decoding any well-formed encoded header, with any extension octets, gives back its fields and stops exactly at the first octet of the body |
| `VlessInbound.HeaderFields` | container-core/vless.go:35-105 | Which octets of an accepted header are its identifier, extension, command, port (high octet first) and address of kind 1, 2 or 3, and where the body starts |
| `VlessInbound.HeaderRefused` | container-core/vless.go:35-105 | A header is refused only for a version other than 0, an unknown kind of address, or too few octets, and the error says which |
| `VlessInbound.ParsedIsEncoded` | container-core/vless.go:35-105 | Whatever is accepted is an encoded header followed by the octets left unread: nothing is skipped, repeated or invented |
| `VlessInbound.ParseExtends` | container-core/vless.go:35-105 | Later octets never change an accepted request or a rejection other than a truncated one |
| `VlessInbound.PrefixIsTruncated` | container-core/vless.go:35-105 | Every proper prefix of a header is reported as incomplete |
| `VlessInbound.ParseRequest` | container-core/vless.go:35-105 | Reading the header field by field from messages gives the request, or the error, of the flat byte string, and leaves the stream at the first octet of the body |
| `VlessInbound.UuidStringInjective` | container-core/vless.go:108-110 | Two identifiers with the same text are equal, so looking users up by text admits nobody else |
| `VlessInbound.UuidStringIsText` | container-core/vless.go:108-110 | Every octet stands as two lower-case hexadecimal digits, the high one first, in groups of 8-4-4-4-12 with dashes between them |
| `VlessInbound.MeteredCopy` | container-core/proxy.go:61-75 | With the reporter draining and other relays adding between any two of its steps, the relay adds exactly the octets it takes from the stream to its user and direction; without a write error the destination receives the whole stream in order, with one a prefix of what was taken |
| `VlessInbound.Count` | container-core/proxy.go:65-66 | A read and its addition with anything going on before, between and after them: the relay has read and added as many octets more, and conservation holds |
| `VlessInbound.Serve` | container-core/main.go:57-109 | A connection is relayed exactly when its header parses, its user is known, its command is TCP, the dial succeeds and the response header can be written; the destination then receives the octets after the header, and exactly those taken are counted, once, for that user and direction, while all earlier relays go on |
| `TrafficMeter.Meter.Drain` | container-core/proxy.go:105-120 | With relays reading and adding before, between and after the two swaps of every user, the records are exactly what was swapped out, each positive and alone for its user and direction, and nothing added before the call stays behind |
| `TrafficMeter.Meter.AllRead` | container-core/proxy.go:61-120 | In every state that reads, additions and swaps can lead to, drained plus counted plus what relays hold between a read and its addition is all that was read, per user and direction; with no relay in between, drained plus counted equals the octets read |
| `TrafficMeter.Meter.Others` | container-core/proxy.go:61-120 | Whatever steps other relays, new connections and the reporter take in any order, conservation holds and a relay that is not running is left as it was |
| `TrafficMeter.Meter.NoteRead` | container-core/proxy.go:64 | A read changes what one relay has read and no counter |
| `TrafficMeter.Meter.Swap` | container-core/proxy.go:110-111 | An atomic swap keeps, for every user and direction, drained plus counted equal to added |
| `TrafficMeter.Meter.Add` | container-core/proxy.go:66 | An atomic addition of octets read earlier keeps the same equality |
| `TrafficMeter.Meter.For` | container-core/proxy.go:93-102 | A user's counters are made once and never replaced, and looking them up changes no count |
| `TrafficMeter.Meter.DrainUser` | container-core/proxy.go:109-118 | One turn of the drain loop under interference: the records grow by what was swapped out for that user |
| `TrafficMeter.TotalOfSole` | container-core/proxy.go:112-117 | With one record per user and direction the record's value is the whole amount reported |
| `TokenGuard.ToInt` | src/services/subGuard.js:1-6 | An unreadable setting gives the fallback, a readable one is kept unless it is below the minimum |
| `TokenGuard.ConfigureKeeps` | src/services/subGuard.js:30-38 | The defaults and the minimums of the nine settings, each of which is kept when it meets its minimum |
| `TokenGuard.RateBound` | src/services/subGuard.js:93-102 | For an entry that is not evicted, every half-open interval of one window length holds at most 2 * tokenMaxReq - 1 accepted requests, over any run with nondecreasing times |
| `TokenGuard.RateBoundIsReached` | src/services/subGuard.js:93-102 | For every configuration some run has an interval with exactly that many, so the bound cannot be lowered |
| `TokenGuard.EveryIntervalBounded` | src/services/subGuard.js:93-102 | What holds of the accepted requests of any interval relative to the window that is open after any prefix of a run |
| `TokenGuard.BanHolds` | src/services/subGuard.js:89-115 | After a rate or abuse refusal at time t every request before t + tokenBanMs is blocked |
| `TokenGuard.BlockedHasCause` | src/services/subGuard.js:89-91 | A ban in force always comes from an earlier rate or abuse refusal of the same run, and ends tokenBanMs after it |
| `TokenGuard.BlockedIff` | src/services/subGuard.js:89-91 | A request is blocked exactly when it lies inside the ban of an earlier rate or abuse refusal |
| `TokenGuard.RateLimitedIff` | src/services/subGuard.js:93-102 | A request is refused for its rate exactly when it is not blocked and more requests than allowed, itself included, were not blocked since the opening of a window that is still open; a window opens with a request that is not blocked while no earlier one is open |
| `TokenGuard.VerdictIsRecount` | src/services/subGuard.js:104-113 | At each abuse decision the purged tables hold exactly the addresses and user agents recounted from all requests that reached the check inside the behaviour window, and the verdict is abuse exactly when a recount exceeds a limit |
| `TokenGuard.VerdictTold` | src/services/subGuard.js:75-118 | Every verdict of a run, told from the requests and the earlier verdicts: inside a ban, over the limit of its window, over a limit of recent addresses or user agents, or none of these |
| `TokenGuard.FreshIsAllowed` | src/services/subGuard.js:77-117 | The configured minimums make it impossible for a fresh entry to be refused |
| `TokenGuard.StampBound` | src/services/subGuard.js:98-117 | An entry's stamp never runs ahead of its last request and is that request's time unless it was blocked |
| `SlidingSet.FoldIsRecount` | src/services/subGuard.js:54-58 | A last-seen table that is stamped and purged step by step holds exactly the keys a recount of the whole history finds inside the window |
| `SlidingSet.PurgeSeenMap` | src/services/subGuard.js:54-58 | The deleting loop keeps exactly the entries not older than the window |
| `AgeTrim.TrimOldEntries` | src/services/subGuard.js:43-52 | Trimming brings a table down to its limit by removing entries none of which is younger than one that stays, and never the entry inserted last when none is younger |
| `AgeTrim.SortLists` | src/services/subGuard.js:45-49 | Sorting by age is a permutation of the entries, ordered by stamp |
| `AgeTrim.SortIsStable` | src/services/subGuard.js:45-49 | Entries with equal stamps keep the order of their insertion |
| `AgeTrim.YoungestIsLast` | src/services/subGuard.js:45-49 | An entry inserted last and not older than any other sorts last |
| `SubGuard.Guard.CheckBehavior` | src/services/subGuard.js:75-118 | The verdict is the one that the history of the token's requests calls for, the table never exceeds its limit although refusals skip trimming, and only a new token can push out an entry: one with the smallest stamp and never itself |
| `SubGuard.Guard.Decide` | src/services/subGuard.js:89-117 | The field-by-field updates agree with the rule the run properties are about |
| `SubGuard.Guard.ShouldLogUnknownUa` | src/services/subGuard.js:66-73 | A key is reported when it is not in the bounded table or was last seen longer ago than the quiet period, and its stamp is renewed either way |
| `SubGuard.ReportKeyTells` | src/services/subGuard.js:67 | The key of a report tells apart two tokens, addresses or user agents when the other two parts agree |
| `SubGuard.ReportKeysShared` | src/services/subGuard.js:67 | Different addresses and user agents of one token can share a key, since both may hold the colon that separates them |
| `SubGuard.Guard.Apply` | src/services/subGuard.js:120-136 | An unlisted user agent is refused only in enforce mode and then without touching any token; otherwise the answer follows the token's run, which grows by this request, while every other run stays as it was unless a new token pushes out one with the smallest stamp; a served request outside the list is to be logged exactly when its token, address and user agent are new or were last seen longer ago than the quiet period |
| `SubGuard.Guard.constructor` | src/services/subGuard.js:28-41 | A guard starts empty with settings that meet the minimums, whatever was configured |
| `FarmLedger.Conservation` | src/services/farm.js:141-205 | Over any run by finite users, quotas have grown by exactly 5 GB per harvested crop plus what has been stolen from crops that still stand |
| `FarmLedger.ZeroSum` | src/services/farm.js:291-345 | Among finite users the GB credited equal the GB their crops gave: stealing moves traffic and creates none |
| `FarmLedger.OwnerBound` | src/services/farm.js:141-205 | What one owner's crops paid out, to whomever, never exceeds 5 GB per crop standing at the start and per seed the owner ever had |
| `FarmLedger.TotalBound` | src/services/farm.js:141-205 | No schedule of operations, by users with finite or unlimited quotas, credits more than 5 GB per crop and seed there ever was |
| `FarmLedger.CreditComesFromCrops` | src/services/farm.js:141-205 | Whatever the quotas are, no more is credited than crops gave |
| `FarmLedger.CropLosses` | src/services/farm.js:61-67 | After any run one crop has lost as many GB as it has thieves and at most 2, each thief has at most 1 GB of it and its owner none |
| `FarmLedger.OneShareEach` | src/services/farm.js:307-333 | From the uniqueness of steal rows alone: everyone who stole from a crop has exactly one share of it and the shares add up to what was stolen |
| `FarmLedger.StealCountIs` | src/services/farm.js:70-75 | The daily count is the number of the thief's rows of that day |
| `FarmLedger.StandingWithout` | src/services/farm.js:168-173 | Taking a crop away takes away exactly what was stolen from it |
| `FarmLedger.HarvestStep` | src/services/farm.js:160-182 | A harvest keeps every account balanced |
| `FarmLedger.StealStep` | src/services/farm.js:307-333 | A steal keeps every account balanced and the caps per crop, per thief and per day |
| `FarmLedger.PlantStep` | src/services/farm.js:150-154 | A planting keeps every account balanced |
| `FarmLedger.GrantStep` | src/services/farm.js:91-100 | A seed grant keeps every account balanced |
| `Farm.UnlockedPlots` | src/services/farm.js:20-23 | The four trust levels unlock one, two, three and four plots, and levels outside the range count as the nearest |
| `Farm.Database.GrantDailySeeds` | src/services/farm.js:91-100 | The stock becomes the larger of what it was and the level's cap, and only the difference is granted |
| `Farm.Database.Plant` | src/services/farm.js:141-156 | The first failing check is the error and changes nothing; a success spends one seed, no quota, and stamps the plot |
| `Farm.Database.HarvestOne` | src/services/farm.js:160-182 | The clamps never bite: a ripe crop pays 5 GB less what was stolen from it, at least 3, once, and only to a finite quota |
| `Farm.Database.HarvestPlot` | src/services/farm.js:184-192 | The single-plot request pays what the ripe crop is worth or reports why not, and a success is one harvest in the history |
| `Farm.Database.HarvestAll` | src/services/farm.js:194-205 | Exactly the ripe crops of the user are gone, and count, amount, quota and the harvests added to the history agree with what they were worth |
| `Farm.Database.StealPlot` | src/services/farm.js:291-345 | The first failing check is the error and changes nothing; a success adds one row and one GB, and the daily limit holds although the day is read three times and may change in between |
| `HealthEscalation.StretchActions` | src/services/health.js:911-1003 | Whatever failing reports follow a healthy one: numbered restarts, at most maxRestarts of them, then at most one alarm and nothing after it |
| `HealthEscalation.SinceHealthy` | src/services/health.js:911-1003 | The same since the last healthy report of any longer run |
| `HealthEscalation.HealthyForgets` | src/services/health.js:991-1003 | A healthy report makes everything before it irrelevant for the node |
| `HealthEscalation.FailingIs` | src/services/health.js:867-890 | A report fails exactly when the service is down, the node cannot be reached, or it is marked for lack of traffic and has none |
| `HealthEscalation.RowWritten` | src/services/health.js:867-1011 | What any report after any run writes to the row, told from the reports: active and clear after a good one, nothing for the first two failures, otherwise inactive with the cause |
| `HealthEscalation.UnreachableAfter` | src/services/health.js:872-967 | A running node that cannot be reached raises exactly one blocked alarm, at the third report after a healthy one, with no restart, and its row says so from then on |
| `HealthEscalation.ZeroTrafficStays` | src/services/health.js:875-886 | A row marked for lack of traffic stays inactive with its remark through any number of good reports without traffic, and the first with traffic clears it |
| `HealthEscalation.ServiceDownStretch` | src/services/health.js:937-957 | With automatic restarts on and the agent online, a service that stays down raises the alarm exactly at report 3 * (maxRestarts + 1), after maxRestarts restarts; a negative setting counts as none |
| `HealthEscalation.AlarmAtThirdFailure` | src/services/health.js:918-967 | What any report after any run leads to, told from the reports alone: nothing once the failing stretch has had an alarm; otherwise at every third failure in a row the next restart, if allowed and the service is what is down, and an alarm naming the cause if not; a healthy report announces recovery exactly after an alarm or an offline mark |
| `HealthEscalation.InactiveAfterThree` | src/services/health.js:918-1010 | A node's own reports mark it inactive only when that report and the two before it failed |
| `HealthEscalation.FailsAreConsecutive` | src/services/health.js:918-1003 | The failure counter never exceeds the number of consecutive failing reports |
| `HealthEscalation.Monitor.UpdateFromAgentReport` | src/services/health.js:852-1011 | Each node's counters and actions are those of its own run whatever other nodes report in between; a silent report writes no row, any other writes exactly the rows of the node and its peers |
| `HealthEscalation.Monitor.Count` | src/services/health.js:911-1003 | The counter maps change as the escalation rule says, for this node only |
| `ReportRouting.TargetIsTracked` | src/services/health.js:435-454 | A record goes to the first node of the machine that speaks its protocol whenever there is one, and otherwise to the reporting node |
| `ReportRouting.ResolveUser` | src/services/health.js:480-488 | A record's user is its user id, or else the one its tag stands for |
| `OnlineWindow.RoutedIsAttributed` | src/services/health.js:793-817 | Routing record by record attributes to a node exactly the users with a record for it, or every user of the report when no record names a protocol |
| `OnlineWindow.AttributedIs` | src/services/health.js:793-817 | When no record names a protocol every node of the machine is attributed all users of the report, and otherwise each user counts for the node its records are routed to |
| `OnlineWindow.CollectUsers` | src/services/health.js:793-817 | The accumulating loops, with the mirroring to peers, give each node of the machine its attributed users |
| `OnlineWindow.NodeStep` | src/services/health.js:821-830 | One report takes a node's last-seen table from the fold of its visits to the fold with this one added, which holds exactly the recounted users |
| `OnlineWindow.Online.UpdateOnlineCache` | src/services/health.js:771-846 | Right after a report every node of any machine holds exactly what the full report history makes of it: users with traffic attributed to it inside the window up to its last report, or none when that is longer ago than the cache lifetime; counts are set sizes, no listed node disappears while the cache lives, and the total is the size of the union exactly when every user the history makes online is in the user table |
| `OnlineWindow.AllLive` | src/services/health.js:326-334 | A report, with pruning, keeps every node, of this or another machine and after an expiry too, equal to what its visits make of it |
| `OnlineWindow.LostUserRun` | src/services/health.js:316-324 | A run whose total is zero although the union of the nodes' users is not empty, because the user has been deleted |
| `OnlineWindow.PruneStaleNodes` | src/services/health.js:326-334 | Exactly the nodes not updated within the cache lifetime are emptied |
| `OnlineWindow.Online.GetOnlineCache` | src/services/health.js:237-250 | An expired cache reads as zero everywhere, and a live one is unchanged by reading |
| `TrafficReport.SaveTrafficRecords` | src/services/health.js:457-513 | Per user and node the tables grow by exactly the rate-scaled sum of the report's matching records, when user and node still exist, and by nothing else; each new recording carries what is due for its user and node and the report's day and time, and moves no limit |
| `TrafficReport.DuePermuted` | src/services/health.js:480-513 | In any order of its records a report records the same |
| `TrafficReport.MatchingIs` | src/services/health.js:490-495 | Uplink records count as up and downlink records as down, each for its user and node |
| `TrafficReport.DueIsScaled` | src/services/health.js:498-508 | At any rate, and at rate one when a node has none, what is recorded per direction is the integer nearest to the octets carried times the rate |
| `TrafficReport.UplinkOnly` | src/services/health.js:490-508 | A report with nothing downlink adds nothing to any downlink total of the site, a user or a day |
| `TrafficReport.NothingLost` | src/services/health.js:498-508 | At rate one an existing user is recorded, on an existing node, every uplink byte as up and every downlink byte as down |
| `TrafficReport.Accumulate` | src/services/health.js:480-497 | The accumulator holds, per node and user, the sum of the matching records |
| `TrafficLedger.FourTablesAgree` | src/services/repos/trafficRepo.js:9-42 | While nothing recorded has been cleaned up, raw and daily rows have the same total and so have the per-user and site tables, and all four agree when no row is older than the totals |
| `TrafficLedger.TotalsAgree` | src/services/repos/trafficRepo.js:9-42 | Per-user and site totals agree with each other and with everything ever recorded, whatever was cleaned up |
| `TrafficLedger.InsertAgrees` | src/services/repos/trafficRepo.js:11-40 | A recording keeps all four tables in agreement with the history |
| `TrafficLedger.CleanAgrees` | src/services/repos/trafficRepo.js:187-205 | A cleanup keeps the tables in agreement with the history from the new limits on |
| `TrafficLedger.Repository.RecordTraffic` | src/services/repos/trafficRepo.js:9-42 | One recording reaches all four tables at once: one raw row, the row of its user, node and day, its user and the site |
| `TrafficLedger.Repository.GetUserTraffic` | src/services/repos/trafficRepo.js:44-55 | A user's traffic is everything recorded for the user since there are totals, cleaned up or not; a user without such a recording has what the daily rows still hold of older ones |
| `TrafficLedger.UserDays` | src/services/repos/trafficRepo.js:51-54 | A user's daily rows, each counted once in any order, add up to the user's recordings of those days |
| `TrafficLedger.Repository.CleanupTrafficHistory` | src/services/repos/trafficRepo.js:182-208 | Cleanup deletes exactly the rows older than the retention (at least one day raw, thirty daily), counts them, and touches no user or site total |
| `TrafficLedger.Days` | src/services/repos/trafficRepo.js:183-184 | A missing, unreadable or zero retention is the default, any other is kept unless it is below the minimum |
| `AgentHub.Settle` | src/services/agent-ws.js:450-463 | Settling a pending command keeps issued commands divided into pending ones, each with its timer, and ones settled once |
| `AgentHub.Service.SendCommand` | src/services/agent-ws.js:502-528 | A command goes over that connection; it is refused at once exactly when there is none, settled at once when the send fails, and otherwise pending with its timer armed |
| `AgentHub.Service.HandleCmdResult` | src/services/agent-ws.js:450-463 | A result settles a pending command once; unknown and repeated ids change nothing |
| `AgentHub.Service.CommandTimeout` | src/services/agent-ws.js:513-516 | An armed timer settles its command, which is still pending |
| `AgentHub.Service.CleanupPendingCommands` | src/services/agent-ws.js:54-65 | A disconnection settles exactly the pending commands registered for that node |
| `AgentHub.Service.Shutdown` | src/services/agent-ws.js:570-587 | Shutdown closes every agent's connection and settles all that was pending, so that every command ever issued has been settled once |
| `AgentHub.Service.ResolveAgent` | src/services/agent-ws.js:479-496 | A connection is the node's own if that is open, else that of the first peer on its machine with an open one, and none exactly when there is none |
| `AgentHub.Service.HandleAuth` | src/services/agent-ws.js:67-126 | A missing token closes the socket; any other second attempt on a socket changes nothing; otherwise authentication needs an existing node and its token, replaces the node's entry and closes the socket it had and no other, or closes the socket |
| `AgentHub.OneNodePerSocket` | src/services/agent-ws.js:92-121 | A socket is the live entry of at most one node |
| `AgentHub.Service.OnClose` | src/services/agent-ws.js:167-173 | The close event of a replaced socket never removes its successor |
| `AgentHub.NoTimerAtPing` | src/services/agent-ws.js:206-236 | No pong timer of one ping round is left when the next comes, since the timeout is shorter than the period |
| `AgentHub.Service.PingRound` | src/services/agent-ws.js:206-236 | Unreachable agents are dropped and exactly their commands settled as disconnected; the others await a pong, each with one timer for its own connection |
| `AgentHub.Service.PongTimeout` | src/services/agent-ws.js:224-234 | A pong timer that evicts an entry evicts that of the very connection it was armed for |
| `AgentHub.Service.HandlePong` | src/services/agent-ws.js:468-472 | A pong marks only the entry of the socket's node |
| `SyncDebounce.AllSettled` | src/services/deploy.js:472-488 | When nothing waits and nothing runs, every caller has been settled exactly once, by a run that started after its call |
| `SyncDebounce.StartOk` | src/services/deploy.js:476-479 | Starting a run moves exactly the waiting callers into it |
| `SyncDebounce.FinishOk` | src/services/deploy.js:480-485 | Ending a run settles exactly its callers |
| `SyncDebounce.Debouncer.Sync` | src/services/deploy.js:472-476 | A call joins the waiting callers and the timer is armed |
| `SyncDebounce.Debouncer.Fire` | src/services/deploy.js:476-481 | The timer is armed exactly while callers wait; firing hands them to one run |
| `SyncDebounce.Debouncer.Finish` | src/services/deploy.js:481-485 | Every caller of a run is answered once, in order, with its outcome |
| `SyncDebounce.SyncAllNodes` | src/services/deploy.js:490-505 | Every node is covered exactly once in order, in batches of at most five, and success plus failed is the node count |
| `NodeNames.FirstFree` | src/services/migrations.js:21-26 | The suffix search terminates, since each candidate tried is a different used name, and finds the least free number from two |
| `NodeNames.TriedAreUsed` | src/services/migrations.js:21-26 | At most as many candidates can be tried as there are used names |
| `NodeNames.NamesAreDistinct` | src/services/migrations.js:13-31 | After the repair non-blank names are pairwise distinct once trimmed |
| `NodeNames.RepairedIsNew` | src/services/migrations.js:13-31 | A row keeps its name exactly when it is blank or its trimmed name is not in use before it, and its new name is never in use before it |
| `NodeNames.FirstHolderRenamed` | src/services/migrations.js:13-31 | Not every first holder of a name keeps it: in A, A, A (2) the third row is renamed |
| `NodeNames.FirstsKeepIff` | src/services/migrations.js:13-31 | For every list in every order: all first holders keep their names if and only if each of them that holds a numbered name comes after at most as many holders of its base as there are numbers, up to its own, that no earlier row holds |
| `NodeNames.NoClashKeeps` | src/services/migrations.js:13-31 | In any order of the rows it is enough that no name is its base with a number from two up to the base's number of holders |
| `NodeNames.FirstsKeepIffNoClash` | src/services/migrations.js:13-31 | Corollary for lists in which every base comes before its numbered forms: all first holders keep their names if and only if no name is its base with a number from two up to the base's number of holders |
| `NodeNames.SortedIsGrouped` | src/services/migrations.js:9 | A list sorted by name whose names have no white space around them is of that kind |
| `NodeNames.ClashWithoutLoss` | src/services/migrations.js:9-14 | Sorting by the raw name is not enough for that corollary: in " A (2)", A, A a number is taken and still nobody loses a name |
| `NodeNames.MadeUp` | src/services/migrations.js:13-31 | As long as first holders keep their names, a numbered name that no row holds is in use exactly when its base has more holders so far than free numbers up to it: duplicates take the lowest numbers no row holds |
| `NodeNames.NodeTable.NormalizeDuplicateNodeNames` | src/services/migrations.js:8-32 | The loop over the rows leaves every row with its repaired name and other rows alone |
| `NodeNames.NodeTable.NextName` | src/services/migrations.js:21-26 | The inner loop ends at the least free number |
| `Text.NumberedInjective` | src/services/migrations.js:22 | A numbered name determines its base and its number |
| `Text.DecimalReads` | src/services/migrations.js:22 | The digits of a number stand for it, without a leading zero |
| `Text.TrimIsTrimmed` | src/services/migrations.js:14 | Trimming leaves no white space at either end and changes nothing that has none |
| `Text.TrimTakesSpace` | src/services/migrations.js:14 | Trimming takes away white space at the two ends and nothing else |

## Left out

- RFC 6455 reserved bits, control-frame size limits and the accept key: the agent's client checks none of them, and the model follows it.
- The agent's `emitter.send`, `emitter.ping` and `emitter.close`, reconnection, the watchdog and socket error events.
- JavaScript numbers beyond 2^53 in 64-bit frame lengths, and wrap-around of the 64-bit counters of the container core: integers are unbounded here.
- Bitwise operators on octets are arithmetic (testing the top bit, remainders by 16 and 128) and exclusive or is defined bit by bit.
- The handshake status is searched for in the octets of the response head; decoding them as UTF-8 first finds the same digits.
- Sockets, TLS, WebSocket framing inside the container core, dialing and the user table's refresh: a connection is a queue of messages whose delivery is nondeterministic, and the results of dialing and of writing the response header are inputs.
- VlessInbound.Serve: models the upstream direction; the downstream relay is the same loop with its ends exchanged and is one of the other relays here.
- Text rendering of IP addresses: an address is its kind and its octets.
- TrafficMeter.Meter.Drain: delivery of the drained records to the panel is not modelled; they are dropped when that write fails (container-core/panel.go:224-228).
- Compilation of the allow-list patterns: whether a user agent is listed is an input.
- Times are positive and nondecreasing; the day of a time is an input wherever it is read.
- SubGuard.Guard.CheckBehavior: per-token states are values in the table rather than objects shared with it, so aliasing of a state is not captured.
- The farm's read-only views, the random neighbour, the maturity notice and unfreezing after a credit.
- User deletion: farm users, once in the tables, stay.
- The deletion of users and nodes in the traffic tables: a recording for one that is gone fails, but the rows a deletion takes with it stay.
- The SQL engine: a table is a map or a sequence, a transaction is atomic, and the site-total update that may be skipped on an error is taken to succeed.
- HealthEscalation.Monitor.UpdateFromAgentReport: the IPv6 counter, removal of manual nodes, resource thresholds, the swapping of addresses and all message texts are not modelled; settings are constant during a run and the node's row is an input of each report.
- The retry setting is read with a default that also replaces a configured zero by two (src/services/health.js:129-141); the model takes the number after that.
- OnlineWindow.Online.UpdateOnlineCache: the order of the listed nodes and the observation of users on several machines are not modelled.
- Traffic caps, freezing and alerts after a report is saved.
- AgentHub.Service.HandleAuth: tokens are compared directly rather than by their hashes; message rate limits, the authentication timeout and reconnect metrics are not modelled.
- AgentHub.Service.PingRound: timers fire in the order they are due, possibly late; command ids are fresh.
- NodeNames.FirstsKeepIffNoClash: a corollary for lists in which every base comes before its numbered forms; for all lists the condition is that of `NodeNames.FirstsKeepIff`.
- NodeNames.SortedIsGrouped: only for names without white space around them; `NodeNames.ClashWithoutLoss` shows why.
- The order in which JavaScript iterates maps, where nothing depends on it, is arbitrary here.
- Building and pushing node configurations: the result of syncing a node is an input, and a thrown error is a failed node.
- Payments, mini-games, admin routes, browser scripts and subscription text.
