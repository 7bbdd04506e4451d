# Proofs about the WireGuard and sing-box panel

This project models the parts of the panel that count, store and edit things, and proves what
they keep over every input and every run. It is plain Dafny 4.11;
`dafny verify dfyconfig.toml` checks all of it.

## What is modelled

**Traffic accounting.** `Amounts` has byte pairs, tables of rows keyed by user and time, and
sums over a selection of rows. `Store` is the arithmetic of the sample tables: insert-or-ignore,
the rollup into 8-hour buckets and the combined report, with its laws. `Database` is the store as
an object whose methods change the two tables, statement by statement, all or nothing. `Sampler`
is the sing-box statistics sampler with its `last` map and `paused` flag, `Calculator` the older
log-based one. `WgTraffic` has the WireGuard difference queries, `WgSampler` the change filter in
front of the WireGuard table, and `WgHistory` connects both ends. `Charts` is the bucket query and
the cumulative dashboard chart, `Dashboard` that chart over the tables it is drawn from,
`Resampler` the one-pass resampling of the statistics page, and `ResetPeriod` the start of a
billing period. `Queries` has the two ordered queries, which deliver what the laws about them ask
for. `Arith` is shared arithmetic,
`Common` shared types and what it means to filter a list.

**Log reading.** `Lines` says what splitting a file at newlines means; `LogReader` reads a file
backwards in chunks, and through a window at its end, and is proved to give the answer of the
whole file.

**WireGuard configuration.** `Ascii` has the string functions of Go's library that the code uses.
`WgConfig` is the line-oriented loader and the printer, `WgLayout` says that the layout of a
handwritten line does not matter, `WgFile` the configuration object whose
methods change peers and the file, `WgRoundTrip` what a save and a load keep. `Ipv4` and
`Ipv4Text` have masks, the address allocator and address text, `Ipv4Numbers` subnets as intervals
of numbers; `WgPeers` the address checks of the
peer handlers and the invariant over their runs, `WgHandlers` the handlers as methods, `WgSteps`
what one handler call changes and when it is possible. `WgBlocks`
says what a saved configuration is read back as when fields hold any text of any length, `WgLined`
what becomes of peers without line breaks, and `WgLimits` what becomes of a whole configuration.
`WgRuns` has the runs over the text of the file, with the exact condition on a request;
`WgNewlines` and `WgLongLines` have requests that break the invariant, one with line breaks and one
with a long alias.

**sing-box configuration.** `Json` is decoded JSON with the lenient reads the code uses.
`SingboxUsers` has the user edits and the statistics list, `SingboxUserLaws` and
`SingboxEditLaws` what they keep, `SingboxCredentialLaws` whose credentials they change and when
they are accepted, `SingboxAccounts` the merged accounts of the active users.
`SingboxInbounds` has port collisions, edits by tag and the tag
lists, `Panel` the transactional object around all of these, `PanelRuns` what holds over every run, and
`StatsRuns` when the statistics list stays current.

The tables, the readings and the outcome of every call into the outside world (a failing
statement, a read error, the verdict of `sing-box check`) are inputs of the model, so that each
theorem speaks of all of them. Byte counts are unbounded integers and times are seconds since 1970.

Methods follow the Go code statement by statement and are proved equal to a function of their
inputs or of the old state; the theorems are about those functions.

Where names or comments and code differ, the model follows the code: `daily_usage` holds
8-hour buckets, not days (`core/store.go:1152`); `UpdateUser` says nothing to the statistics list
although `UpdateUserInInbound` does (`core/config.go:419-483`); reset days 30 and 31 can give a
period that starts in the future, which `ResetPeriod.FutureStartExactly` describes. Two kinds of
request that the panel accepts can make a later load see a public key twice. A line break in
the alias, endpoint or preshared key is written to the WireGuard file as it is and can spell a
second peer (`WgNewlines.NewlineExample`). An alias of 64 KiB or more makes a line at which the
loader silently stops, inside the new block: that peer is read back with an empty key, the rest
of its block is lost, and a second such request gives two empty keys
(`WgLongLines.LongAliasExample`). `WgRuns.FileStepExactly` says for every request and every file
whether the invariant is kept. Updates, unlike creations, do not
check aliases, so two peers can get the same one (`WgSteps.StepKeepsAliasesExactly`). An inbound
operation that writes the configuration and then fails to read it back or to save the lists can
leave an inbound unlisted; `PanelRuns.StepKeepsListedExactly` says when. No inbound operation
rewrites the statistics list of users, so it can go stale: by adding the first inbound of a panel
with a user (`StatsRuns.FirstInboundExample`), or by deleting the only managed inbound, after which
all others count (`StatsRuns.DeleteWidensExample`). `StatsRuns.StepKeepsStatsExactly` says when.

## Model

| member | source | states |
|---|---|---|
| `LogReader.SearchFileLines` | api/server.go:1403-1449 | for every file, chunk size, limit and line predicate the backward chunked search returns the last `maxLines` matching lines of the whole file in file order; only a read error makes it fail |
| `LogReader.ChunkLines` | api/server.go:1426-1433 | the carried partial line joined to the next chunk gives the lines of the file from there on, wherever the chunk begins |
| `LogReader.StoppedEarly` | api/server.go:1420-1440 | once enough lines matched, older chunks cannot change the result |
| `LogReader.CollectBackwards` | api/server.go:1435-1439 | the inner loop extends the newest matches by those of one chunk, up to the limit |
| `LogReader.ReverseInPlace` | api/server.go:1442-1444 | swapping ends inwards reverses the list |
| `LogReader.WholeFileExactly` | api/server.go:1403-1449 | the answer is "split, filter, take the last n" for every file if and only if the predicate rejects the empty line or nothing is asked for |
| `Lines.SplitJoin` | api/server.go:1426-1427 | splitting a concatenation is splitting the parts and joining the two lines at the seam |
| `Lines.NewestIsReversedLast` | api/server.go:1435-1444 | collecting from the newest line back and reversing gives the last n matches in file order |
| `LogReader.TailFileLines` | api/server.go:1309-1346 | up to one dropped trailing empty line, the result is the last whole lines of the file that the window shows, at most `maxLines`, never a cut first line |
| `LogReader.WindowLines` | api/server.go:1326-1337 | behind its cut first line a window shows exactly the last lines of the whole file |
| `WgFile.LoadWireGuardConfig` | core/wireguard.go:85-196 | the loader loop computes the fold of the line rules over the scanned lines; a missing file is an empty configuration, another open error is reported |
| `WgFile.LoadLine` | core/wireguard.go:101-183 | one pass of the loop changes section, current peer, interface and peers as the line rule says |
| `WgLayout.PeerLine` | core/wireguard.go:142-181 | in a peer block, with any white space around key, equals sign and value and the key in any case, a line sets exactly the field its key names |
| `WgLayout.InterfaceLine` | core/wireguard.go:142-170 | the same for the eight keys of the interface |
| `WgLayout.HeaderLine` | core/wireguard.go:119-130 | a section header in any case opens its section; a peer header ends the peer before and starts an empty one |
| `WgLayout.PeerComment` | core/wireguard.go:43-60 | a comment with a key sets the alias of a peer, an email comment alias and email, any other nothing |
| `WgLayout.InterfaceComment` | core/wireguard.go:62-75 | in the interface section only an address comment sets something |
| `WgLayout.InlineComment` | core/wireguard.go:132-160 | a comment behind a value is cut off, and in a peer block acts as a comment line of its own before it |
| `WgFile.WireGuardConfig.Save` | core/wireguard.go:198-254 | writes exactly the printed configuration, or leaves the file when the path is empty or it cannot be created |
| `WgFile.WireGuardConfig.AddPeer` | core/wireguard.go:256-267 | appends the peer unless some peer has its key, or its alias as alias or email, then saves; the new peer list and file are given in every case |
| `WgFile.WireGuardConfig.RemovePeer` | core/wireguard.go:269-284 | leaves exactly the peers with another key, at increasing positions, then saves; it fails without a change if no peer has the key |
| `WgFile.WireGuardConfig.UpdatePeer` | core/wireguard.go:346-362 | field by field: the first peer with the key gets addresses, endpoint and preshared key, and alias and email if the new ones are not empty; all other peers and its keys stay; then saves |
| `WgRoundTrip.LoadPrinted` | core/wireguard.go:85-254 | loading what was saved gives back the interface and the same ordered peers in normal form: bind address gone, email folded into the alias, private keys gone |
| `WgRoundTrip.PeerApplies` | core/wireguard.go:235-251 | one printed peer block is read back as exactly that peer in normal form |
| `WgRoundTrip.InterfaceApplies` | core/wireguard.go:208-233 | the printed interface section is read back as that interface, less bind address and comment |
| `WgRoundTrip.LoadIsLoadable` | core/wireguard.go:85-196 | whatever the file holds, a load yields trimmed one-line fields and the public key derived from the private one |
| `WgLimits.RoundTripExactly` | core/wireguard.go:85-254 | any configuration at all survives save and load unchanged if and only if its lines are short enough, it has the shape a load produces, no bind address, no comment in the interface address, no email or private key of a peer, and the derived public key |
| `WgLimits.RoundTripFields` | core/wireguard.go:85-254 | what a save and a load keep, field by field: a missing alias is the email afterwards; bind address, email and private keys of peers are gone |
| `WgLimits.SecondSaveChangesNothing` | core/wireguard.go:85-254 | for any file, whatever its lines: after load, save, load, saving and loading once more changes nothing; with short enough lines the normal form is kept whole |
| `WgLimits.LoadedIsShort` | core/wireguard.go:85-254 | what is read back of a saved configuration without line breaks, cut at a long line or not, always has short lines when saved again |
| `Ascii.AtoiItoa` | core/wireguard.go:155-164 | every machine integer survives printing as decimal and parsing |
| `Ipv4.FindAvailableIP` | api/handlers_extra.go:176-206 | returns the lowest free offset among those the loop tries, which is an unused usable host of the subnet, and fails if and only if all of them are used |
| `Ipv4.CandidateFacts` | api/handlers_extra.go:188-200 | with last-byte wrap-around, candidate i is a host of the subnet (inside it, neither network nor broadcast) if and only if i is at most the last offset, and then nothing wrapped |
| `Ipv4.HostsAreOffsets` | api/handlers_extra.go:188-200 | for /24 and longer prefixes the usable hosts are exactly the offsets tried |
| `Ipv4.ExhaustedMeansFull` | api/handlers_extra.go:176-206 | for /24 and longer prefixes the allocator fails if and only if no usable host is free |
| `Ipv4.AndMask` | api/handlers_extra.go:193 | and-ing with a prefix mask clears the host bits |
| `Ipv4.OrLow` | api/handlers_extra.go:182-186 | or-ing with the inverted mask sets the host bits: the broadcast address |
| `Ipv4Numbers.SubnetIsInterval` | api/handlers_extra.go:182-200 | for every prefix length, the byte-wise masks mean this: a subnet is the interval of 2^(32-bits) addresses from its own, as numbers, and its broadcast address is the last of them |
| `Ipv4Numbers.HostsExactly` | api/handlers_extra.go:188-200 | the usable hosts are the addresses strictly inside it |
| `Ipv4Numbers.MaskRoundsDown` | api/handlers_extra.go:193 | every address lies in the interval of its masked address |
| `Ipv4Numbers.FoundExactly` | api/handlers_extra.go:176-206 | for every prefix length the allocator finds an address if and only if one of the first 254 behind that of the subnet is a free usable host |
| `Ipv4Text.IPRoundTrip` | api/handlers_extra.go:155-174 | an address survives printing and parsing |
| `Ipv4Text.NetRoundTrip` | api/handlers_extra.go:91-131 | a network survives printing and parsing |
| `Ipv4Text.ParseIPExactly` | api/handlers_extra.go:155-174 | a text is read as an address if and only if it is the printed form of that address |
| `WgPeers.NormalizeAllowedIPs` | api/handlers_extra.go:91-131 | succeeds if and only if every non-blank entry parses and there is one; gives the masked networks reprinted, the first as primary |
| `WgPeers.EveryPrimaryIsUsed` | api/handlers_extra.go:155-174 | the primary address of every peer is in the used set |
| `WgHandlers.AddUsedIP` | api/handlers_extra.go:155-174 | adds the host address and, with a prefix, the network address |
| `WgHandlers.CollectUsed` | api/handlers_extra.go:254-262 | collects the first interface entry and every peer primary |
| `WgHandlers.AssignAddress` | api/handlers_extra.go:264-294 | assigns the lowest free host or the requested list, and refuses only if no assignment exists |
| `WgPeers.CreatedAddress` | api/handlers_extra.go:254-294 | a created peer's primary address was unused and is not the interface's own host address |
| `WgPeers.CreateKeepsGood` | api/handlers_extra.go:254-312 | creating a peer keeps public keys and primary addresses pairwise distinct |
| `WgPeers.UpdateKeepsGood` | api/handlers_extra.go:674-704 | so does an update that passes the owner check |
| `WgPeers.DeleteGood` | api/handlers_extra.go:330-374 | so does a deletion |
| `WgSteps.CreateLaw` | api/handlers_extra.go:208-312 | a creation appends one peer with the key, alias (the email without one) and trimmed endpoint asked for, neither key nor alias taken, and changes nothing else |
| `WgSteps.CreateAutoLaw` | api/handlers_extra.go:176-294 | without an address in the request the peer gets as /32 the lowest address behind that of the subnet that is not in use |
| `WgSteps.SubnetOfInterface` | api/handlers_extra.go:133-153 | the subnet is that of the first interface address with its prefix; that host and the subnet address are in use, with the addresses of the peers |
| `WgSteps.FallbackSubnet` | api/handlers_extra.go:264-276 | with an interface address without prefix the subnet is 10.100.0.0/24, its first address in use |
| `WgSteps.CreateListLaw` | api/handlers_extra.go:274-294 | with a list, the peer gets the networks it means, reprinted, the first not in use |
| `WgSteps.NetsMean` | api/handlers_extra.go:91-131 | a list means one network for each entry that is not blank, in order, and nothing if one of them does not parse |
| `WgSteps.EntryMeans` | api/handlers_extra.go:99-121 | a bare address means its /32, an address with a prefix its masked network |
| `WgSteps.NormalisedStays` | api/handlers_extra.go:91-131 | a normalised list is read again as the same networks |
| `WgSteps.CreatePossibleExactly` | api/handlers_extra.go:208-312 | a creation is possible if and only if there is an alias and an interface address, neither key nor alias is taken, and an address can be assigned |
| `WgSteps.UpdateLaw` | api/handlers_extra.go:652-727 | an update changes the first peer with the key only, field by field, to the normalised list and the other fields of the request |
| `WgSteps.UpdatePossibleExactly` | api/handlers_extra.go:652-704 | an update is possible if and only if the key is a known one, the list parses, and its first address belongs to no other peer and, if to no peer, not to the interface |
| `WgSteps.DeleteLaw` | api/handlers_extra.go:330-374 | a deletion leaves exactly the peers with another key, in order |
| `WgSteps.StepKeepsAliasesExactly` | api/handlers_extra.go:208-374 | an operation keeps aliases distinct if and only if it is not an update to the alias of another peer, which only creations check |
| `WgPeers.OwnerIsPeer` | api/handlers_extra.go:674-690 | the owner recorded for a distinct primary address is its peer |
| `WgPeers.RunsKeepGood` | api/handlers_extra.go:208-374 | over every run of create, update and delete, accepted or refused, keys and primary addresses stay pairwise distinct |
| `WgHandlers.HandleCreate` | api/handlers_extra.go:208-328 | load, check, assign, add and save: success is one model step saved to the file, refusal leaves the file, and without input or output faults a request is refused only if no step exists |
| `WgHandlers.HandleUpdate` | api/handlers_extra.go:652-727 | the same for the update handler |
| `WgHandlers.HandleDelete` | api/handlers_extra.go:330-374 | succeeds if and only if the key is known and the file can be read and written; then the file holds exactly the peers with another key, in order, and otherwise what it held |
| `WgHandlers.CollectOwners` | api/handlers_extra.go:674-684 | the address owners as recorded, later peers overriding |
| `WgBlocks.SplitPieces` | core/wireguard.go:198-254 | the file has the lines of the printed lines, split again at the newlines inside them |
| `WgBlocks.BlockSpells` | core/wireguard.go:119-183 | the block of a peer adds the peers it spells, whatever was read before it |
| `WgBlocks.LoadSees` | core/wireguard.go:85-254 | whatever text the fields of the peers hold, a load sees the peers their blocks spell, in order, up to the first line that is too long |
| `WgLined.LinedSpells` | core/wireguard.go:235-251 | a peer without line breaks in its fields, of any length, is read back as exactly one peer: its key unless a long alias cuts the block before it, its addresses if no line of the block is too long |
| `WgRuns.SavedGoodExactly` | core/wireguard.go:85-254 | a save of any peers is read back with distinct keys and addresses if and only if the peers its blocks spell are distinct |
| `WgRuns.SavedStaysGood` | core/wireguard.go:85-254 | without line breaks and with short lines, distinct keys and addresses survive a save and the next load |
| `WgRuns.LinedGoodExactly` | core/wireguard.go:85-254 | without line breaks and whatever the lengths, distinct peers are read back distinct if and only if no block is cut before its key behind a peer with an empty key |
| `WgRuns.CleanStepExactly` | api/handlers_extra.go:208-374 | for a request without line breaks, of any length: what the next load sees stays good if and only if no written block is cut before its key behind a peer with an empty key |
| `WgRuns.KeyedStepKeepsGood` | api/handlers_extra.go:208-374 | so no such request does harm while every loaded peer has a key |
| `WgRuns.FileStepKeepsGood` | api/handlers_extra.go:208-374 | one handler call with a request of bounded length without line breaks, on a loaded configuration with short lines, keeps what the next load sees good and short |
| `WgRuns.FileStepExactly` | api/handlers_extra.go:208-374 | for every request and every loaded configuration, with text of any kind and length: what the next load sees stays good if and only if the peers the written block spells fit beside the other peers that are still read |
| `WgRuns.FileRunsKeepGood` | api/handlers_extra.go:208-374 | the run invariant holds for the configuration read from the file after any number of handler calls, if the first one read has short lines and no request has line breaks or fields of some 64 KiB |
| `WgRuns.FileRunsExactly` | api/handlers_extra.go:208-374 | any run on the file at all is good throughout if and only if each request that changed the file was harmless for the configuration it met |
| `WgNewlines.NewlineLosesGood` | api/handlers_extra.go:208-312 | wherever a create request whose alias spells a block with an existing key is accepted, the next load sees that key twice |
| `WgNewlines.NewlineExample` | api/handlers_extra.go:208-312 | there is such a file and request: one peer, automatic address, an alias with line breaks |
| `WgLongLines.LongAliasLeavesKeyless` | api/handlers_extra.go:208-312 | from a good file with short lines and a key in every peer, an accepted create request with an alias of 64 KiB or more leaves a good file whose last peer is read back with an empty key |
| `WgLongLines.LongAliasLosesGood` | api/handlers_extra.go:208-312 | with a peer without a key loaded, the next such request makes the next load see the empty key twice |
| `WgLongLines.LongAliasExample` | api/handlers_extra.go:208-312 | there is such a file and such a pair of requests: one peer, automatic address, an alias of 64 KiB |
| `Database.Database.AddSample` | core/store.go:565-569 | inserts one row or ignores it if user and time are taken |
| `Database.Database.BulkInsert` | core/store.go:571-593 | inserts the whole batch, ignoring taken keys, or nothing at all if a statement or the commit fails |
| `Database.Database.PruneOlderThan` | core/store.go:358-365 | deletes exactly the raw rows before the cutoff and counts them |
| `Database.Database.CompressOldSamples` | core/store.go:1142-1213 | performs the rollup or changes nothing, and counts the deleted rows |
| `Database.QueryGroups` | core/store.go:1154-1180 | row-by-row grouping in any order gives one sum per user and 8-hour bucket of the rows before the cutoff |
| `Database.Upsert` | core/store.go:1186-1198 | upserting the groups in any order adds each to its row |
| `Database.Database.Maintain` | api/server.go:491-545 | one pass leaves raw exactly the rows at or after each enabled cutoff, now less so many days, and adds to the rolled-up table, for every selection of buckets, exactly the rows between the two; a failing statement skips its part |
| `Database.MaintenanceLosesExpired` | api/server.go:491-545 | a pass loses exactly the raw rows older than the retention cutoff, for every set of buckets |
| `Store.InsertedAtMost` | core/store.go:571-593 | a batch adds at most what it offers a user |
| `Store.InsertedKeepsFirst` | core/store.go:571-593 | a batch changes no row that was there, and of several rows with one new key the first is stored |
| `Store.InsertedExactly` | core/store.go:571-593 | with fresh distinct keys it adds exactly that |
| `Store.RollupConserves` | core/store.go:1142-1213 | a rollup at any cutoff conserves uplink and downlink of raw plus rolled-up rows for every set of users and buckets |
| `Store.DailyAfter` | core/store.go:1186-1198 | the rolled-up table gains exactly the old rows of the selected buckets |
| `Store.RollupTwice` | core/store.go:1142-1213 | two rollups equal the one at the later cutoff |
| `Store.RollupsCollapse` | core/store.go:1142-1213 | any sequence of rollups equals one rollup at the largest cutoff |
| `Store.ReportAfterRollup` | core/store.go:1285-1336 | a rolled-up row is counted by the combined report if and only if its time lies in [ceil(start), floor(end) + 28799], a raw row if and only if in [start, end] |
| `Store.ReportStableExactly` | core/store.go:1285-1336 | rollups never change the totals of a range, whatever the tables hold, if and only if the range is aligned to 8-hour buckets or holds no timestamp |
| `Store.AlignedReport` | core/store.go:1285-1336 | an aligned range has the same totals before and after any rollup |
| `Store.OneRowReport` | core/store.go:1285-1336 | otherwise a single row between the bounds changes the totals |
| `Sampler.StatsSampler.SampleOnce` | core/stats_sampler.go:99-180 | one sampling changes `last` and the tables as the step function says, on every early return and on a failed insert |
| `Sampler.StatsSampler.SetPaused` | core/stats_sampler.go:65-69 | sets only the flag |
| `Sampler.StatsSampler.PruneLast` | core/stats_sampler.go:154-160 | keeps exactly the counters of active users |
| `Sampler.LastIsNewest` | core/stats_sampler.go:127-160 | `last` holds a user's newest reading if the newest effective sample listed the user, and nothing otherwise |
| `Sampler.NewestStep` | core/stats_sampler.go:127-152 | a sample offers a user exactly the positive step from the previous reading, zero after an absence |
| `Sampler.HeldAtMostMeasured` | core/stats_sampler.go:99-180 | over every run of samples, pauses, resets, failed or ignored inserts, rollups and prunes the bytes held for a user never exceed the positive steps of its readings |
| `Sampler.HeldIsMeasured` | core/stats_sampler.go:99-180 | they are equal when inserts succeed, sample times strictly increase and nothing is pruned |
| `Sampler.GapsOnlyLose` | core/stats_sampler.go:154-160 | absences of a user only lose steps |
| `Sampler.StepsTelescope` | core/stats_sampler.go:132-149 | without absence or reset the steps telescope to last minus first reading |
| `Sampler.HeldTelescopes` | core/stats_sampler.go:99-180 | so a lossless run holds exactly last minus first reading |
| `Calculator.Calculator.Process` | core/calculator.go:41-99 | one call updates the counters and inserts one equal share per user as the step function says |
| `Calculator.FieldsAreNewest` | core/calculator.go:41-70 | the calculator's fields are the newest counters it could read |
| `Calculator.StepMeasures` | core/calculator.go:41-99 | what a step stores, from the measured growth alone: a reset counts as the new reading |
| `Calculator.StoredAtMostMeasured` | core/calculator.go:41-99 | over every run the bytes stored never exceed the bytes measured |
| `Calculator.Remainder` | core/calculator.go:80-99 | what equal shares leave over is smaller than the number of users |
| `Calculator.ShortfallExactly` | core/calculator.go:41-99 | with working inserts at increasing times the shortfall is exactly the growth dropped for lack of users plus one remainder per counter per step |
| `Calculator.StepCharges` | core/calculator.go:80-99 | a tick charges each user listed, unless its insert fails, the growth measured divided by the number of users, and nobody else anything |
| `Calculator.ChargedExactly` | core/calculator.go:41-99 | over every run at increasing times, failing inserts included, a user holds what it held and exactly these shares |
| `Calculator.MeasuredExactly` | core/calculator.go:54-70 | what a run measures is last minus first reading and, for each reset, the counter it took away |
| `Charts.QueryBuckets` | core/store.go:1066-1091 | row-by-row grouping in any order gives one sum per bucket of the range, the interval defaulting to 60 |
| `Charts.SlotOnGrid` | api/handlers_dashboard.go:168-170 | the bucket of every row in range is the start of a step of the dashboard's grid |
| `Charts.GridStepSum` | api/handlers_dashboard.go:170-177 | a grid step adds exactly the rows of its bucket |
| `Charts.CumulativeChart` | api/handlers_dashboard.go:126-186 | every chart point is the sum of all rows in buckets up to it, for both tables, and the final accumulators are the range totals, as is the last point |
| `Charts.ChartNeverFalls` | api/handlers_dashboard.go:164-186 | the series never falls |
| `Charts.ChartSize` | api/handlers_dashboard.go:126-170 | the steps of a chart divide a day and get no finer for longer ranges; up to a week there are at most 32 points, beyond half an hour at least 5 |
| `Dashboard.ListedStepsSum` | core/store.go:927-996 | the difference rows of a range add up to the positive steps of the listed peers, each counted once |
| `Dashboard.DashboardChart` | api/handlers_dashboard.go:143-186 | both sides of the chart with their switches and query failures; the final WireGuard totals are the positive steps in range of the listed peers |
| `Resampler.Resample` | api/handlers_extra.go:1104-1149 | the single pass over the history gives every bucket [t, t + interval) exactly the sum of its points |
| `Resampler.ResampleCounts` | api/handlers_extra.go:1104-1149 | every point with start <= ts < end is counted exactly once; one at end if and only if the interval does not divide the range |
| `Resampler.BucketIsRows` | core/store.go:619-642 | each resampled bucket is the sum of the raw rows in it |
| `Queries.GlobalTraffic` | core/store.go:619-642 | one point per time of a raw row in range, by increasing time, with the sum of the rows of that time |
| `WgTraffic.DiffRowsSum` | core/store.go:945-971 | a peer's LAG differences add up to the positive steps of its counters |
| `WgTraffic.WithinFiltered` | core/store.go:945-971 | the rows of a range are all rows of the peer with start <= ts <= end, in order |
| `WgTraffic.DiffsSum` | core/store.go:945-971 | listing several peers, each contributes its own positive steps in range |
| `WgTraffic.BucketsSumToRange` | core/store.go:972-996 | summing the buckets of a range gives the rows of the range whatever the interval |
| `WgTraffic.BucketsAgreeWithTotals` | core/store.go:927-1063 | for a peer, bucket sums over any range equal its entry in the top totals (limit large enough) and the positive steps in range |
| `Queries.TopTotals` | core/store.go:999-1063 | the active peers with their positive steps in range, by falling total, cut at the limit, if any, with nobody left out who has more than someone listed |
| `WgTraffic.TotalVersusFirstToLast` | core/store.go:787-817 | the bucketed total is at least the first-to-last delta, with equality if and only if the counter never falls or never rises in range |
| `WgTraffic.SplitLosesCrossing` | core/store.go:927-996 | splitting a range loses exactly the positive step across the cut |
| `WgTraffic.PosSumBounds` | core/store.go:956-971 | positive steps are at least last minus first, with equality if and only if the counter never falls |
| `WgSampler.Sampler.InsertWGSamples` | core/store.go:686-711 | inserts the first 5000 rows of a batch, all of a smaller one, or none if a statement or the commit fails |
| `WgSampler.Sampler.RunSample` | api/server.go:158-228 | one run stores the changed readings and remembers all of them, as the step function says |
| `WgSampler.ScanOnly` | api/server.go:180-212 | what the loop remembers and stores for one peer, in any order of the device map |
| `WgSampler.StepStores` | api/server.go:158-228 | a run adds a peer's one reading unless it repeats the last or the insert was cut or failed |
| `WgSampler.FilterPreservesSum` | api/server.go:158-228 | storing only changed readings preserves the whole-history sum of positive steps and the newest counter |
| `WgSampler.StoredNeverRaises` | api/server.go:158-228 | rows lost to the cap or a failed insert never raise that sum |
| `WgSampler.ThinningNeverRaises` | core/store.go:956-971 | leaving rows out of any series never raises its positive steps |
| `WgSampler.EndsSuffice` | api/server.go:158-228 | for counters that never fall, keeping first and last reading keeps the sum |
| `WgHistory.StoredTimes` | core/store.go:686-711 | stored rows of a peer have strictly increasing times |
| `WgHistory.BucketsShowHistory` | core/store.go:927-996 | filter, table and query together: the buckets of a covering range add up to the positive steps of all readings |
| `ResetPeriod.StartIsRecent` | api/server.go:699-711 | for every reset day the period start is a midnight less than 32 days back; it is at or before now and on that day of month if and only if the day has come this month or exists in the month before |
| `ResetPeriod.EarlyDaysExist` | api/server.go:699-711 | which is always so for reset days up to 28 |
| `ResetPeriod.StartIsLatest` | api/server.go:699-711 | where it is so, the start is the latest such midnight |
| `ResetPeriod.StartNeverMovesBack` | api/server.go:699-711 | for every reset day the start never moves backwards as now advances |
| `ResetPeriod.FutureStartExactly` | api/server.go:699-711 | for every reset day the start lies in the future if and only if the reset day has not come this month and the month before is too short for it or for today |
| `ResetPeriod.StartNotFuture` | api/server.go:699-711 | so never for reset days up to 29 |
| `ResetPeriod.FutureStartExample` | api/server.go:699-711 | reset day 31 on 30 March 2025 gives 31 March |
| `SingboxUsers.FindManagedInbounds` | core/config.go:485-515 | finds exactly the positions of managed user inbounds, in order |
| `SingboxUsers.SyncStatsUsers` | core/config.go:533-594 | rewrites the statistics section around the names the loops collect, leaving every other field |
| `SingboxUsers.AddUser` | core/config.go:226-293 | the callback computes the edit or the refusal the specification gives, in every branch |
| `SingboxUsers.RemoveUser` | core/config.go:295-356 | the same for RemoveUser and RemoveUserFromInbound |
| `SingboxUsers.UpdateUser` | core/config.go:359-483 | both callbacks compute the edit or the refusal that the credential laws describe |
| `SingboxAccounts.GetActiveUsers` | core/config.go:111-224 | the accounts are exactly the names some managed inbound holds, each with its tags once, by first occurrence, and its entries merged in order |
| `SingboxAccounts.MergedTakesFirst` | core/config.go:180-210 | a merged account has the first non-empty uuid, flow and security and the first non-zero alter id of its entries |
| `SingboxUserLaws.StatsListsFirstOccurrences` | core/config.go:533-572 | the statistics list is the duplicate-free first-occurrence list of the names in the inbounds it reads |
| `SingboxUserLaws.StatsAndActive` | core/config.go:540-565 | it names exactly the active users and those of untagged inbounds; with a string tag on every user inbound, exactly the active users |
| `SingboxUserLaws.ActiveIsManaged` | core/config.go:130-142 | GetActiveUsers and the edits select the same inbounds |
| `SingboxEditLaws.AddUserLaw` | core/config.go:226-293 | a successful AddUser changes one inbound, makes exactly that name active, keeps names unique within inbounds and leaves the statistics list current |
| `SingboxEditLaws.RemoveUserLaw` | core/config.go:295-356 | a successful removal takes out exactly the entries with the name in the inbounds it touches, keeps all others in order, keeps names unique and leaves the list current |
| `SingboxEditLaws.RemoveUserActive` | core/config.go:295-356 | after a removal every other name is active as before, and the name itself exactly where an untouched inbound holds it: nowhere after RemoveUser |
| `SingboxEditLaws.UpdateUserLaw` | core/config.go:359-483 | new credentials change no name at any place, so a current list stays current even where it is not rewritten |
| `SingboxCredentialLaws.UpdateCredentials` | core/config.go:359-483 | in each inbound the update is about, every entry with the name (the first one, for UpdateUserInInbound) has the credentials asked for and its other fields; every other entry is untouched, less the security field in a VMess inbound; every other inbound is equal |
| `SingboxCredentialLaws.GivenReadsBack` | core/config.go:144-178 | such an entry is read back with the requested credentials |
| `SingboxCredentialLaws.UpdateAcceptedExactly` | core/config.go:359-483 | an update is accepted if and only if an inbound it is about holds the name |
| `SingboxCredentialLaws.AddCredentials` | core/config.go:226-293 | an addition appends an entry with the name and credentials, and no other field, to the first managed inbound with the tag; the entries there are untouched, and every other inbound is equal |
| `SingboxCredentialLaws.AddAcceptedExactly` | core/config.go:226-293 | it is accepted if and only if a tag is given, a managed inbound has it, and the first that has it lacks the name; the reason of a refusal is given |
| `SingboxCredentialLaws.RemoveAcceptedExactly` | core/config.go:295-356 | RemoveUser is accepted whenever an inbound is managed, RemoveUserFromInbound if and only if a managed inbound with the tag holds the name |
| `SingboxUsers.WithStatsElsewhere` | core/config.go:568-594 | outside the user list the rewrite only enables statistics, fills in a missing or empty listen address and copies non-empty tag lists |
| `SingboxAccounts.NewUserReadsBack` | core/config.go:144-178 | an added user is read back with its credentials: the normalised flow of VLESS only, the alter id of VMess only |
| `SingboxAccounts.UpdatedUserReadsBack` | core/config.go:144-178 | so is an updated one, except that an empty VMess uuid uncovers an old id field |
| `SingboxEditLaws.WithoutKeepsOrder` | core/config.go:302-314 | the filtered list is exactly the other users, at increasing positions |
| `SingboxEditLaws.CurrentStatsMeaning` | core/config.go:533-594 | a current list is the first-occurrence list and, with all tags present, equals the active users as a set |
| `SingboxEditLaws.AddThenRemove` | core/config.go:226-356 | adding a user and removing it again gives back every inbound, a VMess inbound cleaned, if no other managed inbound has the tag |
| `SingboxInbounds.DetectPortCollision` | core/singbox_config.go:393-433 | reports nothing if and only if numeric listen ports are pairwise distinct; otherwise the first collision, with the tag that holds the port |
| `SingboxInbounds.AddInbound` | core/singbox_config.go:223-244 | appends the inbound and leaves every other key of the configuration; refuses if and only if its non-empty tag is taken |
| `SingboxInbounds.UpdateInbound` | core/singbox_config.go:260-283 | replaces the first inbound with the tag and leaves all others and every other key; refuses if and only if there is none |
| `SingboxInbounds.DeleteInbound` | core/singbox_config.go:302-326 | leaves exactly the inbounds with another tag, in order, and every other key; refuses if and only if there is a list and no match |
| `SingboxInbounds.WithoutTagIs` | core/singbox_config.go:308-318 | what stays after a deletion is exactly the inbounds with another tag |
| `SingboxInbounds.SyncLists` | core/config.go:647-690 | appends the missing discoverable tags to both lists and reports whether either changed |
| `SingboxInbounds.Discovered` | core/config.go:653-684 | the list grows at its end by missing discoverable tags only, each once, and then holds them all |
| `SingboxInbounds.RenameInList` | core/config.go:728-756 | replaces the first occurrence of the tag and nothing else |
| `SingboxInbounds.DropFromList` | core/config.go:693-725 | leaves exactly the other tags, in order |
| `Panel.Config.Commit` | core/singbox_config.go:74-113 | stores the edited configuration and marks it pending if and only if it was readable, not refused, valid and writable; otherwise nothing changes |
| `Panel.Config.AddSingboxInbound` | core/singbox_config.go:222-252 | is one step of the model: edit, commit, synchronise |
| `Panel.Config.UpdateSingboxInbound` | core/singbox_config.go:255-298 | is one step of the model, renaming in the lists before synchronising, stopping if they cannot be saved |
| `Panel.Config.DeleteSingboxInbound` | core/singbox_config.go:301-334 | is one step of the model, dropping the tag from the lists |
| `Panel.Config.EditUser` | core/config.go:226-483 | is one step of the model for each user operation |
| `Panel.Config.SyncInboundsFromSingbox` | core/config.go:647-690 | brings both lists up to date, or reports that the configuration could not be read or the lists not saved |
| `Panel.Config.RenameInboundInLists` | core/config.go:728-756 | renames in both lists and saves only if one changed |
| `Panel.Config.RemoveInboundFromLists` | core/config.go:693-725 | drops from both lists and saves only if one changed |
| `PanelRuns.StepIsTransactional` | core/singbox_config.go:74-113 | an operation is rejected if and only if the configuration cannot be read or written, the edit refuses, or, with sing-box enabled, its ports collide or the checker rejects it; then nothing changes, otherwise the edit is stored and pending |
| `PanelRuns.DoneExactly` | core/singbox_config.go:222-334 | an operation reports success if and only if it is accepted, what it added or updated could be read back, and the lists could be saved if they changed |
| `PanelRuns.EditKeepsRest` | core/singbox_config.go:74-113 | every edit leaves all keys of the configuration but inbounds and experimental, those that keep the users all but inbounds, and of experimental all but the statistics API |
| `PanelRuns.RunsKeepRest` | core/singbox_config.go:74-113 | so does every run of operations |
| `PanelRuns.InboundRunsKeepRest` | core/singbox_config.go:222-334 | and every run without an operation that rewrites the statistics list changes the inbounds only |
| `PanelRuns.SyncRestores` | core/config.go:647-690 | a completed synchronisation lists every discoverable inbound whatever went before |
| `PanelRuns.StepKeepsListed` | core/singbox_config.go:222-334 | a step that completes its synchronisation keeps every tagged vless, vmess or trojan inbound in both lists |
| `PanelRuns.EditKeepsTagsExactly` | core/singbox_config.go:222-334 | every edit keeps non-empty tags pairwise distinct, an update if and only if no other inbound has the tag it brings, which it does not check |
| `PanelRuns.RunsKeepListed` | core/singbox_config.go:222-334 | so does every run of inbound and user operations |
| `PanelRuns.RunsKeepPortsDistinct` | core/singbox_config.go:356-433 | over every run, whatever replaced the first stored configuration has pairwise distinct numeric ports |
| `PanelRuns.RunsKeepNamesUnique` | core/config.go:226-483 | over every run that brings in no inbound with a repeated name, names stay unique within each inbound |
| `PanelRuns.UserRunsKeepStatsCurrent` | core/config.go:226-483 | over every run of user operations the statistics list stays current |
| `PanelRuns.UserRunsListActive` | core/config.go:111-356 | and, with string tags everywhere, stays the duplicate-free first-occurrence list that names exactly the active users |
| `StatsRuns.InboundEditStatsExactly` | core/singbox_config.go:222-334 | an accepted inbound operation, in every world, keeps a current statistics list current if and only if the names it should have stay the same, with the inbounds and the tag filter after the operation told from the state before it |
| `StatsRuns.StepKeepsStatsExactly` | core/singbox_config.go:222-334 | for every operation in every world: a current list stays current if and only if the step is rejected, is a user operation or meets that condition |
| `StatsRuns.RunsKeepStatsExactly` | core/singbox_config.go:222-334 | a run of user and inbound operations keeps the list current throughout if and only if each of its steps does |
| `StatsRuns.UserStepRestoresStats` | core/config.go:226-483 | an accepted addition or removal of a user, or an update in one inbound, makes even a stale list current |
| `StatsRuns.FilterAfterStep` | core/config.go:647-756 | the tag filter after an accepted inbound operation: the tags found by a synchronisation that is reached join, a deleted tag leaves, a renamed one leaves unless it was listed twice |
| `StatsRuns.AddKeepsStatsExactly` | core/singbox_config.go:222-252 | an accepted addition, whatever is listed or managed, keeps the list current if and only if the inbounds there give the same names under the filter it leaves and the new one, if selected, brings no other |
| `StatsRuns.AddToManagedExactly` | core/singbox_config.go:222-252 | with everything listed and some tag managed: if and only if the new inbound is not selected or brings no new name |
| `StatsRuns.FirstInboundStatsExactly` | core/singbox_config.go:222-252 | for the first inbound of a panel: if and only if it is not selected or has no named user |
| `StatsRuns.FirstInboundExample` | core/singbox_config.go:222-252 | so the first inbound with a user leaves the list of a fresh panel stale |
| `StatsRuns.StaleStatsExample` | core/singbox_config.go:222-252 | so does one added while another tag is managed |
| `StatsRuns.DeleteWidensExample` | core/singbox_config.go:301-334 | deleting the only managed inbound leaves the list without the users of an inbound that now counts |
| `PanelRuns.StepKeepsListedExactly` | core/singbox_config.go:222-334 | for every operation in every world, from a state with everything listed: the step leaves everything listed if and only if it is rejected or its condition on the lists and inbounds before it holds |
| `PanelRuns.RunsKeepListedExactly` | core/singbox_config.go:222-334 | a run keeps everything listed throughout if and only if each of its steps does |
| `PanelRuns.UnreadUpdateExactly` | core/singbox_config.go:260-297 | after an update that was not read back and renamed nothing, all is still listed if and only if a discoverable new inbound has its tag in both lists |
| `PanelRuns.UnsyncedRenameExactly` | core/singbox_config.go:289-297 | after a rename that was not followed by a synchronisation, all is still listed if and only if each list had the old or the new tag of a discoverable inbound, and had the old tag twice when another inbound shares it |
| `PanelRuns.RenamedHas` | core/config.go:728-756 | a rename leaves the old tag if it was there twice, the new one if either was, and all others |
| `PanelRuns.UnreadAddExactly` | core/singbox_config.go:246-252 | an added inbound that could not be read back leaves all listed if and only if its tag was already in both lists |
| `PanelRuns.UnreadAddExample` | core/singbox_config.go:246-252 | so an added inbound can be stored and unlisted |
| `PanelRuns.UnreadUpdateExample` | core/singbox_config.go:285-297 | so can one whose type changes in place, when it is not read back |
| `PanelRuns.UnsavedRenameExample` | core/singbox_config.go:289-297 | so can a renamed one, when the lists cannot be saved |
| `PanelRuns.UpdateCollidesExample` | core/singbox_config.go:255-283 | an update can give two inbounds the same tag |

## Left out

- WgRuns.FileRunsKeepGood: requests have no line breaks and bounded fields, and generated or derived public keys are plain text, because the invariant is false otherwise; `WgRuns.FileRunsExactly` is the statement for every run.
- WgRuns.SavedStaysGood: the same bound on the lines; `WgRuns.LinedGoodExactly` and `WgRuns.SavedGoodExactly` are the statements without it.
- WgRoundTrip.LoadPrinted: lines of 64 KiB or more are excluded, at the first of which the loader silently stops; `WgLimits.RoundTripExactly` and `WgBlocks.LoadSees` cover them.
- WgFile.WireGuardConfig.Save: once the file is created every write succeeds; the source ignores write errors there, so a truncated file with a reported success is possible and not modelled.
- PanelRuns.RunsKeepListed: assumes that the configuration can be read back after an inbound operation and that the lists are saved on a rename; `PanelRuns.RunsKeepListedExactly` is the statement for every world.
- LogReader.SearchFileLines: the chunk size is a parameter (64 KiB in the source), the case-insensitive query is an arbitrary predicate on lines, and the file does not grow while it is read.
- Resampler.Resample: takes a time-sorted history, which is what the query in front of it delivers.
- WgSampler.FilterPreservesSum: a device map has one entry per peer.
- WgSampler.Sampler.RunSample: handshake times, endpoints, the run log and the slice of the first eight characters of a key are not modelled; they do not enter any traffic sum.
- Database.Database.Maintain: the WireGuard prune and rollup and the vacuum of the same closure are left out; the sing-box tables do not depend on them.
- ResetPeriod.PeriodStart: dates are in UTC and from year 2 on; other time zones have days that are not 24 hours long.
- Calculator.StoredAtMostMeasured: the counters read from the core are taken to be non-negative.
- Database.Database.CompressOldSamples: tables are maps and transactions are all or nothing; 64-bit overflow, schema migration and vacuuming are not part of this model.
- Panel.Config.Commit: a write either replaces the stored configuration or fails; a partly written file, a configuration that decodes to the JSON value null, and the locks are not modelled. Decoded JSON is a value, so the in-place edits of nested maps become new values; each decoded map has one owner in the source, so nothing is shared.
- Ascii.Trim: ASCII white space and letters only; Unicode white space and case folding are not modelled.
- WgPeers.NormalizeAllowedIPs: IPv6 text is not modelled, so a list with an IPv6 entry is refused where the source accepts it.
- WgHandlers.AssignAddress: with an IPv6 first interface address the source refuses automatic assignment, where the model takes the fallback subnet 10.100.0.0/24.
- WgHandlers.HandleCreate: both consequences; the invariants over runs speak of IPv4 entries.
- WgHandlers.HandleUpdate: a dual-stack list is refused where the source accepts it.
- Restoring a peer, raw edits of either configuration file and updates of the interface: they make none of the checks the invariants rest on.
- The handlers' peer metadata, QR cache and live synchronisation of the device: they do not change the configuration.
- The rollup of WireGuard samples: it sums cumulative counters and no traffic query reads its table.
- Pagination of the log search, the journal reader and the log watcher: pages of a growing match list overlap, and the watcher may consume half-written lines.
- Query errors inside reports, the top consumers of the dashboard and all caches: plumbing around the queries that are modelled.
- Web handlers beyond the named fragments, authentication, link building, certificates and the user interface: nothing there adds a harder property.
