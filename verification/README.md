# chrony-rs-core: verified models

This project models the stateful indexes and protocol machines of the `chrony-rs-core` crate in
Dafny and proves what they promise. Each file is one component; imperative parts of the source
are classes, loops and arrays here, proved against specification functions about which the
promised properties are then proved.

- **Client log, timestamps** (`TimestampOrder`, `TxOffset`, `TimestampMap`): the circular buffer
  that maps receive timestamps to transmit timestamps. It stays strictly ordered by wrapping
  64-bit distance over every run of calls; the mixed interpolation and binary search answers like
  a linear scan within twice the logarithm of the size; saving loses only far-future stamps and at
  most one other, and every lookup after a save, update or disable is answered as they promise.
- **Client log, records** (`ClientSlots`, `ClientLog`): the hash table of sixteen-record slots
  whose doubling calls back into lookup. Doubling never re-enters itself, evicts nobody and loses
  nothing; occupied records plus evictions always equal records created, and the client evicted is
  the one of its slot that was silent longest.
- **Client log, rate limiter** (`TokenBucket`): the token bucket over 32-bit fixed-point time. No
  configuration and no pair of timestamps overflows, and over a record's whole life, across any
  number of wraps of the clock, the responses paid for never exceed one bucket plus the refill that
  the true elapsed time is worth, plus one bucket per wrap for a coarse resolution only. The other
  way round, a client that keeps to the configured interval is never dropped, and no client is within
  its first burst.
- **NTP source table** (`Probing`, `SourceTable`): open addressing with triangular probing cut off
  at half the table. Every run of calls with valid families refines a finite map from address to
  port, because triangular numbers are distinct modulo a power of two.
- **Access control** (`AddressRules`, `AddressFilter`, `AuthTable`): the 4-bit radix trie, built of
  heap nodes. Its verdict is the simple reading of the rule history: among the surviving rules
  that cover an address the greatest level (in nibbles, not bits) wins, the latest on ties.
- **MS-SNTP signing bridge** (`SigndFrames`, `SigndBridge`, `SigndRuns`): the ring queue driven by
  writable and readable events. For every interleaving of enqueues, short writes, short reads, errors
  and resets, everything emitted is a function of the events: what the frames of each connection emit
  for the accepted requests, one each and in order. Two runs that read the same streams emit the
  same, however the streams were cut, as long as no read crosses a frame end. Signing responses sent
  for all requests reach exactly the clients that asked.
- **MD5** (`Md5`): streaming against the padded fold of RFC 1321, with the table-driven rounds
  against section 3.4.
- **NTS key ring and cookies** (`KeyText`, `KeyDump`, `Cookie`): the dump text and its exact round
  trip; cookies that survive a restart (section 6 of RFC 8915).
- **Frame parsing** (`UdpFrames`): the UDP payload of raw Ethernet frames, against a grammar of
  frames (section 4 of RFC 8200 for the IPv6 extension headers).
- **Frequency algebra** (`LocalClock`, `HwClock`): temperature compensation, announced frequency
  changes and the hardware clock model, over real numbers instead of 64-bit floats. After any run of
  slews of the local clock every hardware time is cooked to where the slews carried it, within the
  sample error times the total frequency change.

## Where the code and its promises differ

- The search of the timestamp buffer is meant to work across adjacent NTP eras, and its comparisons
  do. Its interpolation subtracts keys with checked arithmetic, which panics when an uncached key
  lies strictly inside a list of five or more stamps that straddles an era boundary. `Answer` keeps
  that panic as `Overflow`, `EraTrapReached` is a run of five saves and a lookup that ends in it, and
  every search is proved to trap in exactly that case.
- Moving a source to an unspecified address breaks the source table: the record can no longer be
  found and may evict another one at the next rehash. `MovedRefines` proves that the refinement
  survives a move exactly when the new family is valid; `UnspecifiedEvicts` shows the loss, and
  `MoveLosesAnother` is a table and a move after which another source is no longer found.
- With a resolution coarser than one tick, the first hit after the 32-bit time wraps finds a full
  bucket (`WrapFillsBucket`). The tokens earned are within what the elapsed time is worth if and only
  if the resolution is at least a tick or the time did not wrap (`EarnedIsWorth`); `ClockBudget`
  carries the budget across all wraps, with one bucket more for each of them in the coarse case.
- The comparison of hit times is documented to treat "never" as the smallest. It does so if and only
  if the other time is at most 2^31 (`NeverIsFirst`): beyond, a client that only used the second
  service counts as never seen (`HitIsHidden`).
- A hit earns nothing if the 32-bit time since the last one reads as half an era or more, or if the
  last one fell on time zero (`RefilledIsGain`); `PoliteIsServed` leaves out these gaps.
- The signing bridge discards whatever a read returns beyond the end of a frame. A session yields the
  frames of the stream if and only if no read crosses a frame end (`SessionIsIdeal`); any other one
  loses bytes (`SessionLoses`). `CrossingReadHappens` is a run in which two responses arrive at once
  and the second request is left waiting.
- When a response finishes the last waiting request, the writable event stays enabled if and only if
  that request was not fully written (`OnInput`, `Finish`). The event then writes what is left in
  an unused slot (`OnOutput`): `StaleBytesHappen` is a run that sends a request abandoned by a reset.
  As long as no response comes before its request is written, nothing but requests is (`Replay`).
- A cookie made from session keys of any length but 16 or 32 bytes is issued and later refused
  (`CookieComesBack`).
- The frame parser accepts IPv4 headers whose length field is below the 20 fixed bytes
  (`ShortFrameIsAccepted`); apart from those it accepts exactly the frames of the grammar
  (`AcceptedExactly`). Its documentation reads a length of zero as failure; an empty payload also
  has length zero, and the address family tells them apart (`ExtractUdpData`).

## Model

| member | source | states |
|---|---|---|
| TimestampOrder.OrderedByDistance | crates/chrony-rs-core/src/clientlog.rs:1005-1014 | the pairwise wrapping order used by the comparisons is the same as strictly increasing distance from the oldest stamp with a span below 2^63, non-zero and duplicate-free keys |
| TimestampOrder.ScanFindsKey | crates/chrony-rs-core/src/clientlog.rs:992-1060 | a linear scan finds a key exactly if it is stored, at its only index |
| TimestampOrder.SaveKeepsOrder | crates/chrony-rs-core/src/clientlog.rs:1118-1193 | saving a fresh key under any of the three insertion policies keeps the order and the capacity, and the stamp is in the map |
| TimestampOrder.SaveLosses | crates/chrony-rs-core/src/clientlog.rs:1149-1180 | a save loses only stamps more than 2^32 units ahead plus at most one other: the one right before the new stamp if more than 64 of those left would have to move, else the oldest if they fill the buffer; survivors are unchanged and the new size is exact |
| TimestampOrder.SaveTrims | crates/chrony-rs-core/src/clientlog.rs:1149-1163 | after a save no stamp is more than 2^32 units newer than the saved one |
| TimestampOrder.DisabledDies | crates/chrony-rs-core/src/clientlog.rs:1263-1274 | disabling a key takes exactly that key out of the keys that are answered |
| TimestampOrder.WideBracket | crates/chrony-rs-core/src/clientlog.rs:1026-1044 | the interpolation's subtractions underflow exactly in the era trap and are safe otherwise |
| TimestampOrder.WholeBracket | crates/chrony-rs-core/src/clientlog.rs:1005-1014 | the two comparisons with the ends settle the search or bracket the key |
| TimestampOrder.EraTrapHappens | crates/chrony-rs-core/src/clientlog.rs:1008-1035 | a stored key that a linear scan finds makes the search panic: the adjacent-era promise fails |
| TxOffset.Normalise | crates/chrony-rs-core/src/clientlog.rs:159-168 | normalising keeps the instant and brings the nanoseconds into range |
| TxOffset.TxRoundTrip | crates/chrony-rs-core/src/clientlog.rs:1075-1115 | a transmit time survives the 32-bit offset exactly if it lies within two seconds of the receive time, and then comes back normalised with its source |
| TxOffset.SavedIsRetrievable | crates/chrony-rs-core/src/clientlog.rs:1118-1193 | after saving a fresh key, looking it up ends on the new stamp and returns exactly the normalised transmit time whenever it is in the window |
| TxOffset.FetchedIsLive | crates/chrony-rs-core/src/clientlog.rs:1247-1260 | a lookup answers if and only if the key is stored and not disabled |
| TxOffset.DisabledIsGone | crates/chrony-rs-core/src/clientlog.rs:1247-1274 | after a disable the key has no answer and every other key has the answer it had |
| TxOffset.UpdatedIsFetched | crates/chrony-rs-core/src/clientlog.rs:1226-1260 | an updated transmit time is what the next lookup returns, the zero time outside the window; a disabled or missing key stays without an answer, and other keys keep theirs |
| TxOffset.SavedKeepsOthers | crates/chrony-rs-core/src/clientlog.rs:1118-1193 | every other key still stored after a save is answered as before |
| TimestampMap.RingSlotIsModulo | crates/chrony-rs-core/src/clientlog.rs:986-988 | the one-wrap position is the sum modulo the buffer length |
| TimestampMap.Probe | crates/chrony-rs-core/src/clientlog.rs:1030-1044 | every probe, interpolated or halved, lies strictly inside the bracket |
| TimestampMap.Guess | crates/chrony-rs-core/src/clientlog.rs:1030-1035 | for every buffer of at most 2^24 stamps neither the quotient cast to 32 bits nor the sum leaves them, and the guess overshoots by at most a factor of two |
| TimestampMap.ProbeBound | crates/chrony-rs-core/src/clientlog.rs:1016-1059 | n probes need a first bracket of at least 2^((n+1)/2): the search ends within twice the logarithm |
| TimestampMap.SaveAnswers | crates/chrony-rs-core/src/clientlog.rs:1118-1260 | a lookup after a save: nothing for a key that was stored before, else the normalised transmit time in the window and the zero time outside or without one |
| TimestampMap.NtpTimestampMap.Search | crates/chrony-rs-core/src/clientlog.rs:992-1060 | the uncached search answers like the linear scan, except in the era trap, and its brackets halve at every second probe |
| TimestampMap.NtpTimestampMap.Find | crates/chrony-rs-core/src/clientlog.rs:992-1060 | the cached search gives the same answers, and the cache names the index that really holds its key |
| TimestampMap.NtpTimestampMap.Push | crates/chrony-rs-core/src/clientlog.rs:1063-1071 | the ring grows by one cell or drops its oldest stamp, and the index follows |
| TimestampMap.NtpTimestampMap.Trim | crates/chrony-rs-core/src/clientlog.rs:1152-1163 | exactly the far-future tail is cut, never below the insertion point |
| TimestampMap.NtpTimestampMap.Save | crates/chrony-rs-core/src/clientlog.rs:1118-1193 | the buffer after a save is the specified list, the invariant holds, it traps exactly in the era trap, and the key is then answered with the saved time or, saved a second time, not at all |
| TimestampMap.NtpTimestampMap.UpdateTx | crates/chrony-rs-core/src/clientlog.rs:1226-1243 | only the stamp of the key changes |
| TimestampMap.NtpTimestampMap.Disable | crates/chrony-rs-core/src/clientlog.rs:1263-1274 | the key leaves the answered keys and no other does, the next lookup of it gives nothing, and the call counts as one interleaved hit |
| TimestampMap.NtpTimestampMap.GetTx | crates/chrony-rs-core/src/clientlog.rs:1247-1260 | reading changes no stamp and returns what was stored under the key |
| TimestampMap.NtpTimestampMap.HandleSlew | crates/chrony-rs-core/src/clientlog.rs:1196-1203 | an unknown step empties the map; other slews keep every stamp |
| TimestampMap.NtpTimestampMap.Replay | crates/chrony-rs-core/src/clientlog.rs:986-1274 | over every run of calls the buffer stays ordered, the cache stays right, only saved keys ever appear, and a key once disabled is answered again only if it is saved again |
| TimestampMap.EraTrapReached | crates/chrony-rs-core/src/clientlog.rs:986-1274 | five saves around the end of an era and a lookup of the third key end in the panic |
| TokenBucket.Scale | crates/chrony-rs-core/src/clientlog.rs:547-555 | the shift found is the least at which a full bucket fits 16 bits, and at most 8 |
| TokenBucket.SetBucketParams | crates/chrony-rs-core/src/clientlog.rs:542-565 | for every interval and burst, clamped to their limits, no cast loses bits, the bucket holds the burst, and one hit is paid back in exactly the configured interval, at the finest resolution that fits |
| TokenBucket.ConfiguredServes | crates/chrony-rs-core/src/clientlog.rs:542-565 | configured so, the bucket pays for a whole burst, and one response is earned back in the configured interval or one tick |
| TokenBucket.RefillFits | crates/chrony-rs-core/src/clientlog.rs:818-833 | no addition or shift of a refill leaves 32 bits, for any configuration and any two timestamps, across the wrap included |
| TokenBucket.Refilled | crates/chrony-rs-core/src/clientlog.rs:803-833 | a refill never lowers the tokens and never exceeds the bucket |
| TokenBucket.RefilledIsGain | crates/chrony-rs-core/src/clientlog.rs:803-833 | the tokens after a hit are those before plus what the step earns, up to the bucket, and unchanged on the first hit |
| TokenBucket.WrapFillsBucket | crates/chrony-rs-core/src/clientlog.rs:818-833 | across the wrap a coarse bucket is filled completely |
| TokenBucket.EarnedIsWorth | crates/chrony-rs-core/src/clientlog.rs:818-833 | the tokens earned are within what the wrapped elapsed time is worth if and only if the resolution is at least a tick or the time did not wrap |
| TokenBucket.AnyTimesBudget | crates/chrony-rs-core/src/clientlog.rs:803-962 | for any times of the hits, paid responses times their price plus the tokens left never exceed one bucket plus what each step between hits earns at most |
| TokenBucket.TokenBudget | crates/chrony-rs-core/src/clientlog.rs:803-962 | over any interleaving of hits and responses with non-decreasing times, paid responses times their price plus the tokens left never exceed one bucket plus the telescoped refill between first and last hit |
| TokenBucket.ClockBudget | crates/chrony-rs-core/src/clientlog.rs:803-962 | in true time, over any number of wraps, the excess over one bucket is at most what the whole elapsed time is worth, plus one bucket per wrap for a coarse resolution |
| TokenBucket.PaysAfterHit | crates/chrony-rs-core/src/clientlog.rs:803-962 | a client whose hits are at least the interval and less than half an era apart can pay for a response after each of them |
| TokenBucket.PoliteIsServed | crates/chrony-rs-core/src/clientlog.rs:803-962 | every response to such a client is paid for, over its whole life |
| TokenBucket.FirstBurstIsServed | crates/chrony-rs-core/src/clientlog.rs:803-962 | the first burst of responses of a client is paid for, whatever the times of its hits |
| TokenBucket.PaidOrDropped | crates/chrony-rs-core/src/clientlog.rs:927-962 | no response is both paid for and dropped, and without leaks each is one of the two |
| ClientSlots.SlotSplits | crates/chrony-rs-core/src/clientlog.rs:667-692 | doubling sends the records of one slot to itself or to the slot one old table length further on |
| ClientSlots.BehindHasRoom | crates/chrony-rs-core/src/clientlog.rs:683-692 | while records are put back, the slot of the next one always has room |
| ClientSlots.BehindAdvances | crates/chrony-rs-core/src/clientlog.rs:683-692 | putting one record back keeps that true for all the others |
| ClientSlots.Packed | crates/chrony-rs-core/src/clientlog.rs:696-777 | the occupied records of a slot form a prefix |
| ClientSlots.Absent | crates/chrony-rs-core/src/clientlog.rs:714-753 | a client not met before the first vacant record, or in a full slot, is not in the table at all |
| ClientLogs.CompareIsOrder | crates/chrony-rs-core/src/clientlog.rs:496-510 | within half an era the wrapping comparison is the order of time |
| ClientLogs.NeverIsFirst | crates/chrony-rs-core/src/clientlog.rs:496-510 | a client never seen compares below a time if and only if that time is at most 2^31 |
| ClientLogs.LatestIsLatest | crates/chrony-rs-core/src/clientlog.rs:726-730 | the last hit of a record is one of its three and none of them is later |
| ClientLogs.HitIsHidden | crates/chrony-rs-core/src/clientlog.rs:496-730 | a client that only used the second service counts as never seen if and only if its hit is beyond 2^31 |
| ClientLogs.VictimIsFirst | crates/chrony-rs-core/src/clientlog.rs:732-764 | the record the scan names is the client of its slot that was silent longest, among equals one with the fewest hits |
| ClientLogs.ScanSlot | crates/chrony-rs-core/src/clientlog.rs:708-748 | the scan stops at the client, or at the first vacant record, or reports the slot full and the record silent longest, with the fewest hits among equals, whenever the last hits of the slot lie within half an era |
| ClientLogs.ClientLog.ExpandHashtable | crates/chrony-rs-core/src/clientlog.rs:667-692 | the table doubles exactly when it may; every client, record and history is kept, nothing is evicted or created |
| ClientLogs.ClientLog.GetRecord | crates/chrony-rs-core/src/clientlog.rs:696-777 | a known client is found and nothing changes; a new one gets a full-bucket record; a client of the same slot is evicted only when the table cannot grow, and then the one silent longest; addresses stay unique, in the slot of their hash, and created equals kept plus evicted |
| ClientLogs.ClientLog.FindCell | crates/chrony-rs-core/src/clientlog.rs:707-764 | the retry loop terminates and grows the table only for a new client whose slot is full |
| ClientLogs.ClientLog.UpdateRecord | crates/chrony-rs-core/src/clientlog.rs:803-833 | a hit refills the bucket of that client and service by what the time since the last hit earns, counts and dates the hit, and touches nothing else |
| ClientLogs.ClientLog.LogServiceAccess | crates/chrony-rs-core/src/clientlog.rs:901-910 | the hit is counted, and logged on the client's own record, created if need be |
| ClientLogs.ClientLog.LimitServiceRate | crates/chrony-rs-core/src/clientlog.rs:927-962 | a response is dropped, and counted as dropped, exactly if the service is limited, the bucket cannot pay and the leak does not let it through; one that goes out costs the price of a hit, as far as tokens are left |
| ClientLogs.ClientLog.EveryClientIsLimited | crates/chrony-rs-core/src/clientlog.rs:667-962 | in every reachable table every logged client obeys the token budget, whatever expansions and evictions happened meanwhile |
| ClientLogs.ClientLog.EveryClientIsLimitedForever | crates/chrony-rs-core/src/clientlog.rs:667-962 | the same in true time, across the wraps of the 32-bit time |
| ClientLogs.ClientLog.CountsEverything | crates/chrony-rs-core/src/clientlog.rs:803-962 | the record of every client counts exactly its hits and its dropped responses since it was created, modulo 2^32 and 2^16, whatever happened to the table |
| ClientLogs.ClientLog.PoliteClientIsServed | crates/chrony-rs-core/src/clientlog.rs:667-962 | in every reachable table a client with hits at least the interval apart had every response paid, shows no drops and can pay for the next |
| ClientLogs.ClientLog.FirstBurstOfClient | crates/chrony-rs-core/src/clientlog.rs:667-962 | so was the first burst of responses of every client |
| ClientLogs.ClientLog.Replay | crates/chrony-rs-core/src/clientlog.rs:667-962 | over every run of accesses, lookups and responses the table stays valid, records plus evictions equal records created, the hit totals count exactly the accesses, and every client is within its budget |
| Probing.TriFormula | crates/chrony-rs-core/src/ntp_sources.rs:199-217 | the closed probe offset is the triangular number |
| Probing.TriangularDistinct | crates/chrony-rs-core/src/ntp_sources.rs:199-217 | probes below the table size never repeat modulo a power of two |
| Probing.WalkReachesEmpty | crates/chrony-rs-core/src/ntp_sources.rs:199-217 | with the table at most half full, the walk of an absent address ends on an empty slot |
| Probing.HoldsRefines | crates/chrony-rs-core/src/ntp_sources.rs:199-217 | lookup succeeds exactly for the addresses of the map |
| Probing.PlaceExtends | crates/chrony-rs-core/src/ntp_sources.rs:232-297 | one more source fits and every source stays reachable |
| Probing.TableSizeIsLeast | crates/chrony-rs-core/src/ntp_sources.rs:61-63 | the size is the least power of two at least twice the source count |
| Probing.RehashRefines | crates/chrony-rs-core/src/ntp_sources.rs:252-267 | rehashing keeps exactly the same sources, all reachable |
| SourceTables.AddedExactly | crates/chrony-rs-core/src/ntp_sources.rs:275-297 | an addition succeeds exactly for a new address of a valid family with a name or a real address below the limit; then the source is listed with its port, the count is one more and all others keep their ports; each refusal has its status and changes nothing |
| SourceTables.ChangedExactly | crates/chrony-rs-core/src/ntp_sources.rs:328-343 | a move succeeds exactly if the old source is listed, the new one differs and its address is free or the same; then the new one is listed in place of the old, all others keep their ports; each refusal has its status and changes nothing |
| SourceTables.ThereAndBack | crates/chrony-rs-core/src/ntp_sources.rs:328-343 | moving back restores the sources |
| SourceTables.UpdatedExactly | crates/chrony-rs-core/src/ntp_sources.rs:355-369 | the same for an update, which also demands real addresses and refuses a taken address even for an unknown source |
| SourceTables.RemovedExactly | crates/chrony-rs-core/src/ntp_sources.rs:376-385 | a removal takes exactly the named source, and undoes an addition |
| SourceTables.MovedRefines | crates/chrony-rs-core/src/ntp_sources.rs:328-343 | moving a source and rehashing refines the changed map if and only if the new family is valid |
| SourceTables.UnspecifiedEvicts | crates/chrony-rs-core/src/ntp_sources.rs:252-267 | re-inserting an unspecified address overwrites the source in slot 0 |
| SourceTables.MoveEvicts | crates/chrony-rs-core/src/ntp_sources.rs:252-343 | of two sources, moving one to an unspecified address and rehashing loses the one in slot 0 |
| SourceTables.MoveLosesAnother | crates/chrony-rs-core/src/ntp_sources.rs:134-343 | with the seed 1 of the address hash, a table and a successful move after which another source is no longer found |
| SourceTables.SourceTable.FindSlot | crates/chrony-rs-core/src/ntp_sources.rs:199-217 | the probing loop answers for the map of sources |
| SourceTables.SourceTable.FindSlot2 | crates/chrony-rs-core/src/ntp_sources.rs:221-228 | the address-and-port lookup agrees with the map |
| SourceTables.SourceTable.Rehash | crates/chrony-rs-core/src/ntp_sources.rs:252-267 | the resized table holds the same sources |
| SourceTables.SourceTable.AddSource | crates/chrony-rs-core/src/ntp_sources.rs:275-297 | status and new map of an addition, with the refinement and the table size kept |
| SourceTables.SourceTable.ChangeSourceAddress | crates/chrony-rs-core/src/ntp_sources.rs:328-343 | status and new map of a move are the ones of `ChangedExactly`; the refinement survives exactly for valid families |
| SourceTables.SourceTable.UpdateSourceNtpAddress | crates/chrony-rs-core/src/ntp_sources.rs:355-369 | status and new map of an update are the ones of `UpdatedExactly` |
| SourceTables.SourceTable.RemoveSource | crates/chrony-rs-core/src/ntp_sources.rs:376-385 | exactly the named source disappears and all others stay reachable |
| SourceTables.SourceTable.RemoveAll | crates/chrony-rs-core/src/ntp_sources.rs:408-414 | the table is empty and of least size |
| SourceTables.SourceTable.Replay | crates/chrony-rs-core/src/ntp_sources.rs:174-414 | over every run of additions, moves, updates and removals with valid families the table refines the map and keeps the least power-of-two size |
| AddressRules.CoversIsMatch | crates/chrony-rs-core/src/addrfilt.rs:84-169 | a subnet of any width covers an address exactly if the address's path runs through one of the nodes the rule sets |
| AddressRules.LayerIsLatest | crates/chrony-rs-core/src/addrfilt.rs:117-169 | each level of the history is decided by its latest surviving rule |
| AddressRules.ReadingIsWinner | crates/chrony-rs-core/src/addrfilt.rs:117-191 | the reading is the verdict of the deepest, then latest, surviving rule, and deny without one |
| AddressFilter.TableNode.Open | crates/chrony-rs-core/src/addrfilt.rs:104-108 | opening a node adds sixteen inheriting children and changes no explicit state |
| AddressFilter.TableNode.Close | crates/chrony-rs-core/src/addrfilt.rs:111-113 | closing a node prunes exactly what is below it |
| AddressFilter.TableNode.SetSubnet | crates/chrony-rs-core/src/addrfilt.rs:117-169 | the trie after a rule is the trie before with exactly that rule written in, for every width; bad widths change nothing, and the height bound is kept |
| AddressFilter.TableNode.CheckIp | crates/chrony-rs-core/src/addrfilt.rs:173-191 | the loop computes the last explicit state on the path and never reads past the address |
| AddressFilter.WalkIsDeepest | crates/chrony-rs-core/src/addrfilt.rs:173-191 | walking down and remembering finds the deepest explicit state |
| AddressFilter.VerdictIsReading | crates/chrony-rs-core/src/addrfilt.rs:173-191 | the trie's verdict is the reading of the rule history |
| AddressFilter.AnyAllowedMeaning | crates/chrony-rs-core/src/addrfilt.rs:194-204 | the recursion is true exactly if some full path below the node resolves to allow |
| AuthTables.AuthTable.SetSubnet | crates/chrony-rs-core/src/addrfilt.rs:230-283 | an accepted rule is added to the history of the families it applies to; a rejected one changes nothing |
| AuthTables.AuthTable.IsAllowed | crates/chrony-rs-core/src/addrfilt.rs:286-291 | the answer for an address is the reading of all rules given so far |
| AuthTables.AuthTable.IsAnyAllowed | crates/chrony-rs-core/src/addrfilt.rs:295-298 | true exactly if some address of the family is allowed |
| AuthTables.AuthTable.Replay | crates/chrony-rs-core/src/addrfilt.rs:209-299 | for every history of rules both tries answer for it |
| AuthTables.VerdictIsWinner | crates/chrony-rs-core/src/addrfilt.rs:286-291 | the verdict stated without trie or levels: the winning rule decides, default deny |
| AuthTables.SomeAddressAllowed | crates/chrony-rs-core/src/addrfilt.rs:295-298 | an allowed leaf is an allowed address and the other way round |
| SigndFrames.SerialisedRoundTrip | crates/chrony-rs-core/src/ntp_signd.rs:236-248 | length, version, operation, slot id, padding, key id and packet can be read back from the serialised request |
| SigndFrames.FieldsOfFrame | crates/chrony-rs-core/src/ntp_signd.rs:312-365 | version, operation, id and payload of a response can be read back from its frame |
| SigndFrames.ResponseIsComplete | crates/chrony-rs-core/src/ntp_signd.rs:312-327 | the frame of every response with at most a full NTP packet of payload is complete, whatever follows it |
| SigndFrames.CompleteIsResponse | crates/chrony-rs-core/src/ntp_signd.rs:312-327 | every complete frame is the frame of a response |
| SigndFrames.PartIsWaiting | crates/chrony-rs-core/src/ntp_signd.rs:312-327 | every proper prefix of such a frame waits for more |
| SigndFrames.BrokenExactly | crates/chrony-rs-core/src/ntp_signd.rs:312-327 | the connection is given up exactly for a length field out of bounds |
| SigndFrames.ResponsesAreFrames | crates/chrony-rs-core/src/ntp_signd.rs:298-335 | the frames of a stream of responses are those responses, with nothing left over |
| SigndFrames.JudgeStable | crates/chrony-rs-core/src/ntp_signd.rs:312-327 | a decision never changes when more bytes arrive |
| SigndFrames.ChunkingIrrelevant | crates/chrony-rs-core/src/ntp_signd.rs:298-329 | reading an exchange in any pieces up to the first decision equals judging all its bytes at once |
| SigndFrames.WaitingHasRoom | crates/chrony-rs-core/src/ntp_signd.rs:299-327 | while an exchange is undecided the receive buffer has room for another read |
| SigndFrames.SessionIsIdeal | crates/chrony-rs-core/src/ntp_signd.rs:298-335 | over many exchanges a chunking yields the frames of the stream, in order, and its rest if and only if no read crosses the end of a frame |
| SigndFrames.SessionLoses | crates/chrony-rs-core/src/ntp_signd.rs:298-335 | the frames and the rest of a session account for every byte of the stream if and only if no read crosses the end of a frame |
| SigndFrames.CrossingReadLoses | crates/chrony-rs-core/src/ntp_signd.rs:298-335 | one read of two whole responses: the stream has both frames, the session only the first |
| SigndBridges.AtMostOneEach | crates/chrony-rs-core/src/ntp_signd.rs:329-365 | emissions answer strictly increasing requests, so at most one each and in queue order |
| SigndBridges.SigndBridge.Open | crates/chrony-rs-core/src/ntp_signd.rs:188-198 | an open connection is reused with its writable event as it was, a new one starts with the event off |
| SigndBridges.SigndBridge.Close | crates/chrony-rs-core/src/ntp_signd.rs:201-206 | a reset drops connection and queue and emits nothing |
| SigndBridges.SigndBridge.SignAndSendPacket | crates/chrony-rs-core/src/ntp_signd.rs:212-266 | a request is queued exactly if enabled, fewer than fifteen wait, it is a bare header and a socket is there; it then waits as the last one in serialised form; a refused one changes nothing, not even the connection |
| SigndBridges.SigndBridge.OnOutput | crates/chrony-rs-core/src/ntp_signd.rs:272-292 | what is written continues the head's request, the writable event goes off exactly when its serialised form is complete, and bytes go out for no request only on an empty queue, where the event is on exactly after an early response |
| SigndBridges.SigndBridge.OnInput | crates/chrony-rs-core/src/ntp_signd.rs:293-337 | the bytes so far decide: wait, reset, or finish the head and emit its payload exactly if id, op and client socket fit; the connection stays open, the next exchange starts with an empty buffer and an enabled event, with none waiting the event stays on exactly if the request was not fully written, and exactly then the request counts as answered too soon; `SigndRuns.Deliver` says it for a response in any cut |
| SigndBridges.SigndBridge.Finish | crates/chrony-rs-core/src/ntp_signd.rs:329-365 | a finished frame emits to the recorded addresses exactly if it answers the head; the next request is untouched and becomes writable |
| SigndRuns.ViewTold | crates/chrony-rs-core/src/ntp_signd.rs:188-365 | the story of connections told from the events alone shows after each event what that event does |
| SigndRuns.Happen | crates/chrony-rs-core/src/ntp_signd.rs:188-365 | so does the bridge: connection, free slot, accepted requests, emissions, head and receive buffer after any event are the specified ones |
| SigndRuns.HeardIsStream | crates/chrony-rs-core/src/ntp_signd.rs:293-335 | a connection is heard as the frames of its stream if and only if no read crosses a frame end |
| SigndRuns.SigndRun.EmittedIsSent | crates/chrony-rs-core/src/ntp_signd.rs:188-365 | in every state of every run, everything emitted is what the frames heard over the connections emit for the accepted requests, one each and in order; without crossing reads these are the frames of the streams |
| SigndRuns.SigndRun.HeadIsNext | crates/chrony-rs-core/src/ntp_signd.rs:188-365 | the head request is the one behind the frames of the last connection, and its buffer is the rest of that stream |
| SigndRuns.CutsDoNotMatter | crates/chrony-rs-core/src/ntp_signd.rs:188-365 | two runs that accept the same requests and read the same streams emit the same, whatever events came between the reads and however the streams were cut, if no read crosses a frame end |
| SigndRuns.EveryClientServed | crates/chrony-rs-core/src/ntp_signd.rs:329-365 | a queue of requests and a signing response for each: exactly their payloads are emitted, each to the client that asked, in order |
| SigndRuns.ConnectionServed | crates/chrony-rs-core/src/ntp_signd.rs:293-365 | a connection on which these responses arrive in any cut without crossing reads emits exactly that and leaves nothing in its buffer |
| SigndRuns.Deliver | crates/chrony-rs-core/src/ntp_signd.rs:293-365 | a response read in any cut finishes the waiting request and emits exactly its payload to the recorded addresses if it signs that request and the client socket is there, and nothing otherwise |
| SigndRuns.SigndRun.Replay | crates/chrony-rs-core/src/ntp_signd.rs:188-365 | over every run of enqueues and events the invariant holds, nothing accepted, written for a request or emitted is taken back, every request behind an emission was written to its end unless its response came too soon, and until one does nothing but requests is written |
| SigndRuns.CrossingReadHappens | crates/chrony-rs-core/src/ntp_signd.rs:293-337 | two requests wait and both responses arrive in one read: the first is finished and the second left waiting with an empty buffer |
| SigndRuns.StaleBytesHappen | crates/chrony-rs-core/src/ntp_signd.rs:272-337 | a reset, a new request and its early response make the enabled writable event send exactly the abandoned second request |
| Md5s.Transform | crates/chrony-rs-core/src/md5.rs:131-165 | the table-driven loop over turning registers is the compression of section 3.4 of RFC 1321 |
| Md5s.BytesOfNumber | crates/chrony-rs-core/src/md5.rs:131-140 | the bytes of a word or of the length, lowest first, come back from their number |
| Md5s.NumberOfBytes | crates/chrony-rs-core/src/md5.rs:104-119 | a number below the range comes back from its bytes |
| Md5s.WordRoundTrip | crates/chrony-rs-core/src/md5.rs:113-140 | a register written to the digest is read back as the same word |
| Md5s.TurnedView | crates/chrony-rs-core/src/md5.rs:144-159 | turning the registers each step is naming the next one each step |
| Md5s.SameSchedule | crates/chrony-rs-core/src/md5.rs:144-150 | the computed word indices are the schedules of the four rounds |
| Md5s.SameOperation | crates/chrony-rs-core/src/md5.rs:144-159 | the loop's mixing expressions are the functions F, G, H and I |
| Md5s.Padded | crates/chrony-rs-core/src/md5.rs:100-112 | the padding always ends on a block boundary |
| Md5s.PaddingKeepsApart | crates/chrony-rs-core/src/md5.rs:100-112 | different messages of any lengths are padded to different block sequences |
| Md5s.Md5.Update | crates/chrony-rs-core/src/md5.rs:83-96 | after any update the state is the fold of the whole blocks so far and the buffer holds the rest |
| Md5s.Md5.Finalize | crates/chrony-rs-core/src/md5.rs:100-119 | the digest is the fold over the message padded per sections 3.1 and 3.2 |
| Md5s.DigestOf | crates/chrony-rs-core/src/md5.rs:72-126 | every way of cutting a message into updates gives the digest of the whole message |
| KeyText.IdRoundTrip | crates/chrony-rs-core/src/nts_ke_keydump.rs:75-113 | a key id written as eight hex digits is read back |
| KeyText.IntRoundTrip | crates/chrony-rs-core/src/nts_ke_keydump.rs:75-115 | a signed algorithm number is read back |
| KeyText.HexRoundTrip | crates/chrony-rs-core/src/util.rs:78-101 | hexadecimal keys are read back |
| KeyText.WordsStep | crates/chrony-rs-core/src/util.rs:789-803 | splitting at whitespace finds the words that were joined |
| KeyDumps.FormatKeydump | crates/chrony-rs-core/src/nts_ke_keydump.rs:60-78 | the loop writes the specified lines in rotation order or fails on a key that does not fit |
| KeyDumps.ParseKeydump | crates/chrony-rs-core/src/nts_ke_keydump.rs:89-146 | the two loops compute the specified reading, all error cases included |
| KeyDumps.PlacedOnce | crates/chrony-rs-core/src/nts_ke_keydump.rs:119-142 | ids that count on modulo four, across the 32-bit wrap, fill each slot exactly once |
| KeyDumps.ParsedRing | crates/chrony-rs-core/src/nts_ke_keydump.rs:89-146 | whatever text parses, in either format version, gives a well-formed ring and a current index |
| KeyDumps.DumpIsRead | crates/chrony-rs-core/src/nts_ke_keydump.rs:80-146 | every text of identifier, age and four linked keys, in either format, is read: each key into the slot of its id, the last but one as current |
| KeyDumps.ReadIsDump | crates/chrony-rs-core/src/nts_ke_keydump.rs:80-146 | whatever is read is such a text: a bad identifier, a wrong word count, a malformed field, ids that do not count on or a wrong key length is refused |
| KeyDumps.DumpComesBack | crates/chrony-rs-core/src/nts_ke_keydump.rs:60-146 | a well-formed ring dumped and parsed is the same ring with the same current key |
| KeyDumps.RoundTripExactly | crates/chrony-rs-core/src/nts_ke_keydump.rs:60-146 | dumping and parsing is the identity if and only if the ring is well formed |
| KeyDumps.OldDumpComesBack | crates/chrony-rs-core/src/nts_ke_keydump.rs:89-146 | a ring written in the older format, with the algorithm on the age line, is read back as the same ring |
| Cookies.CookieLayout | crates/chrony-rs-core/src/nts_ke_cookie.rs:58-89 | a cookie is issued if and only if the keys are equally long and at most 32 bytes, the nonce suffices, it fits 256 bytes and the cipher accepts; key id, nonce and both session keys can be read back from it |
| Cookies.CookieComesBack | crates/chrony-rs-core/src/nts_ke_cookie.rs:58-136 | with an invertible cipher a cookie decodes to its session keys exactly for 16- and 32-byte keys and to nothing otherwise |
| Cookies.DecodedWasIssued | crates/chrony-rs-core/src/nts_ke_cookie.rs:58-136 | with an authenticating cipher, whatever decodes is exactly the cookie that would be issued for its context, unless that exceeds 256 bytes |
| Cookies.CookieSurvivesRestart | crates/chrony-rs-core/src/nts_ke_cookie.rs:58-136 | a cookie issued under any key of a well-formed ring decodes to the same keys and algorithm after dump and reload |
| UdpFrames.FrameIsExtracted | crates/chrony-rs-core/src/ntp_io_linux.rs:37-118 | from every frame of the grammar exactly its payload, destination address and port are extracted |
| UdpFrames.ExtractedIsFrame | crates/chrony-rs-core/src/ntp_io_linux.rs:37-118 | whatever is accepted is a frame of the grammar unless its IPv4 header is too short |
| UdpFrames.FrameIsNotShort | crates/chrony-rs-core/src/ntp_io_linux.rs:65-74 | no frame of the grammar is in that exception |
| UdpFrames.AcceptedExactly | crates/chrony-rs-core/src/ntp_io_linux.rs:37-118 | a payload is found if and only if the bytes are a frame of the grammar or one with a short IPv4 header, never both |
| UdpFrames.BuiltIsExt | crates/chrony-rs-core/src/ntp_io_linux.rs:81-103 | every extension header built from its options is one of the grammar, with the length field the parser reads |
| UdpFrames.ExtIsBuilt | crates/chrony-rs-core/src/ntp_io_linux.rs:81-103 | every extension header of the grammar is built from some options |
| UdpFrames.ZeroLengthIsAccepted | crates/chrony-rs-core/src/ntp_io_linux.rs:65-79 | every frame with an IPv4 length of zero and protocol UDP is accepted, with the UDP header read over the IPv4 header |
| UdpFrames.ShortFrameIsAccepted | crates/chrony-rs-core/src/ntp_io_linux.rs:65-79 | a 34-byte frame outside the grammar in which a payload is found |
| UdpFrames.SkipTags | crates/chrony-rs-core/src/ntp_io_linux.rs:49-53 | the tag loop ends at the first bytes that are no tag, in bounds |
| UdpFrames.SkipExts | crates/chrony-rs-core/src/ntp_io_linux.rs:81-103 | the extension header loop stays in bounds, ends, and stops where the chain does |
| UdpFrames.ReadPacket | crates/chrony-rs-core/src/ntp_io_linux.rs:65-111 | version, header and port are read where the specification says |
| UdpFrames.ExtractUdpData | crates/chrony-rs-core/src/ntp_io_linux.rs:37-118 | on arbitrary bytes: the payload found is moved to the front, offset plus length is the frame length, everything else is unchanged, and the address family tells an empty payload from a failure |
| LocalClocks.RatesMultiply | crates/chrony-rs-core/src/local.rs:231-237 | the compensated clock runs at the product of the clock rate and the compensation, and undoing divides it out |
| LocalClocks.TargetIsChange | crates/chrony-rs-core/src/local.rs:267-276 | the frequency asked for realises exactly the requested change |
| LocalClocks.ClampedIsNearest | crates/chrony-rs-core/src/local.rs:239-245 | clamping gives the nearest allowed frequency |
| LocalClocks.EffectiveUndone | crates/chrony-rs-core/src/local.rs:393-408 | the compensation computed from any granted frequency undoes to the same absolute frequency if and only if that frequency is not minus one million ppm |
| LocalClocks.Telescopes | crates/chrony-rs-core/src/local.rs:253-276 | one more announced change keeps the product of the factors equal to the ratio of the ends |
| LocalClocks.LocalClock.ReadAbsoluteFrequency | crates/chrony-rs-core/src/local.rs:231-237 | the two branches are one formula |
| LocalClocks.LocalClock.SetAbsoluteFrequency | crates/chrony-rs-core/src/local.rs:253-264 | granted what it asks for, the absolute frequency is the wanted one, clamped |
| LocalClocks.LocalClock.AccumulateDeltaFrequency | crates/chrony-rs-core/src/local.rs:267-276 | the driver is asked for the clamped target of the change; the announced change is the one that really happened, and the requested one when the target is in range and granted |
| LocalClocks.LocalClock.AccumulateFrequencyAndOffset | crates/chrony-rs-core/src/local.rs:325-344 | an insane offset changes nothing, otherwise as for a frequency change alone, and the announced changes still telescope |
| LocalClocks.LocalClock.SetTempComp | crates/chrony-rs-core/src/local.rs:393-408 | the driver is asked for the compensated frequency; the absolute frequency stays what it was, whatever the driver grants, and granted what was asked the new compensation is in effect |
| LocalClocks.LocalClock.TempCompRun | crates/chrony-rs-core/src/local.rs:393-408 | over any run of compensation changes the absolute frequency never changes |
| HwClocks.CookInverts | crates/chrony-rs-core/src/hwclock.rs:242-251 | cooking inverts the model: the hardware time reached after any local interval is cooked to that interval after the reference, less the offset |
| HwClocks.LineCooks | crates/chrony-rs-core/src/hwclock.rs:195-251 | a hardware time on the fitted line is cooked to its local time up to the offset times the inverse frequency less one |
| HwClocks.SampleCooks | crates/chrony-rs-core/src/hwclock.rs:195-251 | a sample on the fitted line is cooked to the local time it was taken at, up to the same term |
| HwClocks.SlewedMeans | crates/chrony-rs-core/src/hwclock.rs:255-263 | a slew takes the offset off its own time and shrinks every interval by the frequency change |
| HwClocks.SlewCommutes | crates/chrony-rs-core/src/hwclock.rs:244-263 | slewing the model and slewing the cooked time differ by exactly the offset times the frequency change |
| HwClocks.SlewRun | crates/chrony-rs-core/src/hwclock.rs:244-263 | over any run of slews the difference is the offset times one minus the product of the factors |
| HwClocks.SlewsOfLocalClock | crates/chrony-rs-core/src/hwclock.rs:244-263 | for the slews of a local clock it is the offset times the total frequency change, at most the sample error times that change |
| HwClocks.MoveDown | crates/chrony-rs-core/src/hwclock.rs:207-211 | the in-place loop moves the kept values down by one place and the delta |
| HwClocks.HwClock.AccumulateSample | crates/chrony-rs-core/src/hwclock.rs:195-240 | the buffers hold exactly the kept samples relative to the newest, rising and apart, in the number stated; the model is valid exactly for a sane fit within the error, and then cooks every kept sample on the fitted line as `LineCooks` says, the one before the newest to its own local time |
| HwClocks.HwClock.HandleSlew | crates/chrony-rs-core/src/hwclock.rs:255-263 | the model follows the slew and stays valid |
| HwClocks.HwClock.HandleSlews | crates/chrony-rs-core/src/hwclock.rs:244-263 | after any run of slews every hardware time is cooked to its old cooked time carried through the slews, short of exactly the offset times one minus the product of the factors |
| HwClocks.HwClock.FollowLocalClock | crates/chrony-rs-core/src/hwclock.rs:244-263 | for the announced changes of a local clock that is within the sample error times the total frequency change |
| HwClocks.CooksReference | crates/chrony-rs-core/src/hwclock.rs:232-251 | a fresh valid model cooks its reference to within the error of the sample |

## Left out

- TimestampMap.NtpTimestampMap: the scaling of a 64-bit NTP time to a timespec is an arbitrary function given at construction, and seconds are unbounded integers.
- TimestampMap.RingSlotIsModulo: the source masks the index, which is the same for the power-of-two lengths it allocates.
- Undoing a slew of a stored transmit time and all reports of the client log: arithmetic on single fields.
- ClientLogs.ScanSlot: which record of a full slot counts as oldest is characterised only for last hits within half an era of each other; beyond that the wrapping comparison is not transitive and names no oldest.
- ClientLogs.ClientLog.LimitServiceRate: the leak decision is a parameter; the random bits, the rate estimate that may invert it and the drop flags that feed the estimate are not modelled.
- ClientLogs.ClientLog.GetRecord: the address hash is an arbitrary function fixed at construction, which stands for the lazily drawn seed.
- ClientLogs.ClientLog.UpdateRecord: the request-rate estimate and the timeout rate are not modelled; the conversion of the wall clock to 32-bit fixed point happens before the call.
- Pools, name resolution, connectivity and report fan-out of the NTP source table: bookkeeping around callbacks.
- SourceTables.SourceTable.UpdateSourceNtpAddress: the record lock of a source being modified is not modelled.
- The four wrappers that allow and deny subnets: each is one call of `AuthTables.AuthTable.SetSubnet`.
- SigndBridges.SigndBridge: socket, scheduler and send path are parameters and logs; that the host writes no more than it is given and reads no more than fits is a precondition.
- Md5s.Transform: the table of sine constants is copied as data, not derived.
- KeyDumps.FormatKeydump: the key age is text from an arbitrary formatter; its rounding to one decimal is not modelled.
- Cookies.CookieComesBack: the cipher is an arbitrary function that decrypts what it encrypts; nothing is claimed about its strength.
- Socket options, interface and timestamping set-up around the frame parser: host calls.
- LocalClocks.LocalClock.AccumulateFrequencyAndOffset: the offset's sanity is a flag, and the offset handed to the driver is left out.
- LocalClocks.LocalClock: real numbers instead of 64-bit floats, so no rounding; the driver's granted frequency is a parameter; offsets, steps, leaps and the variant without handlers are left out.
- HwClocks.HwClock.AccumulateSample: the regression's result is a parameter, and real numbers stand for floats; combining readings and the delay quantiles are left out.
- Command protocol, configuration, reference, sourcestats and the remaining modules of the crate: tables, encoders and plumbing that would only add easy members.
