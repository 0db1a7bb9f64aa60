# kmresolv, verified

kmresolv is a recursive DNS resolver. This Dafny project models the parts of it that hold state,
arithmetic or byte layout, and proves what they promise:

- the **wire codec** (`Text`, `NameWalk`, `Compression`, `Message`, `RoundTrip`, `WireLayout`): messages are
  packed into one growing buffer with a table of name suffixes, back pointers and ten patched bytes per
  record, parsing the packet gives the message back, and every field is where RFC 1035 has it;
- **records on the move** (`Records`): materialising a record and prepending CNAMEs keeps what the records
  say, up to the packet that a client receives;
- **resolution** (`SingleFlight`, `FlightHistory`, `Trails`, `Courses`, `Resolution`, `Failures`): the
  single-flight table and semaphore as a step system with every interleaving; the recursion over an
  arbitrary network, with a log of everything that is asked; and which failures are remembered as denials;
- the **cache** (`CacheTrace`, `Lifetimes`, `Cache`, `Eviction`): 64 shards with eviction, against a
  definition that looks back through the trace of operations;
- the **rate limiter** (`RateLimit`): token buckets over whole runs of calls from many clients;
- the **connection pool** (`ConnPool`, `PoolRuns`, `ConnHistory`): the pool's operations, and every
  interleaving of borrowing queries and the reaper;
- **domain matching** (`Domains`): four string algorithms and one relation on label lists;
- **DNSSEC** (`Canonical`, `SignatureScope`, `SignedLayout`, `ZoneKeys`, `Trust`, `Validation`,
  `Referrals`): the bytes a signature covers, the link from one zone's keys to the next, the walks and
  referrals that such links are strung together in, and which referrals can be trusted.

`Wrappers` and `Hash` are small helpers. `Witnesses` holds inputs on which something fails that one might
expect to hold.

Each module is a file of the same name. Code that the repository writes as a loop or as updates in place is
a method or a class here, proved equal to a function; the theorems are about the functions. Strings are
byte sequences, clock readings and network replies are parameters, tokens are real numbers, and hashes and
signature checks are arbitrary functions. Quantified "for every network" or "for every interleaving" results
range over all such parameters.

Where a property that one would expect is false, a lemma says exactly when it holds, and another one gives
an input on which it fails:

| what fails | exactly when it holds | failing input |
|---|---|---|
| names with labels over 63 bytes do not survive packing; no name read from a packet has one (`Compression.ParsedIsShort`), so this takes a caller of Pack with a name of its own | `Compression.NameSurvivesIff` | `Witnesses.LongLabelIsLost` |
| an MX without a readable name is packed with its preference twice | `RoundTrip.PlainDataSurvivesIff` | `Witnesses.MxPreferenceIsDoubled` |
| names with empty labels do not survive being materialised | `Records.PacketIndependentIff` | `Witnesses.DotLabelIsLost` |
| a failure is remembered as a denial, though nobody denied anything, when a name or an outside text that it quotes contains the word | `Failures.DenialExactly`, `Trails.DenialsAreReal` | `Witnesses.UnluckyNameIsDenied` |
| idle clean-up of rate limits shows when burst > 600 * qps | `RateLimit.UnobservableExactly` | in the same lemma |
| the chain of zones misses its target for some names with more than one trailing dot | `Domains.ChainEndsAtTarget` | `Witnesses.ChainMissesTarget` |
| the signed owner is wrong for signatures over no or too many labels | `SignatureScope.SignedOwnerIff` | `SignatureScope.SignedOwnerMisses` |
| signed data of an SOA is sliced out of range | `SignatureScope.SignedDataExistsIff` | `Witnesses.ShortSoaHasNoSignedData` |
| a referral brings keys into the cache that nobody trusts | `Referrals.SoundExactly` | `Referrals.UnsoundLosesTrust`, for every context, zone and signer that are not sound |

Run `dafny verify dfyconfig.toml` with Dafny 4.11.

## Model

| member | source | states |
|---|---|---|
| NameWalk.ParseName | internal/dns/message.go:174-224 | The guarded loop returns exactly what the same walk without a visited set computes on every buffer and offset: its name, its error, or a pointer loop exactly when the unguarded walk never halts; it terminates, and on success start < end <= length |
| NameWalk.RevisitNeverHalts | internal/dns/message.go:174-224 | A walk that comes back to an offset never ends, so the visited set rejects nothing that would have succeeded |
| NameWalk.LoopFound | internal/dns/message.go:187-203 | Jumping to a visited target means that no number of hops halts |
| Compression.PackCompressedName | internal/dns/message.go:282-303 | The loop over labels appends the bytes and extends the table as the recursive definition says, including the 14-bit limit on recorded and reused offsets |
| Compression.BackParses | internal/dns/message.go:174-224 | Decoding that only ever jumps strictly backwards is what parseName computes |
| Compression.BackStable | internal/dns/message.go:226-256 | Such a decoding is unchanged by anything appended later |
| Compression.TableStable | internal/dns/message.go:235-256 | The table invariant (every entry at most 0x3FFF, inside the buffer, decoding through decreasing pointers to its own suffix up to case) survives appending |
| Compression.EmitDecodes | internal/dns/message.go:282-303 | Packing any list of labels keeps the table invariant, and the bytes written decode to those labels |
| Compression.NameDecodes | internal/dns/message.go:282-303 | A packed name parses, in the finished packet, to itself up to case and redundant dots, parsing resumes right behind it, and the table invariant holds after it |
| Compression.NameSurvivesIff | internal/dns/message.go:282-303 | A name survives packing and parsing if and only if its labels have at most 63 bytes |
| Message.ReadRdataName | internal/dns/message.go:322-344 | Which name an NS, CNAME, PTR or MX record carries: the one at its offset in the packet, otherwise the uncompressed one in its rdata |
| Message.ParseUncompressed | internal/dns/message.go:346-370 | The loop reads exactly the pointer-free names, with the error of the first bad byte |
| Message.AppendRdata | internal/dns/message.go:305-320 | Rdata is appended as the definition says, with its name compressed against the table, or copied |
| Message.PatchFixed | internal/dns/message.go:237-255 | Patching the ten reserved bytes writes type, class, TTL and length and no other byte |
| Message.PackRR | internal/dns/message.go:237-255 | One record: name, ten reserved and later patched bytes, rdata |
| Message.Pack | internal/dns/message.go:226-258 | The whole packet equals the declarative encoding, section by section with one table |
| Message.ParseMessage | internal/dns/message.go:97-140 | Parsing is total over all byte strings and gives the message or the first error in packet order |
| Message.ParseRRs | internal/dns/message.go:142-172 | A section is its records one behind the other, or the error of the first bad one |
| RoundTrip.RecordsDecode | internal/dns/message.go:226-258 | Whatever follows in the packet, a packed section parses to the same records and ends where the packing ended |
| RoundTrip.PackThenParse | internal/dns/message.go:97-258 | The round trip for every message with labels of at most 63 bytes and counts and rdata lengths that fit 16 bits: same ID and flags, questions and sections; names equal up to case; rdata byte for byte, or decoding to the same name for NS, CNAME, PTR and MX |
| Witnesses.LongLabelIsLost | internal/dns/message.go:282-303 | A label of 64 bytes does not survive packing |
| Witnesses.MxPreferenceIsDoubled | internal/dns/message.go:305-320 | A received MX whose name is a pointer to nowhere comes back with its preference doubled |
| RoundTrip.PlainDataSurvivesIff | internal/dns/message.go:305-320 | Rdata without a readable name comes back unchanged exactly when the record is not an MX |
| WireLayout.MessageLayout | internal/dns/message.go:97-140 | In plain arithmetic on the bytes of the packet (RFC 1035, section 4.1.1): ID and flags are the first four bytes, and the next eight say how many questions and records there are in each section |
| WireLayout.QuestionLayout | internal/dns/message.go:112-128 | A question is a name, two bytes of type and two of class; it parses exactly if they are there (section 4.1.2) |
| WireLayout.RecordLayout | internal/dns/message.go:142-172 | A record is a name, type, class, a TTL of four bytes, most significant first, a length, and that many bytes; it parses exactly if they are there (section 4.1.3) |
| WireLayout.SectionLayout | internal/dns/message.go:142-172 | The records of a section lie one behind the other |
| WireLayout.NameLayout | internal/dns/message.go:186-210 | Which bytes are labels, pointers and ends, and where they lead (section 4.1.4) |
| WireLayout.PacketLayout | internal/dns/message.go:226-258 | Packing any message writes the header fields and counts, and for every record of its sections type, class, TTL and length, in these places |
| WireLayout.RepeatedNameIsPointer | internal/dns/message.go:282-303 | A name that is packed a second time, in any case, takes two bytes: a pointer to where it was first written, or to where it was found |
| WireLayout.RepeatedRdataIsPointer | internal/dns/message.go:305-320 | So does a name in rdata |
| Records.PackNameLoop | internal/dns/message.go:264-280 | The byte loop that cuts a name at dots equals splitting it into pieces |
| Records.PackNameReadsIff | internal/dns/message.go:264-280 | Writing a name uncompressed and reading it back gives the same name exactly for names without empty labels |
| Records.MaterializeRR | internal/server/resolver.go:886-904 | A record made independent of its packet: the name at its offset written out, the offset cleared |
| Records.PacketIndependentIff | internal/server/resolver.go:886-904 | A materialised NS, CNAME, PTR or MX record names the same target next to any packet, exactly when it carried no name in its packet, or one without empty labels (behind a preference, for an MX) |
| Witnesses.DotLabelIsLost | internal/server/resolver.go:886-904 | A received CNAME to the one-byte label "." names something else once materialised |
| Records.MaterializedOnce | internal/server/resolver.go:875-904 | Materialising again, against any packet, changes nothing |
| Records.PrependCNAME | internal/server/resolver.go:875-884 | The CNAME and then all inner answers, each materialised against the packet it came from; no other section and no packet remain |
| Records.ChainAnswers | internal/server/resolver.go:586-610 | However deeply prependCNAME nests, the answers are the aliases in hop order and then the last answers, each materialised against its own packet |
| Records.ChainSurvives | internal/server/resolver.go:586-610 | A chain packed for a client and parsed again has at each hop a CNAME that leads to the original target |
| SingleFlight.KeyInjective | internal/server/resolver.go:28-30 | Two questions share a key only if name and type are equal |
| SingleFlight.StepInv | internal/server/resolver.go:51-115 | Every step of every interleaving keeps the protocol's invariant |
| SingleFlight.OneLeaderPerKey | internal/server/resolver.go:61-77 | In every reachable state at most one query per key is between LoadOrStore and Delete, it is the one in the table, and slots in use never exceed MaxConcurrent |
| SingleFlight.ClosedIsFinal | internal/server/resolver.go:69-114 | A call is closed once, is frozen from then on, and its outcome has by then gone to the cache (as an answer, or as a denial for NXDOMAIN) |
| SingleFlight.FollowerReturnsLeaders | internal/server/resolver.go:61-67 | A follower returns exactly the outcome of the leader of its own question |
| SingleFlight.WritesAreOutcomes | internal/server/resolver.go:105-114 | Nothing else is written: every answer stored and every denial is the recorded outcome of a query for that key, an answer for an answer, and a denial only for a failure whose text holds the word |
| FlightHistory.RunsHaveActs | internal/server/resolver.go:51-115 | Every run is one of some sequence of actions, in which it is on record what each cache lookup found and what the network gave each leader |
| FlightHistory.ReturnsWhatWasFound | internal/server/resolver.go:51-115 | A query that is done has returned what its look into the cache found, and then has taken no other step and left table, calls, slots and writes alone; or the look missed, and it returns what the network gave it as the maker of a call, or what the network gave the query for the same question that it followed |
| Failures.DenialExactly | internal/server/resolver.go:105-110 | The search for the word NXDOMAIN in the error's text succeeds exactly when the error is or wraps a denial, or the word occurs in a name or an outside text that it quotes |
| Failures.DenialText | internal/server/resolver.go:706-709 | The text of a denial |
| Trails.DenialsAreReal | internal/server/resolver.go:105-110 | If a failed resolution is remembered as a denial, then the log holds one by a server (rcode 3) or the cache, for the type asked and the name asked or one that followed aliases lead to; unless the word occurs in one of these names, in that of a name server looked up, or in an outside text |
| Failures.TimeoutDeniesUnluckyName | internal/server/resolver.go:105-110 | The error text for a timeout contains the word if the name asked does |
| Witnesses.UnluckyNameIsDenied | internal/server/resolver.go:567-637 | Resolving any name that contains the word, from the root servers, where every read times out and the cache is empty, ends in that error; nothing in the log is a denial, and the error counts as one |
| SingleFlight.NeverStuck | internal/server/resolver.go:61-77 | No reachable state with unfinished queries is stuck |
| SingleFlight.RunsFinish | internal/server/resolver.go:51-115 | Every run has at most ten steps a query, and a run that cannot go on has answered all |
| Trails.ExtractNS | internal/server/resolver.go:824-835 | The targets of the authority section's NS records that parse, in order |
| Resolution.Query | internal/server/resolver.go:661-715 | One question for this name and type to this server is added to the log; a usable reply is what the network says to exactly that question, and any other outcome is the failure it says: rcode 3 a denial of the name, the rest the outside text |
| Resolution.ResolveAt | internal/server/resolver.go:567-637 | For every network and cache behaviour it terminates with at most Cost(k) upstream queries for k levels left, starting with one for this name to the first server; only the given servers and learned ones are asked; and an answer is built from a trail in the log: aliases that came in reply to questions for the name so far, and a last message that came for the last target and, if a server sent it, is final. Every part of a failure has its cause in the log: a denial was given, by a server or the cache, of the name or of one that followed aliases lead to; a quoted text ended an upstream query; quoted names are such names or name servers looked up. It goes a course as described by Courses.Went: servers are asked in turn as long as nothing comes of it, aliases and referrals are followed; and there is an answer exactly if that course ends with one. On a network that never answers, the failure wraps the last query's error |
| Trails.LastIsFinal | internal/server/resolver.go:583-615 | A reply that ends a trail is an answer: without answers it has no readable NS record, and its first alias, unless aliases were asked for, comes with the target's records |
| Courses.GlueIsAskedNext | internal/server/resolver.go:612-625 | After a referral with glue, and with levels left, the very next question is the same one to the first server of the glue, and the course goes on with all of the glue |
| Courses.AliasIsFollowedNext | internal/server/resolver.go:588-609 | After an alias without its target's records, the target is looked up right away and, on a miss and with levels left, asked of the first root server |
| Courses.AllAreAsked | internal/server/resolver.go:576-637 | A server is passed over only if it gave no usable reply or a referral without glue; and if none gave a usable reply, all were asked, in order |
| Courses.ReplyCodes | internal/server/resolver.go:700-714 | A reply can be used if it parses and the low half of its fourth byte is 0, and denies the name if that is 3 |
| Trails.GlueExactly | internal/server/resolver.go:837-862 | Glue is an A record of four or an AAAA record of sixteen bytes for one of the name servers, up to case |
| Trails.AddressesExactly | internal/server/resolver.go:931-959 | The addresses of one type in an answer, whatever their owner |
| Resolution.FollowAlias | internal/server/resolver.go:588-609 | The first CNAME of a reply, whatever its owner, is followed: the target is looked up right after the reply, resolved from the roots if that misses, and the alias is put in front of what came for the target; what makes the target fail makes the name fail, with the same cause in the log |
| Resolution.ResolveNSAddr | internal/server/resolver.go:906-915 | The name is looked up first; a cached denial or answer costs no upstream query, a miss at most the next level's bound; the answer is built from a trail for this name, and a failure has its cause in the log |
| Resolution.NextServers | internal/server/resolver.go:612-632 | A referral leads to its glue if there is any, at no cost, and otherwise to addresses found for its name servers |
| Resolution.ResolveNSParallel | internal/server/resolver.go:917-1000 | Both address lookups of every name cost at most 2N times the next level's bound, and success gives between one and S servers, each an address that resolving a name server of the referral led to; failure names one of the name servers, which has been looked up |
| Trails.JustifiedJoin | internal/server/resolver.go:567-637 | Over any stretch of the log, nobody is asked but the given servers, root servers, glue of earlier referrals, and addresses resolved for their name servers |
| Trails.CostClosedForm | internal/server/resolver.go:567-637 | The bound is S((2NS+1)^k - 1)/(2NS), stated without the division |
| Trails.ChainAddresses | internal/server/resolver.go:931-959 | The addresses found in an answer are those of the last message of its trail |
| Trails.TargetIsAskedNext | internal/server/resolver.go:586-610 | Along a trail, each alias came in reply to a logged question, its target is looked up right after it, and the next alias, or the last message, came for that target, later in the log |
| Trails.ResolvedChainArrives | internal/server/resolver.go:586-610 | A resolved answer, packed and parsed by the client, has at each hop the alias to the very name that resolution looked up right after it and, for a next hop, asked upstream for |
| CacheTrace.HitIsLatestSet | internal/cache/cache.go:99-205 | Over any trace of Set, SetNegative, flushes of shards, evictions and capacity victims, a lookup gives exactly the latest Set of that key with a non-zero lifetime, unless since then its shard was flushed or it had to make room, or it has expired |
| CacheTrace.DeniedIffLatestDenial | internal/cache/cache.go:87-106 | A name is denied exactly while its latest negative entry lives |
| CacheTrace.ServedTTLs | internal/cache/cache.go:108-159 | Nothing is served after its expiry, and each TTL served, in all three sections, is the original less the whole seconds passed, not below zero; everything else is as stored |
| CacheTrace.ElapsedExact | internal/cache/cache.go:133-134 | The conversion of the elapsed seconds to 32 bits cannot wrap while an entry lives |
| Lifetimes.LifetimeExactly | internal/cache/cache.go:161-205 | A message is kept for the least TTL of its answers, or the configured minimum if that is more; not at all without answers, or if the least TTL is 0 or 2^32 - 1 |
| Lifetimes.HitExactly | internal/cache/cache.go:108-192 | A lookup finds an answer if and only if some Set of that key, not displaced by a later event, is no older than its lifetime in seconds |
| Lifetimes.HitServes | internal/cache/cache.go:108-159 | It then serves that very message, each TTL less the whole seconds since the Set, not below zero |
| Lifetimes.ServedExactly | internal/cache/cache.go:108-114 | The same by the reference: there is a hit if and only if the latest Set is alive |
| Lifetimes.DeniedExactly | internal/cache/cache.go:87-106 | A name is denied if and only if its latest denial, not flushed since, is younger than the seconds given with it, 300 for zero |
| Lifetimes.FlushLeaves | internal/cache/cache.go:277-303 | What each mode of flushing leaves in the shard and outside |
| CacheTrace.BatchIsDrops | internal/cache/cache.go:235-244 | A batch, whatever happened since its keys were collected, removes exactly those of them that have expired, and nothing alive |
| CacheTrace.BatchIsNegativeDrops | internal/cache/cache.go:245-254 | The same for negative entries |
| CacheTrace.EvictorUnobservable | internal/cache/cache.go:209-255 | However the evictor's deletions are interleaved with other operations, every lookup is the same as on the trace without them, victims given; without a limit, that trace is the run of a cache with no evictor |
| Eviction.EvictorUnobservableCapped | internal/cache/cache.go:161-255 | With or without a limit, two runs of the cache with the same operations, each with its own evictor's deletions and its own least-expiry victims, answer every lookup alike, if no victim of one run shares its expiry with another entry of its shard |
| Cache.Cache.Set | internal/cache/cache.go:161-192 | Set is one event on the table that the 64 shards partition; exactly when the shard is full and the key is new it evicts an entry of that shard with the least expiry |
| Cache.Cache.Get | internal/cache/cache.go:108-146 | Get is the table's lookup: nothing when missing or expired, else the message with aged TTLs |
| Cache.Cache.SetNegative | internal/cache/cache.go:87-97 | One negative entry is written, with 300 seconds for a zero TTL |
| Cache.Cache.IsNegative | internal/cache/cache.go:99-106 | The table's denial, strictly before expiry |
| Cache.Cache.EvictEntries | internal/cache/cache.go:235-244 | One locked batch, started from any state, removes its expired keys from the table and nothing else |
| Cache.Cache.EvictDenials | internal/cache/cache.go:245-254 | The same for negative entries |
| Cache.Cache.EvictShard | internal/cache/cache.go:220-255 | Snapshot and batches of 64, run alone, leave exactly the non-expired entries and denials of the shard |
| Cache.Cache.Evict | internal/cache/cache.go:209-218 | One tick over all shards, run alone, is the flush of everything expired |
| Cache.Cache.FlushShard | internal/cache/cache.go:278-300 | One shard under its lock, from any state and in each mode, is one flush event on the table, so other operations may come in between |
| Cache.Cache.Flush | internal/cache/cache.go:277-303 | Run alone, flushing shard by shard, each with its own clock reading, flushes the whole table |
| Cache.Cache.Size | internal/cache/cache.go:257-265 | The sum over the shards is the cardinality of the table |
| Cache.Cache.SetMaxSize | internal/cache/cache.go:50-56 | The limit per shard is the quotient rounded up, or none |
| Cache.Earliest | internal/cache/cache.go:175-182 | The victim has the least expiry of its shard, in whatever order the map is visited |
| Cache.LowestTTL | internal/cache/cache.go:194-205 | The least TTL of the answers; 0 for no answers and for the largest TTL |
| Cache.FlushView | internal/cache/cache.go:278-300 | Flushing one shard flushes exactly that shard's keys of the table |
| Cache.InsertView | internal/cache/cache.go:169-191 | Writing to a key's own shard, after evicting from it, writes exactly that key of the table |
| Cache.CapacityBound | internal/cache/cache.go:50-192 | With the limit n set on an empty cache, every trace leaves at most 64 * ceil(n / 64) positive entries, at most n + 63 |
| Cache.RoomForAll | internal/cache/cache.go:50-56 | The limit per shard is the least that makes room for n entries in all shards together |
| RateLimit.RateLimiter.Allow | internal/server/ratelimit.go:71-100 | One call is one step of the table of buckets, clean-up schedule included, and its answer is whether a whole token was there |
| RateLimit.RateLimiter.Cleanup | internal/server/ratelimit.go:102-108 | The loop keeps exactly the buckets seen within ten minutes |
| RateLimit.WindowBound | internal/server/ratelimit.go:71-100 | For any clock readings, from call i to the last allowed call j of one client, at most burst + rate * (now_j - now_i) calls are allowed, if its bucket is not deleted in between |
| RateLimit.WindowBoundAlways | internal/server/ratelimit.go:71-108 | With an ordered clock and burst <= 600 * rate the bound holds without that proviso |
| RateLimit.CleanupUnobservable | internal/server/ratelimit.go:77-108 | With an ordered clock and burst <= 600 * rate every answer in every run of every set of clients is that of a limiter that never deletes buckets |
| RateLimit.UnobservableExactly | internal/server/ratelimit.go:47-108 | All runs agree if and only if burst < 1 or burst <= 600 * qps |
| RateLimit.SpacedClientNeverRefused | internal/server/ratelimit.go:71-100 | With burst >= 1 a client whose calls are at least 1/rate apart is never refused, whatever other clients do and read on their clocks |
| RateLimit.RefusalsAreFree | internal/server/ratelimit.go:71-100 | A refused call costs the client nothing: its next call finds the tokens that it would have found without it |
| ConnPool.Compact | internal/server/connpool.go:135-150 | Compacting a list in place keeps exactly the recently used connections in their order and closes exactly the others |
| ConnPool.ConnPool.Get | internal/server/connpool.go:84-109 | The connection put back last is taken off the server's list, or the caller has to dial |
| ConnPool.ConnPool.Put | internal/server/connpool.go:111-127 | A failed connection, or one that finds its list full, is closed; any other is appended |
| ConnPool.ConnPool.ReapShard | internal/server/connpool.go:132-152 | Under one shard's lock every list is compacted and empty lists disappear |
| ConnPool.ConnPool.ReapIdle | internal/server/connpool.go:129-154 | The same for every shard, closing exactly the stale connections |
| PoolRuns.ReapInv | internal/server/connpool.go:129-154 | Reaping a shard in any reachable state keeps every connection in exactly one place |
| PoolRuns.ExactlyOnePlace | internal/server/connpool.go:84-154 | In every reachable state each connection ever dialled is in exactly one slot of one list, or with exactly one query, or closed |
| PoolRuns.HandedOverClean | internal/server/resolver.go:661-774 | In every reachable state lists keep to the limit, a pooled or just borrowed connection was dialled for this server and has no request without a response of its ID, and a waiting query's own request is the only one unanswered |
| ConnHistory.SuccessiveIDs | internal/server/resolver.go:673-676 | Over any run, and however often a connection changes hands, the next request on it has the ID after that of the request before, modulo 2^16 |
| ConnHistory.LastInFirstOut | internal/server/connpool.go:84-127 | A connection given back in good order to a list with room is the one borrowed next, and the pool is then as before |
| ConnHistory.ReapsExactly | internal/server/connpool.go:135-150 | Reaping keeps exactly the connections used less than the idle time ago |
| Domains.WithinIffLabels | internal/server/resolver.go:314-324 | For all strings, s = t or s ends with "." + t exactly when the labels of t are a suffix of those of s |
| Domains.Filter.Blocked | internal/filter/filter.go:52-69 | The walk that strips labels blocks exactly the names within some listed domain, or outside all of them for a whitelist, and nothing when off; inline domains are in force after any calls |
| Domains.VerdictExactly | internal/filter/filter.go:52-69 | In labels and by the names of the modes: a blacklist blocks the names that end in the labels of a listed domain, a whitelist all others, any other mode nothing |
| Domains.Filter.constructor | internal/filter/filter.go:27-50 | Inline domains and lists are taken over unless the mode is off |
| Domains.Filter.Add | internal/filter/filter.go:71-80 | One domain joins the inline set and the snapshot, the mode stays |
| Domains.Filter.Remove | internal/filter/filter.go:82-91 | One domain leaves both |
| Domains.Filter.Reload | internal/filter/filter.go:115-138 | The new snapshot is the inline set and the lists read again; inline domains are kept |
| Domains.AddedDomain | internal/filter/filter.go:52-80 | Adding a domain changes the verdict for exactly the names within it that nothing listed covered |
| Domains.SubdomainsShareVerdict | internal/filter/filter.go:52-69 | Names below a blacklisted name are blocked, and names above a name that a whitelist blocks are blocked |
| Domains.LookupZone | internal/server/resolver.go:501-515 | The scan returns the longest matching domain, the first of equal ones, which is the first hit of the label-stripping walk over non-empty domains |
| Domains.DescendantIffLabels | internal/server/resolver.go:314-324 | A zone is a descendant exactly when the ancestor's labels are a suffix of its own and the names differ |
| Domains.DescendantIsStrictOrder | internal/server/resolver.go:314-324 | Being a descendant is irreflexive, asymmetric and transitive |
| Domains.ZoneChain | internal/server/resolver.go:326-350 | The loop computes the chain of zones from the last label up |
| Domains.ChainEndsAtTarget | internal/server/resolver.go:326-350 | The chain is empty unless the target is below the parent, and ends at the target exactly when, in addition, the target ends with "." + parent, or under the root does not end with a dot |
| Witnesses.ChainMissesTarget | internal/server/resolver.go:326-350 | Below the root the chain to "a.." does not end there |
| Domains.ChainAddsOneLabel | internal/server/resolver.go:326-350 | Such a chain has one zone per label in between, the i-th made of the target's last labels |
| Domains.OrdinaryNamesReach | internal/server/resolver.go:326-350 | For names with at most one trailing dot that condition is being a descendant |
| Canonical.WireNameLoop | internal/dnssec/dnssec.go:365-380 | The wire form of a name is that of its lower-cased non-empty labels |
| Canonical.ReadNameLoop | internal/dnssec/dnssec.go:600-625 | The parser returns the lower-cased labels joined, "." for none, and the bytes used |
| Canonical.WireReadsIff | internal/dnssec/dnssec.go:365-625 | A wire name, anywhere in a buffer, reads back to its labels and length if and only if no label exceeds 63 bytes |
| Canonical.CanonicalRdata | internal/dnssec/dnssec.go:434-483 | The canonical rdata by type, with the fallback to raw bytes where a name does not parse, and nothing where the code would slice out of range |
| SignatureScope.CanonRdataIff | internal/dnssec/dnssec.go:455-465 | There is a canonical form for every record but an SOA whose two names, read in the packet, end behind its rdata |
| Canonical.BuildSignedData | internal/dnssec/dnssec.go:382-432 | The buffers written by moving offsets and the sort give the header, then the records ordered by rdata; nothing where the code would index or slice out of range |
| SignatureScope.SignedDataExistsIff | internal/dnssec/dnssec.go:382-483 | Building goes through exactly for sets with a record in which every SOA's names end inside its rdata |
| Witnesses.ShortSoaHasNoSignedData | internal/dnssec/dnssec.go:455-465 | A received SOA with empty rdata makes it fail |
| Trust.LinkDataExists | internal/server/resolver.go:372-425 | Along the chain of trust it never fails |
| SignatureScope.SortingDoesNotMatter | internal/dnssec/dnssec.go:422-424 | Any sorting of the items, stable or not, gives the same bytes |
| SignatureScope.OrderDoesNotMatter | internal/dnssec/dnssec.go:382-432 | Every permutation of a record set has the same signed data |
| SignatureScope.LayoutDoesNotMatter | internal/dnssec/dnssec.go:434-483 | So do sets in different packets whose NS, CNAME, PTR, MX, SOA and SRV rdata say the same names and numbers, however compressed |
| SignatureScope.SignedDataIff | internal/dnssec/dnssec.go:382-432 | Two sets have the same signed data if and only if the RRSIG fields agree, signer and owner agree up to case, and type and canonical rdata agree as multisets: all of it is covered and nothing else |
| SignedLayout.SignedDataLayout | internal/dnssec/dnssec.go:382-432 | What is signed, byte for byte (RFC 4034, sections 3.1.8.1 and 6.3): the RRSIG's fields and signer; then, for each canonical rdata, owner, type, class 1, original TTL, length and rdata, ascending, so that of two either the earlier is a prefix of the later or has the smaller byte where they first differ |
| SignedLayout.CanonicalForm | internal/dnssec/dnssec.go:434-483 | Numbers are kept and names written in wire form, by type (section 6.2) |
| SignedLayout.WireNameIsLower | internal/dnssec/dnssec.go:365-380 | Names in wire form hold no capital letters |
| SignedLayout.RrsigLayout | internal/dnssec/dnssec.go:106-130 | Which bytes of an RRSIG are which field (section 3.1) |
| SignedLayout.KeyLayout | internal/dnssec/dnssec.go:76-104 | The same for DNSKEY and DS records (sections 2.1 and 5.1) |
| SignatureScope.SignedOwnerIff | internal/dnssec/dnssec.go:397-403 | The owner is what section 5.3.2 of RFC 4035 asks for, the name itself, the wildcard over its last labels, or no use of the signature at all, exactly when no more labels are signed than the owner has, and at least one unless the owner is the root |
| SignatureScope.SignedOwnerMisses | internal/dnssec/dnssec.go:397-403 | "a.b" signed over no label and over five labels |
| SignatureScope.RepackingKeepsSignedData | internal/dnssec/dnssec.go:382-483 | Packing a message and parsing the packet keeps the signed data of every record set among its answers |
| ZoneKeys.VerifyRrsig | internal/dnssec/dnssec.go:184-203 | Within its time, by a key of its tag and algorithm, over the signed data, for inputs for which that exists; false for others |
| ZoneKeys.VerifyAny | internal/dnssec/dnssec.go:205-228 | Succeeds exactly when some signature of the type verifies; one whose signed data does not exist counts as failing |
| SignedLayout.SignedByExactly | internal/dnssec/dnssec.go:184-228 | A signature counts if and only if it is one of its type, over the type asked for, with inception <= now <= expiration in its bytes, with a key of its tag and algorithm that verifies it over the signed data |
| SignedLayout.DsMatchesExactly | internal/dnssec/dnssec.go:153-182 | A DS record matches a key if and only if tag and algorithm agree and its digest is that of the zone's wire name followed by the key's rdata |
| ZoneKeys.ValidateZoneKeys | internal/dnssec/dnssec.go:230-292 | Succeeds exactly when a key that a DS record vouches for (for the root, of an anchor's tag) signed the key set, and then returns the whole set |
| Validation.ValidExactly | internal/dnssec/dnssec.go:230-292 | Keys are valid if and only if one of the set, with an anchor's tag for the root and matched by a DS record for any other zone, has signed the set |
| Validation.KeysExactly | internal/dnssec/dnssec.go:230-250 | A key set has a tag if and only if a readable record has it, and then the key of the last of these |
| Validation.DsRecordsExactly | internal/server/resolver.go:386-460 | The DS and RRSIG records that count: from the answers if there are DS records of the zone there, otherwise from the authority section |
| ZoneKeys.LinkMeans | internal/server/resolver.go:372-425 | A link below the root has a DS set of this zone signed by a key of the parent, a DS record in it matching a key of the zone, and that very key's signature over the key set |
| Trust.Validator.Establish | internal/server/resolver.go:372-425 | Returns keys exactly when the first replies make such a link, and caches only those |
| Validation.FirstExactly | internal/server/resolver.go:375-384 | Of the servers asked, the first that replies counts for the DS records, and the first with records for the keys |
| Trust.Validator.LookupZoneKeys | internal/dnssec/dnssec.go:322-333 | The keys cached under the lower-cased, dotted name while they live; an expired entry is removed |
| Trust.Validator.CacheZoneKeys | internal/dnssec/dnssec.go:312-320 | One entry, an hour for a zero TTL |
| Validation.CachedUnder | internal/dnssec/dnssec.go:312-333 | The name under which keys are cached: lower case, one dot behind it |
| Validation.KeptFor | internal/dnssec/dnssec.go:312-333 | Keys are found until the TTL of the first key record is over, an hour for zero |
| Trust.Validator.Descend | internal/server/resolver.go:358-368 | One zone of the walk, as the function says: live cached keys, or those the keys so far establish, which are then cached |
| Trust.Validator.WalkToZone | internal/server/resolver.go:352-370 | The loop returns the context, or the failure, and leaves the key cache that the recursion over the chain of zones says, for any network, clock, start and cache |
| Trust.WalkKeepsTrust | internal/server/resolver.go:352-425 | From trusted keys and a cache of trusted keys, whatever the network answers: after each zone of the chain the context is trusted keys of that zone, from the cache or linked to those of the zone before, and the cache holds trusted keys only, also when the walk fails |
| Trust.Validator.VerifyWithWalk | internal/server/resolver.go:290-312 | A signature is checked against the context's keys, or against those at the end of the walk to a signer strictly below it; the cache is what the walk leaves |
| Trust.VerifierKeepsTrust | internal/server/resolver.go:290-312 | Those keys are trusted, and belong to the zone that context and signer determine |
| Validation.SignerExactly | internal/server/resolver.go:273-288 | The signer is that of the first readable signature of the type |
| Validation.WalksExactly | internal/server/resolver.go:290-312 | Verification walks if and only if the signer's labels end in those of the context's zone, and are more |
| Validation.VerifierIsSigner | internal/server/resolver.go:290-312 | The verifying keys then belong to the signer, wherever the chain of zones reaches it |
| Trust.Validator.Delegate | internal/server/resolver.go:202-254 | What a referral returns and leaves in the cache, walk included, for any context and network, is what the function says: DS records verified only for a context with keys, then cached keys, none without DS records, or those that the DS records vouch for |
| Validation.ChildExactly | internal/server/resolver.go:224-252 | A zone with cached keys gets them, one without DS records gets none, and any other those that its servers present, exactly if they are valid by the DS records; they are cached, and failure stores nothing |
| Trust.ReferralKeepsTrust | internal/server/resolver.go:202-254 | A referral without DS records, or a sound one (the context has keys, and the zone is below the one whose keys verify its DS records), keeps a cache of trusted keys so, and leads to trusted keys or none |
| Referrals.UnsoundLosesTrust | internal/server/resolver.go:202-254 | For every context, zone and signer that are not sound, the root zone and walks to a signer elsewhere included, there is a referral with DS records of this zone and this signer, a network, roots of trust, a signature scheme and a cache of trusted keys, such that afterwards the cache holds keys that nobody trusts |
| Referrals.SoundExactly | internal/server/resolver.go:202-254 | So a context, zone and signer are sound if and only if no referral with DS records of this zone and this signer can bring untrusted keys into a cache of trusted ones |
| Trust.TrustStaysBelowRoots | internal/server/resolver.go:352-425 | Keys only come to be trusted for zones at or below a root of trust |
| Trust.ChainGoesBelow | internal/server/resolver.go:326-350 | For all names, each zone of a chain is below the one before |
| Trust.TrustedNormal | internal/dnssec/dnssec.go:312-333 | Trust does not depend on case or a trailing dot, so cached keys may be used under either spelling |
| Trust.WalkEndsAtTarget | internal/server/resolver.go:352-370 | A successful walk ends at the zone asked for, one more label at a time, whenever the chain of zones reaches it |

## Left out

- Sockets, TLS, DoH, timers, logging and goroutine scheduling: network replies and clock readings are parameters, interleavings are sequences of atomic steps.
- Cryptography: digests, signature checks and key tags are arbitrary functions; whether the starting keys of a walk come from the root key is not claimed, trust is relative to given roots.
- Text.Lower: folds ASCII only, where Go's ToLower also folds other Unicode letters and rewrites invalid UTF-8; Domains.TrimSpace likewise strips ASCII blanks only.
- RoundTrip.PackThenParse: rdata names of SOA, SRV and other types are covered as bytes only, because packing copies them raw; their pointers need not make sense in the new packet.
- RoundTrip.PackThenParse: needs counts and rdata to fit 16 bits; beyond that the fields wrap, as modelled in Message.FixedBytes and Message.HeaderBytes.
- SignatureScope.RepackingKeepsSignedData: not for SOA and SRV, for the same reason, and for owner names without redundant dots.
- Canonical.BuildSignedData: the library sort is an insertion sort here, SortingDoesNotMatter covers any other.
- Canonical.CanonicalRdata, Canonical.BuildSignedData, ZoneKeys.VerifyRrsig, ZoneKeys.VerifyAny: a run-time failure of the code (see SignedDataExistsIff) is the value None and a signature that does not verify.
- Resolution.ResolveAt: the server list is not shuffled, the network may answer each server anything, so every order is covered; both address lookups of a name run one after the other, as the cost counts both. The owner of a followed alias is not compared with the name asked, because the code does not.
- Resolution: forwarders, configured zones and the DNSSEC variant of resolveAt but for what it does to the trust; their queries are not counted. Addresses are the rdata bytes, not their printed form.
- Trust.WalkKeepsTrust: needs a cache of trusted keys, which Trust.Validator.Delegate keeps only for referrals that are sound; the code does not tell them apart.
- Trust.Validator.Delegate: finding the delegated zone's servers, which may fail, comes before and is not part of it.
- Referrals.UnsoundLosesTrust: for the root zone, whose keys only the anchors vouch for, the roots of trust are ones that leave those keys out; its referral is a message, not shown as the packet it came in.
- Eviction.EvictorUnobservableCapped: says nothing about victims with equal expiry, among which the order of a Go map decides.
- SingleFlight: leader and followers share one message that the server later overwrites with each client's ID, so responses of followers are not isolated; only the outcome is claimed.
- SingleFlight: what a leader does between taking its slot and having an outcome is one step with an arbitrary outcome.
- Failures: texts of errors from outside, forwarders included, are arbitrary; wordings are those of the iterative resolver.
- Cache: prefetching, a Set made by a background query, is not an operation of its own; the ghost result of Cache.Cache.Set names the victim.
- CacheTrace: times are integers of nanoseconds, and a negative TTL setting is an expiry in the past.
- RateLimit: real numbers for float64, so rounding is not modelled.
- ConnPool.ConnPool.ReapShard: lists are sequences, copied into an array for the in-place compaction, so the sharing of backing arrays between a popped and a compacted list is not captured.
- PoolRuns: dialling never blocks other queries and may always fail; deadlines and the TCP retry made while a UDP connection is still held are arbitrary delays of a step.
- Domains.Filter.constructor: reading and parsing lists is outside, their contents are a parameter.
- Header flag setters, record text parsing, ACL matching, statistics, dashboard, configuration, updater and Minecraft server.
