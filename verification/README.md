# ZoneLint in Dafny

ZoneLint is a DNS audit tool. Its checks are functions over records collected from DNS responses. This project models
the parts where a mistake would be hardest to see and proves what they promise:

- **Wire encodings** (`Ordering`, `Bytes`, `BitOps`, `Names`, `TypeBitmap`, `RData`): names in dotted, label and wire
  form, the NSEC/NSEC3 type bitmap (section 4.1.2 of RFC 4034) and canonical RDATA (section 6.2 of RFC 4034), each with
  a decoder written from the RFC and a round trip in both directions.
- **Signatures** (`SignedData`, `KeyTag`): the octets an RRSIG covers (section 5.3.2 of RFC 4035), which are a function
  of the set of RDATAs and can be parsed back, and the key tag (Appendix B of RFC 4034) with its 32-bit accumulator.
- **The DNSSEC verdict** (`RecordKey`, `Merging`, `Chain`, `Gather`, `SignatureTally`, `Verdict`, `ConcreteRuns`): from
  raw responses to findings. `Verdict.VerdictHolds` says of every finding what it means for the responses and when it
  must be reported; `Verdict.AuditDNSSEC` runs the whole branch and meets it. `ConcreteRuns` holds two audits whose
  verdict one would not expect.
- **CNAME graphs** (`Cname`, `CnameOrder`): chain length, dangling targets and loops, for every map iteration order, and
  the exact condition under which the order does not show in the report.
- **Order of reports and name sets** (`Findings`, `Delegation`, `FakeResolver`).
- **The query budget** (`Budget`, `Network`): one query as a retry loop, and any number of concurrent queries and
  transfers as a state machine in which a context may be cancelled at every step.

Run `dafny verify dfyconfig.toml` to check it.

## How to read it

- A Go string or byte slice is `Str`, a sequence of octets. `strings.ToLower` is ASCII folding. Presentation escapes
  such as `\046` do not occur, so every dot separates labels.
- Integer widths are explicit: `byte`, `u16`, `u32` are bounded integers, truncations and the wrap-around of the key tag
  accumulator are written out.
- `dns.PackDomainName` belongs to a library. The model packs a name when its labels have 1 to 63 octets and its wire
  form at most 255 (sections 2.3.4 and 3.1 of RFC 1035), and appends nothing otherwise, as the code does with nil.
- Cryptography is the parameter `Chain.Crypto`: whether a public key is well-formed, whether a signature verifies over
  given octets, and the DS hash functions. Base64, base32 and hex text starts out decoded; `None` is text that does not
  decode, or a nil address.
- Loops over Go maps take the next key with `:|`, or follow a parameter `order` that is any arrangement of the keys
  (`Cname`). Contracts therefore hold for every iteration order.
- The sorts of Go's library are `Ordering.SortInPlace`, an insertion sort of which callers use the contract only: the
  result is a sorted permutation.
- The presentation form `rr.String()` is a field of a record, free of its other fields; `Verdict.TextsDetermine` says
  that it determines an RRSIG.
- `time.Now()` is one fixed parameter `now`. Responses are parameters, `None` where the query failed.
- Structures that one function fills and others only read (`ZoneKeys`, `ChainResult`, the signature statistics) are
  values that the loops reassign; objects that live on and change (`Counter`, `Semaphore`, the two resolvers) are
  classes.

## Where the code falls short

Some properties one would expect do not hold of the code as it is. For each there is an input that shows it, and the
exact condition under which the property holds.

- DS RDATA is written with two octets too many: `dsRdata` appends algorithm and digest type to a buffer of four octets
  of which the key tag fills two. No DS reads back under RFC 4034 (`RData.DsIsMisread`); every other type does
  (`RData.RDataRoundTrip`). The octets still determine the record (`RData.RDataIdentifiesRecord`), and DS matching does
  not use them.
- NSEC3 salt and hash lengths are cut to one octet (`RData.Nsec3RoundTripIff`). A record off the wire has none above 255;
  one that is read from text, as in a zone file or a test fixture, can.
- An RRSIG with zero labels over a name that has labels is signed as `*..`, which does not pack
  (`SignedData.SignedOwnerPacks`).
- The deduplication key `name|type|rdata` does not determine the record when an owner name itself contains
  `.|digits|` (`RecordKey.KeyIsInjective`, `AmbiguousOwnerCollides`): every record of `x.|48|abcd.` shares its key with
  a DNSKEY of `x.` (`RecordKey.KeyShadowsRecord`) and is gone from the union if that came first
  (`Gather.RecordMayBeMergedAway`). A signature lost in this way is not checked for its lifetime; with unambiguous owners
  none is lost (`Verdict.UnionKeepsSig`). If a DS of the anchor is lost, the chain is accepted without comparing any
  digest: `ConcreteRuns.ShadowedDsIsNotCompared` is a run in which "validated" is reported for a DS that matches no key.
  "Validated" comes with a match if and only if the union holds a DS (`Verdict.ValidatedMatchesIffDsIsLeft`); without one
  it does not depend on any digest (`Verdict.DigestsAreIgnored`). Without ambiguous owners a DS is always left
  (`Gather.DsSurvives`).
- "Validated" means a DS match at a name the code picks, not always at the audited zone:
  `ConcreteRuns.ForeignMatchIsReported` is a run in which the zone's own DS matches nothing. The chain is checked at the
  zone, under every order of the maps, if and only if the zone is the only DS owner with keys, or no DS owner has keys
  and the zone is the only DS owner (`Verdict.ChainIsCheckedAtZoneIff`).
- The long-chain finding needs a limit of at most 100, because a walk stops at 101 elements
  (`Cname.LongChainIffLongWalk`).
- Dangling findings are right for a name under every iteration order in exactly these cases
  (`Cname.DanglingExactIff`). An end must, if unresolved, be reached by a chain of at most 101 hops from a name that no
  CNAME points to: skipping visited starts loses it otherwise (`LongerChainLosesTarget`). A name that has a CNAME, and
  so is no end at all, is reported when it does not resolve and some walk stops at it, because the walk came back to it
  or because of the cap (`LoopNameIsReported`).
- Sorting does not make a report deterministic, because the findings themselves depend on the iteration order. A chain of
  two hops with an unresolved end is reported once or twice (`CnameOrder.TwoHopsVary`), a long chain under one start or
  another, and the path in the evidence of a loop root may begin inside the cycle or before it
  (`Cname.LoopPathDependsOnOrder`). The findings of `Check`, counted with multiplicity, are the same under every order if
  and only if no name that another name points to has a chain finding of its own, and nothing outside the cycle of a loop
  root points to the root unless the cycle has 100 names (`CnameOrder.CheckDeterministicIff`, for every graph and every
  limit; for a single root `Cname.LoopPathFixedIffUnfed`). In exactly these cases the sorted report of them is the same,
  too (`Findings.ReportIsDeterministic`).
- The string test for "in zone" finds nothing but the root inside the root zone (`Names.InZoneTestIsLabelSuffix`).

The documentation differs from the code in one place: `docs/dnssec.md:15` lists RSA-SHA1-NSEC3 (7) as supported, but
`internal/dnssec/parse.go:138-154` rejects its keys. The model follows the code (`Chain.AlgorithmSevenIsRefused`). The
same file calls digest type 3 SHA-512, and so does the code; the model keeps hash functions abstract.

## Model

| member | source | states |
|---|---|---|
| Bytes.CompareIsOctetOrder | internal/dnssec/chain.go:230 | `bytes.Compare` is negative exactly if the strings agree up to some place where the first ends or its octet is the smaller number |
| Bytes.BigEndianDigits | internal/dnssec/parse.go:222-232 | 16-bit and 32-bit fields are written and read as base-256 digits, the highest first |
| Names.CanonIsStable | internal/audit/audit.go:353-354 | `ToLower` and `Fqdn` commute, and folding a folded name changes nothing, so all parts of ZoneLint file a name under one spelling |
| Names.FiledTogetherIff | internal/audit/audit.go:353-354 | two names are filed under one spelling, which has no capitals, exactly if they agree up to ASCII case and a final dot that one of them lacks |
| Names.InZoneTestIsLabelSuffix | internal/audit/audit.go:435-438 | `n == z` or suffix `"."+z` holds exactly when the labels of `z` are the last labels of `n`, except that the root zone encloses only itself |
| Names.ParseWire | internal/dns/util.go:295-306 | a length-prefixed name, followed by anything, parses back to its labels and the rest |
| Names.PackRoundTrip | internal/dns/util.go:295-306 | the packed canonical name, whatever follows it, reads back to the labels of the lower-case name |
| SignedData.PackableLabels | internal/dns/util.go:295-306 | a name packs if and only if no label has more than 63 octets and its wire form, whose length is given, at most 255 |
| Names.ParsedIsWire | internal/dns/util.go:295-306 | the converse: what parses as a name is the wire form of its labels and the rest |
| TypeBitmap.MoveDown | internal/dns/util.go:261-264 | the inner loop of the insertion sort extends the sorted prefix by one element and permutes the array |
| TypeBitmap.InsertionSort | internal/dns/util.go:260-264 | the in-place sort ends with a sorted permutation |
| TypeBitmap.FillBlock | internal/dns/util.go:265-279 | the 32 octets of a window are those of the specification `Octets` |
| TypeBitmap.FindRun | internal/dns/util.go:265-272 | finds the whole run of types that share a window |
| TypeBitmap.TypeBitmap | internal/dns/util.go:251-287 | deduplication, sort, windows and trimming compute exactly the bitmap about which the lemmas below speak |
| TypeBitmap.EncodeRoundTrip | internal/dns/util.go:265-286 | the strict decoder of RFC 4034 (increasing windows, blocks of 1 to 32 octets, no trailing zero octet) accepts every encoding and returns exactly the types |
| TypeBitmap.DecodeIsCanonical | internal/dns/util.go:265-286 | the converse: every byte string that decoder accepts is the encoding of what it decodes to, and decoded types come strictly sorted |
| TypeBitmap.DecodeBoundsLength | internal/dns/util.go:265-286 | a well-formed bitmap has at most 34 octets for each of 256 windows |
| TypeBitmap.BitmapRoundTrip | internal/dns/util.go:251-287 | decoding `typeBitmap(types)` gives the sorted distinct types of any list |
| TypeBitmap.BitmapIsCanonical | internal/dns/util.go:251-287 | two lists have equal bytes if and only if they have the same set of types |
| TypeBitmap.BitHasWeight | internal/dns/util.go:273-276 | bit 0 of an octet is the most significant one: bit `k` is worth `0x80 >> k` |
| TypeBitmap.BitmapOfOne | internal/dns/util.go:265-286 | a known answer in every window: the bitmap of type 1 of window `w` is `w`, 1, 0x40 |
| RData.BuildTxt | internal/dns/util.go:316-326 | the loop over TXT strings computes the length-prefixed encoding, strings cut at 255 octets |
| RData.BuildRData | internal/dns/util.go:178-248 | the encoder with its loops computes the specification `RRData`, about whose octets the rows below speak type by type |
| RData.TxtRoundTrip | internal/dns/util.go:316-326 | every list of strings reads back, each up to its octet 255, so as itself if and only if none is longer |
| RData.CaaReadsBackIff | internal/dns/util.go:328-337 | a CAA record reads back with the first 63 octets of its tag, so as itself if and only if it has no more |
| RData.AddressOctets | internal/dns/util.go:49-54 | an address is its own RDATA, except that an IPv4-mapped one in an A record goes as its last four octets |
| RData.WithoutWireForm | internal/dns/util.go:178-248 | what is written of a record with a nil address, text that does not decode or a name that does not pack: nothing, or the fixed fields without the name |
| RData.RDataRoundTrip | internal/dns/util.go:178-248 | among records with a complete wire form, decoding the RDATA restores the canonical fields if and only if the record is no DS |
| RData.DsIsMisread | internal/dns/util.go:353-362 | every DS reads back with algorithm and digest type zero and a digest two octets longer |
| RData.Nsec3RoundTripIff | internal/dns/util.go:228-246 | an NSEC3 record reads back exactly when salt and hash have at most 255 octets |
| RData.Nsec3LengthOctets | internal/dns/util.go:239-244 | the length octets of salt and hash are their lengths modulo 256 |
| RData.EncodingOfCanonical | internal/dns/util.go:178-248 | the encoder sees only the canonical form: case, repeated types and cut strings do not matter |
| RData.RDataIdentifiesRecord | internal/dns/util.go:178-248 | within one type, DS included, equal RDATA if and only if equal canonical fields |
| SignedData.SignedOwnerOnLabels | internal/dnssec/chain.go:208-212 | an owner with at most `Labels` labels is signed as itself, a longer one as `*` above its last labels |
| SignedData.SignedOwnerPacks | internal/dnssec/chain.go:208-213 | the signed owner of a packable name packs if and only if the RRSIG has at least one label or the name is the root |
| SignedData.WildcardOwnersShareOctets | internal/dnssec/chain.go:205-265 | all owners under one wildcard, the literal `*` name included, are signed with the same octets |
| SignedData.DistinctRDatas | internal/dnssec/chain.go:216-227 | the first loop keeps every non-nil RDATA once |
| SignedData.BuildSignedData | internal/dnssec/chain.go:205-246 | the loops, the sort and the appends compute exactly the octets whose order and contents the rows below give |
| SignedData.CanonicalOrder | internal/dnssec/chain.go:216-232 | of two RDATAs the one signed first has the smaller octet where they first differ, or ends there (section 6.3 of RFC 4034); each RDATA of the records goes once |
| SignedData.SignedOctetsIgnoreOrder | internal/dnssec/chain.go:205-246 | lists with the same set of RDATAs have identical signed octets |
| SignedData.SignedOctetsOfSameRecords | internal/dnssec/chain.go:205-246 | reordering or repeating records does not change the signed octets |
| SignedData.SignedOctetsDecode | internal/dnssec/chain.go:205-246 | a parser recovers the RRSIG's fixed fields, the signer, the signed owner and the RDATAs from the signed octets |
| SignedData.SignedOctetsAreInjective | internal/dnssec/chain.go:205-246 | equal signed octets mean equal signature parameters, signer, signed owner and set of RDATAs |
| SignedData.FixedFieldsRoundTrip | internal/dnssec/parse.go:222-232 | the 18 fixed octets of an RRSIG read back field by field |
| KeyTag.Accumulate | internal/dnssec/parse.go:97-111 | the loop computes the sum of Appendix B of RFC 4034 modulo 2^32 for keys of any length |
| KeyTag.ComputeKeyTag | internal/dnssec/parse.go:97-113 | the tag is the folded sum; up to 65536 octets of RDATA nothing wraps |
| KeyTag.SumIsBounded | internal/dnssec/parse.go:97-111 | for RDATA of a DNS message the accumulator stays below 2^31 |
| KeyTag.TagIsChecksum | internal/dnssec/parse.go:97-113 | the tag is congruent to the sum modulo 65535, or to the sum less one exactly when adding the carries carries again |
| KeyTag.TagIgnoresWordOrder | internal/dnssec/parse.go:97-113 | rearranging aligned 16-bit words, with or without an odd octet after them, leaves the tag unchanged, so different keys may share it |
| Chain.KeyParsesIff | internal/dnssec/parse.go:116-154 | a key parses if and only if it is not empty and the library accepts it for algorithm 5, 8, 10, 13, 14 or 15, with its fields as they are and the key tag of the RDATA that `RRData` writes |
| Chain.AlgorithmSevenIsRefused | internal/dnssec/parse.go:138-154 | a key under algorithm 7 never parses, the same key under 5 if the library accepts it |
| Chain.Collect | internal/dnssec/chain.go:37-68 | under every name exactly the keys, signatures, DS and records of that name, in order, and no empty entries |
| Chain.CollectedFiles | internal/dnssec/chain.go:37-68 | the same for the specification function, by induction over the records |
| Chain.InZone | internal/dnssec/chain.go:286-308 | keeps keys, DS and records, and exactly the signatures whose signer is the zone |
| Chain.ApexName | internal/dnssec/chain.go:150-162 | a DS owner with keys if there is one, else any DS owner, else the empty string |
| Chain.ApexIffSomeOrder | internal/dnssec/chain.go:150-162 | exactly these names are returned under some iteration order of the DS map |
| Chain.VerifyDSMatchesDNSKEY | internal/dnssec/chain.go:122-148 | true if and only if some DS of the anchor at the chosen apex is the digest of a zone key there, in the sense of the row below |
| Chain.DigestIsOfOwnerAndKey | internal/dnssec/parse.go:364-384 | a DS matches a key if and only if its type is 1, 2 or 3 and its digest is that of octets which read as the canonical owner name followed by the RDATA of the key, field by field (section 5.1.4 of RFC 4034) |
| Chain.ValidateChain | internal/dnssec/chain.go:86-120 | valid if and only if every signature is within its lifetime and the DS records, where both sides have any, match; keys and signatures are all those collected, and the three index lists are the positions of the expired, early and deprecated ones |
| Chain.PositionsAre | internal/dnssec/chain.go:98-109 | an index list holds exactly the positions with the fault, in increasing order |
| Chain.CheckZone | internal/dnssec/check.go:13-60 | each presence, lifetime and algorithm finding is reported if and only if it is due |
| Chain.KeyForKeyTag | internal/dnssec/chain.go:267-281 | returns a key with the tag if and only if one was collected |
| Chain.VerifyRRSIGForType | internal/dnssec/chain.go:183-199 | -1 only if every covering signature with a known key is accepted, else the first index that is rejected: some key with its tag has an unknown algorithm, or the library says no over the covered records, whatever the flags of the key |
| Chain.OutcomeIsDetermined | internal/dnssec/chain.go:183-199 | with unique key tags a check passes if and only if no covering signature is rejected |
| RecordKey.KeyIsInjective | internal/audit/audit.go:351-363 | for owners that cannot be misread the key determines owner, type and RDATA |
| RecordKey.AmbiguousOwnerCollides | internal/audit/audit.go:351-363 | for any other owner every key has a second reading, so the condition cannot be dropped |
| RecordKey.KeyShadowsRecord | internal/audit/audit.go:351-363 | every record of the one proper name whose first label is `x` and whose second spells a type and four octets shares its key with a DNSKEY of `x.` |
| RecordKey.DedupMergesEqualRecords | internal/audit/audit.go:351-363 | records with one key whose owners cannot be misread agree in owner, type and RDATA key and, if both have a complete wire form, in all canonical fields |
| RecordKey.StatsKeyIsInjective | internal/audit/audit.go:451 | the tally key `name/type` determines name and type for every name |
| Merging.MergedKeys | internal/audit/audit.go:348-368 | deduplication loses no key and invents no record |
| Gather.Add | internal/audit/audit.go:349-363 | a record is appended if and only if no earlier record of any section has its key |
| Gather.AddAll | internal/audit/audit.go:364-368 | the sections together stay the first record of each key, without repetition |
| Gather.CollectDNSSEC | internal/audit/audit.go:343-400 | units, keys and anchor are the responses as they came; the union is the first record of each key over all of them, each in a section it came from; every record received, in either section of any response or at the apex, has its key in the union, and nothing else is there |
| Gather.DsSurvives | internal/audit/audit.go:343-400 | without ambiguous owners a DS of any response is left in the union |
| Gather.RecordMayBeMergedAway | internal/audit/audit.go:343-400 | with an ambiguous owner no record is safe: a DNSKEY that came first takes its place |
| Gather.DsMayBeMergedAway | internal/audit/audit.go:343-400 | in particular a DS can be gone from the union |
| SignatureTally.Count | internal/audit/audit.go:451-461 | one outcome is added to the entry of its pair, and the first key tag stays |
| SignatureTally.TallyUnits | internal/audit/audit.go:427-463 | the tally stands for a log in which every pair that a response tracks was checked there and every outcome is one the response can have |
| SignatureTally.CheckUnits | internal/audit/audit.go:427-463 | the tally has an entry for each tracked pair; an entry with a pass was accepted in some response, one without was rejected in every response that tracks it, and its tag is that of the first signature checked in the first response that tracks it |
| SignatureTally.AggregationIsExact | internal/audit/audit.go:419-480 | a pair passes only if some response accepts it, and fails only if every response that tracks it rejects it |
| SignatureTally.Report | internal/audit/audit.go:465-480 | one finding for each entry without a pass, and the number of entries with one |
| SignatureTally.PairsAccounted | internal/audit/audit.go:465-480 | entries and tracked pairs correspond one to one, so findings and verified pairs account for all of them |
| SignatureTally.VerifySignatures | internal/audit/audit.go:419-480 | findings plus the verified count equal the number of tracked pairs; on the records themselves, a finding means that every response that tracks the pair has a signature and a key with its tag for which the library says no, and no finding that some response has only signatures it confirms; a finding names the tag of the first signature checked |
| SignatureTally.UnitInRecords | internal/dnssec/chain.go:183-199 | tracked, accepted and rejected pairs of a collection are those of the records it was made of: a signature at the name, a key with its tag anywhere, and the answer of the library over the covered records |
| SignatureTally.ReportedIffRejectedEverywhere | internal/audit/audit.go:410-418 | with unique tags a pair is reported if and only if it is tracked and rejected wherever it is tracked, whatever the order of responses |
| Verdict.Decide | internal/audit/audit.go:214-236 | "no DS", "broken chain", "validated" or nothing, each exactly under its condition |
| Verdict.ChainMeans | internal/audit/audit.go:214-236 | what that decision says about the responses: a missing DS, a mismatch at a name the code may pick, an untimely signature, or a trustworthy chain |
| Verdict.BrokenIsReported | internal/audit/audit.go:217-228 | a chain with an untimely signature, or without a match at any name the code may pick, is reported as broken |
| Verdict.NothingContradicts | internal/audit/audit.go:206-236 | next to "validated" there is no expired, premature or invalid signature, broken chain or missing DS |
| Verdict.HealthyPasses | internal/audit/audit.go:198-236 | completeness: with a DS, a match at every name the code may pick, timely signatures and no failed pair, the decision is validated |
| Verdict.AuditDNSSEC | internal/audit/audit.go:194-236 | for every collection of responses and every clock: each finding is true of the records of the responses, with the count of verified pairs and the key tag it carries; presence, lifetime and algorithm findings are complete for the deduplicated records and the missing-DS finding for the responses; healthy zones are validated, broken chains and pairs that no response accepts are reported, and nothing contradicts "validated" |
| Verdict.InvalidIsRefuted | internal/audit/audit.go:206-213 | for a reported pair every response that tracks it has a signature and a key with its tag for which the library says no over the covered records of that response |
| Verdict.SoundSignaturesAreSilent | internal/audit/audit.go:206-213 | where the library confirms every signature whose key a response carries, no signature is reported as invalid, be it by a zone-signing or a key-signing key |
| Verdict.CountedIsTracked | internal/audit/audit.go:465-480 | the pairs behind the verified count are exactly those that some response tracks |
| Verdict.ReportIsExact | internal/audit/audit.go:194-236 | where the map orders leave no choice, validated, broken chain and each invalid signature with its tag are reported if and only if their condition on the responses holds |
| Verdict.UnambiguousVerdictIsSound | internal/audit/audit.go:194-236 | without ambiguous owners "validated" always means that a DS of the anchor is the digest of a DNSKEY at the same name |
| Verdict.ValidatedMatchesIffDsIsLeft | internal/audit/audit.go:214-236 | a validated chain has a match at a name the code may pick if and only if deduplication left a DS |
| Verdict.DigestsAreIgnored | internal/dnssec/chain.go:112-118 | for a healthy zone without a DS in the union there are hash functions under which it is as healthy and no DS of the anchor matches any key |
| Verdict.ChainIsCheckedAtZoneIff | internal/dnssec/chain.go:150-162 | the chain is checked at the audited zone under every order if and only if the zone is the sole owner of DS with keys, or of DS where no owner has keys |
| Verdict.UnionKeepsKey | internal/audit/audit.go:343-400 | without ambiguous owners the union publishes exactly the keys of the responses |
| Verdict.UnionKeepsSig | internal/audit/audit.go:343-409 | without ambiguous owners, and where the presentation form of an RRSIG determines it, the union holds exactly the zone's signatures of the responses |
| Verdict.MatchIsAtZone | internal/dnssec/chain.go:122-162 | for a sole owner "validated" means a match at the zone itself |
| ConcreteRuns.ShadowedDsIsNotCompared | internal/audit/audit.go:343-400 | a run, for any cryptography, in which "validated" is reported although no DS of the anchor matches any key |
| ConcreteRuns.ForeignMatchIsReported | internal/dnssec/chain.go:122-162 | a run, for any cryptography, in which "validated" is reported by a match at another owner while the zone's own DS matches no key |
| Cname.Build | internal/cname/cname.go:18-28 | a name is in the graph exactly if some record is a CNAME of it, and then maps to the target of the last one |
| Cname.WalkChain | internal/cname/cname.go:86-106 | the loop computes the walk about which the lemmas below speak |
| Cname.WalkFacts | internal/cname/cname.go:84-106 | a walk is a path without repetition before its end, at most 102 names long, that stopped at a repetition, a name without CNAME or the cap |
| Cname.WalkShrinksAlongChain | internal/cname/cname.go:42-49 | a walk from a name on a chain is no longer than the chain's own, on any graph |
| Cname.Scan | internal/cname/cname.go:34-69 | the loop with its `visited` map walks exactly the starts that are not on an earlier chain |
| Cname.LongChainIffLongWalk | internal/cname/cname.go:39-56 | for every graph and order a long chain is reported if and only if some start has a longer walk and the limit is at most 100 |
| Cname.DanglingExactIff | internal/cname/cname.go:39-69 | for every name: it is reported rightly under every iteration order if and only if, being an end, an unresolved one is within 101 hops of a head, and, having a CNAME, it resolves or no walk stops at it by repetition or cap |
| Cname.SomeOrderLosesTarget | internal/cname/cname.go:39-69 | for an end without a near head an iteration order that loses it is constructed |
| Cname.DanglingSubjectsAreUnresolvedEnds | internal/cname/cname.go:39-69 | for an acyclic graph with chains of at most 101 hops and every order, the dangling subjects are exactly the unresolved ends of all chains |
| Cname.ShortChainsLoseNothing | internal/cname/cname.go:39-69 | where chains that end have at most 101 hops every end has a near head, whatever cycles there are |
| Cname.LongerChainLosesTarget | internal/cname/cname.go:86-106 | a chain of 102 hops, built from canonical CNAME records, whose end some order does not report |
| Cname.FindLoopRoots | internal/cname/cname.go:109-135 | the loops compute the map about which the lemmas below speak |
| Cname.LoopRootsAreShortCycles | internal/cname/cname.go:109-135 | the roots are exactly the names on cycles of at most 100 names, for every order, and each path is real and ends at its first repetition |
| Cname.LoopPathDependsOnOrder | internal/cname/cname.go:109-135 | two orders of one graph of three names record different paths |
| Cname.LoopPathFixedIffUnfed | internal/cname/cname.go:109-135 | the path recorded for a root is the same under every order if and only if no name off its cycle points to it, or the cycle has 100 names |
| Cname.LoopsDeterministicIffUnfed | internal/cname/cname.go:109-135 | the map of loops is the same under every two orders if and only if that holds of all its roots |
| Cname.LoopNameIsReported | internal/cname/cname.go:57-69 | a name on a cycle, which has a CNAME, is reported as dangling in a graph of three names |
| Cname.Check | internal/cname/cname.go:34-83 | all findings with their multiplicities for the given orders, a limit of zero or less counting as 8: long chains are reported of exactly the walked starts with a long walk, and some if and only if a long walk exists; dangling findings are exactly the unresolved last names of the walked chains, hence ends or names where a walk stops early, and the unresolved ends where the graph is acyclic with short chains; loops are exact |
| CnameOrder.ScanDeterministicIffQuiet | internal/cname/cname.go:39-69 | for every graph and limit, chain findings are the same multiset under all orders if and only if no name that another name points to has a finding of its own |
| CnameOrder.CheckDeterministicIff | internal/cname/cname.go:34-83 | all findings of a check are the same multiset under all orders if and only if that holds and no loop root is fed |
| CnameOrder.TwoHopsVary | internal/cname/cname.go:39-69 | a chain of two hops whose unresolved end is reported once under one order and twice under the other |
| CnameOrder.MeetOnCycle | internal/cname/cname.go:86-106 | names of one cycle that meet after as many hops are the same, the reason why starts on a long cycle end at different names |
| Findings.BuiltFromCatalog | internal/findings/findings.go:129-169 | every way to build a finding gives one whose further fields are those of its rule and zone, and whose five keys are those given |
| Findings.RegisterKeepsCatalogValid | internal/findings/catalog.go:38-44 | registration keeps identifiers unique and old rules in place |
| Findings.CompareIsPreorder | internal/findings/findings.go:178-186 | `Compare` is a total preorder |
| Findings.CompareZero | internal/findings/findings.go:178-186 | it ties exactly the findings that agree in severity, identifier, subject, description and evidence |
| Findings.FirstKeyDecides | internal/findings/findings.go:178-186 | it is negative exactly if the first key in which two findings differ decides so: higher severity, then identifier, subject, description and evidence lines in octet order |
| Findings.CatalogFindingsHaveNoTies | internal/audit/audit.go:557-560 | findings of one zone built from the catalog that tie are equal |
| Findings.Sort | internal/findings/findings.go:173-175 | sorts in place: a sorted permutation |
| Findings.SortedReport | internal/audit/audit.go:297-305 | the report is a sorted permutation of what was found |
| Findings.ReportIsDeterministic | internal/audit/audit.go:297-305 | the same findings, found in any order, give the identical report |
| Findings.TitlesAreNotCompared | internal/findings/findings.go:178-186 | without the catalog ties do exist |
| Findings.MoreSevereFirst | internal/findings/findings.go:173-186 | of two findings of a report the earlier one goes first in that order, or they agree in all five keys |
| Delegation.NSNames | internal/dns/util.go:99-114 | exactly the lower-case targets of the NS records, each once |
| Delegation.SortedListsAgree | internal/delegation/delegation.go:103-119 | comparing sorted lists element by element compares multisets |
| Delegation.ComparisonIsSetComparison | internal/delegation/delegation.go:52-70 | for lists made by `NSNames` the comparison is set comparison, and an extra name at the parent implies the inconsistency finding |
| Delegation.RepetitionBreaksComparison | internal/delegation/delegation.go:109-119 | for lists with repetitions it is not |
| Delegation.FindingsAreExact | internal/delegation/delegation.go:52-101 | the reported non-authoritative names are exactly parent minus child, in octet order and each once; inconsistency and lameness are reported if and only if they hold, missing glue exactly of in-zone names without an address in either map |
| Delegation.CompareViews | internal/delegation/delegation.go:52-101 | the method reports exactly that |
| FakeResolver.Resolver.AddZone | internal/resolver/fake.go:51-58 | files a zone under its canonical name and touches no other |
| FakeResolver.EnclosesOnLabels | internal/resolver/fake.go:170-171 | the string test is the test on labels: the labels of the zone are the last labels of the name |
| FakeResolver.DeeperZoneHasLongerName | internal/resolver/fake.go:164-179 | of two enclosing zones the deeper has the longer registered name, even if only the other is spelled with its final dot |
| FakeResolver.LongestIsDeepest | internal/resolver/fake.go:164-179 | the longest enclosing name belongs to the one deepest enclosing zone |
| FakeResolver.Resolver.FindZone | internal/resolver/fake.go:164-179 | for every iteration order the one deepest zone whose labels are the last labels of the name, nothing if and only if there is none |
| Budget.ValidatedIsIdentityOnPositive | internal/budget/budget.go:33-51 | validation yields positive limits and leaves exactly the positive budgets alone |
| Budget.Counter.Consume | internal/budget/budget.go:75-83 | takes one unit if and only if there is one |
| Budget.Semaphore.Acquire | internal/budget/budget.go:152-160 | takes one slot, or none because the context is done |
| Budget.Semaphore.Release | internal/budget/budget.go:162-164 | gives one slot back |
| Network.Resolver.Spend | internal/resolver/network.go:42-50 | uses at most one unit, holds a slot if and only if it succeeds |
| Network.Resolver.RetryLoop | internal/resolver/network.go:71-88 | makes at most max(Retries, 0) + 1 attempts, stops at the first that answers or is cancelled, and sends at most twice as many messages |
| Network.Resolver.Query | internal/resolver/network.go:57-89 | leaves the semaphore as it was, uses at most one unit, sends nothing without one, and returns what the first ending one of max(Retries, 0) + 1 attempts returns |
| Network.Resolver.Transfer | internal/resolver/network.go:118-133 | the same with a single message |
| Network.QueryIsRun | internal/resolver/network.go:57-89 | every result that the contract of `Query` allows is that of a run of the state machine in which only this call moves |
| Network.TransferIsRun | internal/resolver/network.go:118-133 | the same for a transfer |
| Network.QueryAsCall | internal/resolver/network.go:57-89 | refinement: called on a resolver built from a budget and a number of retries, in the shared state of a state of the machine for them, `Query` ends in the shared state of a state to which such a run leads, and sends as many messages as it |
| Network.TransferAsCall | internal/resolver/network.go:118-133 | the same for a transfer |
| Network.StepKeepsInv | internal/resolver/network.go:42-89 | every step of every interleaving keeps: remaining plus granted is constant, holders equal occupied slots, sends fit the retry loop |
| Network.BudgetIsSafe | internal/resolver/network.go:42-89 | in every reachable state grants and slots stay within the validated limits, and messages within 2 (max(Retries, 0) + 1) for each grant |
| Network.ReleaseNeverBlocks | internal/resolver/network.go:52-54 | a call at `release` finds a taken slot |
| Network.FinishedLeaksNothing | internal/resolver/network.go:42-61 | when all calls are done no slot is taken, whatever failed |
| Network.NoDeadlock | internal/resolver/network.go:42-89 | while a call is unfinished some call can take a step, without any cancellation |
| Network.CancelledGivesUp | internal/resolver/network.go:42-50 | a cancelled call that waits can give up in one step, even when every slot is taken |
| Network.RunsAreBounded | internal/resolver/network.go:42-133 | every interleaving of n calls ends within (3 max(Retries, 0) + 8) n steps |

## Left out

- Sending and receiving: sockets, timeouts and `/etc/resolv.conf` (internal/resolver/network.go:91-115, 163-208) turn
  into the parameter `net` of a query, which says whether each attempt is answered.
- Command line, configuration, and rendering of a report as text, JSON or SARIF: they take a finished report and are not
  needed for what it contains.
- Cryptographic algorithms: parameters of the model. Base64, base32 and hex text is decoded before the model starts, so
  a DNSKEY whose text is not base64 does not occur; the code uses its raw text in RDATA and refuses it as a key. An RRSIG
  whose signature text is not base64 is one whose signature octets are that text.
- `RateLimiter.Wait` (internal/budget/budget.go:109-134) refills its bucket on every call, so no rate bound holds; it
  is a step that succeeds or is cancelled.
- `extractTransfer` (internal/resolver/network.go:136-163), which copies the records of a transfer up to a limit.
- `FakeResolver.Query`, `Transfer` and `record`: they answer from the record tables of the zone that `findZone` returns,
  and log the question.
- The other checks: `addrs` classifies addresses, `caa` looks at the tags and flags of CAA records, `soa` and `ttl`
  compare fields with thresholds, `nsec` reads NSEC3 parameters, and `wildcard`, `active`, `authserver` and `axfr` each
  interpret one probe. `Max`, `Counts` and `AtLeast` fold over a report by severity; `Addrs`, `TTL` and `RRSIGData` read
  one field.
- `buildResolveTarget`, which looks a name up among the collected records, and `collectApexRecords`, which sends the
  queries at the apex: their results are parameters.
- `ExtractNSFromResponse` and `ExtractChildFromResponse`: they sort the records of a response into the two views, which
  are parameters; glue is a count of addresses.
- Serial-number arithmetic of RFC 1982 for signature times: the code compares plainly, and so does the model.
- Evidence text: findings carry the values their evidence is made from, not the joined strings.
- Nil records and responses with a nil section: the code skips them, the model has none.
- Ordering.SortInPlace: does not model stability, because no caller relies on it.
- SignatureTally.ReportedIffRejectedEverywhere: assumes unique key tags in each response, because `keyForKeyTag` takes
  the first hit in map order; without it `VerifySignatures` states both directions separately.
- Network.Resolver.Spend: models the moment when the call can proceed; waiting itself is the state machine's business.
