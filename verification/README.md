# Mininet-WiFi and iw: verified models

Dafny models of the algorithmic parts of Mininet-WiFi and of the `iw` it carries, with proofs of what they
promise. Code that changes state step by step is modelled by methods over arrays and objects, each proved
against a specification; the theorems are about the specifications.

| files | what they model |
|---|---|
| `Sha256Words`, `Sha256Spec`, `Sha256`, `Sha256Example` | the streaming SHA-256 of `iw/sha256.c`, refining sections 4 to 6 of FIPS 180-4, and the standard's example |
| `Gf2`, `Crc24`, `Adsb` | polynomials over GF(2), the Mode S parity of `mn_wifi/aviation.py`, and its ADS-B frame |
| `Crc32Table`, `Bloom` | the table-driven CRC-32 of `iw/bloom.c` and the NAN Bloom filter that `iw/nan.c` fills |
| `Association`, `Handover` | least-loaded-first and strongest-signal-first handover, as a transition system and as the objects behind it |
| `Tlv`, `ScanIes`, `Rsn` | the length-prefixed formats of `iw/scan.c`, its two element walkers, and the RSN element parser |
| `Netlink`, `SchedScan`, `ScanParser`, `ScanMeaning`, `Wowlan` | messages with nested attributes; the language `parse_sched_scan` accepts, its loop, what its message says, and the WoWLAN command around it |
| `Rates`, `Bitrates`, `BitratesMessage`, `TidConfig` | MCS masks, `set_bitrates`, what it accepts and what its message says, and the TID configuration command that calls it |

## How the parts are specified

- **SHA-256.** `Sha256Spec` follows FIPS 180-4. The 64 round constants and the initial hash value are not
  copied from the code: they are defined as bits of cube and square roots of primes, and the code's tables are
  proved to be those. The C macros are modelled on 64-bit words (`unsigned long`), and the truncation to 32
  bits is proved to commute with the sums and rotations. The standard's example "abc" is worked out round by
  round, down to the 32 bytes of its digest.
- **CRC-24.** The register of `crc24` is a Python integer that is never masked, so it is modelled as an
  unbounded number. Remainders are stated with polynomial multiplication (`Gf2.Mul`), not with the register.
- **Arguments.** The parsers of `iw` work on arguments that are already classified: a constructor says what
  `strcmp`, `strtoul` or `sscanf` would find. For `parse_sched_scan`, the WoWLAN command and the TID command a
  grammar says which argument lists are accepted, and the state machine is proved to accept exactly these
  and to read each in one way. The message is a function of what was read, and the loops are proved to
  write that message. For every type of attribute a lemma then says, on the clauses or arguments alone, when
  the message holds it and with what value.
- **Netlink.** `Message` keeps the attributes of the innermost open nest and a stack of the nests around it, so
  "every nest opened is closed" is a statement about that stack. Memory never runs out, and putting an
  attribute never fails.

## What the code does that its documentation does not say

Each of these is a lemma.

- `h` divides by zero for a filter whose length is a multiple of 8192 bytes, because `8 * bf_len` is cut to 16
  bits (`Bloom.ModulusNonzero`). The caller in `iw/nan.c` uses at most 255 bytes.
- `ssf` disconnects the station from the candidate, not from the access point it is on, so the old access
  point keeps the station in its list, once for every access point visited (`Association.SsfLeavesStaleEntry`,
  `Association.SsfRunInflates`). It compares the candidate with itself at two distances. That is comparing the
  received signals, over all places, exactly when the candidate has no level between its own and the serving access
  point's level at any one distance (`Association.SsfErrsExactlyWhen`, `Association.SsfComparesSignalsExactlyWhen`);
  with a loss in whole decibels, exactly between access points of equal gain (`Association.SsfComparesEqualGains`).
- `llf` disconnects before the caller checks whether the candidate can be joined. When another interface of the
  same node is on the candidate, or the join is not recorded, the station ends with no access point
  (`Handover.LlfStepLoses`, an input in `Handover.LlfStepLosesOne`). The same happens after `ssf`
  (`Handover.SsfStepLoses`, `Handover.SsfStepLosesOne`).
- `init_context` reads the third byte of an extension element without checking that it has a body
  (`ScanIes.EmptyExtensionMisread`, and the exact condition in `ScanIes.HeCapRightExactlyWhen`).
- `_print_rsn_ie` returns early when a cipher or count does not fit; up to three bytes then vanish without being
  reported as a bogus tail (exactly when, in `Rsn.RsnKept`; an input in `Rsn.TailMayVanish`).
- `parse_sched_scan` leaves through the error label when it meets an argument for its caller: the call
  succeeds, but SSIDs, frequencies, match sets, plans and flags collected so far are dropped. A
  `net-detect` with anything after it therefore has no lists (`ScanParser.StoppingLosesLists`,
  `Wowlan.NetDetectKeepsListsExactlyAtEnd`).
- A `delay` of 0 can be given again (`SchedScan.ZeroDelayRepeats`), and a list keyword can be the last argument
  with its list empty (`SchedScan.OpenBlockAccepted`), against the documented syntax.
- A list of MCS numbers is cut off silently after as many numbers as there are MCSs (`Rates.LongListCutOff`, and
  when that matters in `Rates.ListReadInFullExactlyWhen`), which also makes some ranges and lists differ
  (`Rates.RangeIsList`).
- `set_bitrates` has one variable for the guard interval of all bands, and one for the LTF
  (`Bitrates.TwoBandsShare`, and when it matters in `Bitrates.BandGetsItsOwnExactlyWhen`).
- `set_bitrates` ignores any text after `sgi-5` and its like, and any text after `he-gi-5` and its like that another
  follows. Later `tids` entries of a TID configuration then disappear (`TidConfig.SgiSwallowsEntries`,
  `TidConfig.GiSwallowsEntries`, and exactly when in `TidConfig.WordAcceptedExactlyWhen`). Its result for a single
  argument is taken for an error (`TidConfig.SuccessRejectedExactlyWhen`).

## Model

| member | source | states |
|---|---|---|
| Sha256Words.RORcIsRotR | mininet-wifi/iw/sha256.c:48-50 | the wide shift-and-mask macro is the 32-bit right rotation of FIPS 180-4 section 3.2, for every word and amount |
| Sha256Words.LogicAgrees | mininet-wifi/iw/sha256.c:51-52 | the rewritten Ch and Maj are the functions of section 4.1.2 |
| Sha256Words.SigmasAgree | mininet-wifi/iw/sha256.c:55-56 | the 64-bit Sigma macros, truncated, are the section 4.1.2 functions |
| Sha256Words.GammasAgree | mininet-wifi/iw/sha256.c:57-58 | likewise for the message schedule functions |
| Sha256Words.T0Agrees | mininet-wifi/iw/sha256.c:84 | what RND leaves in t0 is T1 of section 6.2.2 |
| Sha256Words.T1Agrees | mininet-wifi/iw/sha256.c:85 | what RND leaves in t1 is T2 of section 6.2.2 |
| Sha256Words.NextWAgrees | mininet-wifi/iw/sha256.c:78-80 | what is stored in W[i] is the section 6.2.2 schedule word |
| Sha256Spec.WordBytesRoundTrip | mininet-wifi/iw/sha256.h:7-22 | LOAD32B and STORE32B undo each other, in both directions |
| Sha256Spec.Pad | mininet-wifi/iw/sha256.c:173-195 | the padded message is the shortest whole number of 64-byte blocks with room for nine more bytes |
| Sha256Spec.PadInjective | mininet-wifi/iw/sha256.c:173-195 | messages shorter than 2^64 bits with equal padded forms are equal |
| Sha256Spec.BlockPermutes | mininet-wifi/iw/sha256.c:64-100 | what a block adds to the hash value is a permutation of the hash value: the rounds can be taken back, and the old state is added to them |
| Sha256.KTableIsK | mininet-wifi/iw/sha256.c:30-44 | every entry of the K table is the first 32 fractional bits of the cube root of its prime (section 4.2.2) |
| Sha256.InitialState | mininet-wifi/iw/sha256.c:104-116 | the eight initial words are the fractional bits of square roots of the first primes (section 5.3.3) |
| Sha256.RoundOnRegisters | mininet-wifi/iw/sha256.c:83-93 | updating two registers and then rotating S[0..7] in place is one round of section 6.2.2 |
| Sha256.RunRounds | mininet-wifi/iw/sha256.c:89-93 | the loop performs the 64 rounds, for every block and chaining value |
| Sha256.ExpandMessage | mininet-wifi/iw/sha256.c:74-80 | W holds the message schedule of the block |
| Sha256.State.Compress | mininet-wifi/iw/sha256.c:64-100 | the state becomes the section 6.2.2 hash step of the old state and the block, and nothing else changes |
| Sha256.State.Init | mininet-wifi/iw/sha256.c:104-116 | a new state stands for the empty message |
| Sha256.State.Process | mininet-wifi/iw/sha256.c:125-156 | the message absorbed grows by exactly the input, whatever waited in the buffer; fails, changing nothing, exactly when curlen is out of range |
| Sha256.State.AbsorbPart | mininet-wifi/iw/sha256.c:140-152 | the buffered path absorbs what fits and compresses a full buffer |
| Sha256.State.PadTo56 | mininet-wifi/iw/sha256.c:175-192 | both padding paths absorb the 0x80 byte and exactly the zeros of section 5.1.1 |
| Sha256.State.Finish | mininet-wifi/iw/sha256.c:175-196 | after padding and length the state is the hash of the padded message |
| Sha256.State.Done | mininet-wifi/iw/sha256.c:165-203 | the 32 output bytes are the FIPS 180-4 digest of everything absorbed; error and frame stated |
| Sha256.StoreWords | mininet-wifi/iw/sha256.c:198-200 | the state is written big-endian, and bytes beyond 32 are untouched |
| Sha256.Sha256 | mininet-wifi/iw/sha256.c:10-21 | the one-shot call gives the digest |
| Sha256.Sha256OfChunks | mininet-wifi/iw/sha256.c:125-203 | for every way of cutting a message into calls, init, process and done give the digest of the whole |
| Sha256.ComputeServiceId | mininet-wifi/iw/nan.c:145-157 | the service id is the first six bytes of the digest of the name |
| Sha256Example.DigestOfAbc | mininet-wifi/iw/sha256.c:64-203 | the digest of "abc" is the 32 bytes FIPS 180-4 gives |
| Gf2.RemainderUnique | mininet-wifi/mn_wifi/aviation.py:7-15 | remainders modulo a polynomial are unique |
| Crc24.UnmaskedStep | mininet-wifi/mn_wifi/aviation.py:10-15 | one step of the ever-growing register equals, modulo 2^24, one step of the masked one |
| Crc24.ComputeCrc24 | mininet-wifi/mn_wifi/aviation.py:7-15 | the loop with the unmasked register returns the masked register's value, which is congruent to msg * x^24 modulo x^24 + 0xFFF409 |
| Crc24.RegisterIsRemainder | mininet-wifi/mn_wifi/aviation.py:7-15 | the register is the remainder, for bit strings of any length |
| Crc24.RegisterIsZero | mininet-wifi/mn_wifi/aviation.py:7-15 | a bit string checks to zero if and only if the generator divides it |
| Crc24.Codeword | mininet-wifi/mn_wifi/aviation.py:36-38 | m followed by p checks to zero if and only if p is the parity of m |
| Crc24.RegisterXor | mininet-wifi/mn_wifi/aviation.py:7-15 | the parity is linear on messages of equal length |
| Crc24.ErrorUnnoticed | mininet-wifi/mn_wifi/aviation.py:7-15 | an error passes exactly when the generator divides it |
| Crc24.BurstNoticed | mininet-wifi/mn_wifi/aviation.py:7-15 | any nonzero error within 24 consecutive bits of a codeword of any length is noticed |
| Crc24.OddErrorNoticed | mininet-wifi/mn_wifi/aviation.py:8-14 | any odd number of flipped bits is noticed, since the generator has even weight |
| Adsb.BuildAdsb | mininet-wifi/mn_wifi/aviation.py:24-38 | fields, parity and byte padding in order; fails exactly when a field does not fit |
| Adsb.BuiltExactlyWhen | mininet-wifi/mn_wifi/aviation.py:18-35 | the exact ranges of latitude, longitude, altitude and flag for which a frame is built |
| Adsb.FrameChecksToZero | mininet-wifi/mn_wifi/aviation.py:36-38 | every frame emitted checks to zero, before and after byte padding |
| Adsb.FrameLayout | mininet-wifi/mn_wifi/aviation.py:25-38 | the frame has 114 bits, 120 when padded, with every field at its offset: the constant ones bit by bit, each digit of the address in its four bits |
| Adsb.AltitudeRecovered | mininet-wifi/mn_wifi/aviation.py:24-35 | the coded altitude gives the altitude back to within 25 feet |
| Adsb.PositionRecovered | mininet-wifi/mn_wifi/aviation.py:18-21 | the coded position gives the position back to within one step |
| Crc32Table.TableStep | mininet-wifi/iw/bloom.c:4-48 | the table step equals eight single-bit steps of the reflected 0xEDB88320 register, for every register and byte |
| Bloom.Crc32 | mininet-wifi/iw/bloom.c:50-59 | the table-driven loop equals the bit-at-a-time register for every start and buffer |
| Bloom.CheckValue | mininet-wifi/iw/bloom.c:50-59 | the register after the digits 1 to 9 is the check value of CRC-32 before its complement |
| Bloom.RegisterConcat | mininet-wifi/iw/bloom.c:61-66 | continuing a CRC equals the CRC of the concatenation, as h uses it |
| Bloom.H | mininet-wifi/iw/bloom.c:61-66 | the position is the low 16 bits of one CRC over the hash number and the address, and lies in the filter |
| Bloom.HashIs | mininet-wifi/iw/bloom.c:61-66 | in numbers: the register from all ones, modulo 2^16, modulo the filter size |
| Bloom.HashNumbersSeparate | mininet-wifi/iw/bloom.c:61-66 | different hash numbers give different CRCs of the same address |
| Bloom.HashNumberIs | mininet-wifi/iw/bloom.c:73-80 | the hash numbers of an index are the four from four times the index on, in eight bits |
| Bloom.HashNumbersDiffer | mininet-wifi/iw/bloom.c:73-80 | within a call, and between indices below 64, no hash number is used twice |
| Bloom.PositionsAre | mininet-wifi/iw/bloom.c:73-80 | the positions of an index are those of its four hash numbers |
| Bloom.PositionsOfOne | mininet-wifi/iw/bloom.c:61-80 | an input: the four bits set for one address in a filter of four bytes |
| Bloom.SetBit | mininet-wifi/iw/bloom.c:68-71 | exactly one bit is set and no other changes |
| Bloom.ByteIsItsBits | mininet-wifi/iw/bloom.c:68-71 | bit k mod 8 of a byte has weight 2 to that power |
| Bloom.NanBf | mininet-wifi/iw/bloom.c:73-80 | for every filter length the code is defined for, the bits set are the old ones and the four positions of the address |
| Bloom.NanBfForEach | mininet-wifi/iw/bloom.c:73-80 | after any sequence of calls exactly the positions of all addresses are added, whatever the order, and no bit is cleared |
| Bloom.ParseSrf | mininet-wifi/iw/nan.c:215-245 | the filter's set bits are exactly the union of the positions of all listed addresses; rejected exactly for a bad length or address |
| Bloom.MatchesExactlyWhen | mininet-wifi/iw/bloom.c:73-80 | a receiver that tests the bits nan_bf sets accepts if and only if all four are set |
| Bloom.ListedAddressMatches | mininet-wifi/iw/bloom.c:73-80 | no false negatives, at every filter length the code is defined for |
| Bloom.OrderIrrelevant | mininet-wifi/iw/bloom.c:73-80 | order and repetition of addresses do not matter |
| Bloom.MatchesGrow | mininet-wifi/iw/bloom.c:73-80 | adding addresses never loses a match |
| Association.LlfMoveKeeps | mininet-wifi/mn_wifi/associationControl.py:20-28 | a least-loaded-first handover keeps lists and associations consistent, keeps the set of associated stations, and moves one unit of load |
| Association.LlfMoveMaximum | mininet-wifi/mn_wifi/associationControl.py:20-28 | no handover raises the maximum load |
| Association.LlfNoReturn | mininet-wifi/mn_wifi/associationControl.py:20-28 | no station of the new access point may immediately go back |
| Association.LlfMoveLoads | mininet-wifi/mn_wifi/associationControl.py:20-28 | a handover keeps the total load and lowers the sum of squares by at least 4 |
| Association.RunBounded | mininet-wifi/mn_wifi/associationControl.py:14-28 | over any run: stations, total and consistency kept, maximum not raised, and at most a quarter of the initial sum of squares many moves |
| Association.StartsConsistent | mininet-wifi/mn_wifi/link.py:510-519 | before anybody joins, the tables agree |
| Association.OneHandover | mininet-wifi/mn_wifi/associationControl.py:14-28 | a run: one of four stations moves to the empty access point, and then none may |
| Association.QuiescentIsBalanced | mininet-wifi/mn_wifi/associationControl.py:20-23 | no move is enabled if and only if all loads differ by at most 2 |
| Association.QuiescentNearAverage | mininet-wifi/mn_wifi/associationControl.py:20-23 | at rest no load exceeds the average by more than 2(n-1)/n |
| Association.TotalIsStations | mininet-wifi/mn_wifi/link.py:510-519 | in a consistent network the loads add up to the number of associated stations |
| Association.SsfLeavesStaleEntry | mininet-wifi/mn_wifi/associationControl.py:42-44 | a strongest-signal handover to another access point leaves the station in the old list; consistency holds exactly when nothing moves |
| Association.SsfRunInflates | mininet-wifi/mn_wifi/associationControl.py:36-45 | from a consistent network, after any run of such handovers the total load exceeds the number of stations by the number of access points visited besides the first |
| Association.SsfShortens | mininet-wifi/mn_wifi/associationControl.py:36-42 | where no access point visited is received better from farther away, every handover of a standing station shortens the distance |
| Association.SsfShortensExactlyWhen | mininet-wifi/mn_wifi/associationControl.py:36-42 | over all places: every handover shortens the distance if and only if the candidate is never received better from farther away |
| Association.SsfTerminates | mininet-wifi/mn_wifi/associationControl.py:36-45 | so no access point is visited twice, and there are fewer handovers than access points |
| Association.SsfErrsExactlyWhen | mininet-wifi/mn_wifi/associationControl.py:36-42 | a decision differs from comparing the received signals exactly when the candidate's signal, less the margin, lies between the candidate's and the serving access point's signals at the serving distance |
| Association.SsfComparesSignalsExactlyWhen | mininet-wifi/mn_wifi/associationControl.py:36-42 | for any two radios, over all places: all decisions compare the received signals if and only if the candidate has no level that lies, less the margin, between its own and the serving access point's level at one distance |
| Association.SsfNeverWeakensExactlyWhen | mininet-wifi/mn_wifi/associationControl.py:36-42 | likewise: no decision moves to a weaker signal if and only if no level of the candidate exceeds its own level at some distance by more than the margin and stays below the serving access point's there |
| Association.SsfComparesEqualGains | mininet-wifi/mn_wifi/propagationModels.py:100-119 | where a loss in whole decibels, by distance alone, is subtracted from whole gains: signals are compared if and only if the gains are equal |
| Association.SsfNeverWeakensGains | mininet-wifi/mn_wifi/propagationModels.py:100-119 | there no decision moves to a weaker signal if and only if the serving access point gains at most one decibel more |
| Association.SsfMayPreferWeaker | mininet-wifi/mn_wifi/associationControl.py:36-42 | one pair of fading radios and one place where the rule moves to the weaker signal and does not move back |
| Handover.Intf.SetConnected | mininet-wifi/mn_wifi/link.py:510-512 | interface and list are updated together |
| Handover.Intf.SetDisconnected | mininet-wifi/mn_wifi/link.py:514-519 | the association is cleared, and the first entry in the list given is removed |
| Handover.Intf.AssociateInfra | mininet-wifi/mn_wifi/link.py:546-570 | which combinations of security settings record the association |
| Handover.RecordedExactlyWhen | mininet-wifi/mn_wifi/link.py:546-570 | who is recorded, setting by setting: fast roaming, open, WEP, WPA and others |
| Handover.TablesSay | mininet-wifi/mn_wifi/link.py:510-519 | the tables list exactly the associations and station lists of the objects |
| Handover.Llf | mininet-wifi/mn_wifi/associationControl.py:14-28 | on objects: the decision and the disconnect are those of the transition system |
| Handover.Ssf | mininet-wifi/mn_wifi/associationControl.py:30-45 | on objects: the candidate's list loses the station, not the serving one's |
| Handover.CheckIfApExists | mininet-wifi/mn_wifi/mobility.py:160-165 | true exactly when no interface of the node is on the access point |
| Handover.DoHandover | mininet-wifi/mn_wifi/mobility.py:167-175 | decision, disconnect and join on objects refine one step on the tables |
| Handover.NewcomerJoins | mininet-wifi/mn_wifi/mobility.py:167-175 | a station without an access point joins under every rule, unless another interface of its node is on the candidate or the join is not recorded; exactly it is added, and consistency is kept |
| Handover.SettledStays | mininet-wifi/mn_wifi/mobility.py:167-175 | while its rule does not ask for a change an associated station, and every table, stays |
| Handover.AskedLeaves | mininet-wifi/mn_wifi/mobility.py:167-175 | when it asks, the station ends on the candidate or nowhere, exactly when which, and no other list changes |
| Handover.LlfStepIsMove | mininet-wifi/mn_wifi/mobility.py:167-175 | a step is the handover of the transition system when the candidate is free and the join is recorded |
| Handover.LlfStepLoses | mininet-wifi/mn_wifi/mobility.py:167-175 | the station is left without an access point exactly when the rule fires and another interface of the node is on the candidate or the join is not recorded |
| Handover.LlfStepLosesOne | mininet-wifi/mn_wifi/mobility.py:167-175 | an input: a node with two interfaces, of which one loses its access point whatever is recorded |
| Handover.SsfStepIsMove | mininet-wifi/mn_wifi/mobility.py:167-175 | a strongest-signal step is the handover of the transition system when the candidate is free of other interfaces of the node and the join is recorded |
| Handover.SsfStepLoses | mininet-wifi/mn_wifi/mobility.py:167-175 | and leaves the station without an access point exactly when it fires and is not |
| Handover.SsfStepLosesOne | mininet-wifi/mn_wifi/mobility.py:167-175 | an input for that |
| Tlv.RoundTrip | mininet-wifi/iw/scan.c:1987-2211 | for all three formats, serialised items followed by a tail that starts no item are parsed back to those items and that tail |
| Tlv.NothingLost | mininet-wifi/iw/scan.c:1987-2211 | for all three formats and any bytes, the items consumed, serialised, followed by the reported tail are the input |
| Tlv.MaximalPrefix | mininet-wifi/iw/scan.c:2521-2542 | the items found extend those of any other reading of the bytes |
| Tlv.ReadsFirst | mininet-wifi/iw/scan.c:1987-2211 | the headers in numbers: one byte each, two bytes high first, two bytes low first; a header and the body it announces are the first item |
| Tlv.ReadsNothing | mininet-wifi/iw/scan.c:1987-2211 | nothing is read of a header cut short, or of one that announces more than there is |
| Tlv.PrintWifiWps | mininet-wifi/iw/scan.c:1987-2211 | the loop visits the items of the 16/16-bit big-endian format, the 8-bit length never wraps, and the bogus tail is the rest |
| Tlv.PrintP2p | mininet-wifi/iw/scan.c:2228-2299 | likewise for the 8/16-bit little-endian format |
| ScanIes.IeContext.InitContext | mininet-wifi/iw/scan.c:2479-2509 | the first pass visits the maximal well-formed prefix; a VHT capability is noted exactly when one is there, and he_cap is after the last element that looks like an HE capability |
| ScanIes.ShowElements | mininet-wifi/iw/scan.c:2521-2542 | the second pass shows the same elements, in order |
| ScanIes.PrintIes | mininet-wifi/iw/scan.c:2511-2543 | both passes together: every element is printed with the he_cap of the whole string, even one after it |
| ScanIes.ShownInOrder | mininet-wifi/iw/scan.c:2521-2542 | which printer is called for which element, in order, by id and length; extension printers get he_cap |
| ScanIes.HeCapIsLastHe | mininet-wifi/iw/scan.c:2492-2508 | without empty extension elements, he_cap is the body of the last HE capability |
| ScanIes.EmptyExtensionMisread | mininet-wifi/iw/scan.c:2497-2502 | an empty extension element makes the next element's header pass for an HE capability |
| ScanIes.LastByteMisread | mininet-wifi/iw/scan.c:2497-2502 | an empty one at the very end makes the byte after the string pass for one |
| ScanIes.HeCapRightExactlyWhen | mininet-wifi/iw/scan.c:2492-2508 | he_cap is right if and only if, of the extension elements whose third byte is 35, the last has a body |
| Rsn.RsnRoundTrip | mininet-wifi/iw/scan.c:937-1096 | every well-formed RSN element, with any numbers of suites and PMKIDs, is recovered field by field with no byte left |
| Rsn.RsnLayout | mininet-wifi/iw/scan.c:937-1096 | the order of the fields, byte by byte: numbers low byte first, lists after their count |
| Rsn.RsnKept | mininet-wifi/iw/scan.c:937-1096 | on any bytes, the fields found, serialised, followed by the rest are the element; on the bytes after the version, exactly when the rest is not reported, and exactly when that loses bytes |
| Rsn.TailMayVanish | mininet-wifi/iw/scan.c:954-959 | three bytes after the version are dropped without a report |
| Rsn.ReadSuites | mininet-wifi/iw/scan.c:982-985 | the loop over a suite list reads the suites in order |
| Rsn.PrintRsnIe | mininet-wifi/iw/scan.c:937-1096 | the function with its counting-down 8-bit length computes that parse, offset and length spanning the element at every step |
| SchedScan.RunIsSentence | mininet-wifi/iw/scan.c:116-344 | in every state of a run, what is accepted is a sentence and consumed arguments followed by the rest are the input; the recursion decreases arguments left, then not being at the top level |
| SchedScan.SentenceIsRead | mininet-wifi/iw/scan.c:116-344 | every sentence is accepted, read as its own clauses, and its rest left |
| SchedScan.AcceptsExactlySentences | mininet-wifi/iw/scan.c:116-344 | accepted if and only if a sentence, with unique clauses and rest |
| SchedScan.ValidExcludes | mininet-wifi/iw/scan.c:118-217 | at most one schedule, match set, frequency list and choice of probing; of several delays all but the last are 0 |
| SchedScan.ZeroDelayRepeats | mininet-wifi/iw/scan.c:145-164 | a delay of 0 does not exclude another |
| SchedScan.OpenBlockAccepted | mininet-wifi/iw/scan.c:116-344 | a list keyword may be the last argument |
| SchedScan.OneArgument | mininet-wifi/iw/scan.c:116-217 | what every single argument comes to, with its error code |
| SchedScan.ArgumentAfter | mininet-wifi/iw/scan.c:118-164 | what may follow "interval", "delay", "freqs" and "scan_plans" |
| SchedScan.NameAfter | mininet-wifi/iw/scan.c:218-258 | "matches" and "active" need "ssid" and a name |
| SchedScan.Run | mininet-wifi/iw/scan.c:116-344 | failures carry a nonzero code, and a run never leaves more arguments than it was given |
| ScanParser.ParseSchedScan | mininet-wifi/iw/scan.c:72-373 | the loop over locals and messages computes that run: error code, position, and the caller's message extended by exactly what the clauses mean, with nests balanced |
| ScanParser.Parser.StepMatch | mininet-wifi/iw/scan.c:218-258 | a turn in ND_MATCH keeps the outcome of the run, consuming or falling back |
| ScanParser.Parser.StepFreqs | mininet-wifi/iw/scan.c:259-273 | likewise in ND_FREQS |
| ScanParser.Parser.StepActive | mininet-wifi/iw/scan.c:274-301 | likewise in ND_ACTIVE |
| ScanParser.Parser.StepPlans | mininet-wifi/iw/scan.c:302-344 | likewise in ND_PLANS; plans are numbered from 1, and one without iterations ends the list |
| ScanParser.Parser.Finish | mininet-wifi/iw/scan.c:346-359 | what is added when the arguments have run out |
| ScanParser.StoppingLosesLists | mininet-wifi/iw/scan.c:208-213 | a run that stops early always loses something and puts no list at all |
| ScanMeaning.SettingsInOrder | mininet-wifi/iw/scan.c:118-207 | intervals, delays and random addresses stand first, in the order given, each with its own number or address |
| ScanMeaning.SsidsPut | mininet-wifi/iw/scan.c:346-349 | the SSIDs to probe for are there if and only if the scan is not passive: those given, in order, or an empty one |
| ScanMeaning.FreqsPut | mininet-wifi/iw/scan.c:350-353 | the frequencies are there if and only if "freqs" was given, numbered from 0 |
| ScanMeaning.MatchesPut | mininet-wifi/iw/scan.c:354-355 | the match set is there if and only if SSIDs to match were given: a nest for each, numbered from 0 |
| ScanMeaning.PlansPut | mininet-wifi/iw/scan.c:356-357 | the plans are there if and only if "scan_plans" was given, numbered from 1, with the iterations of those that have some |
| ScanMeaning.FlagsPut | mininet-wifi/iw/scan.c:350-359 | a flag is set if and only if its word was given, or for 6 GHz no frequencies; without flags there is no attribute |
| ScanMeaning.NothingElsePut | mininet-wifi/iw/scan.c:346-359 | behind the settings stands nothing but these, each at most once |
| Wowlan.AcceptsExactlyCommands | mininet-wifi/iw/wowlan.c:224-307 | the WoWLAN loop, with the schedule parser inside, accepts exactly the commands of its grammar, each read in one way |
| Wowlan.CommandExactlyWhen | mininet-wifi/iw/wowlan.c:224-307 | the commands part by part: patterns last, a schedule complete before others and not empty at the end |
| Wowlan.OneArgument | mininet-wifi/iw/wowlan.c:224-307 | what single arguments, files and patterns come to, with the error codes |
| Wowlan.CommandIsAccepted | mininet-wifi/iw/wowlan.c:224-307 | every command is accepted and read as the parts it was made of |
| Wowlan.AcceptedIsCommand | mininet-wifi/iw/wowlan.c:224-307 | every accepted argument list is a command, and nothing is left |
| Wowlan.PatternsRead | mininet-wifi/iw/wowlan.c:272-303 | after "patterns" every argument must be a pattern, to the end |
| Wowlan.NetDetectKeepsListsExactlyAtEnd | mininet-wifi/iw/wowlan.c:253-263 | in any command, a net-detect nest keeps its lists if and only if it is the last part |
| Wowlan.ParseNetDetect | mininet-wifi/iw/wowlan.c:188-203 | the nest is closed on every path, around what the schedule parser put |
| Wowlan.HandleWowlanEnable | mininet-wifi/iw/wowlan.c:205-318 | terminates; on success the message grows by one closed nest holding what the parts mean, patterns numbered from 1 |
| Wowlan.PartsInOrder | mininet-wifi/iw/wowlan.c:218-312 | the nest holds exactly, in order, the flag of each trigger, the attributes of the TCP file, the net-detect nest and the patterns |
| Rates.ParseRateChunk | mininet-wifi/iw/bitrate.c:7-80 | accepted exactly when in range, and then a bit is set exactly when the chunk names that MCS |
| Rates.RangeRead | mininet-wifi/iw/bitrate.c:16-45 | the exact limits of a range in each mode, and what it names |
| Rates.ListRead | mininet-wifi/iw/bitrate.c:16-77 | the exact limits of a list in each mode, and what it names |
| Rates.Setup | mininet-wifi/iw/bitrate.c:97-155 | accepts exactly lists of readable chunks; slot nss-1 holds the union of what is named for nss |
| Rates.SlotHas | mininet-wifi/iw/bitrate.c:97-155 | a bit of a slot is set if and only if some chunk names it |
| Rates.SlotBound | mininet-wifi/iw/bitrate.c:16-25 | masks stay below 2^10 for VHT, 2^12 for HE and 2^16 for EHT |
| Rates.OrderIrrelevant | mininet-wifi/iw/bitrate.c:106-112 | order and repetition of chunks do not matter |
| Rates.RangeIsList | mininet-wifi/iw/bitrate.c:27-77 | a range equals the spelled-out list, except exactly when the list starts at 0 and runs past the last MCS |
| Rates.ListReadInFullExactlyWhen | mininet-wifi/iw/bitrate.c:46-77 | for every list and mode: the list is read as if every number were read and checked, if and only if it has no more numbers than there are MCSs, is rejected anyway, or only repeats beyond |
| Rates.ListsReadAlikeExactlyWhen | mininet-wifi/iw/bitrate.c:46-77 | two lists read alike if and only if the same numbers are stored of both, or both are rejected |
| Rates.LongListCutOff | mininet-wifi/iw/bitrate.c:60-64 | an input: a number after the tenth of a VHT list is neither read nor checked |
| Bitrates.SetBitrates | mininet-wifi/iw/bitrate.c:196-614 | the loop, the checks and the message: result, error code and nest as specified, and the message untouched on failure |
| Bitrates.FileText | mininet-wifi/iw/bitrate.c:398-460 | a turn of the switch on parser_state accepts and files as specified |
| BitratesMessage.SucceedsExactlyWhen | mininet-wifi/iw/bitrate.c:265-539 | a call succeeds if and only if no rate keyword is repeated, every text fits its keyword, all MCS numbers can be read, no band has both sgi and lgi, and the last guard interval reads as one; with the error code for MCS numbers |
| BitratesMessage.WithoutKeyword | mininet-wifi/iw/bitrate.c:398-465 | without a keyword first the bitrates command fails, and a TID configuration takes nothing and puts an empty nest |
| Bitrates.LookFiles | mininet-wifi/iw/bitrate.c:265-460 | a rate is filed under the last keyword before it and under no other |
| Bitrates.MaskSaysWhatWasGiven | mininet-wifi/iw/bitrate.c:467-609 | the message of a successful call holds, in the nest of the band, masks in which a bit is set if and only if an argument under that keyword names it |
| BitratesMessage.MasksPut | mininet-wifi/iw/bitrate.c:532-606 | and only those masks, only for keywords given |
| BitratesMessage.CarriedExactlyWhen | mininet-wifi/iw/bitrate.c:467-609 | the nest of a band holds an attribute if and only if a keyword given for that band puts it |
| BitratesMessage.LegacyPut | mininet-wifi/iw/bitrate.c:527-564 | the legacy rates of a band are there if and only if its keyword was given: those given under it, in order |
| BitratesMessage.HtPut | mininet-wifi/iw/bitrate.c:527-566 | the HT rates likewise |
| BitratesMessage.ShortOrLongPut | mininet-wifi/iw/bitrate.c:539-578 | the guard interval is 1 if and only if sgi, and 2 if and only if lgi, was given for the band |
| BitratesMessage.IntervalPut | mininet-wifi/iw/bitrate.c:543-606 | the HE or EHT guard interval of a band is there if and only if its keyword was given, and is the code of the last one given for any band, or 0 |
| BitratesMessage.LtfPut | mininet-wifi/iw/bitrate.c:545-606 | the LTF is half the last number given for any band, as an int, or 0 |
| BitratesMessage.NestsOfBands | mininet-wifi/iw/bitrate.c:467-609 | the message is one nest of at most one nest for each band, holding nothing nested |
| Bitrates.TakesAllOrNothing | mininet-wifi/iw/bitrate.c:456-465 | called for a TID configuration, success takes all arguments, or none when the first is no keyword |
| Bitrates.IgnoredExactlyWhen | mininet-wifi/iw/bitrate.c:398-460 | an argument that reads as nothing is accepted if and only if it follows sgi or lgi, or a guard interval keyword whose last text reads as an interval, and the call succeeds without it; then it changes nothing |
| Bitrates.GiTakesTheRest | mininet-wifi/iw/bitrate.c:432-434 | a guard interval keyword takes all texts after it if and only if the last reads as an interval |
| Bitrates.SharedByAllBands | mininet-wifi/iw/bitrate.c:432-609 | in the message, the nest of a band holds a guard interval (or LTF) attribute if and only if the keyword was given for the band, and its value is what was given last for any band |
| Bitrates.BandGetsItsOwnExactlyWhen | mininet-wifi/iw/bitrate.c:432-609 | in the message, a band has what was given last for it if and only if the last text of all was not given for another band with a different value |
| Bitrates.TwoBandsShare | mininet-wifi/iw/bitrate.c:432-455 | the inputs: any two settings given for 2.4 and 5 GHz, of which the message puts the second for both |
| TidConfig.AcceptsExactlyCommands | mininet-wifi/iw/interface.c:818-1009 | the state machine accepts exactly the commands of its grammar, each read in one way |
| TidConfig.CommandExactlyWhen | mininet-wifi/iw/interface.c:818-1009 | the commands item by item, without the states: a peer only first, settings after some TIDs, rates other than automatic last |
| TidConfig.SettingValue | mininet-wifi/iw/interface.c:883-998 | what each setting accepts, with the error codes |
| TidConfig.FirstValue | mininet-wifi/iw/interface.c:818-882 | what a command may start with, with the error codes |
| TidConfig.AcceptedIsCommand | mininet-wifi/iw/interface.c:818-1009 | accepted arguments are an optional peer and TID entries, rates other than automatic only at the end; by the measure (arguments left, not PS_TIDS) |
| TidConfig.CommandIsAccepted | mininet-wifi/iw/interface.c:818-1009 | every command is accepted |
| TidConfig.RatesTakeAll | mininet-wifi/iw/interface.c:988-998 | a call of set_bitrates accepted here took all arguments |
| TidConfig.WordAcceptedExactlyWhen | mininet-wifi/iw/interface.c:971-998 | a word of the command among the rates, such as "tids", is accepted if and only if it follows a keyword that ignores it and the rates are accepted without it; then it has no effect |
| TidConfig.SgiSwallowsEntries | mininet-wifi/iw/interface.c:988-998 | after "bitrates fixed sgi-5" further entries are lost, and nothing after it is an error |
| TidConfig.GiSwallowsEntries | mininet-wifi/iw/interface.c:988-998 | after "bitrates fixed he-gi-5" further entries are lost if and only if the last argument reads as an interval; otherwise the command is rejected |
| TidConfig.SuccessRejectedExactlyWhen | mininet-wifi/iw/interface.c:988-998 | a successful set_bitrates call is taken for an error if and only if it had fewer than two arguments or the first was no keyword |
| TidConfig.ToggleTidParam | mininet-wifi/iw/interface.c:778-797 | "on" enables, "off" disables, anything else is an error |
| TidConfig.OpenEntry | mininet-wifi/iw/interface.c:846-882 | the entry before is closed and the next opened under the next number |
| TidConfig.HandleTidConfig | mininet-wifi/iw/interface.c:799-1017 | on success every nest opened is closed, and the message grows by exactly what the items mean, entries numbered from 0 in order |
| TidConfig.ItemsInPlace | mininet-wifi/iw/interface.c:818-1009 | what each item puts and where: the peer first, then in each entry the mask and every setting with its attribute type and value, in order |

## Left out

- SHA-256: `unsigned long` is 64 bits wide; where it is 32 bits the same results hold but are not stated.
- Adsb.BuildAdsb: positions and altitudes are exact rationals, so floating-point rounding is not modelled; the frame has the 114 bits the code emits, not the 112 of the standard.
- Bloom.NanBf: requires a filter whose length is no multiple of 8192 bytes, because for the others the code divides by zero (`Bloom.ModulusNonzero`).
- Bloom.ParseSrf: the "include" and "list" forms and the message around the filter are left out.
- Association.SsfShortens: requires signals that fade, but for the margin, over the distances of the access points visited. `logDistance` takes distance 0 for 0.1, and under `young` and `twoRayGround` signals may grow with distance; `Association.SsfShortensExactlyWhen` has the exact condition.
- Association.SsfTerminates: likewise.
- Association.SsfComparesSignalsExactlyWhen: distances are exact hundredths and signals exact reals, so floating-point rounding is not modelled; all places are all pairs of nonnegative distances.
- Association.SsfComparesEqualGains: covers models whose loss depends on the distance alone, so access points on one frequency and no random shadowing.
- Handover.Intf.AssociateInfra: commands sent to wpa_supplicant and iwconfig, signal levels and channels are left out; only who is recorded where is kept, and a roam is taken not to change it.
- The background scan and active scan modes, wmediumd, and the appending to the list of an access point in range by `ap_in_range`.
- Tlv, ScanIes and Rsn: what is printed for each element is left out, but for which elements are printed with which context.
- Rsn.PrintRsnIe: requires the two bytes of the version for all but OSEN elements, which the printer tables guarantee by their minimum lengths.
- ScanParser.ParseSchedScan: allocation failures and full messages, and with them the closing of a match nest at the error label.
- Reading numbers, addresses and hexadecimal text (`strtoul`, `strtol`, `strtod`, `sscanf`, `mac_addr_a2n`, `parse_hex_mask`): arguments come with what these functions find.
- Wowlan.HandleWowlanEnable: the TCP file is a parameter that says what it puts into the message; the message of a failed command, whose nests stay open, is not described.
- Rates.ParseRateChunk: an empty or blank argument is not modelled, because `sscanf` then returns EOF, which as an unsigned count passes the test for too few numbers, and the loop reads numbers that were never stored.
- Bitrates.SetBitrates: legacy and HT rates are lists without the fixed size of the C arrays, and a legacy rate is the byte kept, without the floating-point number it comes from.
- The other commands of `iw` and the tools, topologies and examples of Mininet-WiFi; cryptographic strength and false-positive rates.
