# Verified core of the Syrup game server

Syrup is a game server written in C. This project models its self-contained algorithms in Dafny and
proves what they are relied on for:

- **Foothold tree** (`Geometry`, `SplitChoice`, `RTree`): the R-tree of a map's footholds, kept as heap
  nodes with parent links, its insertion with splits up to a new root, and the pruned search for
  the nearest foothold below a point. Any sequence of insertions keeps the tree well formed, and the
  search agrees with a linear scan.
- **Packet cipher** (`Aes`, `SubstitutionBox`, `FunnyBytes`, `PacketCipher`, `CipherAnswers`): the in-place AES-256 block
  routine, proved equal to the cipher of section 5.1 of FIPS 197, its table derived from inverses in GF(2^8);
  the chunked keystream, the six chained byte passes, the vector update and the headers, with known answers.
  Whole sessions arrive unchanged with both sides in step.
- **Hash set** (`HashSets`): linear probing with tombstones, doubling, halving and removal during
  iteration. Every run refines a multiset of records, and a finite map when keys are distinct.
- **Characters** (`QuestCounts`, `Quests`, `Inventory`, `StackSlots`, `ItemGain`, `Experience`, `Rewards`,
  `QuestItems`): monster reference counts, stack moves with the cached ammunition slot, all-or-nothing item
  gain, levelling, quest rewards and handing them out.
- **Smaller algorithms** (`TableOrder`, `LockQueues`, `Wire`, `StatPacket`): the in-place ordering of tables by
  their minimal perfect hash, the FIFO connection lock, the byte writer and reader, and the
  stat-change packet.

Code that updates fields or buffers is modelled as classes and methods over arrays and heap nodes,
each proved against a specification function or a property of the new state; code that only
computes is modelled as functions. `Common` holds shared definitions.

## What the proofs show about the code

Some expected properties fail for particular inputs. Each has a concrete input and the exact condition:

- A foothold 32767 or more below the point is never found, because the search starts from that distance
  and larger ones wrap around (`Geometry.SentinelDistanceIsLost`); a foothold more than 32769 above it can
  be found as one below it (`Geometry.DistanceAboveIsFound`). These two families are the only
  errors (`Geometry.RightExactly`), and with coordinates within 0x3fff of the origin there are none.
- Splitting an inner node is meant to leave the least unused space. When some division is scored by length,
  the last such division is taken whatever its length (`SplitChoice.ChooseInnerSplit`,
  `SplitChoice.LastLineWins`).
- Moving a stack onto its own slot destroys it when it is not rechargeable, not empty and less than
  half full, and conserves everything in all other cases (`Inventory.SelfMoveLosesStack`,
  `Inventory.SelfMoveExactly`). With a weapon equipped the cached ammunition slot goes wrong in a move exactly
  if the stack it names disappears in this way (`Inventory.SelfMoveLosesCache`,
  `Inventory.StackInventory.Move`).
- A move leaves a stack of zero items behind exactly if it fills up a stack with room and nothing is
  left over (`Inventory.EmptyStackRemains`, `Inventory.EmptyStackExactly`).
- Moves and gains consult the weapon slot's item id without asking whether a weapon is equipped. With none
  equipped, the cached ammunition slot goes wrong exactly when ammunition usable by the stale id is
  moved to an empty slot (`Inventory.StaleWeapon`, `Inventory.StackInventory.Move`) or a transaction opens a new
  stack of it, that is, gains more of some such kind than its stacks can take after the removals
  (`QuestItems.GainedAmmoIsCached`, `ItemGain.Carrier.GainItems`, `ItemGain.OpensAmmoExactly`).
- Removing items does not update the cached ammunition slot. A transaction leaves it right exactly if its
  removals do not use up the stack it names, or its additions put usable ammunition into that slot or one
  before it (`QuestItems.TakenAmmoStaysCached`, `ItemGain.Carrier.GainItems`).
- Removing more of a stackable item than is held succeeds and takes what there is; only equipment is
  refused (`QuestItems.RemoveTooManySucceeds`, `ItemGain.RemoveEntry`). script/quest/2186.lua:12-13 relies on
  a refusal.
- A transaction fails the assertion at src/channel/client.c:2634 exactly if no entry changes anything: every
  count is zero or removes a stackable item of which there is no stack (`QuestItems.RemoveMissingAborts`,
  `ItemGain.Carrier.GainItems`). A quest start gets there when the character already holds every item on
  offer (`QuestItems.AllHeldAborts`, `QuestItems.StartItems`).
- A quest start whose actions fail does not take its monster counts back, a start counts entries that ask
  for no kill, and ending a quest does not look at monster counts; in each case the counts stay what
  src/character.h:200-202 promises exactly if there was nothing to lose (`Quests.FailedStartLeaks`,
  `Quests.UnmetEndingLeaks`, `Quests.QuestLog.Start`, `Quests.QuestLog.End`). Kills are unaffected as long as
  no 8-bit counter is taken down to a positive multiple of 256, and only so long do the counts stay right
  (`Quests.WrappedCountIsLost`, `QuestCounts.KillExactly`, `Quests.Play`).

## Model

| member | source | states |
|---|---|---|
| `Geometry.TruncDivTruncates` | src/wz.c:1265 | the modelled division is C division: the quotient rounded toward zero, for all signs |
| `Geometry.InterpolationStaysBetween` | src/wz.c:1265 | interpolating inside the span never leaves the range between the two end heights |
| `Geometry.DistanceInRange` | src/wz.c:1259-1266 | at a point it spans, a foothold lies between its end points, at the truncated linear interpolation |
| `Geometry.EligibleExactly` | src/wz.c:1277-1290 | for all 16-bit coordinates, a foothold can be returned if and only if it spans the point less than 32767 below it, or so far above it that the distance wraps around |
| `Geometry.RightExactly` | src/wz.c:1259-1290 | the footholds that can be returned are those spanning the point and not above it, except for exactly two families |
| `Geometry.SmallCoordinatesDoNotWrap` | src/wz.c:1259-1266 | for coordinates within 0x3fff neither family occurs and no distance is changed by its 16-bit type |
| `Geometry.SentinelDistanceIsLost` | src/wz.c:1274-1290 | a foothold 32767 straight below the point cannot be returned |
| `Geometry.DistanceAboveIsFound` | src/wz.c:1265 | a foothold 65535 above the point is returned as one step below it |
| `Geometry.PruningIsSound` | src/wz.c:1270-1271 | a subtree that is skipped holds no foothold that could be returned |
| `Geometry.TightBoxOfOne` | src/wz.c:4209-4223 | the rectangle of a foothold is its exact bounding box: both end points inside, and one on each side |
| `Geometry.TightBoxJoins` | src/wz.c:4225-4233 | the joined rectangle is the exact bounding box of both sets of footholds: all end points inside, and one of them on each of the four sides |
| `Geometry.TightBoxIsUnique` | src/wz.c:4225-4233 | a set of footholds has one exact bounding box only |
| `Geometry.IntersectionIsCommon` | src/wz.c:4235-4249 | the points inside the intersection of rectangles that meet are those inside both; it is the point (0, 0) if they do not meet |
| `Geometry.Measures` | src/wz.c:4251-4302 | areas, lengths, joins, intersections and unused space of two triples of rectangles, in figures |
| `SplitChoice.ChooseChild` | src/wz.c:4323-4366 | the first of the best children: those whose bound stays a line first, then the least growth, then the smallest bound |
| `SplitChoice.ChooseLeafSplit` | src/wz.c:4381-4468 | none of the ten divisions of the four footholds has a smaller area score than the chosen one |
| `SplitChoice.ChooseInnerSplit` | src/wz.c:4535-4602 | of the ten divisions, the last one that is scored by length, or if there is none one of the smallest area |
| `SplitChoice.LastLineWins` | src/wz.c:4594-4600 | four segments of a line for which the chosen division leaves more unused length than another |
| `SplitChoice.DivideInPlace` | src/wz.c:4474-4506 | carrying a division out on the three places of a full node in place loses and repeats no entry; leaf and inner splits both go through it |
| `SplitChoice.SplitPartitions` | src/wz.c:4607-4652 | both halves of a division are disjoint, free of repetition and together complete |
| `RTree.LeafSplits` | src/wz.c:4474-4506 | splitting a leaf keeps the multiset of footholds |
| `RTree.TotalSplits` | src/wz.c:4607-4652 | splitting an inner node keeps the multiset of everything below it |
| `RTree.BoundExtends` | src/wz.c:4374-4379 | widening one child by a foothold and the parent by the same keeps the parent's bound the join of its children |
| `RTree.ChooseLeaf` | src/wz.c:4315-4367 | the descent terminates in a leaf of the tree |
| `RTree.ExtendUpward` | src/wz.c:4373-4379 | after a leaf took a foothold, widening the ancestors makes every bound, link and content exact again |
| `RTree.SplitLeaf` | src/wz.c:4471-4516 | a full leaf and the foothold are divided over two leaves; only the parent is out of date |
| `RTree.Adopt` | src/wz.c:4521-4533 | a parent with room takes the new node, with correct parent link, bound and contents |
| `RTree.RecomputeUpward` | src/wz.c:4525-4532 | recomputing all ancestors from their children restores every invariant |
| `RTree.SplitInner` | src/wz.c:4604-4657 | a full parent is divided in two; parent links follow the children and nothing is lost |
| `RTree.PropagateSplit` | src/wz.c:4518-4672 | any chain of splits terminates in a valid tree that holds exactly one foothold more |
| `RTree.GrowRoot` | src/wz.c:4662-4672 | a split root is replaced by a new root above both halves, one level higher |
| `RTree.FootholdTree.Insert` | src/wz.c:4304-4675 | every insertion keeps the tree valid and adds exactly the new foothold to its contents |
| `RTree.ValidTreeIsWellFormed` | src/wz.c:4304-4675 | a valid tree, read from its plain fields: 1 to 3 entries per node, every bound the exact box of the footholds below (all end points inside, one on each side), all leaves at equal depth, parents and children pointing at each other, and the leaves holding exactly the contents |
| `RTree.BoundIsTight` | src/wz.c:4225-4233 | every end point of the node's footholds lies inside its bound, and one lies on each of the four sides |
| `RTree.BoundOfOne` | src/wz.c:4306-4313 | a tree with one foothold, and the corners of its root in figures |
| `RTree.LeavesAtEqualDepth` | src/wz.c:4662-4672 | all leaves below a node lie at the same depth |
| `RTree.CollectFindsContents` | src/wz.c:4304-4675 | walking the leaves finds exactly the recorded contents |
| `RTree.FindBelowLeaf` | src/wz.c:1273-1294 | the nearest eligible foothold of a leaf, or nothing if there is none |
| `RTree.FindBelowNode` | src/wz.c:1268-1310 | the pruned recursive search finds an eligible foothold of minimum distance, or nothing exactly if none is eligible |
| `RTree.FootholdTree.FindBelow` | src/wz.c:1312-1315 | the same for a whole tree that is not empty |
| `RTree.ScanFindsNearest` | src/wz.c:1273-1294 | the reference: a linear scan of a list finds a nearest eligible foothold |
| `RTree.LoadAndFind` | src/wz.c:1259-1315 | inserting any footholds in any order and searching agrees with the linear scan: nothing found in the same cases, and the same distance; with small coordinates the result is truly nearest |
| `RTree.NearestIsTrue` | src/wz.c:1259-1315 | for coordinates within 0x3fff, the foothold found spans the point at the least true distance at or below it, and none is found only if no foothold does |
| `Aes.AddRoundKeyInPlace` | src/crypt.c:60-70 | AddRoundKey of section 5.1.4 of FIPS 197 |
| `SubstitutionBox.TableIsInverses` | src/crypt.c:39-56 | the table is the one of section 5.1.1 of FIPS 197: for every byte, the affine map, bit by bit, of its inverse in GF(2^8), zero counting as its own |
| `SubstitutionBox.UnaffineInverts` | src/crypt.c:39-56 | the affine map can be undone, so that each entry names the inverse it stands for |
| `SubstitutionBox.ProductOfStandard` | src/crypt.c:72-75 | the two products worked out in section 4.2 of FIPS 197 |
| `Aes.RoundKeyBytes` | src/crypt.c:60-70 | the bytes of a round key are those of its words in order |
| `Aes.SubBytesInPlace` | src/crypt.c:93-103 | SubBytes of section 5.1.1 |
| `Aes.ShiftRowsInPlace` | src/crypt.c:105-131 | the in-place rotations are ShiftRows of section 5.1.2 |
| `Aes.Coefficients` | src/crypt.c:137-150 | the rows of the matrix of section 5.1.3 |
| `Aes.ColumnTrick` | src/crypt.c:141-149 | the xtime shortcut for one column is its product with the matrix of section 5.1.3 over GF(2^8) |
| `CipherAnswers.MixedColumnOfStandard` | src/crypt.c:137-150 | the first mixed column of the example in appendix B of FIPS 197 |
| `Aes.MixColumnsInPlace` | src/crypt.c:137-150 | MixColumns of section 5.1.3, although columns are overwritten while they are read |
| `Aes.EncryptBlock` | src/crypt.c:77-158 | every block is replaced by its image under the 14-round cipher of section 5.1 |
| `Aes.StoredKeysAreExpanded` | src/crypt.c:160-179 | the stored round keys are the key expansion of section 5.2 of the 256-bit key in their first two rows |
| `PacketCipher.RollsRotate` | src/crypt.c:357-365 | both rolls are bit rotations by the count modulo eight |
| `FunnyBytes.FunnyIsPermutation` | src/crypt.c:181-198 | the table of the vector update is a permutation of the bytes |
| `PacketCipher.MixedIsSums` | src/crypt.c:339-342 | in one step of the vector update each byte is the sum or difference modulo 256 of the old bytes and table entries |
| `PacketCipher.RotatedIsTurnedLeft` | src/crypt.c:343-351 | as a 32-bit number v, the turned word is v * 8 % 2^32 + v / 2^29 |
| `CipherAnswers.NextOfZero` | src/crypt.c:336-352 | the vector after 00 00 00 00 is 11 BB 64 C7 |
| `CipherAnswers.NextOfFirst` | src/crypt.c:336-352 | the vector after 46 72 7A 52 is 6D C0 51 75 |
| `CipherAnswers.ScrambledMessage` | src/crypt.c:218-238 | the six passes turn 01 80 FF into 2F 8C 3F |
| `CipherAnswers.Counters` | src/crypt.c:220 | the counter of a pass is the length modulo 256, in figures |
| `CipherAnswers.FourTimes` | src/crypt.c:314-316 | every chunk starts from the vector four times over |
| `CipherAnswers.Restarts` | src/crypt.c:312-334 | the keystream starts again at byte 1456 and at byte 2916 |
| `CipherAnswers.HeaderBytes` | src/crypt.c:243-254 | a literal header |
| `PacketCipher.EncryptForwardInPlace` | src/crypt.c:221-228 | the forward pass over the buffer is the chained transformation from first to last byte; bytes after the message stay |
| `PacketCipher.EncryptBackwardInPlace` | src/crypt.c:229-237 | the backward pass, from last to first byte |
| `PacketCipher.DecryptForwardInPlace` | src/crypt.c:282-290 | the forward pass of decryption |
| `PacketCipher.DecryptBackwardInPlace` | src/crypt.c:291-302 | the backward pass of decryption |
| `PacketCipher.ForwardInverts` | src/crypt.c:281-290 | the forward passes undo each other for every byte sequence, counter and carried byte |
| `PacketCipher.BackwardInverts` | src/crypt.c:291-302 | the backward passes undo each other |
| `PacketCipher.ScrambleInverts` | src/crypt.c:279-303 | the six alternating passes are undone by the six of decryption, at equal length |
| `PacketCipher.CryptChunk` | src/crypt.c:317-329 | one chunk is XORed with the output feedback keystream of section 6.4 of NIST SP 800-38A, restarted from the repeated vector; nothing else changes |
| `PacketCipher.Crypt` | src/crypt.c:311-355 | byte p is XORed with a keystream byte given in closed form by the vector and the offset of p in its chunk (first chunk 0x5B0 bytes, later ones 0x5B4); the next vector does not depend on the data |
| `PacketCipher.KeyedInverts` | src/crypt.c:311-335 | for equal vectors this is its own inverse |
| `PacketCipher.ShuffleIv` | src/crypt.c:336-354 | the vector becomes the four-step shuffle of the old one, whose steps are the sums and the turn above |
| `PacketCipher.EncryptionContext.Encrypt` | src/crypt.c:216-241 | a message becomes its encryption under the current vector, which advances |
| `PacketCipher.DecryptionContext.Decrypt` | src/crypt.c:275-304 | a message becomes its decryption under the current vector, which advances in the same way |
| `PacketCipher.MessageRoundTrip` | src/crypt.c:216-304 | decrypting an encrypted message under the same vector returns it |
| `PacketCipher.SessionRoundTrip` | src/crypt.c:216-304 | for every starting vector and every sequence of messages, receiving what was sent returns the messages |
| `PacketCipher.HeaderDetermines` | src/crypt.c:243-254 | the four header bytes yield the size by the formula of src/channel/server.c:1687 and, with the vector, the version |
| `PacketCipher.EncryptionContext.WriteHeader` | src/crypt.c:243-254 | the header written announces the size and the context's version |
| `PacketCipher.RunSession` | src/crypt.c:200-304 | two contexts exchanging any messages of up to 65535 bytes: all arrive, every header announces size and version, and both vectors are equal after every message |
| `HashSets.OccupyKeepsProbes` | src/hash-map.c:268-275 | occupying the first vacant slot, a tombstone included, leaves no free slot between any record and its home |
| `HashSets.DeleteKeepsProbes` | src/hash-map.c:307 | a tombstone keeps every other record reachable and removes exactly one record |
| `HashSets.FreeEndsSearch` | src/hash-map.c:286-294 | a probe that meets a free slot has seen every record with its key |
| `HashSets.HomeIsRemainder` | src/hash-map.c:268 | a key is looked for from the slot that its hash leaves modulo the capacity |
| `HashSets.Place` | src/hash-map.c:251-258 | rehashing one record keeps the probe invariant and terminates |
| `HashSets.Grown` | src/hash-map.c:240-265 | doubling keeps the records and the probe invariant |
| `HashSets.Shrunk` | src/hash-map.c:323-356 | halving keeps the records and the probe invariant and drops the tombstones |
| `HashSets.HashSet.constructor` | src/hash-map.c:208-229 | a new set is empty |
| `HashSets.HashSet.Insert` | src/hash-map.c:237-280 | adds exactly the record, without deduplication, and counts it |
| `HashSets.HashSet.Get` | src/hash-map.c:282-297 | finds a record if and only if one with the key is stored; the probe terminates even without free slots |
| `HashSets.HashSet.Update` | src/hash-map.c:296 | writing through the returned pointer replaces exactly that record and keeps every invariant |
| `HashSets.HashSet.Seek` | src/hash-map.c:301-305 | the unbounded probe of a removal terminates at a record with the key if there is one |
| `HashSets.HashSet.Remove` | src/hash-map.c:299-314 | removes exactly one record with the key; during an iteration no other slot changes |
| `HashSets.HashSet.Halve` | src/hash-map.c:323-357 | reallocation keeps contents and count |
| `HashSets.HashSet.Clear` | src/hash-map.c:316-321 | the set is empty again, in the same memory |
| `HashSets.HashSet.RemovePresent` | src/hash-map.c:299-314 | a callback that removes any present keys moves nothing and deletes only what it asked for |
| `HashSets.HashSet.Foreach` | src/hash-map.c:74-85 | no record moves; at its turn a record is visited exactly if it has not been removed by then, so every record not removed before its turn is visited exactly once, in order; a visit removes nothing but records with the keys it asked for; with unique keys, what is visited and what remains follows from the keys alone; the single shrink afterwards keeps the rest |
| `HashSets.RunAny` | src/hash-map.c:237-357 | after every step of any run, equal keys included, the table holds the expected multiset, look-ups are answered from it, and the count is its size |
| `HashSets.Run` | src/hash-map.c:237-357 | with distinct keys, every run returns the same look-ups and ends in the same contents as on a finite map |
| `Quests.QuestLog.CountEntries` | src/channel/client.c:5230-5250 | every entry of a new quest gets a reference and no progress |
| `Quests.QuestLog.Start` | src/channel/client.c:5215-5341 | starting a quest that is not active adds it with zero progress, or leaves only its counts behind if the actions fail; the counts stay exact if and only if the actions succeed and every entry asks for a kill, or fail and there are no entries |
| `QuestCounts.DropLeaks` | src/channel/client.c:5289-5340 | taking a quest out without touching the counts loses exactly the counts of its pending entries |
| `QuestCounts.DropRefExactly` | src/channel/client.c:5556-5558 | decrementing an 8-bit count keeps it right if and only if it does not arrive at a positive multiple of 256 |
| `QuestCounts.ExactIfNothingLeaked` | src/character.h:200-202 | the counts are the pending entries if and only if no count was lost |
| `Quests.QuestLog.CheckProgress` | src/channel/client.c:5542-5572 | every entry keeps its progress, except that the first one for the monster that is below its count gets one more; a reference is dropped exactly when the entry is met, and it fails exactly at a missing reference |
| `QuestCounts.BumpedIsCounted` | src/channel/client.c:5551-5567 | the function of progress used in the proofs adds one exactly to the first entry that asks for the monster below its count |
| `QuestCounts.DropManyExactly` | src/channel/client.c:5556-5558 | taking any number off a count works exactly if it passes no positive multiple of 256; otherwise a reference ends up missing |
| `QuestCounts.BumpSomeOwed` | src/channel/client.c:5542-5572 | whatever quests a scan has visited, what is owed fell by one for each that met its entry |
| `Quests.QuestLog.Scan` | src/channel/client.c:4319-4322 | visiting all quests in any order gives the same progress and takes one reference off per entry met |
| `QuestCounts.ScanExactly` | src/channel/client.c:4319-4322 | a scan keeps the counts right exactly if it takes none down to a positive multiple of 256, and then equals an unconditional one |
| `QuestCounts.UnreferencedScan` | src/channel/client.c:4303-4322 | scanning for a monster without a reference changes nothing |
| `Quests.QuestLog.Kill` | src/channel/client.c:4287-4323 | a kill, group ids included, keeps the counts right if and only if it takes none down to a positive multiple of 256, and then counts in every quest for the first entry below its count that asks for the group, and then for the first that asks for the monster, and nowhere else, whatever counts were lost before |
| `QuestCounts.KilledIsCounted` | src/channel/client.c:4301-4322 | the same about quests alone: one more for the first entry of the group and of the monster in every quest, nothing else changed |
| `QuestCounts.GroupsExactly` | src/channel/client.c:4301-4317 | which eight monsters count for which of the four groups, and that no other does |
| `Quests.KillOfSecondKind` | src/channel/client.c:5551-5554 | with two entries, killing what the second one asks for raises its progress from 0 to 1 |
| `Quests.KillsOfGroups` | src/channel/client.c:4301-4322 | killing all eight such monsters counts twice for each of the four groups |
| `QuestCounts.KillExactly` | src/channel/client.c:4287-4323 | the same about quests and counts alone, for the two scans together |
| `Quests.QuestLog.Forfeit` | src/channel/client.c:4129-4150 | giving a quest up takes back the counts of its pending entries, and keeps the counts right if and only if it takes none down to a positive multiple of 256 |
| `QuestCounts.ForfeitExactly` | src/channel/client.c:4136-4148 | the same about quests and counts alone |
| `Quests.QuestLog.End` | src/channel/client.c:5372-5531 | ending a quest keeps the counts exact if and only if all monster counts are met; actions that fail leave everything as it was |
| `Quests.Perform` | src/channel/client.c:4287-4323 | every event in a right state leaves a right state exactly if it is smooth, and then matches the reference without counts |
| `Quests.Play` | src/channel/client.c:4287-4323 | in every run of starts, kills, forfeits and endings, failed and unmet ones included, the counts stay right throughout if and only if none is ever taken down to a positive multiple of 256; then the quests evolve as they would with no counts at all, every count is the pending (quest, entry) pairs plus what was lost, and it is exact if nothing was lost |
| `Quests.CleanRunLosesNothing` | src/character.h:200-202 | successful starts of quests that ask for kills, kills, forfeits and endings of met quests lose no count |
| `Quests.CleanRunIsSmooth` | src/character.h:91-94 | such runs are smooth if no monster is asked for by more than 256 entries of all quests |
| `Quests.FailedStartLeaks` | src/channel/client.c:5289-5340 | a failed start of a quest for ten snails leaves a reference with no quest active |
| `Quests.UnmetEndingLeaks` | src/channel/client.c:5531 | ending that quest at once leaves a reference too |
| `Quests.WrappedCount` | src/channel/client.c:5552-5559 | after 255 failed starts, two starts and ten kills the reference is gone although one quest is pending |
| `Quests.WrappedCountIsLost` | src/channel/client.c:4321-4322 | the next kill is then not counted for that quest |
| `Inventory.UsableExactly` | src/channel/client.c:1001-1015 | which stack a weapon shoots, in ranges of ids: a bow 2060xxx and a crossbow 2061xxx of any quantity, a claw 207xxxx and a gun 233xxxx of positive quantity, and nothing else |
| `Inventory.RechargeableExactly` | src/item.h:301-303 | the rechargeable items, in ranges of ids |
| `Inventory.FirstUsableIsFirst` | src/channel/client.c:987-1022 | the slot a login finds is the unique first usable one |
| `Inventory.FirstIsPlain` | src/channel/client.c:987-1022 | being right means to name the first stack the weapon shoots, in ids and quantities, or 255 if there is none |
| `Inventory.LoginCaches` | src/channel/client.c:987-1022 | for all inventories and weapons, a login caches the first stack the weapon shoots, or 255 |
| `Inventory.CachedAtLogin` | src/channel/client.c:987-1022 | what a login caches in literal inventories, used-up stacks included, with a bow, a crossbow, a claw, a gun and a sword |
| `Inventory.StackInventory.constructor` | src/channel/client.c:987-1022 | after a login the cached slot is what a linear search finds for the equipped weapon |
| `Inventory.MoveConserves` | src/channel/client.c:3197-3345 | a move between distinct slots conserves the total of every item id and keeps every stack within its limit |
| `Inventory.MovePlaces` | src/channel/client.c:3197-3345 | what a move leaves in source, destination and all other slots, case by case, partial merges included |
| `Inventory.SelfMoveExactly` | src/channel/client.c:3264-3339 | a move onto the same slot conserves all totals if and only if the stack is rechargeable, empty or at least half full |
| `Inventory.SelfMoveLosesStack` | src/channel/client.c:3279-3282 | a stack of 40 out of 100 moved onto itself disappears |
| `Inventory.EmptyStackExactly` | src/channel/client.c:3264-3339 | a move between distinct slots creates a stack of zero items if and only if it fills up a stack of the same item that had room, with nothing left over |
| `Inventory.EmptyStackRemains` | src/channel/client.c:3326-3329 | 40 items moved onto 60 of 100 leave a stack of zero items |
| `Inventory.StackInventory.SearchFrom` | src/channel/client.c:3205-3240 | the cached slot becomes the first usable one from a slot on, or stays |
| `Inventory.StackInventory.MoveToEmpty` | src/channel/client.c:3197-3257 | moving to an empty slot keeps the cached slot the first usable one |
| `Inventory.StackInventory.Merge` | src/channel/client.c:3264-3339 | merging, fully, partially or onto a full stack, keeps it so, except exactly when the cached stack is moved onto itself and disappears |
| `Inventory.StackInventory.Swap` | src/channel/client.c:3341-3410 | swapping keeps it so |
| `Inventory.StackInventory.Move` | src/channel/client.c:3184-3425 | every move: which requests are refused, the new slots, limits, conservation for distinct slots, and exactly when the cached slot stays what a linear search finds, with a weapon equipped and without |
| `Inventory.SelfMoveLosesCache` | src/channel/client.c:3278-3282 | arrows moved onto their own slot disappear and stay cached |
| `Inventory.StaleWeapon` | src/channel/client.c:3242-3256 | with no weapon equipped, moving arrows caches a slot because of the id of a bow that was taken off |
| `ItemGain.TakeEquips` | src/channel/client.c:2442-2462 | takes equipment away one by one; a rest remains only when none is left |
| `StackSlots.TakeStacks` | src/channel/client.c:2463-2498 | takes exactly the amount from the first slots on, or all of it when too little is held, with every slot afterwards; no slot changes exactly if none holds the item |
| `ItemGain.AddEquips` | src/channel/client.c:2506-2531 | adds equipment to free slots; the rest is what exceeds them |
| `StackSlots.FillStacks` | src/channel/client.c:2534-2562 | tops up existing stacks; the rest is what exceeds their free room |
| `StackSlots.FillEmpty` | src/channel/client.c:2564-2619 | opens stacks of the item in the first empty slots, as many as the amount fills; the rest is what exceeds the empty slots, and the cached slot becomes the first opened one if that comes earlier and is of use |
| `StackSlots.AddStacks` | src/channel/client.c:2532-2620 | fails exactly if free stack room (none for rechargeable items) plus a full stack per empty slot is less than the amount, that is, if more new stacks are needed than slots are empty |
| `StackSlots.OpenedCounts` | src/channel/client.c:2566-2613 | how empty slots and stacks are counted in every prefix after stacks were opened |
| `StackSlots.OpenedCache` | src/channel/client.c:2593-2608 | opening stacks keeps a right cached slot right, and repairs a wrong one exactly if usable ammunition gets into that slot or one before it |
| `ItemGain.RemoveEntry` | src/channel/client.c:2439-2500 | one removal: fails exactly for equipment of which too little is held, changes nothing exactly for a stackable item that no slot holds, and changes no other item's total |
| `ItemGain.AddEntry` | src/channel/client.c:2503-2622 | one addition: fails exactly if there is too little room, changes no other item's total, and opens exactly the stacks it needs |
| `StackSlots.TakenPrefix` | src/channel/client.c:2465-2497 | what is left in the first slots after taking items |
| `StackSlots.TakenCache` | src/channel/client.c:2465-2497 | taking items leaves the cached slot right exactly if its stack is still there |
| `ItemGain.RemoveAll` | src/channel/client.c:2439-2500 | all removals: they fail exactly if more equipment of one kind is removed than is held; otherwise every slot and total afterwards, when nothing changes, and whether the cached stack survives |
| `ItemGain.AddAll` | src/channel/client.c:2503-2622 | all additions: they fail exactly if they need more free equipment slots, or more empty slots of an inventory, than there are; otherwise totals, when nothing changes, and the cached slot |
| `ItemGain.OpensAsListed` | src/channel/client.c:2533-2613 | how many stacks an entry opens, told from the inventory before all additions |
| `ItemGain.OpensAmmoExactly` | src/channel/client.c:2593-2608 | a list opens a stack of usable ammunition exactly if its gains of some such kind exceed what the stacks can take |
| `ItemGain.HasItem` | src/channel/client.c:2375-2400 | tells whether at least the given number is held |
| `ItemGain.Inventories` | src/channel/client.c:2441-2464 | which ids are equipment, which are known, and which inventory each of the others goes to, a million ids each |
| `ItemGain.EnoughMeansExact` | src/channel/client.c:2437-2500 | if enough is held for all removals, totals change by exactly the requested sum |
| `ItemGain.Carrier.GainItems` | src/channel/client.c:2402-2658 | all or nothing: on failure nothing changes; on success every total changes by what was requested and stacks stay within their limits; for every list, exactly when it fails, exactly when the assertion fails because no entry changes anything, and exactly when the cached slot is right afterwards, with a weapon equipped and without |
| `QuestItems.SearchFreeSlots` | src/channel/client.c:5282-5303 | the search before a random draw succeeds exactly if every inventory has an empty slot |
| `QuestItems.LeaveOutHeld` | src/channel/client.c:5323-5330 | of the drawn items exactly those not held remain |
| `QuestItems.GiveKept` | src/channel/client.c:5323-5341 | the transaction for the items not held: on success each kind held before keeps its total and every other gets what was drawn |
| `QuestItems.StartItems` | src/channel/client.c:5262-5341 | handing out a quest's items, from the list, the random number and the bags: what is drawn, that a random draw is refused without a free slot everywhere, the totals on success, and that the assertion fails exactly if every drawn item is held or changes nothing |
| `QuestItems.AllHeldAborts` | src/channel/client.c:5323-5333 | a quest whose only item is held fails the assertion |
| `QuestItems.RemoveMissingAborts` | src/channel/client.c:2634 | removing a stackable item of which there is none fails the assertion |
| `QuestItems.RemoveTooManySucceeds` | src/channel/client.c:2463-2498 | removing two of an item of which one is held succeeds |
| `QuestItems.TakenAmmoStaysCached` | src/channel/client.c:2480-2492 | removing the last arrows leaves their slot cached |
| `QuestItems.GainedAmmoIsCached` | src/channel/client.c:2593-2597 | arrows gained with a stale bow id are cached |
| `Experience.LevelIsUnique` | src/character.c:161-172 | cumulative experience determines level and experience |
| `Experience.Character.GainOnce` | src/character.c:161-172 | one call fills at most one level and returns what is left |
| `Experience.Character.Gain` | src/channel/client.c:2246-2335 | the loop terminates at the level and experience reached by the gain, and cumulative experience grows by exactly the gain |
| `Experience.ReachedIsExact` | src/channel/client.c:2246-2335 | the result lies inside its level and accounts for the whole gain |
| `Experience.GainsAdd` | src/channel/client.c:2246-2335 | gaining a and then b is gaining a + b |
| `Rewards.CountItems` | src/channel/client.c:5262-5275 | the first pass counts all unweighted items plus one for the weighted ones, and sums the weights |
| `Rewards.PickItems` | src/channel/client.c:5308-5321 | the second pass takes all unweighted items in order and the one weighted item whose cumulative interval contains the number drawn |
| `Rewards.DrawIsUnique` | src/channel/client.c:5311-5314 | a number draws one item only |
| `Rewards.Reward` | src/channel/client.c:5420-5479 | both passes agree: the second fills exactly the number of entries the first counted |
| `Rewards.NotHeldBag` | src/channel/client.c:5323-5330 | the reference: per item, all copies are kept if it is not held and none otherwise |
| `Rewards.DropHeld` | src/channel/client.c:5323-5330 | the swap-with-last pass terminates and leaves exactly the multiset of items not already held |
| `TableOrder.SwapSendsHome` | src/channel/drops.c:90-93 | each swap leaves strictly fewer records misplaced |
| `TableOrder.Reorder` | src/channel/drops.c:87-97 | the loop terminates with a permutation of the table in which every record stands at its hash index |
| `TableOrder.Find` | src/channel/drops.c:175-182 | a lookup returns the record if and only if the id is in the table |
| `TableOrder.LoadAndFind` | src/channel/drops.c:80-182 | loading, reordering and looking up: an id is found if and only if it was loaded, with its own record |
| `LockQueues.LockQueue.Enqueue` | src/database.c:2812-2823 | the linked queue gains the value at its end |
| `LockQueues.LockQueue.Dequeue` | src/database.c:2825-2831 | the queue loses its head; the result is the new head's value or -1 |
| `LockQueues.LockQueue.Empty` | src/database.c:2833-2836 | tells whether the sequence is empty |
| `LockQueues.Connection.Lock` | src/database.c:149-169 | a requester owns the connection at once exactly if nobody else is there, and otherwise queues behind all earlier ones |
| `LockQueues.Connection.Unlock` | src/database.c:171-175 | ownership passes to the next in order of arrival, who is signalled at that moment and nobody else |
| `LockQueues.SignalledOnce` | src/database.c:171-175 | each waiter's descriptor is signalled once when it has become the head, and never before |
| `LockQueues.Perform` | src/database.c:149-175 | one request or release tells exactly the next arrival, if any, that it owns the connection |
| `LockQueues.Replay` | src/database.c:149-175 | in every run the requests that were told they own the connection are the first arrivals in order of arrival, one more than have let go at most and exactly one more if any is left, and the waiters among them are exactly those signalled |
| `Wire.UnsignedRoundTrip` | src/reader.c:30-78 | an unsigned value in range is read back from its little-endian bytes |
| `Wire.SignedRoundTrip` | src/reader.c:20-68 | the same for signed values in two's complement |
| `Wire.DecodeByPlaces` | src/reader.c:50-78 | the first byte read is the least significant one, for one, two and four bytes |
| `Wire.EncodedBytes` | src/writer.c:45-67 | literal bytes of a positive and a negative number |
| `Wire.Writer.Put` | src/writer.c:100-105 | the bytes are appended at the position; nothing before or after them changes |
| `Wire.Writer.WriteField` | src/writer.c:21-105 | any typed field appends exactly its bytes |
| `Wire.ReadIsThere` | src/reader.c:20-107 | whatever a read returns stands in the packet at the place it was read from, byte for byte |
| `Wire.ReadExactly` | src/reader.c:20-107 | a read returns a field if and only if the bytes of a field that answers the request stand at the position |
| `Wire.RunReader` | src/reader.c:3-107 | for any interleaving of skips and reads, every read is decided by the first size bytes alone, and successful ones lie inside them |
| `Wire.Reader.Take` | src/reader.c:99-107 | succeeds exactly if the bytes lie inside the packet; a failed read does not move |
| `Wire.Reader.ReadField` | src/reader.c:20-107 | a read is determined by the bytes and the position; a text that is too long or cut off has consumed its length |
| `Wire.FieldRoundTrip` | src/reader.c:20-107 | reading a representable field with the matching request returns it, wherever it stands |
| `Wire.WriteThenRead` | src/reader.c:3-107 | any list of representable fields is read back with the same schema, ending exactly at the end |
| `StatPacket.ClearLowest` | src/packet.c:887-889 | clearing the lowest set bit removes exactly one flag |
| `StatPacket.CountFlags` | src/packet.c:879-889 | the loop counts the flags, with the three pet bits as one |
| `StatPacket.PutNext` | src/packet.c:898-960 | one turn writes the first remaining flag's value in its width and clears that flag |
| `StatPacket.PayloadFits` | src/packet.h:197-198 | no set of flags needs more bytes than the widths of its stats |
| `StatPacket.HeadHolds` | src/packet.c:894-897 | the header holds 1F 00, the switch, and four bytes that decode to the mask |
| `StatPacket.ThreeStats` | src/packet.c:894-960 | the literal bytes behind the mask of level, strength and experience |
| `StatPacket.StatChangePacket` | src/packet.c:877-963 | the packet is the header and, per flag in order, the next value in that stat's width, in at most 57 bytes |
| `StatPacket.ChainsAgree` | src/channel/client.c:2067-2165 | in every place of the two chains of tests, the client stores the stat whose flag the packet builder tests, in a member as wide as the one it reads and as the stat |
| `StatPacket.LoadStored` | src/packet.h:189-195 | reading the bytes of a stored union member yields the value, whatever was in memory before |
| `StatPacket.ValuesMatchFlags` | src/channel/client.c:2065-2165 | there is one value per flag, except that the pet flag has none |
| `StatPacket.ValuesLineUp` | src/channel/client.c:2065-2167 | without the pet flag, what the builder's chain reads from the values the client's chain stored is every flagged stat's own value in its own width |
| `StatPacket.Client.CommitStats` | src/channel/client.c:2061-2170 | each flagged bit is followed by that stat's own value, within 57 bytes, and no flag stays set |

## Left out

- SplitChoice.ChooseLeafSplit: minimal by the code's own area score, which at src/wz.c:4425 measures a rectangle against itself, so minimal white space is not claimed; the length that breaks ties is not characterised, because src/wz.c:4409 adds to the wrong variable.
- RTree.FootholdTree.FindBelow: a tree without footholds is not searched, since the code dereferences its root.
- RTree.SplitLeaf: the entries in use of a node rest in a sequence and are put into three places for the division in place.
- Geometry.EligibleExactly: products and areas are unbounded integers; only the conversions to 16 bits are modelled, since overflow of the 32-bit products is undefined in C.
- HashSets.HashSet.Remove: the key has to be present, as the loop of the code does not end otherwise in a table without free slots.
- HashSets.HashSet.Insert: keys of one fixed size and an arbitrary hash function; the address set with mixed key sizes, failing allocations and overflow of sizes are not modelled, and states and data are one array of slots.
- Quests.QuestLog.Start: one monster requirement with at most five entries per quest; what the start actions do is a parameter, the sets of quests and counts are maps, and a script that starts the quest it belongs to twice is not modelled.
- Quests.QuestLog.Kill: at a missing reference, which the code dereferences, the model stops.
- Quests.QuestLog.End: whether the end actions succeed is a parameter, and a script that ends its quest twice is not modelled.
- Inventory.StackInventory.Move: the equipment branch (src/channel/client.c:3426-3458) and item attributes other than id and quantity are not modelled.
- ItemGain.Carrier.GainItems: the change notifications sent to the client are modelled only by their number being zero or not.
- Experience.Character.Gain: gains stay inside the experience table; stat increases per level are not modelled.
- Rewards.PickItems: the random number is a parameter and the 8-bit item counter is assumed not to overflow.
- TableOrder.Find: the hash of the searched id lies inside the table, which the hash library does not promise for unknown ids.
- LockQueues.Connection.Lock: creating a descriptor and allocating a node always succeed; a signal is an entry in a list.
- Wire.Writer.WriteField: fields fit the buffer, as the assertions of the code demand; `writer_zero` and the composite writers are not modelled.
- StatPacket.Client.CommitStats: the pet flag is not set; the client supplies no value for it, and no line of the program sets it.
- XML parsing and file walking of src/wz.c, which are long but shallow.
- SQL statements, sessions, rooms, events and scripts, which call into code that is not part of this model.
- Loading of quests and counts at login, other packet builders, accounts, parties, configuration, equipment slot compaction, job arithmetic, shops, mesos and HP or MP limits, which would only add easy members.
