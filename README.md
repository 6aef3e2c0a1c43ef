# OpenLoco company record: owner status, placement hash table, corporate rating

This project models the self-contained logic of OpenLoco's per-company record
(`src/OpenLoco/src/World/Company.h`) and proves its properties in Dafny:

- **OwnerStatus** (`Owner`, `OwnerStatus.dfy`). This is a tagged variant packed
  into two `int16_t` words. A first word of -1 means empty. A first word of -2
  means an entity, and the entity id is in the second word. Any other value is
  the x of a world position whose y is the second word. The model covers the
  four constructors and the queries `isEmpty`, `isEntity`, `getEntity`,
  `getPosition` and `getData`. It proves that each constructor reads back
  through the queries. It also proves the edge case: a position whose x is -1
  or -2 reads back as empty or as an entity.
- **Unk25C0HashTableEntry** (`HashEntry`, `HashEntry.dfy`). This is the
  six-byte record of one placed track or road piece: x, y with bit 0 reused as
  a "hash collision" flag, z / 4, and `trackId | (direction << 6)`. The model
  covers the decoders and the packing, with round trips in both directions. It
  shows that the collision flag never reaches the decoded position, and that
  two entries match exactly when their (position, track/road id, direction)
  triples agree.
- **The placement hash table** (`HashTable`, `HashTable.dfy`). This is the
  fixed 0x1000-slot array `var_25C0` with its count `var_25C0_length`. It is a
  class with an array field and a length field. `HashTableContains` probes from
  the home slot and moves on only while the slot it looks at carries the
  collision flag. It is proved to report exactly the stored keys: every added
  key is found, and nothing else is. `AddHashTableEntry` sets the collision
  flag on every occupied slot it passes, then stores the key in the first free
  slot, wrapping at the end of the table. It is proved to keep the table
  invariant and to add exactly that key. The invariant says four things: the
  count equals the number of occupied slots, the count never exceeds 0x1000,
  every probe chain is intact, and no key is stored twice.
- **CorporateRating** (`Rating`, `CorporateRating.dfy`). The ten tiers are
  totally ordered from platelayer (0) to tycoon (9). The performance-to-tier
  mapping follows the bands written beside the enumeration. It is proved
  monotonic, and each band boundary raises the tier by exactly one.

`Ints.dfy` writes out the C++ `int16_t`/`uint16_t` conversions and the
bit-0 masks. `World.dfy` holds `Pos2` and `Pos3`.

Behaviour the header declares but does not define is modelled from the
header's own comments, or taken as a parameter:

- The hash function `calculateHash` is a parameter of the table class: any
  function into `[0, 0x1000)`, applied to the entry's key.
- The bodies of `hashTableContains` and `addHashTableEntry` are not shown.
  They are modelled on the probe rule stated at Company.h:169-170.
- A free slot is marked by an x word of 0xFFFF, the int16_t -1 that the header
  uses elsewhere for "none" (`headquartersX`, `OwnerStatus`). The header does
  not say how a free slot is marked, so this is a modelling choice.
- `AddHashTableEntry` returns true exactly when the table changed. It returns
  false in three cases: the table is full, the key is already stored, or the
  key's x word equals the free-slot marker. A full table is reported as a
  failure and nothing is overwritten.
- The stored copy of an entry has its collision flag cleared, because a new
  entry ends its probe chain.
- A lookup looks at no more than 0x1000 slots.
- The entry constructor `Unk25C0HashTableEntry(Pos3, trackRoadId, direction)`
  is declared but not defined. It is modelled as `HashEntry.Make`, which stores
  each value in the field its comment names, truncated to the field's width:
  `z / 4` uses C++ division, which truncates toward zero. The full y goes
  into `var_02`, so an odd y sets the collision flag and the entry reads back
  as y - 1.
- `EntityId` is a `uint16_t` enumeration, and its `null` is taken to be 0xFFFF.
  The header that defines `EntityId` (`Types.hpp`) is not part of this model.
- `performanceToRating` is declared but not defined. Its mapping is taken from
  the comments at Company.h:53-62, with the index counted in tenths of a
  percent: the comments give one-decimal bands (0 - 9.9%, ...). Tier n then
  covers [100n, 100n + 99]. Tycoon covers 900 and above, and platelayer covers
  everything below 100, negative values included. If the index were read as a
  whole percent instead, 45 would be routeSupervisor. The header's comments do
  not support that reading, so the model does not use it.

## Model

| member | source | states |
|---|---|---|
| `Ints.U16ToI16` | src/OpenLoco/src/World/Company.h:101 | storing a `uint16_t` id in an `int16_t` word keeps its 16 bits (the values agree modulo 2^16) and keeps values below 0x8000 unchanged |
| `Ints.I16ToU16` | src/OpenLoco/src/World/Company.h:125 | casting the stored `int16_t` back to the `uint16_t` EntityId keeps its 16 bits and keeps non-negative values unchanged |
| `Ints.ClearBit0` | src/OpenLoco/src/World/Company.h:158 | `& 0xFFFE` gives an even word that is the input or the input minus one |
| `Ints.SetBit0` | src/OpenLoco/src/World/Company.h:169-174 | setting the collision bit makes the word odd and leaves every other bit (the word with bit 0 cleared) unchanged |
| `Ints.TruncDiv` | src/OpenLoco/src/World/Company.h:150 | C++ division by a positive divisor: the quotient rounds down for a non-negative dividend and up (toward zero) for a negative one |
| `Owner.OwnerStatus.IsEmpty` | src/OpenLoco/src/World/Company.h:119 | an empty status never carries the entity tag -2 in its first word |
| `Owner.EmptyMeans` | src/OpenLoco/src/World/Company.h:119-136 | a status is empty exactly when it is no entity and its position's x is -1; an empty status refers to entity null |
| `Owner.OwnerStatus.IsEntity` | src/OpenLoco/src/World/Company.h:119-120 | `isEmpty()` and `isEntity()` are never both true |
| `Owner.OwnerStatus.GetEntity` | src/OpenLoco/src/World/Company.h:121-128 | an entity status returns the id whose int16_t image is the second word; every other status returns EntityId::null |
| `Owner.OwnerStatus.GetPosition` | src/OpenLoco/src/World/Company.h:129-136 | an entity status gives the default Pos2 (0, 0); any other status, empty included, gives (first word, second word) |
| `Owner.Empty` | src/OpenLoco/src/World/Company.h:93-97 | the default status is empty, is not an entity, has entity null, and decodes the position (-1, 0) |
| `Owner.FromEntity` | src/OpenLoco/src/World/Company.h:98-102 | a status built from an id is an entity, is not empty, gives that same id back through the int16_t round trip, and decodes the position (0, 0) |
| `Owner.FromPosition` | src/OpenLoco/src/World/Company.h:103-107 | a position with x not -1 and not -2 reads back unchanged with entity null; x == -1 reads as empty; x == -2 reads as an entity whose id is the bits of y, with position (0, 0) |
| `Owner.FromRaw` | src/OpenLoco/src/World/Company.h:108-112 | the raw constructor stores its two words so that `getData` reads them back as given |
| `Owner.OwnerStatus.GetData` | src/OpenLoco/src/World/Company.h:113-117 | the first word is -1 exactly when the status is empty and -2 exactly when it is an entity; for an entity the second word is the bits of `getEntity`, otherwise the two words are what `getPosition` returns |
| `Owner.RawRoundTrip` | src/OpenLoco/src/World/Company.h:108-117 | `getData` and the raw two-word constructor are inverse of each other |
| `Owner.Classify` | src/OpenLoco/src/World/Company.h:119-136 | each status is exactly one of empty, entity or position; the entity and position shapes carry what `getEntity` and `getPosition` return |
| `Owner.ClassifyEncode` | src/OpenLoco/src/World/Company.h:93-136 | encoding a shape and classifying the result gives the shape back if and only if it is not a position with x == -1 or x == -2 |
| `Owner.EncodeClassify` | src/OpenLoco/src/World/Company.h:93-136 | re-encoding a classified status gives the same words back, except for the unused second word of an empty status |
| `HashEntry.Entry.GetPosition` | src/OpenLoco/src/World/Company.h:156-159 | the decoded x has the bits of var_00; the decoded y has the bits of var_02 with bit 0 cleared, so it is even; z is var_04 * 4, a multiple of 4 in [0, 1020], whose height byte is var_04 again |
| `HashEntry.Entry.GetTrackRoadId` | src/OpenLoco/src/World/Company.h:160-163 | the track/road id is always below 64 |
| `HashEntry.Entry.GetDirection` | src/OpenLoco/src/World/Company.h:164-167 | the direction is always at most 3 |
| `HashEntry.Entry.HasHashCollision` | src/OpenLoco/src/World/Company.h:169-174 | the flag is set exactly when bit 0 of var_02 is set |
| `HashEntry.PackTrackDirection` | src/OpenLoco/src/World/Company.h:151 | the packed byte keeps the low six bits of the id, and its two top bits are the direction's low two bits or'ed with the id's bits 6-7 |
| `HashEntry.Make` | src/OpenLoco/src/World/Company.h:148-154 | the built entry decodes x unchanged and stores y's bits in var_02, so an odd y sets the collision flag and decodes as y - 1; it stores z as its height byte, and decodes the id's low six bits and the direction (with any spilled id bits) back |
| `HashEntry.PackRoundTrip` | src/OpenLoco/src/World/Company.h:151-167 | for trackId < 64 and direction < 4, `trackId \| (direction << 6)` decodes back to both values |
| `HashEntry.UnpackRoundTrip` | src/OpenLoco/src/World/Company.h:151-167 | re-packing the two decoded fields gives every var_05 byte back |
| `HashEntry.SmallZ` | src/OpenLoco/src/World/Company.h:150 | the height byte of an in-range z is z / 4 rounded down |
| `HashEntry.MakeRoundTrip` | src/OpenLoco/src/World/Company.h:154-174 | an entry built from an encodable (position, id, direction) decodes to exactly those values and has no collision flag |
| `HashEntry.Key` | src/OpenLoco/src/World/Company.h:156-174 | the key of an entry has no collision flag and the same position, id and direction |
| `HashEntry.WithCollision` | src/OpenLoco/src/World/Company.h:169-174 | setting the collision flag changes neither the key nor the decoded position |
| `HashEntry.KeyIsDecodedTriple` | src/OpenLoco/src/World/Company.h:156-167 | two entries have the same key if and only if their decoded position, id and direction agree |
| `HashTable.FreeSlotExists` | src/OpenLoco/src/World/Company.h:224-225 | a table whose count is below 0x1000 has a free slot |
| `HashTable.AbsentWhenProbeStops` | src/OpenLoco/src/World/Company.h:169-170 | a probe that meets a free slot, or a non-matching slot without the flag, or covers the whole table, proves the key is not stored |
| `HashTable.FlagKeepsInv` | src/OpenLoco/src/World/Company.h:169-174 | flagging an occupied slot keeps the table invariant, the stored keys and every slot's key, and the blocked slots become the old ones plus the flagged slot |
| `HashTable.PlaceKeepsInv` | src/OpenLoco/src/World/Company.h:169-170 | storing a new key in the first free slot after a blocked probe prefix keeps the invariant, adds exactly that key and counts one more entry |
| `HashTable.Company.constructor` | src/OpenLoco/src/World/Company.h:224-225 | a new table has every slot free, count 0 and no keys |
| `HashTable.Company.HashTableContains` | src/OpenLoco/src/World/Company.h:294 | the probe reports true if and only if the entry's key is stored: no false negatives and no false positives, colliding keys included |
| `HashTable.Company.AddHashTableEntry` | src/OpenLoco/src/World/Company.h:295 | the table stays valid and its count stays at most 0x1000; the key is added exactly when the table is not full, the key is absent and representable, and then the count grows by one; every representable key offered to a non-full table is afterwards found; every slot afterwards is its old entry, its old entry with the collision flag set, or (for a slot that was free) the key; a refused insert leaves every slot unchanged |
| `Rating.Ordinal` | src/OpenLoco/src/World/Company.h:51-63 | the tiers are numbered 0 to 9, platelayer is 0 and tycoon is 9 |
| `Rating.FromOrdinal` | src/OpenLoco/src/World/Company.h:51-63 | casting 0..9 to a tier gives the tier with that number |
| `Rating.OrdinalRoundTrip` | src/OpenLoco/src/World/Company.h:51-63 | every tier's number casts back to that tier |
| `Rating.TotalOrder` | src/OpenLoco/src/World/Company.h:51-63 | the tier order is reflexive, antisymmetric, transitive and total, with platelayer least and tycoon greatest |
| `Rating.PerformanceToRating` | src/OpenLoco/src/World/Company.h:53-62 | a non-negative index lies at or above its tier's band; below 90% it lies inside the band; platelayer exactly below 10%; tycoon exactly from 90% |
| `Rating.RatingMonotonic` | src/OpenLoco/src/World/Company.h:53-62 | a higher performance index never gives a lower tier |
| `Rating.RatingSteps` | src/OpenLoco/src/World/Company.h:53-62 | crossing each band boundary 10n% (n = 1..9) raises the tier by exactly one |

## Left out

- The update pipeline is left out: `updateDaily`, `updateMonthly1`, `updateQuarterly`, `updateYearly`, `updateLoanAutorepay`, `evaluateChallengeProgress`, `updateOwnerEmotion`, the headquarters and colour updates, and `recalculateTransportCounts`. Only their declarations exist, and they depend on world, calendar and vehicle state outside this header.
- `clearOwnerStatusForDeletedVehicle`, `companyEmotionEvent` and `companySetObservation` are declared but not defined, so they are left out.
- The byte-exact save layout, the padding, and the `static_assert` sizes and offsets are memory-layout facts, not behaviour, so they are left out.
- AI thought storage and state (`aiThoughts`, `AiThinkState`, the union at lines 208-212) are left out. Their types are not shown.
- Currency values, `calculateCompanyValue`, the expenditure matrix and the history arrays are left out. Their types and the code that writes them are not shown.
- Colour schemes, `unlockedVehicles`, `isVehicleIndexUnlocked`, `companyGetAvailableRailTracks` and `companyGetAvailableRoads` are left out. Their bodies or library types are not shown.
- `formatPerformanceIndex` and `getCorporateRatingAsStringId` are string and UI formatting, so they are left out.
- The flag enumerations (`CompanyFlags`, `AiPlaystyleFlags`), `ObservationStatus` and `Emotion` are plain enumerations. The header gives them no behaviour, so they are left out.
- `calculateHash` is a parameter: its formula is declared only.
- `PerformanceToRating` states the bands of the comments at lines 53-62. The body of `performanceToRating` is declared only, so the band mapping and the tenths-of-a-percent unit come from those comments, not from code.
- Clearing the table when a company's AI is reset is left out. It is not in this header; the constructor gives the empty table.
- The 16-bit words of an entry are integers in [0, 0x10000). Their bit-0 masks are written as arithmetic modulo 2, and only the track/direction byte is a bit-vector.
