/** The company's append-only open-addressing table of placed track and
    road pieces: the fixed array var_25C0 of 0x1000 entries and the count
    var_25C0_length. An insert whose home slot is taken sets the collision
    flag on every occupied slot it passes and takes the next free slot,
    wrapping at the end; a lookup starts at the home slot and moves on only
    while the slot it looks at carries the collision flag. */
module HashTable {
  import opened HashEntry

  /** std::size(var_25C0). */
  const CAPACITY: nat := 0x1000

  type SlotIndex = i: int | 0 <= i < 0x1000

  /** Company::Unk25C0HashTableEntry::calculateHash, into the table's range;
      it is applied to the key, so the collision flag does not move an entry. */
  type HashFn = Entry -> SlotIndex

  /** The contents of a slot nothing has been stored in (x word 0xFFFF, the
      int16_t -1 the header uses for "none"). */
  const EMPTY_ENTRY: Entry := Entry(0xFFFF, 0, 0, 0)

  predicate IsEmptySlot(e: Entry) {
    e.var00 == 0xFFFF
  }

  /** The slot d steps after home, wrapping at the end of the table. */
  function Slot(home: SlotIndex, d: nat): SlotIndex
    requires d < CAPACITY
  {
    if home + d < CAPACITY then home + d else home + d - CAPACITY
  }

  /** How many steps after home slot s lies. */
  function Dist(home: SlotIndex, s: SlotIndex): (d: nat)
    ensures d < CAPACITY
  {
    if s >= home then s - home else s - home + CAPACITY
  }

  lemma SlotDist(home: SlotIndex, d: nat, s: SlotIndex)
    requires d < CAPACITY
    ensures Dist(home, Slot(home, d)) == d
    ensures Slot(home, Dist(home, s)) == s
  {
  }

  function Home(hash: HashFn, e: Entry): SlotIndex {
    hash(Key(e))
  }

  /** A slot a lookup passes over: occupied and flagged. */
  predicate Blocked(a: seq<Entry>, i: SlotIndex)
    requires |a| == CAPACITY
  {
    !IsEmptySlot(a[i]) && a[i].HasHashCollision()
  }

  /** Every slot between an entry's home slot and the entry itself is
      blocked, so a lookup from the home slot walks as far as the entry. */
  ghost predicate ChainIntact(a: seq<Entry>, hash: HashFn, s: SlotIndex)
    requires |a| == CAPACITY
  {
    !IsEmptySlot(a[s]) ==>
      forall d :: 0 <= d < Dist(Home(hash, a[s]), s) ==> Blocked(a, Slot(Home(hash, a[s]), d))
  }

  ghost function OccupiedSlots(a: seq<Entry>): set<int> {
    set s | 0 <= s < |a| && !IsEmptySlot(a[s])
  }

  /** The keys stored in the table. */
  ghost function Keys(a: seq<Entry>): set<Entry> {
    set s | 0 <= s < |a| && !IsEmptySlot(a[s]) :: Key(a[s])
  }

  /** The table invariant: the count is the number of occupied slots and
      fits the capacity, every chain is intact, and no key is stored twice. */
  ghost predicate Inv(a: seq<Entry>, len: int, hash: HashFn) {
    |a| == CAPACITY
    && len == |OccupiedSlots(a)| && len <= CAPACITY
    && ChainsIntact(a, hash)
    && UniqueKeys(a)
  }

  ghost predicate ChainsIntact(a: seq<Entry>, hash: HashFn)
    requires |a| == CAPACITY
  {
    forall s: SlotIndex :: ChainIntact(a, hash, s)
  }

  ghost predicate UniqueKeys(a: seq<Entry>)
    requires |a| == CAPACITY
  {
    forall s: SlotIndex, t: SlotIndex ::
      !IsEmptySlot(a[s]) && !IsEmptySlot(a[t]) && Key(a[s]) == Key(a[t]) ==> s == t
  }

  /** The occupied slots among the first n. */
  ghost function OccupiedBelow(a: seq<Entry>, n: int): set<int> {
    set s | 0 <= s < n && s < |a| && !IsEmptySlot(a[s])
  }

  /** With the first n slots all occupied, n slots are occupied. */
  lemma {:induction false} AllOccupiedCard(a: seq<Entry>, n: nat)
    requires n <= |a|
    requires forall s :: 0 <= s < n ==> !IsEmptySlot(a[s])
    ensures |OccupiedBelow(a, n)| == n
  {
    if n > 0 {
      AllOccupiedCard(a, n - 1);
      assert OccupiedBelow(a, n) == OccupiedBelow(a, n - 1) + {n - 1};
    }
  }

  /** A table whose count is below the capacity has a free slot. */
  lemma FreeSlotExists(a: seq<Entry>, len: int, hash: HashFn) returns (free: SlotIndex)
    requires Inv(a, len, hash) && len < CAPACITY
    ensures IsEmptySlot(a[free])
  {
    if forall s: SlotIndex :: !IsEmptySlot(a[s]) {
      assert OccupiedSlots(a) == OccupiedBelow(a, CAPACITY);
      AllOccupiedCard(a, CAPACITY);
      assert false;
    }
    free :| IsEmptySlot(a[free]);
  }

  /** A lookup of k that has passed i blocked, non-matching slots and then
      stops (an empty slot, or a non-matching slot without the flag, or the
      whole table) is right to report k absent. */
  lemma AbsentWhenProbeStops(a: seq<Entry>, len: int, hash: HashFn, k: Entry, i: nat)
    requires Inv(a, len, hash) && i <= CAPACITY
    requires forall d :: 0 <= d < i ==>
      Blocked(a, Slot(Home(hash, k), d)) && Key(a[Slot(Home(hash, k), d)]) != Key(k)
    requires i < CAPACITY ==>
      IsEmptySlot(a[Slot(Home(hash, k), i)])
      || (Key(a[Slot(Home(hash, k), i)]) != Key(k) && !a[Slot(Home(hash, k), i)].HasHashCollision())
    ensures Key(k) !in Keys(a)
  {
    if Key(k) in Keys(a) {
      var s: SlotIndex :| !IsEmptySlot(a[s]) && Key(a[s]) == Key(k);
      var h := Home(hash, k);
      KeyIdempotent(k);
      KeyIdempotent(a[s]);
      assert Home(hash, a[s]) == h;
      var d := Dist(h, s);
      SlotDist(h, d, s);
      if d > i {
        ChainStep(a, hash, s, i);
      }
    }
  }

  /** Setting the collision flag on an occupied slot keeps the invariant,
      the keys and the occupancy of every slot, and blocks nothing less. */
  lemma FlagKeepsInv(a: seq<Entry>, len: int, hash: HashFn, s: SlotIndex)
    requires Inv(a, len, hash) && !IsEmptySlot(a[s])
    ensures Inv(a[s := WithCollision(a[s])], len, hash)
    ensures Keys(a[s := WithCollision(a[s])]) == Keys(a)
    ensures forall t: SlotIndex :: Key(a[s := WithCollision(a[s])][t]) == Key(a[t])
    ensures forall t: SlotIndex :: Blocked(a[s := WithCollision(a[s])], t) <==> Blocked(a, t) || t == s
  {
    var b := a[s := WithCollision(a[s])];
    assert OccupiedSlots(b) == OccupiedSlots(a);
    forall t: SlotIndex
      ensures ChainIntact(b, hash, t)
    {
      assert Home(hash, b[t]) == Home(hash, a[t]);
      assert ChainIntact(a, hash, t);
    }
    forall x | x in Keys(a)
      ensures x in Keys(b)
    {
      var t: SlotIndex :| !IsEmptySlot(a[t]) && Key(a[t]) == x;
      assert Key(b[t]) == x;
    }
    forall x | x in Keys(b)
      ensures x in Keys(a)
    {
      var t: SlotIndex :| !IsEmptySlot(b[t]) && Key(b[t]) == x;
      assert Key(a[t]) == x;
    }
    forall t: SlotIndex
      ensures Blocked(b, t) <==> Blocked(a, t) || t == s
    {
      if t == s {
        assert b[s].var00 == a[s].var00;
      }
    }
  }

  /** A step of an intact chain is blocked. */
  lemma ChainStep(a: seq<Entry>, hash: HashFn, s: SlotIndex, d: nat)
    requires |a| == CAPACITY && ChainIntact(a, hash, s) && !IsEmptySlot(a[s])
    requires d < Dist(Home(hash, a[s]), s)
    ensures Blocked(a, Slot(Home(hash, a[s]), d))
  {
  }

  /** Filling a free slot s, whose probe prefix of length i is blocked, keeps
      every chain intact. */
  lemma PlaceKeepsChains(a: seq<Entry>, b: seq<Entry>, hash: HashFn, k: Entry, i: nat)
    requires |a| == CAPACITY && i < CAPACITY && k == Key(k)
    requires ChainsIntact(a, hash)
    requires IsEmptySlot(a[Slot(hash(k), i)])
    requires PrefixBlocked(a, hash(k), i)
    requires b == a[Slot(hash(k), i) := k]
    ensures ChainsIntact(b, hash)
  {
    var h := hash(k);
    var s := Slot(h, i);
    assert Home(hash, k) == h;
    SlotDist(h, i, s);
    forall t: SlotIndex
      ensures ChainIntact(b, hash, t)
    {
      if t == s {
        forall d | 0 <= d < Dist(Home(hash, b[t]), t)
          ensures Blocked(b, Slot(Home(hash, b[t]), d))
        {
          SlotDist(h, d, s);
          assert Blocked(a, Slot(h, d));
        }
      } else if !IsEmptySlot(b[t]) {
        forall d | 0 <= d < Dist(Home(hash, b[t]), t)
          ensures Blocked(b, Slot(Home(hash, b[t]), d))
        {
          ChainStep(a, hash, t, d);
        }
      }
    }
  }

  /** Filling a free slot s with a key not yet stored adds exactly that key,
      keeps keys unique and adds one occupied slot. */
  lemma PlaceKeepsKeys(a: seq<Entry>, b: seq<Entry>, s: SlotIndex, k: Entry)
    requires |a| == CAPACITY && IsEmptySlot(a[s]) && !IsEmptySlot(k) && k == Key(k) && k !in Keys(a)
    requires UniqueKeys(a)
    requires b == a[s := k]
    ensures Keys(b) == Keys(a) + {k}
    ensures OccupiedSlots(b) == OccupiedSlots(a) + {s} && s !in OccupiedSlots(a)
    ensures UniqueKeys(b)
  {
    assert OccupiedSlots(b) == OccupiedSlots(a) + {s};
    forall t: SlotIndex | !IsEmptySlot(a[t])
      ensures Key(a[t]) != k
    {
      assert Key(a[t]) in Keys(a);
    }
    forall x | x in Keys(b)
      ensures x in Keys(a) + {k}
    {
      var t: SlotIndex :| !IsEmptySlot(b[t]) && Key(b[t]) == x;
      if t != s {
        assert Key(a[t]) == x;
      }
    }
    forall x | x in Keys(a) + {k}
      ensures x in Keys(b)
    {
      if x == k {
        assert Key(b[s]) == k;
      } else {
        var t: SlotIndex :| !IsEmptySlot(a[t]) && Key(a[t]) == x;
        assert Key(b[t]) == x;
      }
    }
  }

  /** Storing key k in the first free slot of its probe sequence, after i
      blocked slots, keeps the invariant and adds k to the keys. */
  lemma PlaceKeepsInv(a: seq<Entry>, len: int, hash: HashFn, k: Entry, i: nat)
    requires Inv(a, len, hash) && len < CAPACITY && i < CAPACITY
    requires k == Key(k) && !IsEmptySlot(k) && k !in Keys(a)
    requires IsEmptySlot(a[Slot(hash(k), i)])
    requires PrefixBlocked(a, hash(k), i)
    ensures Inv(a[Slot(hash(k), i) := k], len + 1, hash)
    ensures Keys(a[Slot(hash(k), i) := k]) == Keys(a) + {k}
  {
    var b := a[Slot(hash(k), i) := k];
    PlaceKeepsChains(a, b, hash, k, i);
    PlaceKeepsKeys(a, b, Slot(hash(k), i), k);
  }

  /** The first i slots of the probe sequence from home are blocked. */
  ghost predicate PrefixBlocked(a: seq<Entry>, home: SlotIndex, i: nat)
    requires |a| == CAPACITY
  {
    forall d :: 0 <= d < i && d < CAPACITY ==> Blocked(a, Slot(home, d))
  }

  /** Each slot of b is the slot of a, or the slot of a with the collision
      flag set. */
  ghost predicate FlagsOnly(a: seq<Entry>, b: seq<Entry>)
    requires |a| == |b| == CAPACITY
  {
    forall t: SlotIndex :: b[t] == a[t] || b[t] == WithCollision(a[t])
  }

  /** Each slot of b is the slot of a, or the slot of a with the collision
      flag set, or a free slot of a that now holds k. */
  ghost predicate FlagsOrPlaced(a: seq<Entry>, b: seq<Entry>, k: Entry)
    requires |a| == |b| == CAPACITY
  {
    forall t: SlotIndex :: b[t] == a[t] || b[t] == WithCollision(a[t]) || (IsEmptySlot(a[t]) && b[t] == k)
  }

  /** One step of the insert probe: flagging the occupied slot i of the
      probe sequence keeps everything the loop relies on. */
  lemma ProbeStep(a0: seq<Entry>, a: seq<Entry>, b: seq<Entry>, len: int, hash: HashFn,
                  k: Entry, i: nat, far: nat)
    requires Inv(a, len, hash) && |a0| == CAPACITY && Keys(a) == Keys(a0) && FlagsOnly(a0, a)
    requires i < far < CAPACITY
    requires IsEmptySlot(a[Slot(hash(k), far)]) && !IsEmptySlot(a[Slot(hash(k), i)])
    requires PrefixBlocked(a, hash(k), i)
    requires b == a[Slot(hash(k), i) := WithCollision(a[Slot(hash(k), i)])]
    ensures Inv(b, len, hash) && Keys(b) == Keys(a0) && FlagsOnly(a0, b)
    ensures IsEmptySlot(b[Slot(hash(k), far)])
    ensures PrefixBlocked(b, hash(k), i + 1)
  {
    FlagKeepsInv(a, len, hash, Slot(hash(k), i));
    SlotDist(hash(k), i, Slot(hash(k), i));
    SlotDist(hash(k), far, Slot(hash(k), far));
    forall d | 0 <= d < i + 1 && d < CAPACITY
      ensures Blocked(b, Slot(hash(k), d))
    {
      if d < i {
        assert Blocked(a, Slot(hash(k), d));
      }
    }
  }

  /** The final store of the insert: the probe ended on a free slot. */
  lemma PlaceStep(a0: seq<Entry>, a: seq<Entry>, b: seq<Entry>, len: int, hash: HashFn, k: Entry, i: nat)
    requires Inv(a, len, hash) && len < CAPACITY && i < CAPACITY && |a0| == CAPACITY
    requires Keys(a) == Keys(a0) && FlagsOnly(a0, a)
    requires k == Key(k) && !IsEmptySlot(k) && k !in Keys(a)
    requires IsEmptySlot(a[Slot(hash(k), i)])
    requires PrefixBlocked(a, hash(k), i)
    requires b == a[Slot(hash(k), i) := k]
    ensures Inv(b, len + 1, hash) && Keys(b) == Keys(a0) + {k} && FlagsOrPlaced(a0, b, k)
  {
    PlaceKeepsInv(a, len, hash, k, i);
    assert IsEmptySlot(a0[Slot(hash(k), i)]);
  }

  /** The part of Company that holds the table. */
  class Company {
    const calculateHash: HashFn
    /** var_25C0 */
    const hashTable: array<Entry>
    /** var_25C0_length */
    var hashTableLength: nat

    ghost predicate Valid()
      reads this, hashTable
    {
      hashTable.Length == CAPACITY && Inv(hashTable[..], hashTableLength, calculateHash)
    }

    /** The keys the table holds. */
    ghost function Contents(): set<Entry>
      reads this, hashTable
    {
      Keys(hashTable[..])
    }

    /** A company starts with an empty table. */
    constructor (hash: HashFn)
      ensures Valid() && fresh(hashTable)
      ensures calculateHash == hash
      ensures Contents() == {} && hashTableLength == 0
    {
      calculateHash := hash;
      hashTable := new Entry[CAPACITY](_ => EMPTY_ENTRY);
      hashTableLength := 0;
      new;
      assert forall s: SlotIndex :: IsEmptySlot(hashTable[..][s]);
      assert OccupiedSlots(hashTable[..]) == {};
    }

    /** hashTableContains: probe from the home slot, moving on while the
        slot carries the collision flag. Reports exactly the stored keys. */
    method HashTableContains(entry: Entry) returns (found: bool)
      requires Valid()
      ensures found <==> Key(entry) in Contents()
    {
      var h := Home(calculateHash, entry);
      var i := 0;
      while i < CAPACITY
        invariant 0 <= i <= CAPACITY
        invariant forall d :: 0 <= d < i ==>
          Blocked(hashTable[..], Slot(h, d)) && Key(hashTable[..][Slot(h, d)]) != Key(entry)
      {
        var e := hashTable[Slot(h, i)];
        if IsEmptySlot(e) {
          AbsentWhenProbeStops(hashTable[..], hashTableLength, calculateHash, entry, i);
          return false;
        }
        if Key(e) == Key(entry) {
          assert Key(hashTable[..][Slot(h, i)]) in Keys(hashTable[..]);
          return true;
        }
        if !e.HasHashCollision() {
          AbsentWhenProbeStops(hashTable[..], hashTableLength, calculateHash, entry, i);
          return false;
        }
        i := i + 1;
      }
      AbsentWhenProbeStops(hashTable[..], hashTableLength, calculateHash, entry, i);
      return false;
    }

    /** addHashTableEntry: stores the key of entry unless the table is full,
        the key is already stored, or its x word is the empty-slot marker.
        Slots passed on the way get the collision flag; nothing else moves. */
    method AddHashTableEntry(entry: Entry) returns (added: bool)
      requires Valid()
      modifies this`hashTableLength, hashTable
      ensures Valid()
      ensures added <==>
        old(hashTableLength) < CAPACITY && !IsEmptySlot(entry) && Key(entry) !in old(Contents())
      ensures Contents() == if added then old(Contents()) + {Key(entry)} else old(Contents())
      ensures hashTableLength == if added then old(hashTableLength) + 1 else old(hashTableLength)
      ensures !added ==> hashTable[..] == old(hashTable[..])
      ensures FlagsOrPlaced(old(hashTable[..]), hashTable[..], Key(entry))
      ensures old(hashTableLength) < CAPACITY && !IsEmptySlot(entry) ==> Key(entry) in Contents()
    {
      if hashTableLength >= CAPACITY || IsEmptySlot(entry) {
        return false;
      }
      var present := HashTableContains(entry);
      if present {
        return false;
      }
      ghost var a0 := hashTable[..];
      var k := Key(entry);
      KeyIdempotent(entry);
      var h := calculateHash(k);
      ghost var free := FreeSlotExists(a0, hashTableLength, calculateHash);
      ghost var far := Dist(h, free);
      SlotDist(h, far, free);
      var i := 0;
      while !IsEmptySlot(hashTable[Slot(h, i)])
        invariant 0 <= i <= far
        invariant hashTableLength == old(hashTableLength)
        invariant Inv(hashTable[..], hashTableLength, calculateHash)
        invariant Keys(hashTable[..]) == Keys(a0)
        invariant FlagsOnly(a0, hashTable[..])
        invariant IsEmptySlot(hashTable[Slot(h, far)])
        invariant PrefixBlocked(hashTable[..], h, i)
        decreases far - i
      {
        var s := Slot(h, i);
        ghost var a := hashTable[..];
        hashTable[s] := WithCollision(hashTable[s]);
        ProbeStep(a0, a, hashTable[..], hashTableLength, calculateHash, k, i, far);
        i := i + 1;
      }
      ghost var a := hashTable[..];
      hashTable[Slot(h, i)] := k;
      PlaceStep(a0, a, hashTable[..], hashTableLength, calculateHash, k, i);
      hashTableLength := hashTableLength + 1;
      added := true;
    }
  }
}
