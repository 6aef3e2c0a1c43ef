/** Company::Unk25C0HashTableEntry: one packed record of a placed track or
    road piece, six bytes:
      var_00  x (uint16_t)
      var_02  y (uint16_t), whose bit 0 doubles as the "hash collision" flag
      var_04  z / 4 (uint8_t)
      var_05  trackId | (direction << 6) (uint8_t)
    The 16-bit words are kept as integers (their bit 0 is their value
    modulo 2); the track/direction byte is kept as a bit-vector because its
    decoders are written with shifts and masks. */
module HashEntry {
  import opened Ints
  import opened World

  /** World::kSmallZStep: heights are stored in units of 4. */
  const SMALL_Z_STEP: int := 4

  datatype Entry = Entry(var00: UInt16, var02: UInt16, var04: UInt8, var05: bv8) {

    /** (x, y & 0xFFFE, z * 4) read back as int16_t coordinates: the
        collision bit never reaches the position. */
    function GetPosition(): (p: Pos3)
      ensures I16ToU16(p.x) == var00
      ensures I16ToU16(p.y) == ClearBit0(var02) && p.y % 2 == 0
      ensures 0 <= p.z <= 0xFF * SMALL_Z_STEP && p.z % SMALL_Z_STEP == 0
      ensures p.z == var04 * SMALL_Z_STEP && SmallZ(p.z) == var04
    {
      Pos3(U16ToI16(var00), U16ToI16(ClearBit0(var02)), var04 * SMALL_Z_STEP)
    }

    /** The low six bits of var_05. */
    function GetTrackRoadId(): (id: bv8)
      ensures id < 64
    {
      var05 & 0x3F
    }

    /** The top two bits of var_05. */
    function GetDirection(): (d: bv8)
      ensures d <= 3
    {
      (var05 >> 6) & 0x03
    }

    /** Bit 0 of var_02. */
    function HasHashCollision(): (r: bool)
      ensures r <==> ClearBit0(var02) != var02
    {
      var02 % 2 != 0
    }
  }

  /** The byte `trackId | (direction << 6)`; bits shifted past bit 7 are lost,
      as in the uint8_t store of the source, and an id of 64 or more
      overlaps the direction bits. */
  function PackTrackDirection(trackRoadId: bv8, direction: bv8): (b: bv8)
    ensures b & 0x3F == trackRoadId & 0x3F
    ensures (b >> 6) & 0x03 == ((trackRoadId >> 6) | direction) & 0x03
  {
    trackRoadId | (direction << 6)
  }

  /** Unpacking the packed byte gives both parts back when they fit their
      fields (six bits and two bits). */
  lemma PackRoundTrip(trackRoadId: bv8, direction: bv8)
    requires trackRoadId < 64 && direction < 4
    ensures Entry(0, 0, 0, PackTrackDirection(trackRoadId, direction)).GetTrackRoadId() == trackRoadId
    ensures Entry(0, 0, 0, PackTrackDirection(trackRoadId, direction)).GetDirection() == direction
  {
  }

  /** Packing what the decoders read gives every byte back: the two fields
      cover all eight bits. */
  lemma UnpackRoundTrip(e: Entry)
    ensures PackTrackDirection(e.GetTrackRoadId(), e.GetDirection()) == e.var05
  {
  }

  /** The height byte: z / 4 (C++ division, toward zero), stored as uint8_t. */
  function SmallZ(z: Int16): (b: UInt8)
    ensures 0 <= z < 0x100 * SMALL_Z_STEP ==> b * SMALL_Z_STEP <= z < b * SMALL_Z_STEP + SMALL_Z_STEP
  {
    TruncDiv(z, SMALL_Z_STEP) % 0x100
  }

  /** Unk25C0HashTableEntry(Pos3, trackRoadId, direction): each value stored
      in the field its comment names, truncated to the field's width. An id
      of 64 or more spills its top bits into the direction; an odd y lands its
      low bit on the collision flag, so the entry reads back as (x, y - 1)
      and already counts as flagged. */
  function Make(pos: Pos3, trackRoadId: bv8, direction: bv8): (e: Entry)
    ensures e.GetPosition().x == pos.x
    ensures e.var02 == I16ToU16(pos.y)
    ensures e.HasHashCollision() <==> pos.y % 2 != 0
    ensures e.GetPosition().y == pos.y - pos.y % 2
    ensures e.var04 == SmallZ(pos.z)
    ensures e.GetTrackRoadId() == trackRoadId & 0x3F
    ensures e.GetDirection() == ((trackRoadId >> 6) | direction) & 0x03
  {
    Entry(I16ToU16(pos.x), I16ToU16(pos.y), SmallZ(pos.z), PackTrackDirection(trackRoadId, direction))
  }

  /** A key the entry can hold exactly: even y (bit 0 is the flag), a height
      on the 4-unit grid inside one byte, a six-bit id and a two-bit direction. */
  predicate Encodable(pos: Pos3, trackRoadId: bv8, direction: bv8) {
    pos.y % 2 == 0 && 0 <= pos.z < 0x100 * SMALL_Z_STEP && pos.z % SMALL_Z_STEP == 0
    && trackRoadId < 64 && direction < 4
  }

  /** Every decoder returns what was packed, and a fresh entry has no
      collision flag. */
  lemma MakeRoundTrip(pos: Pos3, trackRoadId: bv8, direction: bv8)
    requires Encodable(pos, trackRoadId, direction)
    ensures Make(pos, trackRoadId, direction).GetPosition() == pos
    ensures Make(pos, trackRoadId, direction).GetTrackRoadId() == trackRoadId
    ensures Make(pos, trackRoadId, direction).GetDirection() == direction
    ensures !Make(pos, trackRoadId, direction).HasHashCollision()
  {
  }

  /** The part of an entry that identifies a placed piece: the entry with its
      collision flag cleared. */
  function Key(e: Entry): (k: Entry)
    ensures !k.HasHashCollision()
    ensures k.GetPosition() == e.GetPosition()
    ensures k.GetTrackRoadId() == e.GetTrackRoadId() && k.GetDirection() == e.GetDirection()
  {
    e.(var02 := ClearBit0(e.var02))
  }

  lemma KeyIdempotent(e: Entry)
    ensures Key(Key(e)) == Key(e)
  {
  }

  /** The entry with its collision flag set: nothing a decoder reports changes. */
  function WithCollision(e: Entry): (c: Entry)
    ensures c.HasHashCollision()
    ensures Key(c) == Key(e)
    ensures c.GetPosition() == e.GetPosition()
  {
    e.(var02 := SetBit0(e.var02))
  }

  /** Two entries have the same key exactly when the decoders agree on them:
      the key is the (position, track/road id, direction) triple. */
  lemma KeyIsDecodedTriple(a: Entry, b: Entry)
    ensures Key(a) == Key(b) <==>
      a.GetPosition() == b.GetPosition()
      && a.GetTrackRoadId() == b.GetTrackRoadId() && a.GetDirection() == b.GetDirection()
  {
  }
}
