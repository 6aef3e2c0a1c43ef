/** OwnerStatus: what the UI should focus on for a company, packed into two
    int16_t words. The first word is a tag-or-coordinate: -1 means empty,
    -2 means "entity", with the entity id in the second word; any other
    value is the x of a world position whose y is the second word. */
module Owner {
  import opened Ints
  import opened World

  /** EntityId is a uint16_t enumeration. */
  type EntityId = UInt16

  /** EntityId::null, the largest uint16_t. */
  const NULL_ENTITY: EntityId := 0xFFFF

  const EMPTY_TAG: Int16 := -1
  const ENTITY_TAG: Int16 := -2

  datatype OwnerStatus = OwnerStatus(data0: Int16, data1: Int16) {

    /** An empty status never carries the entity tag. */
    function IsEmpty(): (r: bool)
      ensures r ==> data0 != ENTITY_TAG
    {
      data0 == EMPTY_TAG
    }

    /** The two tags are distinct, so no encoding is both empty and an entity. */
    function IsEntity(): (r: bool)
      ensures r ==> !IsEmpty()
      ensures IsEmpty() ==> !r
    {
      data0 == ENTITY_TAG
    }

    /** The referenced entity, or EntityId::null when the status is not an entity. */
    function GetEntity(): (id: EntityId)
      ensures IsEntity() ==> U16ToI16(id) == data1
      ensures !IsEntity() ==> id == NULL_ENTITY
    {
      if IsEntity() then I16ToU16(data1) else NULL_ENTITY
    }

    /** The stored position; a default Pos2 for an entity status. An empty
        status is not special-cased: it decodes as (-1, data1). */
    function GetPosition(): (p: Pos2)
      ensures IsEntity() ==> p == ORIGIN2
      ensures IsEmpty() ==> p.x == -1 && p.y == data1
      ensures !IsEntity() ==> p.x == data0 && p.y == data1
    {
      if IsEntity() then ORIGIN2 else Pos2(data0, data1)
    }

    /** getData: copies out the two words, which carry everything the
        queries report. */
    function GetData(): (d: (Int16, Int16))
      ensures d.0 == EMPTY_TAG <==> IsEmpty()
      ensures d.0 == ENTITY_TAG <==> IsEntity()
      ensures IsEntity() ==> I16ToU16(d.1) == GetEntity()
      ensures !IsEntity() ==> d == (GetPosition().x, GetPosition().y)
    {
      (data0, data1)
    }
  }

  /** What an empty status means to a caller: it is no entity, so it refers
      to no entity id, and it decodes as a position whose x is the empty tag. */
  lemma EmptyMeans(s: OwnerStatus)
    ensures s.IsEmpty() <==> !s.IsEntity() && s.GetPosition().x == EMPTY_TAG
    ensures s.IsEmpty() ==> s.GetEntity() == NULL_ENTITY
  {
  }

  /** The default constructor. */
  function Empty(): (s: OwnerStatus)
    ensures s.IsEmpty() && !s.IsEntity()
    ensures s.GetEntity() == NULL_ENTITY
    ensures s.GetPosition() == Pos2(-1, 0)
  {
    OwnerStatus(EMPTY_TAG, 0)
  }

  /** OwnerStatus(EntityId): the id survives the uint16_t -> int16_t store
      and the cast back. */
  function FromEntity(id: EntityId): (s: OwnerStatus)
    ensures s.IsEntity() && !s.IsEmpty()
    ensures s.GetEntity() == id
    ensures s.GetPosition() == ORIGIN2
  {
    OwnerStatus(ENTITY_TAG, U16ToI16(id))
  }

  /** OwnerStatus(Pos2): an ordinary position reads back unchanged; a
      position whose x happens to equal a tag reads back as that tag. */
  function FromPosition(pos: Pos2): (s: OwnerStatus)
    ensures pos.x != EMPTY_TAG && pos.x != ENTITY_TAG ==>
      !s.IsEmpty() && !s.IsEntity() && s.GetPosition() == pos && s.GetEntity() == NULL_ENTITY
    ensures pos.x == EMPTY_TAG ==> s.IsEmpty() && s.GetPosition() == pos
    ensures pos.x == ENTITY_TAG ==>
      s.IsEntity() && s.GetEntity() == I16ToU16(pos.y) && s.GetPosition() == ORIGIN2
  {
    OwnerStatus(pos.x, pos.y)
  }

  /** OwnerStatus(int16_t ax, int16_t cx): the raw words. */
  function FromRaw(ax: Int16, cx: Int16): (s: OwnerStatus)
    ensures s.GetData() == (ax, cx)
  {
    OwnerStatus(ax, cx)
  }

  /** getData and the raw constructor are inverse: the two words are the
      whole state of the status. */
  lemma RawRoundTrip(s: OwnerStatus, ax: Int16, cx: Int16)
    ensures FromRaw(s.GetData().0, s.GetData().1) == s
    ensures FromRaw(ax, cx).GetData() == (ax, cx)
  {
  }

  /** The three shapes the two words stand for. */
  datatype Shape = EmptyShape | EntityShape(id: EntityId) | PositionShape(pos: Pos2)

  /** How a reader of the status (the UI) classifies it: by the tag tests,
      in the order the source's queries apply them. */
  function Classify(s: OwnerStatus): (v: Shape)
    ensures v.EmptyShape? <==> s.IsEmpty()
    ensures v.EntityShape? <==> s.IsEntity()
    ensures v.EntityShape? ==> v.id == s.GetEntity()
    ensures v.PositionShape? ==> v.pos == s.GetPosition() && s.GetEntity() == NULL_ENTITY
  {
    if s.IsEmpty() then EmptyShape
    else if s.IsEntity() then EntityShape(s.GetEntity())
    else PositionShape(s.GetPosition())
  }

  /** The encoding of a shape through the three constructors. */
  function Encode(v: Shape): OwnerStatus {
    match v
    case EmptyShape => Empty()
    case EntityShape(id) => FromEntity(id)
    case PositionShape(pos) => FromPosition(pos)
  }

  /** A position whose x is not a tag value. */
  predicate Representable(v: Shape) {
    v.PositionShape? ==> v.pos.x != EMPTY_TAG && v.pos.x != ENTITY_TAG
  }

  /** Classifying an encoded shape gives the shape back exactly when the
      shape is representable; a position with x == -1 or x == -2 is misread. */
  lemma ClassifyEncode(v: Shape)
    ensures Classify(Encode(v)) == v <==> Representable(v)
  {
  }

  /** Encoding what a status was classified as gives the same words back,
      except for the unused second word of an empty status. */
  lemma EncodeClassify(s: OwnerStatus)
    ensures !s.IsEmpty() ==> Encode(Classify(s)) == s
    ensures s.IsEmpty() ==> Encode(Classify(s)) == Empty() && Encode(Classify(s)).data0 == s.data0
  {
  }
}
