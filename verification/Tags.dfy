/** The 32-bit entry tags of a metadata log: one valid bit, an 11-bit type
    (three bits of class, eight bits of chunk), a 10-bit id and a 10-bit size.
    The log modules work on the fields; the lemmas at the end tie the fields to
    the 32-bit word. */
module Tags {

  /** The abstract types, in the order of their three-bit codes. */
  datatype Class = Name | From | Struct | UserAttr | Splice | Crc | Tail | Globals

  datatype Kind = Kind(cls: Class, chunk: nat)

  const REG := Kind(Name, 0x01)
  const SUPERBLOCK := Kind(Name, 0xff)
  const CREATE := Kind(Splice, 0x01)
  const DELETE := Kind(Splice, 0xff)
  const MOVESTATE := Kind(Globals, 0xff)

  /** Ids are ten bits wide and 0x3ff means "no entry". */
  const NO_ID := 0x3ff

  /** A size of 0x3ff marks the deletion of an attribute. */
  const DELETED_SIZE := 0x3ff

  /** A chunk read as a signed byte: +1 for CREATE, -1 for DELETE. */
  function Signed(chunk: nat): int {
    if chunk < 0x80 then chunk else chunk - 0x100
  }

  datatype Tag = Tag(kind: Kind, id: nat, size: nat) {
    predicate Valid() {
      kind.chunk < 0x100 && id < 0x400 && size < 0x400
    }

    predicate IsDelete() { size == DELETED_SIZE }

    /** Bytes taken in the log by the tag word and its data. */
    function DSize(): nat {
      4 + if IsDelete() then 0 else size
    }
  }

  /** The three lookup masks the filesystem uses on the type field:
      0x700, 0x780 and 0x7ff. */
  datatype Mask = ByClass | Visible | Exact

  predicate SameKind(mask: Mask, a: Kind, b: Kind) {
    && a.cls == b.cls
    && match mask
       case ByClass => true
       case Visible => a.chunk < 0x80 <==> b.chunk < 0x80
       case Exact => a.chunk == b.chunk
  }

  function Code(c: Class): (n: nat)
    ensures n < 8
  {
    match c
    case Name => 0
    case From => 1
    case Struct => 2
    case UserAttr => 3
    case Splice => 4
    case Crc => 5
    case Tail => 6
    case Globals => 7
  }

  function ClassOf(n: nat): Class
    requires n < 8
  {
    [Name, From, Struct, UserAttr, Splice, Crc, Tail, Globals][n]
  }

  /** The packed word without its valid bit. */
  function Pack(t: Tag): nat
    requires t.Valid()
  {
    Code(t.kind.cls) * 0x10000000 + t.kind.chunk * 0x100000 + t.id * 0x400 + t.size
  }

  /** What the field extractors read from a packed word. */
  function Unpack(w: nat): Tag {
    Tag(Kind(ClassOf(w / 0x10000000 % 8), w / 0x100000 % 0x100), w / 0x400 % 0x400, w % 0x400)
  }

  lemma UnpackPack(t: Tag)
    requires t.Valid()
    ensures Pack(t) < 0x8000_0000
    ensures Unpack(Pack(t)) == t
  {
    var w := Pack(t);
    assert w / 0x400 == Code(t.kind.cls) * 0x40000 + t.kind.chunk * 0x400 + t.id;
    assert w / 0x100000 == Code(t.kind.cls) * 0x100 + t.kind.chunk;
    assert w / 0x10000000 == Code(t.kind.cls);
  }

  /** Adding splices to a packed tag changes the id field alone as long as the
      id stays inside its ten bits. */
  lemma PackShift(t: Tag, d: int)
    requires t.Valid() && 0 <= t.id + d < 0x400
    ensures Pack(t) + d * 0x400 == Pack(t.(id := t.id + d))
    ensures Unpack((Pack(t) + d * 0x400) as nat) == t.(id := t.id + d)
  {
    UnpackPack(t.(id := t.id + d));
  }
}
