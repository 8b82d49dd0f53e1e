/** The 64-bit file ids of the NFS adapter: `crates/nfs-mount/src/adapter.rs`, lines 24-28 and
    165-257, on machine words. */
module FileIds {
  import opened Wrappers

  type Word = bv64

  const DEVICE_ROOT_ID: Word := 1
  const STORAGE_BASE_ID: Word := 2
  const REAL_FLAG: Word := 0x8000_0000_0000_0000
  const VIRT_FLAG: Word := 0x4000_0000_0000_0000
  const INDEX_LIMIT: Word := 0x4000
  const HANDLE_LIMIT: Word := 0x1_0000_0000_0000

  datatype Kind = DeviceRoot | StorageRoot(index: Word) | Real(storageIndex: Word, handle: Word)

  function EncodeReal(storageIndex: Word, handle: Word): Word {
    REAL_FLAG | (storageIndex << 48) | handle
  }

  function Decode(id: Word): Option<Kind> {
    if id & VIRT_FLAG != 0 then None
    else if id == DEVICE_ROOT_ID then Some(DeviceRoot)
    else if STORAGE_BASE_ID <= id < REAL_FLAG then Some(StorageRoot(id - STORAGE_BASE_ID))
    else if id & REAL_FLAG != 0 then Some(Real((id >> 48) & 0x7FFF, id & 0xFFFF_FFFF_FFFF))
    else None
  }

  lemma PackedBits(i: Word, h: Word)
    requires i < INDEX_LIMIT && h < HANDLE_LIMIT
    ensures EncodeReal(i, h) & VIRT_FLAG == 0
    ensures EncodeReal(i, h) >= REAL_FLAG && EncodeReal(i, h) & REAL_FLAG != 0
    ensures (EncodeReal(i, h) >> 48) & 0x7FFF == i
    ensures EncodeReal(i, h) & 0xFFFF_FFFF_FFFF == h
  {
  }

  lemma FieldBounds(id: Word)
    ensures id & 0xFFFF_FFFF_FFFF < HANDLE_LIMIT
    ensures id & VIRT_FLAG == 0 ==> (id >> 48) & 0x7FFF < INDEX_LIMIT
  {
  }

  lemma RepackedBits(id: Word)
    requires id & VIRT_FLAG == 0 && id & REAL_FLAG != 0
    ensures REAL_FLAG | (((id >> 48) & 0x7FFF) << 48) | (id & 0xFFFF_FFFF_FFFF) == id
  {
  }

  /** Encoding is undone exactly for indices below 2^14 and handles below 2^48: bit 14 of an
      index lands on the flag of virtual ids, and a wider handle spills into the index. */
  lemma DecodeEncode(i: Word, h: Word)
    ensures Decode(EncodeReal(i, h)) == Some(Real(i, h)) <==> i < INDEX_LIMIT && h < HANDLE_LIMIT
  {
    hide EncodeReal;
    if i < INDEX_LIMIT && h < HANDLE_LIMIT {
      PackedBits(i, h);
    } else {
      FieldBounds(EncodeReal(i, h));
    }
  }

  /** And a real id is the encoding of what it decodes to, so the two are mutually inverse. */
  lemma EncodeDecode(id: Word)
    requires Decode(id).Some? && Decode(id).value.Real?
    ensures Decode(id).value.storageIndex < INDEX_LIMIT && Decode(id).value.handle < HANDLE_LIMIT
    ensures EncodeReal(Decode(id).value.storageIndex, Decode(id).value.handle) == id
  {
    FieldBounds(id);
    RepackedBits(id);
  }

  /** The classes of ids: which words decode, and to what, is decided by two bits and the value. */
  lemma Partition(id: Word)
    ensures Decode(id) == None <==> id == 0 || id & VIRT_FLAG != 0
    ensures (Decode(id).Some? && Decode(id).value.DeviceRoot?) <==> id == DEVICE_ROOT_ID
    ensures (Decode(id).Some? && Decode(id).value.StorageRoot?) <==> STORAGE_BASE_ID <= id < VIRT_FLAG
    ensures (Decode(id).Some? && Decode(id).value.Real?) <==> REAL_FLAG <= id < REAL_FLAG + VIRT_FLAG
  {
    assert id & VIRT_FLAG == 0 && id < REAL_FLAG ==> id < VIRT_FLAG;
    assert id < VIRT_FLAG ==> id & VIRT_FLAG == 0;
    assert id & REAL_FLAG != 0 <==> id >= REAL_FLAG;
    assert id >= REAL_FLAG ==> (id & VIRT_FLAG == 0 <==> id < REAL_FLAG + VIRT_FLAG);
  }

  /** Ids for files that exist only locally, from a counter that never goes back. */
  class VirtualIds {
    var sequence: Word

    constructor ()
      ensures sequence == 0
    {
      sequence := 0;
    }

    /** `next_virt_id`: never an id issued before, and never one that decodes. */
    method Next() returns (id: Word)
      requires sequence < VIRT_FLAG - 1
      modifies this
      ensures sequence == old(sequence) + 1 && id == Tag(sequence)
      ensures Decode(id) == None
      ensures Issued(id, sequence) && !Issued(id, old(sequence))
      ensures forall other :: Issued(other, old(sequence)) ==> Issued(other, sequence)
    {
      hide Issued, Decode, Tag;
      IssuedLater(sequence);
      sequence := sequence + 1;
      id := Tag(sequence);
    }
  }

  /** `id` was issued by a counter that has reached `sequence`. */
  ghost predicate Issued(id: Word, sequence: Word) {
    VIRT_FLAG <= id <= Tag(sequence)
  }

  function Tag(sequence: Word): Word {
    VIRT_FLAG | sequence
  }

  lemma IssuedLater(sequence: Word)
    requires sequence < VIRT_FLAG - 1
    ensures forall id :: Issued(id, sequence) ==> Issued(id, sequence + 1)
    ensures Issued(Tag(sequence + 1), sequence + 1)
    ensures !Issued(Tag(sequence + 1), sequence)
    ensures Decode(Tag(sequence + 1)) == None
  {
    hide Tag, Decode, Issued;
    TagIsVirtual(sequence + 1);
    OneMoreIssued(sequence);
    forall id | Issued(id, sequence)
      ensures Issued(id, sequence + 1)
    {
      StillIssued(id, sequence);
    }
  }

  lemma OneMoreIssued(sequence: Word)
    requires sequence < VIRT_FLAG - 1
    ensures Issued(Tag(sequence + 1), sequence + 1) && !Issued(Tag(sequence + 1), sequence)
  {
    TagGrows(sequence);
    TagIsVirtual(sequence + 1);
  }

  lemma StillIssued(id: Word, sequence: Word)
    requires sequence < VIRT_FLAG - 1 && Issued(id, sequence)
    ensures Issued(id, sequence + 1)
  {
    hide Tag;
    TagGrows(sequence);
  }

  lemma TagGrows(sequence: Word)
    requires sequence < VIRT_FLAG - 1
    ensures Tag(sequence) < Tag(sequence + 1)
  {
  }

  lemma TagIsVirtual(sequence: Word)
    requires sequence < VIRT_FLAG
    ensures VIRT_FLAG <= Tag(sequence) && Decode(Tag(sequence)) == None
  {
  }
}
