/** Node ids: five bits of type below 27 bits of index ([MS-PST] section 2.2.2.1). */
module NodeId {
  import opened Bytes

  const T_INTERNAL: nat := 0x01
  const T_FOLDER: nat := 0x02
  const T_MESSAGE: nat := 0x04
  const T_ATTACHMENT: nat := 0x05
  const T_HIERARCHY: nat := 0x0D
  const T_CONTENTS: nat := 0x0E
  const T_ASSOC: nat := 0x0F

  /** Node indexes below this are reserved for the format itself. */
  const FIRST_INDEX: nat := 0x400

  /** 27 bits are left for the index. */
  const MAX_INDEX: nat := 0x800_0000

  /** The index moves past five type bits, in 32 bits. */
  function MakeNid(t: nat, index: nat): (nid: nat)
    requires t < 32
    ensures nid < U32
  {
    (32 * index + t) % U32
  }

  function NidType(nid: nat): nat { nid % 32 }
  function NidIndex(nid: nat): nat { nid / 32 }

  /** Below the index limit an id gives back what it was made of. */
  lemma NidParts(t: nat, index: nat)
    requires t < 32 && index < MAX_INDEX
    ensures MakeNid(t, index) == 32 * index + t && NidType(MakeNid(t, index)) == t && NidIndex(MakeNid(t, index)) == index
  {
    ModUnique(32 * index + t, U32, 0, 32 * index + t);
    ModUnique(32 * index + t, 32, index, t);
  }
}
