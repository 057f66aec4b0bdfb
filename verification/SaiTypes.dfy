/** Status codes and identifiers shared by every table of the library. */
module SaiTypes {

  /** A 64-bit object identifier (`sai_object_id_t`). */
  type Oid = nat

  const NULL_OID: Oid := 0

  /** The status families whose codes carry the position of the attribute at fault. */
  datatype AttrFault = UnknownAttribute | NotImplemented | NotSupported | InvalidAttribute

  datatype Status =
    | Success
    | Failure
    | InvalidParameter
    | InvalidObjectId
    | ItemNotFound
    | BufferOverflow
    | MandatoryAttributeMissing
    | AttrStatus(fault: AttrFault, index: nat)

  datatype Option<+T> = None | Some(value: T)

  const TWO_TO_THE_32: nat := 0x1_0000_0000
  const TWO_TO_THE_64: nat := 0x1_0000_0000_0000_0000
}
