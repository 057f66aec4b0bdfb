/** Packing of object ids into 64-bit words, and the translation of local port numbers. */
module ObjectId {
  import opened SaiTypes

  type Word = bv64

  const OBJ_TYPE_MASK: Word := 0x0FFF_0000_0000_0000

  const NPU_OBJ_ID_MASK: Word := 0x0000_FFFF_FFFF_FFFF

  const PORT_NUMBER_MASK: Word := 0x0000_FFFF_FFFF

  const FABRIC_ID_MASK: Word := 0x00FF_0000_0000

  const PORT_TYPE_MASK: Word := 0x0F00_0000_0000

  const UINT32: Word := 0x1_0000_0000

  /** The enumeration values of the switch abstraction headers, which are not part of this model. */
  datatype Codes = Codes(portObject: Word, maxObject: Word, logical: Word, cpu: Word) {
    predicate Valid() {
      0 < portObject < maxObject <= 0x1000 && logical < 16 && cpu < 16 && logical != cpu
    }
  }

  function UoidCreate(objType: Word, id: Word): Word {
    (id & NPU_OBJ_ID_MASK) | ((objType << 48) & OBJ_TYPE_MASK)
  }

  function NpuObjId(uoid: Word): Word {
    uoid & NPU_OBJ_ID_MASK
  }

  function TypeBits(uoid: Word): Word {
    (uoid & OBJ_TYPE_MASK) >> 48
  }

  predicate IsObjTypeValid(codes: Codes, objType: Word) {
    codes.portObject <= objType < codes.maxObject
  }

  /** The type field, or 0 (the null type) when it is not a valid object type. */
  function ObjType(codes: Codes, uoid: Word): Word {
    if IsObjTypeValid(codes, TypeBits(uoid)) then TypeBits(uoid) else 0
  }

  function PortIdCreate(codes: Codes, portType: Word, fabric: Word, number: Word): Word {
    UoidCreate(codes.portObject,
               (number & PORT_NUMBER_MASK)
               | ((fabric << 32) & FABRIC_ID_MASK)
               | ((portType << 40) & PORT_TYPE_MASK))
  }

  function PortNumber(port: Word): Word {
    NpuObjId(port) & PORT_NUMBER_MASK
  }

  function PortType(port: Word): Word {
    (NpuObjId(port) & PORT_TYPE_MASK) >> 40
  }

  /** The getter named after the fabric id reads the bits of the port type. */
  function PortFabricIdGet(port: Word): Word {
    (NpuObjId(port) & PORT_TYPE_MASK) >> 40
  }

  // ---------------------------------------------------------------- fields of any words

  lemma NpuField(objType: Word, id: Word)
    ensures NpuObjId(UoidCreate(objType, id)) == id & NPU_OBJ_ID_MASK
  {
  }

  lemma TypeField(objType: Word, id: Word)
    ensures TypeBits(UoidCreate(objType, id)) == objType & 0xFFF
  {
  }

  lemma Rebuild(uoid: Word)
    ensures UoidCreate(TypeBits(uoid), NpuObjId(uoid)) == uoid & 0x0FFF_FFFF_FFFF_FFFF
  {
  }

  lemma NumberField(codes: Codes, t: Word, f: Word, n: Word)
    ensures PortNumber(PortIdCreate(codes, t, f, n)) == n & PORT_NUMBER_MASK
  {
  }

  lemma PortTypeField(codes: Codes, t: Word, f: Word, n: Word)
    ensures PortType(PortIdCreate(codes, t, f, n)) == t & 0xF
  {
  }

  /** The bits where the fabric id is kept, which no getter reads. */
  function FabricField(port: Word): Word {
    (NpuObjId(port) & FABRIC_ID_MASK) >> 32
  }

  lemma FabricBits(codes: Codes, t: Word, f: Word, n: Word)
    ensures FabricField(PortIdCreate(codes, t, f, n)) == f & 0xFF
  {
  }

  lemma OnlyKeptBits(codes: Codes, t: Word, f: Word, n: Word)
    ensures PortIdCreate(codes, t, f, n) == PortIdCreate(codes, t & 0xF, f & 0xFF, n & PORT_NUMBER_MASK)
  {
  }

  lemma InRange(t: Word, f: Word, n: Word, o: Word, id: Word)
    ensures t < 16 ==> t & 0xF == t
    ensures f < 256 ==> f & 0xFF == f
    ensures n < UINT32 ==> n & PORT_NUMBER_MASK == n
    ensures o < 0x1000 ==> o & 0xFFF == o
    ensures id <= NPU_OBJ_ID_MASK ==> id & NPU_OBJ_ID_MASK == id
  {
  }

  // ---------------------------------------------------------------- round trips

  /** The id of an object id reads back. */
  lemma UoidReadsBack(objType: Word, id: Word)
    requires id <= NPU_OBJ_ID_MASK
    ensures NpuObjId(UoidCreate(objType, id)) == id
  {
    NpuField(objType, id);
  }

  lemma TypeBitsReadBack(objType: Word, id: Word)
    requires objType < 0x1000
    ensures TypeBits(UoidCreate(objType, id)) == objType
  {
    TypeField(objType, id);
    InRange(0, 0, 0, objType, 0);
  }

  /** The valid types are those from the port type up to, and not including, the end mark. */
  lemma ValidTypes(codes: Codes, objType: Word)
    ensures objType < codes.portObject ==> !IsObjTypeValid(codes, objType)
    ensures objType >= codes.maxObject ==> !IsObjTypeValid(codes, objType)
    ensures objType >= codes.portObject ==> objType < codes.maxObject ==> IsObjTypeValid(codes, objType)
  {
  }

  /** The object type reads back if it is valid, whatever the id; any other type of 12 bits reads
      back as the null type. */
  lemma ObjTypeReadsBack(codes: Codes, objType: Word, id: Word)
    requires objType < 0x1000
    ensures ObjType(codes, UoidCreate(objType, id))
         == if IsObjTypeValid(codes, objType) then objType else 0
  {
    TypeBitsReadBack(objType, id);
  }

  /** An object id is rebuilt from its two fields exactly when its reserved bits are clear. */
  lemma UoidRebuilds(uoid: Word)
    ensures UoidCreate(TypeBits(uoid), NpuObjId(uoid)) == uoid <==> uoid < 0x1000_0000_0000_0000
  {
    Rebuild(uoid);
  }

  /** In-range number and type of a port id read back exactly. */
  lemma PortIdReadsBack(codes: Codes, portType: Word, fabric: Word, number: Word)
    requires portType < 16 && number < UINT32
    ensures PortNumber(PortIdCreate(codes, portType, fabric, number)) == number
    ensures PortType(PortIdCreate(codes, portType, fabric, number)) == portType
  {
    NumberField(codes, portType, fabric, number);
    PortTypeField(codes, portType, fabric, number);
    InRange(portType, 0, number, 0, 0);
  }

  /** The fabric getter gives the fabric id back only when that happens to equal the port type, as
      far as its 4 bits go. */
  lemma FabricReadsBackIffType(codes: Codes, portType: Word, fabric: Word, number: Word)
    ensures PortFabricIdGet(PortIdCreate(codes, portType, fabric, number)) == fabric <==> fabric == portType & 0xF
  {
    PortTypeField(codes, portType, fabric, number);
  }

  /** Fabric 0 of a port of type 1 is read as fabric 1. */
  lemma FabricMisread(codes: Codes, number: Word)
    ensures PortFabricIdGet(PortIdCreate(codes, 1, 0, number)) == 1
  {
    PortTypeField(codes, 1, 0, number);
  }

  lemma CollisionFields(codes: Codes, t: Word, f: Word, n: Word)
    ensures var port := PortIdCreate(codes, t, f, n);
            PortType(port) == t & 0xF && FabricField(port) == f & 0xFF && PortNumber(port) == n & PORT_NUMBER_MASK
  {
    PortTypeField(codes, t, f, n);
    FabricBits(codes, t, f, n);
    NumberField(codes, t, f, n);
  }

  /** Two port ids are equal exactly when their numbers are and their types and fabrics agree on
      the 4 and 8 bits that are kept. */
  lemma PortIdCollision(codes: Codes, t1: Word, f1: Word, n1: Word, t2: Word, f2: Word, n2: Word)
    requires n1 < UINT32 && n2 < UINT32
    ensures PortIdCreate(codes, t1, f1, n1) == PortIdCreate(codes, t2, f2, n2)
       <==> t1 & 0xF == t2 & 0xF && f1 & 0xFF == f2 & 0xFF && n1 == n2
  {
    InRange(0, 0, n1, 0, 0);
    InRange(0, 0, n2, 0, 0);
    if PortIdCreate(codes, t1, f1, n1) == PortIdCreate(codes, t2, f2, n2) {
      CollisionFields(codes, t1, f1, n1);
      CollisionFields(codes, t2, f2, n2);
    } else if t1 & 0xF == t2 & 0xF && f1 & 0xFF == f2 & 0xFF && n1 == n2 {
      OnlyKeptBits(codes, t1, f1, n1);
      OnlyKeptBits(codes, t2, f2, n2);
      assert false;
    }
  }

  /** On in-range fields the packing is injective. */
  lemma PortIdInjective(codes: Codes, t1: Word, f1: Word, n1: Word, t2: Word, f2: Word, n2: Word)
    requires t1 < 16 && t2 < 16 && f1 < 256 && f2 < 256 && n1 < UINT32 && n2 < UINT32
    requires PortIdCreate(codes, t1, f1, n1) == PortIdCreate(codes, t2, f2, n2)
    ensures t1 == t2 && f1 == f2 && n1 == n2
  {
    CollisionFields(codes, t1, f1, n1);
    CollisionFields(codes, t2, f2, n2);
    InRange(t1, f1, n1, 0, 0);
    InRange(t2, f2, n2, 0, 0);
  }

  /** A port id carries the object type of ports. */
  lemma PortIdIsPort(codes: Codes, portType: Word, fabric: Word, number: Word)
    requires codes.Valid()
    ensures ObjType(codes, PortIdCreate(codes, portType, fabric, number)) == codes.portObject
  {
    ObjTypeReadsBack(codes, codes.portObject,
                     (number & PORT_NUMBER_MASK) | ((fabric << 32) & FABRIC_ID_MASK) | ((portType << 40) & PORT_TYPE_MASK));
  }

  lemma SumOfFields(objType: Word, id: Word)
    requires objType < 0x1000 && id < 0x1_0000_0000_0000
    ensures (id & NPU_OBJ_ID_MASK) | ((objType << 48) & OBJ_TYPE_MASK) == (objType << 48) + id
    ensures objType << 48 == 0x1_0000_0000_0000 * objType
  {
  }

  /** The layout of an object id: the type above 48 bits of id. */
  lemma UoidLayout(objType: Word, id: Word)
    requires objType < 0x1000 && id < 0x1_0000_0000_0000
    ensures UoidCreate(objType, id) == 0x1_0000_0000_0000 * objType + id
  {
    SumOfFields(objType, id);
  }

  /** The layout of a port id: the object type from bit 48 on, the port type from bit 40 on, the
      fabric from bit 32 on, and the number below. */
  lemma PortIdLayout(codes: Codes, t: Word, f: Word, n: Word)
    requires codes.portObject < 0x1000 && t < 16 && f < 256 && n < UINT32
    ensures PortIdCreate(codes, t, f, n)
         == (codes.portObject << 48) + (t << 40) + (f << 32) + n
  {
  }

  // ---------------------------------------------------------------- local port translation

  /** The parts of the switch the translation reads; `table` gives each cached port its local port
      number. */
  datatype Switch = Switch(codes: Codes, switchId: Word, cpuPort: Word, table: map<Word, Word>)

  function CpuPortId(sw: Switch): Word {
    PortIdCreate(sw.codes, sw.codes.cpu, sw.switchId, sw.cpuPort)
  }

  function LocalToSai(sw: Switch, localPort: Word): Word {
    if localPort == sw.cpuPort then CpuPortId(sw)
    else PortIdCreate(sw.codes, sw.codes.logical, sw.switchId, localPort)
  }

  function SaiToLocal(sw: Switch, port: Word): (Status, Word) {
    if PortType(port) != sw.codes.cpu && PortType(port) != sw.codes.logical then (InvalidObjectId, 0)
    else if port == CpuPortId(sw) then (Success, sw.cpuPort)
    else if port in sw.table then (Success, sw.table[port])
    else (InvalidObjectId, 0)
  }

  /** Every cached port is a logical port of this switch, keyed by the id of its local number. */
  ghost predicate Consistent(sw: Switch) {
    && sw.codes.Valid() && sw.cpuPort < UINT32
    && forall port | port in sw.table ::
         sw.table[port] < UINT32
         && port == PortIdCreate(sw.codes, sw.codes.logical, sw.switchId, sw.table[port])
  }

  lemma LogicalIsNotCpu(sw: Switch, localPort: Word)
    requires sw.codes.Valid() && localPort < UINT32 && sw.cpuPort < UINT32
    ensures PortType(PortIdCreate(sw.codes, sw.codes.logical, sw.switchId, localPort)) == sw.codes.logical
    ensures PortType(CpuPortId(sw)) == sw.codes.cpu
    ensures PortIdCreate(sw.codes, sw.codes.logical, sw.switchId, localPort) != CpuPortId(sw)
  {
    PortIdReadsBack(sw.codes, sw.codes.logical, sw.switchId, localPort);
    PortIdReadsBack(sw.codes, sw.codes.cpu, sw.switchId, sw.cpuPort);
  }

  /** A cached port survives the translation to its local number and back exactly when that number
      is not the CPU port's. */
  lemma PortRoundTrip(sw: Switch, port: Word)
    requires Consistent(sw) && port in sw.table
    ensures SaiToLocal(sw, port) == (Success, sw.table[port])
    ensures LocalToSai(sw, SaiToLocal(sw, port).1) == port <==> sw.table[port] != sw.cpuPort
  {
    LogicalIsNotCpu(sw, sw.table[port]);
  }

  /** A local number survives the translation to a port id and back exactly when it is the CPU
      port's or that of a cached port. */
  lemma LocalRoundTrip(sw: Switch, localPort: Word)
    requires Consistent(sw) && localPort < UINT32
    ensures SaiToLocal(sw, LocalToSai(sw, localPort)) == (Success, localPort)
       <==> localPort == sw.cpuPort || exists port :: port in sw.table && sw.table[port] == localPort
  {
    LogicalIsNotCpu(sw, localPort);
    var port := PortIdCreate(sw.codes, sw.codes.logical, sw.switchId, localPort);
    if localPort != sw.cpuPort && port in sw.table {
      PortIdCollision(sw.codes, sw.codes.logical, sw.switchId, localPort,
                      sw.codes.logical, sw.switchId, sw.table[port]);
    }
  }

  /** Which port ids are translated: the CPU port's and those of cached ports, to their numbers. */
  lemma SaiToLocalExact(sw: Switch, port: Word)
    requires Consistent(sw)
    ensures SaiToLocal(sw, port).0 == Success <==> port == CpuPortId(sw) || port in sw.table
    ensures SaiToLocal(sw, port).0 == Success || SaiToLocal(sw, port).0 == InvalidObjectId
    ensures SaiToLocal(sw, port).0 == Success ==> SaiToLocal(sw, port).1 == PortNumber(port)
  {
    PortIdReadsBack(sw.codes, sw.codes.cpu, sw.switchId, sw.cpuPort);
    if port in sw.table {
      PortIdReadsBack(sw.codes, sw.codes.logical, sw.switchId, sw.table[port]);
    }
  }

  /** What a local number is translated to, cached or not: a port id of this switch with that number,
      of the CPU type for the CPU port and of the logical type for any other. */
  lemma LocalToSaiFields(sw: Switch, localPort: Word)
    requires sw.codes.Valid() && localPort < UINT32
    ensures var port := LocalToSai(sw, localPort);
            && PortNumber(port) == localPort && FabricField(port) == sw.switchId & 0xFF
            && PortType(port) == (if localPort == sw.cpuPort then sw.codes.cpu else sw.codes.logical)
            && ObjType(sw.codes, port) == sw.codes.portObject
  {
    var t := if localPort == sw.cpuPort then sw.codes.cpu else sw.codes.logical;
    PortIdReadsBack(sw.codes, t, sw.switchId, localPort);
    FabricBits(sw.codes, t, sw.switchId, localPort);
    PortIdIsPort(sw.codes, t, sw.switchId, localPort);
  }
}
