/**
  The OpenFlow 1.5 structures the forwarding graph builds, as abstract values.
  Their byte layout, length fields and transaction-id allocation belong to the
  wire library and are not modelled. Constants follow the OpenFlow Switch
  Specification 1.5.1 (section 7.3.4.2 for group commands, types and bucket ids).
 */
module OpenFlow15 {
  import opened Wrappers
  import Net

  type uint8 = x: int | 0 <= x < 0x100
  type uint16 = x: int | 0 <= x < 0x1_0000
  type uint32 = x: int | 0 <= x < 0x1_0000_0000
  type uint64 = x: int | 0 <= x < 0x1_0000_0000_0000_0000

  // enum ofp_group_mod_command
  const OFPGC_ADD: int := 0
  const OFPGC_MODIFY: int := 1
  const OFPGC_DELETE: int := 2
  const OFPGC_INSERT_BUCKET: int := 3

  // enum ofp_group_type
  const GT_ALL: uint8 := 0
  const GT_SELECT: uint8 := 1
  const GT_INDIRECT: uint8 := 2
  const GT_FF: uint8 := 3

  // enum ofp_group_bucket: the "after the last bucket" position
  const OFPG_BUCKET_LAST: uint32 := 0xffff_fffe

  // enum ofp_flow_mod_command
  const FC_ADD: int := 0

  /** A match field (oxm), as far as the group selection method uses them. */
  datatype MatchField =
    | Ipv4Src(addr: Net.IP, mask: Option<Net.IP>)
    | Ipv4Dst(addr: Net.IP, mask: Option<Net.IP>)
    | TcpSrc(port: uint16)
    | TcpDst(port: uint16)
    | IpProto(protocol: uint8)

  datatype Action =
    | ActionGroup(groupId: uint32)
    | ActionOutput(port: uint32)
    | ActionSetField(field: MatchField)

  /** The three instruction kinds carried by the library's `InstrActions` type. */
  datatype ActionsKind = ApplyActions | WriteActions | ClearActions

  datatype Instruction =
    | InstrActions(kind: ActionsKind, actions: seq<Action>)
    | InstrGotoTable(tableId: uint8)
    | InstrWriteMetadata(metadata: uint64, mask: uint64)

  datatype BucketProperty =
    | PropWeight(weight: uint16)
    | PropWatchPort(port: uint32)
    | PropWatchGroup(groupId: uint32)

  /** ofp_bucket */
  datatype Bucket = Bucket(bucketId: uint32, properties: seq<BucketProperty>, actions: seq<Action>)

  /** A group property; the selection method is the one this library builds. */
  datatype GroupProperty =
    | SelectionMethod(methodName: string, param: uint64, fields: seq<MatchField>)
    | OtherGroupProperty(propertyType: uint16)

  /**
    ofp_group_mod. `commandBucketId` is None where the message keeps whatever
    default the library's constructor gave it; a type nobody sets is
    DEFAULT_GROUP_TYPE.
   */
  datatype GroupMod = GroupMod(
    xid: uint32,
    groupId: uint32,
    command: uint16,
    groupType: uint8,
    commandBucketId: Option<uint32>,
    properties: seq<GroupProperty>,
    buckets: seq<Bucket>)

  /** Transaction id of a message whose id the library has not allocated in this model. */
  const UNALLOCATED_XID: uint32 := 0

  /** The group type of a GroupMod whose type is never set: the zero value of a uint8, GT_ALL. */
  const DEFAULT_GROUP_TYPE: uint8 := GT_ALL
}
