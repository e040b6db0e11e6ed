/**
  The pure side of a group: how its type maps onto the protocol's, what a
  GroupMod built for a given command carries, which match fields a selection
  method hashes on, and how a compiled flow's instructions become bucket actions.
 */
module GroupMods {
  import opened Wrappers
  import opened OpenFlow15

  datatype GroupType = GroupAll | GroupSelect | GroupIndirect | GroupFF

  /** The protocol group type a group of type `t` is announced with. */
  function TypeCode(t: GroupType): (code: uint8)
    ensures TypeOfCode(code) == Some(t)
  {
    match t
    case GroupAll => GT_ALL
    case GroupSelect => GT_SELECT
    case GroupIndirect => GT_INDIRECT
    case GroupFF => GT_FF
  }

  /** Reads a protocol group type back; None for codes no group type uses. */
  function TypeOfCode(code: uint8): Option<GroupType> {
    if code == GT_ALL then Some(GroupAll)
    else if code == GT_SELECT then Some(GroupSelect)
    else if code == GT_INDIRECT then Some(GroupIndirect)
    else if code == GT_FF then Some(GroupFF)
    else None
  }

  /** Distinct group types are announced with distinct protocol types. */
  lemma TypeCodeInjective(a: GroupType, b: GroupType)
    ensures TypeCode(a) == TypeCode(b) ==> a == b
  {
  }

  /** Go's `uint16(command)` conversion of an int. */
  function WrapUint16(x: int): (r: uint16)
    ensures (r - x) % 0x1_0000 == 0
  {
    x % 0x1_0000
  }

  predicate CarriesProperties(command: int) {
    command == OFPGC_ADD || command == OFPGC_MODIFY
  }

  predicate CarriesBuckets(command: int) {
    command != OFPGC_DELETE
  }

  /** The GroupMod a group with these fields builds for `command`. */
  function GroupModFor(id: uint32, t: GroupType, props: seq<GroupProperty>, bkts: seq<Bucket>, command: int): GroupMod {
    GroupMod(
      UNALLOCATED_XID,
      id,
      WrapUint16(command),
      TypeCode(t),
      if command == OFPGC_INSERT_BUCKET then Some(OFPG_BUCKET_LAST) else None,
      if CarriesProperties(command) then props else [],
      if CarriesBuckets(command) then bkts else [])
  }

  /** A DELETE message names the group and its type and carries nothing else. */
  lemma DeleteCarriesNoBody(id: uint32, t: GroupType, props: seq<GroupProperty>, bkts: seq<Bucket>)
    ensures var m := GroupModFor(id, t, props, bkts, OFPGC_DELETE);
      && m.groupId == id && m.command == OFPGC_DELETE && TypeOfCode(m.groupType) == Some(t)
      && m.properties == [] && m.buckets == [] && m.commandBucketId == None
  {
  }

  /** ADD and MODIFY carry every property and then every bucket, in list order. */
  lemma AddModifyCarryAll(id: uint32, t: GroupType, props: seq<GroupProperty>, bkts: seq<Bucket>, command: int)
    requires command == OFPGC_ADD || command == OFPGC_MODIFY
    ensures var m := GroupModFor(id, t, props, bkts, command);
      m.command == command && m.properties == props && m.buckets == bkts && m.commandBucketId == None
  {
  }

  /** Any other command but DELETE carries the buckets and no property. */
  lemma OtherCommandsCarryBucketsOnly(id: uint32, t: GroupType, props: seq<GroupProperty>, bkts: seq<Bucket>, command: int)
    requires command != OFPGC_ADD && command != OFPGC_MODIFY && command != OFPGC_DELETE
    ensures var m := GroupModFor(id, t, props, bkts, command);
      m.properties == [] && m.buckets == bkts
  {
  }

  /** Only INSERT_BUCKET asks for the buckets to go after the last one. */
  lemma LastSentinelOnlyForInsertBucket(id: uint32, t: GroupType, props: seq<GroupProperty>, bkts: seq<Bucket>, command: int)
    ensures GroupModFor(id, t, props, bkts, command).commandBucketId == Some(OFPG_BUCKET_LAST) <==> command == OFPGC_INSERT_BUCKET
    ensures command != OFPGC_INSERT_BUCKET ==> GroupModFor(id, t, props, bkts, command).commandBucketId == None
  {
  }

  /** The DELETE message Group.Delete builds by hand: its type is never set. */
  function DeleteMod(id: uint32): GroupMod {
    GroupMod(UNALLOCATED_XID, id, OFPGC_DELETE, DEFAULT_GROUP_TYPE, None, [], [])
  }

  /**
    The hand-built DELETE message is the builder's DELETE message with the
    default type in place of the group's; the two are the same message exactly
    for an ALL group.
   */
  lemma DeleteModAgreesWithBuilder(id: uint32, t: GroupType, props: seq<GroupProperty>, bkts: seq<Bucket>)
    ensures DeleteMod(id) == GroupModFor(id, t, props, bkts, OFPGC_DELETE).(groupType := DEFAULT_GROUP_TYPE)
    ensures DeleteMod(id) == GroupModFor(id, t, props, bkts, OFPGC_DELETE) <==> t == GroupAll
  {
  }

  // Symbolic hash inputs of a selection method.
  const GroupHashSrcIp: int := 0
  const GroupHashDstIp: int := 1
  const GroupHashSrcPort: int := 2
  const GroupHashDstPort: int := 3
  const GroupHashProtocol: int := 4

  /** The fully-wildcarded match a hash-input code stands for; None for unknown codes. */
  function HashField(code: int): Option<MatchField> {
    if code == GroupHashSrcIp then Some(Ipv4Src(Net.IPv4Bcast, None))
    else if code == GroupHashDstIp then Some(Ipv4Dst(Net.IPv4Bcast, None))
    else if code == GroupHashSrcPort then Some(TcpSrc(0xffff))
    else if code == GroupHashDstPort then Some(TcpDst(0xffff))
    else if code == GroupHashProtocol then Some(IpProto(0xff))
    else None
  }

  /** The match list a selection method over `codes` carries, built one code at a time. */
  function SelectionMatches(codes: seq<int>): seq<MatchField>
    decreases |codes|
  {
    if codes == [] then []
    else
      var init := SelectionMatches(codes[..|codes| - 1]);
      match HashField(codes[|codes| - 1])
      case None => init
      case Some(f) => init + [f]
  }

  /** The codes among `codes` that name a hash input, in order. */
  function RecognisedCodes(codes: seq<int>): (r: seq<int>)
    ensures forall k :: 0 <= k < |r| ==> HashField(r[k]).Some?
  {
    if codes == [] then []
    else if HashField(codes[0]).Some? then [codes[0]] + RecognisedCodes(codes[1..])
    else RecognisedCodes(codes[1..])
  }

  lemma {:induction false} RecognisedCodesAppend(codes: seq<int>, c: int)
    ensures RecognisedCodes(codes + [c]) == RecognisedCodes(codes) + (if HashField(c).Some? then [c] else [])
    decreases |codes|
  {
    if codes != [] {
      assert (codes + [c])[1..] == codes[1..] + [c];
      RecognisedCodesAppend(codes[1..], c);
    }
  }

  /**
    A selection method holds one match per recognised code, in argument order,
    each the field that code stands for; unknown codes leave no trace.
   */
  lemma {:induction false} SelectionMatchesFollowCodes(codes: seq<int>)
    ensures |SelectionMatches(codes)| == |RecognisedCodes(codes)|
    ensures forall k :: 0 <= k < |RecognisedCodes(codes)| ==>
      HashField(RecognisedCodes(codes)[k]) == Some(SelectionMatches(codes)[k])
    decreases |codes|
  {
    if codes != [] {
      var init, c := codes[..|codes| - 1], codes[|codes| - 1];
      assert codes == init + [c];
      SelectionMatchesFollowCodes(init);
      RecognisedCodesAppend(init, c);
    }
  }

  /** Hashing on source address and destination port yields exactly those two wildcard matches. */
  lemma SelectionOnSrcIpAndDstPort()
    ensures SelectionMatches([GroupHashSrcIp, GroupHashDstPort]) == [Ipv4Src(Net.IPv4Bcast, None), TcpDst(0xffff)]
  {
    var codes := [GroupHashSrcIp, GroupHashDstPort];
    assert codes[..1] == [GroupHashSrcIp];
    assert [GroupHashSrcIp][..0] == [];
    assert SelectionMatches([]) == [];
    assert SelectionMatches([GroupHashSrcIp]) == [Ipv4Src(Net.IPv4Bcast, None)];
  }

  /**
    What walking a compiled flow's instructions into a bucket yields: the actions
    appended so far, and the first instruction that is not an actions
    instruction, at which the walk stopped.
   */
  datatype Scan = Scan(actions: seq<Action>, bad: Option<Instruction>)

  function ScanInstructions(instrs: seq<Instruction>): Scan
    decreases |instrs|
  {
    if instrs == [] then Scan([], None)
    else
      var s := ScanInstructions(instrs[..|instrs| - 1]);
      var last := instrs[|instrs| - 1];
      if s.bad.Some? then s
      else if last.InstrActions? then Scan(s.actions + last.actions, None)
      else Scan(s.actions, Some(last))
  }

  /** Every action of every actions instruction, in order; other instructions contribute none. */
  function AllActions(instrs: seq<Instruction>): seq<Action> {
    if instrs == [] then []
    else (if instrs[0].InstrActions? then instrs[0].actions else []) + AllActions(instrs[1..])
  }

  lemma {:induction false} AllActionsAppend(instrs: seq<Instruction>, i: Instruction)
    ensures AllActions(instrs + [i]) == AllActions(instrs) + (if i.InstrActions? then i.actions else [])
    decreases |instrs|
  {
    if instrs != [] {
      assert (instrs + [i])[1..] == instrs[1..] + [i];
      AllActionsAppend(instrs[1..], i);
    }
  }

  /** Once the walk has stopped, further instructions change nothing. */
  lemma {:induction false} ScanStopped(instrs: seq<Instruction>, more: seq<Instruction>)
    requires ScanInstructions(instrs).bad.Some?
    ensures ScanInstructions(instrs + more) == ScanInstructions(instrs)
    decreases |more|
  {
    if more == [] {
      assert instrs + more == instrs;
    } else {
      var init := more[..|more| - 1];
      assert (instrs + more)[..|instrs + more| - 1] == instrs + init;
      ScanStopped(instrs, init);
      assert ScanInstructions(instrs + init).bad.Some?;
    }
  }

  /**
    The walk accepts a list exactly when every instruction is an actions
    instruction, and then it yields all their actions in order.
   */
  lemma {:induction false} ScanAcceptsOnlyActions(instrs: seq<Instruction>)
    ensures ScanInstructions(instrs).bad.None? <==> forall k :: 0 <= k < |instrs| ==> instrs[k].InstrActions?
    ensures ScanInstructions(instrs).bad.None? ==> ScanInstructions(instrs).actions == AllActions(instrs)
    decreases |instrs|
  {
    if instrs != [] {
      var init, last := instrs[..|instrs| - 1], instrs[|instrs| - 1];
      assert instrs == init + [last];
      ScanAcceptsOnlyActions(init);
      AllActionsAppend(init, last);
      if ScanInstructions(init).bad.Some? {
        var k :| 0 <= k < |init| && !init[k].InstrActions?;
        assert instrs[k] == init[k];
      }
    }
  }

  /**
    The walk stops at the first instruction that is not an actions instruction,
    reports it, and keeps the actions of the instructions before it.
   */
  lemma {:induction false} ScanStopsAtFirstBad(instrs: seq<Instruction>, i: nat)
    requires i < |instrs| && !instrs[i].InstrActions?
    requires forall k :: 0 <= k < i ==> instrs[k].InstrActions?
    ensures ScanInstructions(instrs) == Scan(AllActions(instrs[..i]), Some(instrs[i]))
  {
    var before := instrs[..i];
    assert instrs[..i + 1] == before + [instrs[i]];
    assert before + [instrs[i]] + instrs[i + 1..] == instrs;
    assert forall k :: 0 <= k < |before| ==> before[k].InstrActions?;
    ScanAcceptsOnlyActions(before);
    assert ScanInstructions(before + [instrs[i]]) == Scan(AllActions(before), Some(instrs[i]));
    ScanStopped(before + [instrs[i]], instrs[i + 1..]);
  }
}
