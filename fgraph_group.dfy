/**
  A group of the forwarding graph: its ordered buckets and properties, whether
  the switch has it, and the GroupMod messages that keep the switch in step.
  Mutating an installed group re-sends it as MODIFY; a failed send leaves the
  installed flag as it was, so a retry picks the right command.
 */
module FgraphGroup {
  import opened Wrappers
  import OF = OpenFlow15
  import opened GroupMods
  import opened FgraphTable
  import opened FgraphBucket

  /** A compiled GroupMod handed to a bundle transaction. */
  class GroupBundleMessage {
    var message: OF.GroupMod

    constructor (message: OF.GroupMod)
      ensures this.message == message
    {
      this.message := message;
    }

    /** Gives the message the transaction id the bundle coordinator chose. */
    method ResetXid(xid: OF.uint32) returns (m: OF.GroupMod)
      modifies this
      ensures message == old(message).(xid := xid)
      ensures m == message && GetXid() == xid && GetMessage() == m
    {
      message := message.(xid := xid);
      m := message;
    }

    function GetXid(): OF.uint32
      reads this
    {
      message.xid
    }

    function GetMessage(): OF.GroupMod
      reads this
    {
      message
    }
  }

  class Group {
    const sw: OFSwitch
    const id: OF.uint32
    const groupType: GroupType
    var buckets: seq<OF.Bucket>
    var properties: seq<OF.GroupProperty>
    var isInstalled: bool

    constructor NewGroup(groupId: OF.uint32, groupType: GroupType, sw: OFSwitch)
      ensures id == groupId && this.groupType == groupType && this.sw == sw
      ensures buckets == [] && properties == [] && !isInstalled
    {
      id := groupId;
      this.groupType := groupType;
      this.sw := sw;
      buckets := [];
      properties := [];
      isInstalled := false;
    }

    function Type(): string {
      "group"
    }

    function GetActionMessage(): OF.Action {
      OF.ActionGroup(id)
    }

    /** A flow leads to a group by applying the group action. */
    function GetFlowInstr(): OF.Instruction {
      OF.InstrActions(OF.ApplyActions, [GetActionMessage()])
    }

    /** The message for the group as it stands, built one property and one bucket at a time. */
    method GetGroupModMessage(command: int) returns (m: OF.GroupMod)
      ensures m == GroupModFor(id, groupType, properties, buckets, command)
    {
      m := OF.GroupMod(OF.UNALLOCATED_XID, id, WrapUint16(command), TypeCode(groupType), None, [], []);
      if command == OF.OFPGC_DELETE {
        return;
      }
      if command == OF.OFPGC_ADD || command == OF.OFPGC_MODIFY {
        var i := 0;
        while i < |properties|
          invariant 0 <= i <= |properties|
          invariant m == OF.GroupMod(OF.UNALLOCATED_XID, id, WrapUint16(command), TypeCode(groupType), None, properties[..i], [])
        {
          m := m.(properties := m.properties + [properties[i]]);
          i := i + 1;
        }
      }
      var props := m.properties;
      var j := 0;
      while j < |buckets|
        invariant 0 <= j <= |buckets|
        invariant m == OF.GroupMod(OF.UNALLOCATED_XID, id, WrapUint16(command), TypeCode(groupType), None, props, buckets[..j])
      {
        m := m.(buckets := m.buckets + [buckets[j]]);
        j := j + 1;
      }
      if command == OF.OFPGC_INSERT_BUCKET {
        m := m.(commandBucketId := Some(OF.OFPG_BUCKET_LAST));
      }
    }

    /** A bundle entry for `command`; nothing is sent and no field changes. */
    method GetBundleMessage(command: int) returns (b: GroupBundleMessage)
      ensures fresh(b)
      ensures b.message == GroupModFor(id, groupType, properties, buckets, command)
    {
      var groupMod := GetGroupModMessage(command);
      b := new GroupBundleMessage(groupMod);
    }

    /** Sends ADD the first time and MODIFY once installed; marks the group installed if the send succeeds. */
    method Install() returns (r: Outcome<Error>)
      modifies this`isInstalled, sw`sent
      ensures sw.sent == old(sw.sent) +
        [GroupModFor(id, groupType, properties, buckets, if old(isInstalled) then OF.OFPGC_MODIFY else OF.OFPGC_ADD)]
      ensures r == old(sw.SendOutcome())
      ensures isInstalled == (old(isInstalled) || r.Pass?)
    {
      var command := OF.OFPGC_ADD;
      if isInstalled {
        command := OF.OFPGC_MODIFY;
      }
      var groupMod := GetGroupModMessage(command);
      r := sw.Send(groupMod);
      if r.Fail? {
        return;
      }
      isInstalled := true;
    }

    /** Appends buckets; an installed group is re-sent as MODIFY and the send's error is dropped. */
    method AddBuckets(bkts: seq<OF.Bucket>)
      modifies this`buckets, this`isInstalled, sw`sent
      ensures buckets == old(buckets) + bkts
      ensures isInstalled == old(isInstalled)
      ensures sw.sent == old(sw.sent) +
        (if old(isInstalled) then [GroupModFor(id, groupType, properties, buckets, OF.OFPGC_MODIFY)] else [])
    {
      buckets := buckets + bkts;
      if isInstalled {
        var _ := Install();
      }
    }

    /** Replaces the bucket list; an installed group is re-sent as MODIFY. */
    method ResetBuckets(bkts: seq<OF.Bucket>)
      modifies this`buckets, this`isInstalled, sw`sent
      ensures buckets == bkts
      ensures isInstalled == old(isInstalled)
      ensures sw.sent == old(sw.sent) +
        (if old(isInstalled) then [GroupModFor(id, groupType, properties, bkts, OF.OFPGC_MODIFY)] else [])
    {
      buckets := bkts;
      if isInstalled {
        var _ := Install();
      }
    }

    /** Appends a property; an installed group is re-sent as MODIFY. */
    method AddProperty(prop: OF.GroupProperty)
      modifies this`properties, this`isInstalled, sw`sent
      ensures properties == old(properties) + [prop]
      ensures isInstalled == old(isInstalled)
      ensures sw.sent == old(sw.sent) +
        (if old(isInstalled) then [GroupModFor(id, groupType, properties, buckets, OF.OFPGC_MODIFY)] else [])
    {
      properties := properties + [prop];
      if isInstalled {
        var _ := Install();
      }
    }

    /**
      Removes the group from the switch if it is there, then from the switch's
      group cache; a failed DELETE leaves both the group and the cache alone.
     */
    method Delete() returns (r: Outcome<Error>)
      modifies this`isInstalled, sw`sent, sw`groupCache, sw`cacheDeletes
      ensures !old(isInstalled) ==>
        && sw.sent == old(sw.sent) && !isInstalled
        && sw.groupCache == old(sw.groupCache) - {id} && sw.cacheDeletes == old(sw.cacheDeletes) + [id]
        && r == sw.DeleteGroupOutcome()
      ensures old(isInstalled) && old(sw.SendOutcome()).Fail? ==>
        && sw.sent == old(sw.sent) + [DeleteMod(id)] && isInstalled
        && sw.groupCache == old(sw.groupCache) && sw.cacheDeletes == old(sw.cacheDeletes)
        && r == old(sw.SendOutcome())
      ensures old(isInstalled) && old(sw.SendOutcome()).Pass? ==>
        && sw.sent == old(sw.sent) + [DeleteMod(id)] && !isInstalled
        && sw.groupCache == old(sw.groupCache) - {id} && sw.cacheDeletes == old(sw.cacheDeletes) + [id]
        && r == sw.DeleteGroupOutcome()
    {
      if isInstalled {
        var groupMod := OF.GroupMod(OF.UNALLOCATED_XID, id, OF.OFPGC_DELETE, OF.DEFAULT_GROUP_TYPE, None, [], []);
        var err := sw.Send(groupMod);
        if err.Fail? {
          return err;
        }
        isInstalled := false;
      }
      r := sw.DeleteGroup(id);
    }

    /**
      Adds a selection-method property hashing on the fields `fields` name,
      in argument order; unknown codes are skipped.
     */
    method SetSelectionMethod(hashName: string, param: OF.uint64, fields: seq<int>)
      modifies this`properties, this`isInstalled, sw`sent
      ensures properties == old(properties) + [OF.SelectionMethod(hashName, param, SelectionMatches(fields))]
      ensures isInstalled == old(isInstalled)
      ensures sw.sent == old(sw.sent) +
        (if old(isInstalled) then [GroupModFor(id, groupType, properties, buckets, OF.OFPGC_MODIFY)] else [])
    {
      var matches: seq<OF.MatchField> := [];
      var i := 0;
      while i < |fields|
        invariant 0 <= i <= |fields|
        invariant matches == SelectionMatches(fields[..i])
      {
        assert fields[..i + 1][..i] == fields[..i];
        var field := HashField(fields[i]);
        if field.Some? {
          matches := matches + [field.value];
        }
        i := i + 1;
      }
      assert fields[..|fields|] == fields;
      var property := OF.SelectionMethod(hashName, param, matches);
      AddProperty(property);
    }

    /**
      Fills the bucket's actions from its flow, compiled against the switch's
      default table by `generate` (the flow compiler), and appends the bucket.
      Only actions instructions are accepted; the walk stops at the first other
      one with an error, keeping the actions appended before it.
     */
    method AddBucket(bkt: Bucket, generate: (Flow, int) -> Result<seq<OF.Instruction>, Error>) returns (r: Outcome<Error>)
      modifies bkt`flow, bkt`actions, this`buckets, this`isInstalled, sw`sent
      ensures bkt.flow == old(bkt.flow).(table := sw.defaultTable)
      ensures isInstalled == old(isInstalled)
      ensures generate(bkt.flow, OF.FC_ADD).Failure? ==>
        && r == Fail(generate(bkt.flow, OF.FC_ADD).error)
        && bkt.actions == old(bkt.actions) && buckets == old(buckets) && sw.sent == old(sw.sent)
      ensures generate(bkt.flow, OF.FC_ADD).Success? ==>
        var scan := ScanInstructions(generate(bkt.flow, OF.FC_ADD).value);
        && bkt.actions == old(bkt.actions) + scan.actions
        && (scan.bad.Some? ==>
             r == Fail(WrongBucketInstruction(scan.bad.value)) && buckets == old(buckets) && sw.sent == old(sw.sent))
        && (scan.bad.None? ==>
             && r == Pass && buckets == old(buckets) + [bkt.Record()]
             && sw.sent == old(sw.sent) +
               (if old(isInstalled) then [GroupModFor(id, groupType, properties, buckets, OF.OFPGC_MODIFY)] else []))
    {
      bkt.flow := bkt.flow.(table := sw.DefaultTable());
      var compiled := generate(bkt.flow, OF.FC_ADD);
      if compiled.Failure? {
        return Fail(compiled.error);
      }
      var instrs := compiled.value;
      ghost var before := bkt.actions;
      var i := 0;
      while i < |instrs|
        invariant 0 <= i <= |instrs|
        invariant ScanInstructions(instrs[..i]).bad.None?
        invariant bkt.actions == before + ScanInstructions(instrs[..i]).actions
        modifies bkt`actions
      {
        var inst := instrs[i];
        assert instrs[..i + 1][..i] == instrs[..i];
        if !inst.InstrActions? {
          ScanStopped(instrs[..i + 1], instrs[i + 1..]);
          assert instrs[..i + 1] + instrs[i + 1..] == instrs;
          return Fail(WrongBucketInstruction(inst));
        }
        var acts := inst.actions;
        var j := 0;
        while j < |acts|
          invariant 0 <= j <= |acts|
          invariant bkt.actions == before + ScanInstructions(instrs[..i]).actions + acts[..j]
          modifies bkt`actions
        {
          bkt.actions := bkt.actions + [acts[j]];
          j := j + 1;
        }
        assert acts[..|acts|] == acts;
        i := i + 1;
      }
      assert instrs[..|instrs|] == instrs;
      AddBuckets([bkt.Record()]);
      return Pass;
    }
  }

  /**
    A group is a "group" element reached by applying its group action: an
    instruction a bucket accepts, unlike a table's.
   */
  lemma FlowInstrInBucket(g: Group, t: Table)
    ensures g.Type() == "group" && g.Type() != t.Type()
    ensures ScanInstructions([g.GetFlowInstr()]) == Scan([OF.ActionGroup(g.id)], None)
    ensures ScanInstructions([t.GetFlowInstr()]) == Scan([], Some(OF.InstrGotoTable(t.tableId)))
  {
  }

  /**
    A SELECT group installed and then given buckets twice: one ADD, then one
    MODIFY per call, the last carrying both calls' buckets in call order.
   */
  method InstallThenAddBucketsTwice(sw: OFSwitch, id: OF.uint32, b1: seq<OF.Bucket>, b2: seq<OF.Bucket>) returns (g: Group)
    requires sw.sendFault == None
    modifies sw`sent
    ensures fresh(g) && g.isInstalled && g.buckets == b1 + b2
    ensures sw.sent == old(sw.sent) + [
      GroupModFor(id, GroupSelect, [], [], OF.OFPGC_ADD),
      GroupModFor(id, GroupSelect, [], b1, OF.OFPGC_MODIFY),
      GroupModFor(id, GroupSelect, [], b1 + b2, OF.OFPGC_MODIFY)]
  {
    g := new Group.NewGroup(id, GroupSelect, sw);
    var _ := g.Install();
    g.AddBuckets(b1);
    g.AddBuckets(b2);
    assert [] + b1 == b1;
  }
}
