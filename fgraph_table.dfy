/**
  Tables of the forwarding graph, the flows they hold, and the switch
  connection they and the groups talk to. The switch is a collaborator whose
  transport is not modelled: it records every message handed to `Send`, fails
  a send while `sendFault` is set, and keeps the cache of group ids that
  `DeleteGroup` prunes.
 */
module FgraphTable {
  import opened Wrappers
  import Net
  import OF = OpenFlow15

  datatype Error =
    | DuplicateFlow(key: string)
    | WrongBucketInstruction(instr: OF.Instruction)
    | Transport(reason: string)
    | GroupCache(reason: string)
    | FlowCompile(reason: string)

  class OFSwitch {
    /** Every message handed to Send, in order, whether or not it got through. */
    var sent: seq<OF.GroupMod>
    /** When set, Send fails with this reason. */
    var sendFault: Option<string>
    /** The connection's bookkeeping of known group ids. */
    var groupCache: set<OF.uint32>
    /** The ids DeleteGroup was called with, in order. */
    var cacheDeletes: seq<OF.uint32>
    /** When set, DeleteGroup reports this reason. */
    var cacheFault: Option<string>
    var defaultTable: Table?

    function SendOutcome(): Outcome<Error>
      reads this
    {
      if sendFault.Some? then Fail(Transport(sendFault.value)) else Pass
    }

    method Send(m: OF.GroupMod) returns (r: Outcome<Error>)
      modifies this`sent
      ensures sent == old(sent) + [m]
      ensures r == old(SendOutcome())
    {
      r := SendOutcome();
      sent := sent + [m];
    }

    function DeleteGroupOutcome(): Outcome<Error>
      reads this
    {
      if cacheFault.Some? then Fail(GroupCache(cacheFault.value)) else Pass
    }

    method DeleteGroup(id: OF.uint32) returns (r: Outcome<Error>)
      modifies this`groupCache, this`cacheDeletes
      ensures groupCache == old(groupCache) - {id}
      ensures cacheDeletes == old(cacheDeletes) + [id]
      ensures r == DeleteGroupOutcome()
    {
      groupCache := groupCache - {id};
      cacheDeletes := cacheDeletes + [id];
      r := DeleteGroupOutcome();
    }

    function DefaultTable(): Table?
      reads this
    {
      defaultTable
    }
  }

  /** A flow's match specification, abstracted to a priority and its match fields. */
  datatype FlowMatch = FlowMatch(priority: OF.uint16, fields: seq<OF.MatchField>)

  /** A flow action the bucket setters record: setting an IP field of the packet. */
  datatype FlowAction = IPFieldAction(field: string, ip: Option<Net.IP>)

  /** A graph element a flow can lead to; only the output element is used here. */
  datatype GraphElem = OutputElem(outputType: string, portNo: OF.uint32)

  datatype Flow = Flow(
    table: Table?,
    flowMatch: FlowMatch,
    isInstalled: bool,
    flowActions: seq<FlowAction>,
    nextElem: Option<GraphElem>)

  /** The zero Flow a freshly made bucket embeds. */
  const ZeroFlow: Flow := Flow(null, FlowMatch(0, []), false, [], None)

  class Table {
    const sw: OFSwitch
    const tableId: OF.uint8
    /** The flow-identity key of a match (any deterministic function). */
    const flowKey: FlowMatch -> string
    /** The flow database; None is a map that was never made. */
    var flowDb: Option<map<string, Flow>>

    /** Every stored flow belongs to this table and sits under its own key. */
    ghost predicate Valid()
      reads this
    {
      flowDb.Some? ==>
        forall k :: k in flowDb.value ==> flowDb.value[k].table == this && flowKey(flowDb.value[k].flowMatch) == k
    }

    constructor NewTable(tableId: OF.uint8, sw: OFSwitch, flowKey: FlowMatch -> string)
      ensures this.tableId == tableId && this.sw == sw && this.flowKey == flowKey
      ensures flowDb == None
      ensures Valid()
    {
      this.sw := sw;
      this.tableId := tableId;
      this.flowKey := flowKey;
      flowDb := None;
    }

    function Type(): string {
      "table"
    }

    /** A flow leads to a table by a goto-table instruction. */
    function GetFlowInstr(): OF.Instruction {
      OF.InstrGotoTable(tableId)
    }

    /** A table is a "table" element reached by goto-table, never by an actions instruction. */
    lemma TableElement()
      ensures Type() == "table"
      ensures GetFlowInstr() == OF.InstrGotoTable(tableId) && !GetFlowInstr().InstrActions?
    {
    }

    /**
      Creates a flow for `m` and stores it under its key, unless a flow with
      that key is already there.
     */
    method NewFlow(m: FlowMatch) returns (r: Result<Flow, Error>)
      requires Valid() && flowDb.Some?
      modifies this`flowDb
      ensures Valid() && flowDb.Some?
      ensures flowKey(m) in old(flowDb.value) ==>
        r == Failure(DuplicateFlow(flowKey(m))) && flowDb == old(flowDb)
      ensures flowKey(m) !in old(flowDb.value) ==>
        && r == Success(Flow(this, m, false, [], None))
        && flowDb.value == old(flowDb.value)[flowKey(m) := r.value]
    {
      var flow := Flow(this, m, false, [], None);
      var key := flowKey(flow.flowMatch);
      if key in flowDb.value {
        return Failure(DuplicateFlow(key));
      }
      flowDb := Some(flowDb.value[key := flow]);
      return Success(flow);
    }

    /** Forgets the flow stored under `key`, if any. */
    method DeleteFlow(key: string) returns (r: Outcome<Error>)
      requires Valid() && flowDb.Some?
      modifies this`flowDb
      ensures Valid()
      ensures flowDb == Some(old(flowDb.value) - {key})
      ensures r == Pass
    {
      flowDb := Some(flowDb.value - {key});
      return Pass;
    }

    /** No two stored flows have the same key, nor the same match. */
    lemma KeysIdentifyFlows()
      requires Valid() && flowDb.Some?
      ensures forall k1, k2 ::
        (k1 in flowDb.value && k2 in flowDb.value && flowDb.value[k1].flowMatch == flowDb.value[k2].flowMatch) ==> k1 == k2
    {
    }

    /** A match can be used again once the flow under its key has been deleted. */
    method ReuseKeyAfterDelete(m: FlowMatch) returns (r: Result<Flow, Error>)
      requires Valid() && flowDb.Some?
      modifies this`flowDb
      ensures Valid() && flowDb.Some?
      ensures r == Success(Flow(this, m, false, [], None))
      ensures flowDb.value == old(flowDb.value)[flowKey(m) := r.value]
    {
      var _ := DeleteFlow(flowKey(m));
      r := NewFlow(m);
    }

    /** A second flow with the same key is refused and the table keeps its size. */
    method DuplicateRefused(m1: FlowMatch, m2: FlowMatch) returns (r1: Result<Flow, Error>, r2: Result<Flow, Error>)
      requires Valid() && flowDb.Some?
      requires flowKey(m1) !in flowDb.value && flowKey(m1) == flowKey(m2)
      modifies this`flowDb
      ensures r1.Success? && r2 == Failure(DuplicateFlow(flowKey(m1)))
      ensures flowDb.Some? && |flowDb.value| == |old(flowDb.value)| + 1
    {
      r1 := NewFlow(m1);
      var n := |flowDb.value|;
      r2 := NewFlow(m2);
      assert |flowDb.value| == n;
    }
  }
}
