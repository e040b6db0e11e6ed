/**
  A group bucket: a protocol bucket record together with a flow whose
  match/action machinery the group borrows to fill the bucket's actions. The
  setters only change the bucket in memory; nothing reaches the switch until
  the owning group is installed again.
 */
module FgraphBucket {
  import opened Wrappers
  import Net
  import OF = OpenFlow15
  import opened FgraphTable

  /** A tunnel address the setters treat as "no endpoint configured". */
  predicate IgnoredTunnelEndpoint(ip: Option<Net.IP>) {
    Net.IsUnspecified(ip) || Net.IsLoopback(ip)
  }

  /**
    0.0.0.0 and 127.0.0.1 are ignored and 10.0.0.1 is not; a nil address (text
    that did not parse) passes the guard.
   */
  lemma TunnelEndpointExamples()
    ensures IgnoredTunnelEndpoint(Some(Net.IPv4(0, 0, 0, 0)))
    ensures IgnoredTunnelEndpoint(Some(Net.IPv4(127, 0, 0, 1)))
    ensures !IgnoredTunnelEndpoint(Some(Net.IPv4(10, 0, 0, 1)))
    ensures !IgnoredTunnelEndpoint(None)
  {
  }

  /** An IPv4 endpoint is ignored exactly when it is 0.0.0.0 or in 127/8. */
  lemma IgnoredIPv4Endpoint(a: Net.byte, b: Net.byte, c: Net.byte, d: Net.byte)
    ensures IgnoredTunnelEndpoint(Some(Net.IPv4(a, b, c, d))) <==> (a == 0 && b == 0 && c == 0 && d == 0) || a == 127
  {
  }

  class Bucket {
    // the embedded protocol bucket
    var bucketId: OF.uint32
    var properties: seq<OF.BucketProperty>
    var actions: seq<OF.Action>
    // the embedded flow
    var flow: Flow

    constructor NewBucket(bktId: OF.uint32)
      ensures bucketId == bktId && properties == [] && actions == []
      ensures flow == ZeroFlow
    {
      bucketId := bktId;
      properties := [];
      actions := [];
      flow := ZeroFlow;
    }

    /** The protocol bucket record as it stands. */
    function Record(): OF.Bucket
      reads this
    {
      OF.Bucket(bucketId, properties, actions)
    }

    /** Makes output to `portNum` the flow's next element, replacing any previous one. */
    method SetOutput(portNum: OF.uint32)
      modifies this`flow
      ensures flow == old(flow).(nextElem := Some(OutputElem("port", portNum)))
    {
      var output := OutputElem("port", portNum);
      flow := flow.(nextElem := Some(output));
    }

    /** Flow.SetIPField, recorded as an IP set-field action of the embedded flow. */
    method SetIPField(ip: Option<Net.IP>, field: string)
      modifies this`flow
      ensures flow == old(flow).(flowActions := old(flow.flowActions) + [IPFieldAction(field, ip)])
    {
      flow := flow.(flowActions := flow.flowActions + [IPFieldAction(field, ip)]);
    }

    /** `ip` is what net.ParseIP made of the address text; None is nil. */
    method SetTunnelSrcIp(ip: Option<Net.IP>)
      modifies this`flow
      ensures IgnoredTunnelEndpoint(ip) ==> flow == old(flow)
      ensures !IgnoredTunnelEndpoint(ip) ==>
        flow == old(flow).(flowActions := old(flow.flowActions) + [IPFieldAction("TunSrc", ip)])
    {
      if Net.IsUnspecified(ip) || Net.IsLoopback(ip) {
        return;
      }
      SetIPField(ip, "TunSrc");
    }

    method SetTunnelDstIp(ip: Option<Net.IP>)
      modifies this`flow
      ensures IgnoredTunnelEndpoint(ip) ==> flow == old(flow)
      ensures !IgnoredTunnelEndpoint(ip) ==>
        flow == old(flow).(flowActions := old(flow.flowActions) + [IPFieldAction("TunDst", ip)])
    {
      if Net.IsUnspecified(ip) || Net.IsLoopback(ip) {
        return;
      }
      SetIPField(ip, "TunDst");
    }

    /** The protocol bucket's AddProperty: appends one property. */
    method AddProperty(prop: OF.BucketProperty)
      modifies this`properties
      ensures properties == old(properties) + [prop]
    {
      properties := properties + [prop];
    }

    method SetWeight(weight: OF.uint16)
      modifies this`properties
      ensures properties == old(properties) + [OF.PropWeight(weight)]
    {
      AddProperty(OF.PropWeight(weight));
    }

    method SetWatchPort(portNum: OF.uint32)
      modifies this`properties
      ensures properties == old(properties) + [OF.PropWatchPort(portNum)]
    {
      AddProperty(OF.PropWatchPort(portNum));
    }

    method SetWatchGroup(groupId: OF.uint32)
      modifies this`properties
      ensures properties == old(properties) + [OF.PropWatchGroup(groupId)]
    {
      AddProperty(OF.PropWatchGroup(groupId));
    }
  }
}
