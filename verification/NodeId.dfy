/** The node id: packed by the Go node plugin into at most 128 characters, unpacked by the Python
    controller. A char stands for one byte, as Go measures lengths. */
module NodeId {
  import opened Options
  import opened Text

  const MAX_NODE_ID_LENGTH: nat := 128
  const NODE_ID_DELIMITER: char := ';'
  const FC_DELIMITER: char := ':'

  // ---------- packing, on the node ----------

  /** Which of the ports fit, tried in order, when used characters are taken already. */
  function Kept(used: nat, ports: seq<string>): seq<string>
    decreases |ports|
  {
    if ports == [] then []
    else if used + 1 + |ports[0]| <= MAX_NODE_ID_LENGTH then
      [ports[0]] + Kept(used + 1 + |ports[0]|, ports[1..])
    else Kept(used, ports[1..])
  }

  /** The ports that go into the id: the first, and the later ones that fit. */
  function KeptPorts(host: string, wwns: seq<string>): seq<string> {
    if wwns == [] then [] else [wwns[0]] + Kept(|host| + 1 + |wwns[0]|, wwns[1..])
  }

  function HostAndPorts(host: string, ports: seq<string>): string {
    host + [NODE_ID_DELIMITER] + Join(ports, [FC_DELIMITER])
  }

  predicate IqnFits(host: string, wwns: seq<string>, iqn: string) {
    iqn != "" && |HostAndPorts(host, KeptPorts(host, wwns))| + 1 + |iqn| <= MAX_NODE_ID_LENGTH
  }

  /** An id is refused when its first port, or the iqn where there are no ports, does not fit. */
  predicate Refused(host: string, wwns: seq<string>, iqn: string) {
    if wwns != [] then |host| + 1 + |wwns[0]| > MAX_NODE_ID_LENGTH
    else iqn != "" && |host| + 2 + |iqn| > MAX_NODE_ID_LENGTH
  }

  function NodeIdText(host: string, wwns: seq<string>, iqn: string): string {
    Join([host, Join(KeptPorts(host, wwns), [FC_DELIMITER])] + (if IqnFits(host, wwns, iqn) then [iqn] else []),
         [NODE_ID_DELIMITER])
  }

  lemma {:induction false} JoinAppends(parts: seq<string>, part: string, separator: string)
    requires parts != []
    ensures Join(parts + [part], separator) == Join(parts, separator) + separator + part
  {
    if |parts| > 1 {
      assert (parts + [part])[1..] == parts[1..] + [part];
      JoinAppends(parts[1..], part, separator);
    } else {
      assert (parts + [part])[1..] == [part];
    }
  }

  lemma TextOfParts(host: string, ports: seq<string>, iqn: string)
    ensures Join([host, Join(ports, [FC_DELIMITER])], [NODE_ID_DELIMITER]) == HostAndPorts(host, ports)
    ensures Join([host, Join(ports, [FC_DELIMITER]), iqn], [NODE_ID_DELIMITER])
         == HostAndPorts(host, ports) + [NODE_ID_DELIMITER] + iqn
  {
    var head := [host, Join(ports, [FC_DELIMITER])];
    assert head[1..] == [head[1]];
    JoinAppends(head, iqn, [NODE_ID_DELIMITER]);
    assert head + [iqn] == [host, Join(ports, [FC_DELIMITER]), iqn];
  }

  method GenerateNodeID(hostName: string, fcWWNs: seq<string>, iscsiIQN: string) returns (id: Option<string>)
    ensures id == if Refused(hostName, fcWWNs, iscsiIQN) then None else Some(NodeIdText(hostName, fcWWNs, iscsiIQN))
  {
    var nodeId := hostName;
    nodeId := nodeId + [NODE_ID_DELIMITER];
    if |fcWWNs| > 0 {
      if |nodeId| + |fcWWNs[0]| <= MAX_NODE_ID_LENGTH {
        nodeId := nodeId + fcWWNs[0];
      } else {
        return None;
      }
      nodeId := AppendPorts(nodeId, hostName, fcWWNs);
    }
    assert nodeId == HostAndPorts(hostName, KeptPorts(hostName, fcWWNs));
    TextOfParts(hostName, KeptPorts(hostName, fcWWNs), iscsiIQN);
    IdParts(hostName, KeptPorts(hostName, fcWWNs), iscsiIQN);
    if |iscsiIQN| > 0 {
      if |nodeId| + 1 + |iscsiIQN| <= MAX_NODE_ID_LENGTH {
        nodeId := nodeId + [NODE_ID_DELIMITER];
        nodeId := nodeId + iscsiIQN;
        return Some(nodeId);
      } else if |fcWWNs| == 0 {
        return None;
      }
    }
    return Some(nodeId);
  }

  lemma IdParts(host: string, ports: seq<string>, iqn: string)
    ensures [host, Join(ports, [FC_DELIMITER])] + [iqn] == [host, Join(ports, [FC_DELIMITER]), iqn]
    ensures [host, Join(ports, [FC_DELIMITER])] + [] == [host, Join(ports, [FC_DELIMITER])]
  {
  }

  /** The loop over the ports after the first. */
  method AppendPorts(start: string, ghost host: string, wwns: seq<string>) returns (nodeId: string)
    requires wwns != [] && start == HostAndPorts(host, [wwns[0]])
    ensures nodeId == HostAndPorts(host, KeptPorts(host, wwns))
  {
    nodeId := start;
    ghost var kept := [wwns[0]];
    var later := wwns[1..];
    for k := 0 to |later|
      invariant kept != [] && nodeId == HostAndPorts(host, kept)
      invariant kept + Kept(|nodeId|, later[k..]) == KeptPorts(host, wwns)
    {
      assert later[k..][1..] == later[k + 1..];
      if |nodeId| + 1 + |later[k]| <= MAX_NODE_ID_LENGTH {
        nodeId := nodeId + [FC_DELIMITER];
        nodeId := nodeId + later[k];
        PortAppended(host, kept, later[k]);
        kept := kept + [later[k]];
      }
    }
    assert kept + [] == kept;
  }

  lemma PortAppended(host: string, kept: seq<string>, port: string)
    requires kept != []
    ensures HostAndPorts(host, kept + [port]) == HostAndPorts(host, kept) + [FC_DELIMITER] + port
    ensures forall rest :: kept + ([port] + rest) == kept + [port] + rest
  {
    JoinAppends(kept, port, [FC_DELIMITER]);
  }

  // ---------- unpacking, in the controller ----------

  datatype NodeInfo = NodeInfo(nodeName: string, fcWwns: seq<string>, iscsiIqn: string)

  /** None is the HostNotFoundError for an id that does not have two or three parts. */
  function NodeIdInfo(id: string): Option<NodeInfo> {
    var parts := Split(id, NODE_ID_DELIMITER);
    if |parts| == 3 then Some(NodeInfo(parts[0], Split(parts[1], FC_DELIMITER), Strip(parts[2])))
    else if |parts| == 2 then Some(NodeInfo(parts[0], Split(parts[1], FC_DELIMITER), ""))
    else None
  }

  // ---------- what a node id remembers ----------

  /** What a reader of the id should learn about the node. */
  function Remembered(host: string, wwns: seq<string>, iqn: string): NodeInfo {
    NodeInfo(host, if wwns == [] then [""] else KeptPorts(host, wwns), if IqnFits(host, wwns, iqn) then iqn else "")
  }

  /** The parts that made it into the id are free of the delimiters, and the iqn is trimmed. */
  ghost predicate Clean(info: NodeInfo) {
    && NODE_ID_DELIMITER !in info.nodeName && NODE_ID_DELIMITER !in info.iscsiIqn
    && NoneContains(info.fcWwns, NODE_ID_DELIMITER) && NoneContains(info.fcWwns, FC_DELIMITER)
    && Trimmed(info.iscsiIqn)
  }

  lemma {:induction false} JoinFree(parts: seq<string>, separator: char, d: char)
    requires d != separator
    ensures d !in Join(parts, [separator]) <==> NoneContains(parts, d)
  {
    if |parts| > 1 {
      JoinFree(parts[1..], separator, d);
      assert forall p :: p in parts <==> p == parts[0] || p in parts[1..];
    } else if |parts| == 1 {
      assert parts[0] in parts;
    }
  }

  /** The text of an id splits into its own parts exactly when those are free of the delimiter. */
  lemma SplitsIntoParts(host: string, ports: seq<string>, iqn: string)
    ensures (Split(HostAndPorts(host, ports), NODE_ID_DELIMITER) == [host, Join(ports, [FC_DELIMITER])]) <==>
            NODE_ID_DELIMITER !in host && NoneContains(ports, NODE_ID_DELIMITER)
    ensures (Split(HostAndPorts(host, ports) + [NODE_ID_DELIMITER] + iqn, NODE_ID_DELIMITER)
             == [host, Join(ports, [FC_DELIMITER]), iqn]) <==>
            NODE_ID_DELIMITER !in host && NoneContains(ports, NODE_ID_DELIMITER) && NODE_ID_DELIMITER !in iqn
  {
    TextOfParts(host, ports, iqn);
    JoinFree(ports, FC_DELIMITER, NODE_ID_DELIMITER);
    PartsFree([host, Join(ports, [FC_DELIMITER])]);
    PartsFree([host, Join(ports, [FC_DELIMITER]), iqn]);
  }

  lemma PartsFree(parts: seq<string>)
    requires 2 <= |parts| <= 3
    ensures Split(Join(parts, [NODE_ID_DELIMITER]), NODE_ID_DELIMITER) == parts <==>
            forall k | 0 <= k < |parts| :: NODE_ID_DELIMITER !in parts[k]
  {
    SplitUndoesJoin(parts, NODE_ID_DELIMITER);
    assert NoneContains(parts, NODE_ID_DELIMITER) <==> forall k | 0 <= k < |parts| :: NODE_ID_DELIMITER !in parts[k];
  }

  /** The list read back from joined ports; no ports at all read back as one empty port. */
  lemma PortsReadBack(ports: seq<string>)
    ensures Split(Join(ports, [FC_DELIMITER]), FC_DELIMITER) == (if ports == [] then [""] else ports) <==>
            NoneContains(ports, FC_DELIMITER)
  {
    SplitUndoesJoin(ports, FC_DELIMITER);
  }

  /** The controller reads from a node id exactly what the node put in, if and only if what was put
      in is clean: the host name, the ports kept in their order (one empty port for none), and the
      iqn, empty when it was absent or did not fit. */
  lemma NodeIdRoundTrip(host: string, wwns: seq<string>, iqn: string)
    ensures NodeIdInfo(NodeIdText(host, wwns, iqn)) == Some(Remembered(host, wwns, iqn)) <==>
            Clean(Remembered(host, wwns, iqn))
  {
    var ports, info := KeptPorts(host, wwns), Remembered(host, wwns, iqn);
    var id := NodeIdText(host, wwns, iqn);
    var parts := Split(id, NODE_ID_DELIMITER);
    TextOfParts(host, ports, iqn);
    SplitsIntoParts(host, ports, iqn);
    PortsReadBack(ports);
    EmptyPort(ports);
    IdParts(host, ports, iqn);
    if IqnFits(host, wwns, iqn) {
      StripTrims(iqn);
      if NodeIdInfo(id) == Some(info) {
        ReadsBackThree(host, ports, iqn);
      }
    } else {
      if NodeIdInfo(id) == Some(info) {
        ReadsBackTwo(host, ports);
      }
    }
  }

  lemma EmptyPort(ports: seq<string>)
    ensures ports == [] ==> NoneContains([""], NODE_ID_DELIMITER) && NoneContains([""], FC_DELIMITER)
  {
  }

  /** An id that reads back right must have been cut where it was joined. */
  lemma ReadsBackThree(host: string, ports: seq<string>, iqn: string)
    requires iqn != ""
    requires NodeIdInfo(HostAndPorts(host, ports) + [NODE_ID_DELIMITER] + iqn)
          == Some(NodeInfo(host, if ports == [] then [""] else ports, iqn))
    ensures Split(HostAndPorts(host, ports) + [NODE_ID_DELIMITER] + iqn, NODE_ID_DELIMITER)
         == [host, Join(ports, [FC_DELIMITER]), iqn]
    ensures Strip(iqn) == iqn
  {
    var id := HostAndPorts(host, ports) + [NODE_ID_DELIMITER] + iqn;
    var parts := Split(id, NODE_ID_DELIMITER);
    JoinOfSplit(id, NODE_ID_DELIMITER);
    JoinOfSplit(parts[1], FC_DELIMITER);
    assert Join([""], [FC_DELIMITER]) == Join([], [FC_DELIMITER]);
    assert parts == [host, parts[1], parts[2]];
    TextOfParts(host, ports, parts[2]);
    assert parts[1] == Join(ports, [FC_DELIMITER]);
    var head := HostAndPorts(host, ports) + [NODE_ID_DELIMITER];
    assert id == head + iqn && id == head + parts[2];
    assert iqn == id[|head|..] && parts[2] == id[|head|..];
  }

  lemma ReadsBackTwo(host: string, ports: seq<string>)
    requires NodeIdInfo(HostAndPorts(host, ports)) == Some(NodeInfo(host, if ports == [] then [""] else ports, ""))
    ensures Split(HostAndPorts(host, ports), NODE_ID_DELIMITER) == [host, Join(ports, [FC_DELIMITER])]
  {
    var id := HostAndPorts(host, ports);
    var parts := Split(id, NODE_ID_DELIMITER);
    JoinOfSplit(id, NODE_ID_DELIMITER);
    JoinOfSplit(parts[1], FC_DELIMITER);
    assert Join([""], [FC_DELIMITER]) == Join([], [FC_DELIMITER]);
    assert parts[1] == Join(ports, [FC_DELIMITER]);
    assert |parts| == 2;
    assert parts == [host, parts[1]];
  }

  // ---------- the bound, and which ports are dropped ----------

  function ChainLength(ports: seq<string>): nat {
    if ports == [] then 0 else 1 + |ports[0]| + ChainLength(ports[1..])
  }

  lemma {:induction false} JoinLength(ports: seq<string>, d: char)
    requires ports != []
    ensures |Join(ports, [d])| + 1 == ChainLength(ports)
  {
    if |ports| > 1 {
      JoinLength(ports[1..], d);
    }
  }

  lemma {:induction false} KeptFits(used: nat, ports: seq<string>)
    requires used <= MAX_NODE_ID_LENGTH
    ensures used + ChainLength(Kept(used, ports)) <= MAX_NODE_ID_LENGTH
    decreases |ports|
  {
    if ports != [] {
      if used + 1 + |ports[0]| <= MAX_NODE_ID_LENGTH {
        KeptFits(used + 1 + |ports[0]|, ports[1..]);
        assert ([ports[0]] + Kept(used + 1 + |ports[0]|, ports[1..]))[1..] == Kept(used + 1 + |ports[0]|, ports[1..]);
      } else {
        KeptFits(used, ports[1..]);
      }
    }
  }

  /** A generated id is at most 128 long exactly when the node has some port or its name is short
      enough: a node without ports is not measured. */
  lemma NodeIdIsBounded(host: string, wwns: seq<string>, iqn: string)
    requires !Refused(host, wwns, iqn)
    ensures |NodeIdText(host, wwns, iqn)| <= MAX_NODE_ID_LENGTH <==>
            wwns != [] || iqn != "" || |host| < MAX_NODE_ID_LENGTH
  {
    var ports := KeptPorts(host, wwns);
    TextOfParts(host, ports, iqn);
    IdParts(host, ports, iqn);
    if wwns != [] {
      KeptFits(|host| + 1 + |wwns[0]|, wwns[1..]);
      JoinLength(ports, FC_DELIMITER);
      assert ports[1..] == Kept(|host| + 1 + |wwns[0]|, wwns[1..]);
    }
  }

  /** Which of the ports are kept, position by position. */
  function Mask(used: nat, ports: seq<string>): (mask: seq<bool>)
    ensures |mask| == |ports|
    decreases |ports|
  {
    if ports == [] then []
    else
      var fits := used + 1 + |ports[0]| <= MAX_NODE_ID_LENGTH;
      [fits] + Mask(if fits then used + 1 + |ports[0]| else used, ports[1..])
  }

  function Select(ports: seq<string>, mask: seq<bool>): seq<string>
    requires |mask| == |ports|
  {
    if ports == [] then []
    else (if mask[0] then [ports[0]] else []) + Select(ports[1..], mask[1..])
  }

  /** The kept ports are a subsequence of the ports, and a port is left out exactly when it did not
      fit after those kept before it. */
  lemma {:induction false} OnlyPortsThatDoNotFitAreSkipped(used: nat, ports: seq<string>)
    ensures Kept(used, ports) == Select(ports, Mask(used, ports))
    ensures forall k | 0 <= k < |ports| ::
              Mask(used, ports)[k] <==>
              used + ChainLength(Select(ports[..k], Mask(used, ports)[..k])) + 1 + |ports[k]| <= MAX_NODE_ID_LENGTH
    decreases |ports|
  {
    if ports != [] {
      var mask := Mask(used, ports);
      var used' := if mask[0] then used + 1 + |ports[0]| else used;
      OnlyPortsThatDoNotFitAreSkipped(used', ports[1..]);
      assert mask[1..] == Mask(used', ports[1..]);
      forall k | 0 < k < |ports|
        ensures mask[k] <==> used + ChainLength(Select(ports[..k], mask[..k])) + 1 + |ports[k]| <= MAX_NODE_ID_LENGTH
      {
        assert ports[..k][1..] == ports[1..][..k - 1] && mask[..k][1..] == mask[1..][..k - 1];
        assert ports[k] == ports[1..][k - 1] && mask[k] == mask[1..][k - 1];
        var tail := Select(ports[1..][..k - 1], mask[1..][..k - 1]);
        assert mask[0] ==> ([ports[0]] + tail)[1..] == tail;
        assert [] + tail == tail;
      }
    }
  }

  // ---------- the text in full ----------

  /** An id that is not refused is the host name, the ports that fit in order, the first among them,
      and the iqn if there is one that still fits. */
  lemma NodeIdIs(host: string, wwns: seq<string>, iqn: string)
    requires !Refused(host, wwns, iqn)
    ensures
      var ports := if wwns == [] then [] else
                     var used := |host| + 1 + |wwns[0]|;
                     [wwns[0]] + Select(wwns[1..], Mask(used, wwns[1..]));
      var start := host + ";" + Join(ports, ":");
      NodeIdText(host, wwns, iqn) == start + if iqn != "" && |start| + 1 + |iqn| <= 128 then ";" + iqn else ""
  {
    var ports := KeptPorts(host, wwns);
    TextOfParts(host, ports, iqn);
    IdParts(host, ports, iqn);
    assert [FC_DELIMITER] == ":" && [NODE_ID_DELIMITER] == ";";
    if wwns != [] {
      OnlyPortsThatDoNotFitAreSkipped(|host| + 1 + |wwns[0]|, wwns[1..]);
    }
  }

  /** An id is refused exactly if the first port does not fit, or without ports the iqn. */
  lemma RefusedExactly(host: string, wwns: seq<string>, iqn: string)
    ensures Refused(host, wwns, iqn) <==>
            || (wwns != [] && |host + ";" + wwns[0]| > 128)
            || (wwns == [] && iqn != "" && |host + ";" + ";" + iqn| > 128)
  {
  }

  /** Only a text of two or three parts is read. */
  lemma ReadsTwoOrThreeParts(id: string)
    ensures NodeIdInfo(id).Some? <==> |Split(id, ';')| == 2 || |Split(id, ';')| == 3
  {
  }
}
