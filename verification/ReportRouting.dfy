/** Which user and which node of a machine a traffic record belongs to. */
module ReportRouting {
  import opened Wrappers
  import TrafficMeter

  datatype Protocol = Vless | Ss | Hy2 | Unknown

  datatype Node = Node(id: nat, protocol: Protocol)

  /** A reported record; user 0 stands for a missing user id, and older agents send a tag instead. */
  datatype Record = Record(
    userId: nat, tag: Option<string>, proto: Protocol, direction: TrafficMeter.Direction, value: int)

  /** The user of a record, if it can be told. */
  function ResolveUser(r: Record, tags: map<string, nat>): (u: nat)
    ensures r.userId != 0 ==> u == r.userId
    ensures u != 0 && u != r.userId ==> r.userId == 0 && r.tag.Some? && r.tag.value in tags && u == tags[r.tag.value]
    ensures u == 0 ==> r.userId == 0 && (r.tag.None? || r.tag.value !in tags || tags[r.tag.value] == 0)
  {
    if r.userId != 0 then r.userId
    else if r.tag.Some? && r.tag.value in tags then tags[r.tag.value]
    else 0
  }

  /** The first node of each protocol, the reporting node before its peers. */
  datatype ProtocolMap = ProtocolMap(default: nat, vless: nat, ss: nat, hy2: nat)

  function FirstOf(nodes: seq<Node>, p: Protocol): (id: nat)
    ensures id != 0 ==> exists i :: 0 <= i < |nodes| && nodes[i] == Node(id, p)
                                    && forall j :: 0 <= j < i ==> nodes[j].protocol != p || nodes[j].id == 0
    ensures (forall i :: 0 <= i < |nodes| ==> nodes[i].id != 0) ==>
              (id == 0 <==> forall i :: 0 <= i < |nodes| ==> nodes[i].protocol != p)
  {
    if nodes == [] then 0
    else if nodes[0].protocol == p && nodes[0].id != 0 then nodes[0].id
    else
      var id := FirstOf(nodes[1..], p);
      assert id != 0 ==> exists i ::
          0 <= i < |nodes[1..]| && nodes[1..][i] == Node(id, p) && nodes[i + 1] == nodes[1..][i];
      assert forall i :: 0 <= i < |nodes[1..]| ==> nodes[1..][i] == nodes[i + 1];
      assert forall i :: 0 < i < |nodes| ==> nodes[i] == nodes[1..][i - 1];
      id
  }

  function BuildProtocolNodeMap(tracked: seq<Node>): ProtocolMap
    requires tracked != []
  {
    ProtocolMap(tracked[0].id, FirstOf(tracked, Vless), FirstOf(tracked, Ss), FirstOf(tracked, Hy2))
  }

  function ResolveTarget(r: Record, m: ProtocolMap): nat
  {
    var id := match r.proto
              case Ss => m.ss
              case Vless => m.vless
              case Hy2 => m.hy2
              case Unknown => 0;
    if id != 0 then id else m.default
  }

  predicate HasProtocolSplit(records: seq<Record>)
  {
    exists i :: 0 <= i < |records| && !records[i].proto.Unknown?
  }

  /** The nodes of one machine as the reporting node sees them: itself first, then its peers of other protocols. */
  predicate Tracked(tracked: seq<Node>)
  {
    && tracked != []
    && (forall i :: 0 <= i < |tracked| ==> tracked[i].id != 0)
    && forall i, j :: 0 <= i < j < |tracked| ==> tracked[i].id != tracked[j].id
  }

  /** The machine and the user tags a report is read against; the first tracked node is the reporting one. */
  datatype Context = Context(tracked: seq<Node>, tags: map<string, nat>)

  /** A record is routed to the first node of the machine that speaks its protocol whenever there is one, and otherwise
      to the reporting node. */
  lemma TargetIsTracked(r: Record, tracked: seq<Node>)
    requires Tracked(tracked)
    ensures var id := ResolveTarget(r, BuildProtocolNodeMap(tracked));
            && (exists i :: 0 <= i < |tracked| && tracked[i].id == id)
            && if !r.proto.Unknown? && (exists i :: 0 <= i < |tracked| && tracked[i].protocol == r.proto)
               then exists i :: 0 <= i < |tracked| && tracked[i] == Node(id, r.proto)
                                && forall j :: 0 <= j < i ==> tracked[j].protocol != r.proto
               else id == tracked[0].id
  {
    var id := ResolveTarget(r, BuildProtocolNodeMap(tracked));
    if !r.proto.Unknown? && FirstOf(tracked, r.proto) != 0 {
      var i :| 0 <= i < |tracked| && tracked[i] == Node(id, r.proto);
      assert tracked[i].id == id;
    } else {
      assert tracked[0].id == id;
    }
  }
}
