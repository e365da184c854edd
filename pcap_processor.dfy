/** The polling service's converter (pcap_processor/process.py): a sorted flow key, the
    packet loop of `process_pcap` that keeps the earliest and latest packet time per key,
    and the CSV rows it writes. */
module PcapProcessor {
  import opened Text
  import opened Packets
  import opened FlowTable
  import Streaming = FastPcapProcessor

  /** The key `tuple(sorted([(src, sport), (dst, dport)]) + [proto])`. */
  datatype FlowKey = FlowKey(first: Endpoint, second: Endpoint, proto: nat)

  /** `get_flow_key`: no key without an IP layer; otherwise the two endpoints in ascending
      order, then the protocol number. */
  function GetFlowKey(p: Packet): (k: Option<FlowKey>)
    ensures k.None? <==> p.ip.None?
    ensures k.Some? ==> k.value.proto == p.ip.value.proto
    ensures k.Some? ==> (k.value.first == Source(p) && k.value.second == Destination(p)) ||
                        (k.value.first == Destination(p) && k.value.second == Source(p))
    ensures k.Some? && p.transport.NoPorts? ==> k.value.first.port == 0 && k.value.second.port == 0
  {
    match p.ip
    case None => None
    case Some(h) =>
      var a, b := Source(p), Destination(p);
      var sorted := if EndpointLess(b, a) then [b, a] else [a, b];
      Some(FlowKey(sorted[0], sorted[1], h.proto))
  }

  /** The two processors order the endpoints the same way: only the layout of their
      keys differs. */
  lemma KeysAgree(p: Packet)
    ensures GetFlowKey(p).None? <==> Streaming.GetFlowKey(p).None?
    ensures GetFlowKey(p).Some? ==>
      var k := Streaming.GetFlowKey(p).value;
      GetFlowKey(p).value == FlowKey(Streaming.Lo(k), Streaming.Hi(k), k.proto)
  {
  }

  /** A packet and its reply get the same key, and the smaller endpoint comes first. */
  lemma KeyIsSymmetricAndSorted(p: Packet)
    requires p.ip.Some?
    ensures GetFlowKey(Reversed(p)) == GetFlowKey(p)
    ensures !EndpointLess(GetFlowKey(p).value.second, GetFlowKey(p).value.first)
  {
    KeysAgree(p);
    KeysAgree(Reversed(p));
    Streaming.KeyIsSymmetric(p);
    Streaming.KeyIsOrdered(p);
  }

  // ---------------------------------------------------------------- aggregation

  /** One flow record. `startTime == None` stands for the initial `float('inf')`. */
  datatype Flow = Flow(
    startTime: Option<nat>, endTime: nat,
    srcIp: string, dstIp: string, srcPort: nat, dstPort: nat, protocol: nat,
    totalPackets: nat, totalBytes: nat)

  /** The record the `defaultdict` creates for a key it has not seen. */
  const EmptyFlow := Flow(None, 0, "", "", 0, 0, 0, 0, 0)

  /** The `flows` dictionary: its records by key, and its keys in insertion order. */
  datatype Table = Table(order: seq<FlowKey>, flows: map<FlowKey, Flow>)

  /** `min(start_time, t)` with `None` as infinity. */
  function EarlierOf(start: Option<nat>, t: nat): (r: nat)
    ensures r <= t && (start.Some? ==> r <= start.value)
    ensures r == t || (start.Some? && r == start.value)
  {
    if start.Some? && start.value < t then start.value else t
  }

  /** `max(end_time, t)`. */
  function Max(a: nat, b: nat): (r: nat)
    ensures a <= r && b <= r
    ensures r == a || r == b
  {
    if a < b then b else a
  }

  /** A record as the loop leaves it: at least one packet, a start time, and a start time
      no later than the end time. */
  predicate FlowValid(k: FlowKey, f: Flow) {
    && f.totalPackets >= 1
    && f.startTime.Some?
    && f.startTime.value <= f.endTime
    && f.protocol == k.proto
  }

  ghost predicate Valid(t: Table) {
    && (forall i, j :: 0 <= i < j < |t.order| ==> t.order[i] != t.order[j])
    && (forall k :: k in t.flows <==> k in t.order)
    && (forall k :: k in t.flows ==> FlowValid(k, t.flows[k]))
  }

  /** The body of the packet loop, for one packet. */
  function Update(t: Table, p: Packet): (r: Table)
    ensures p.ip.None? ==> r == t
    ensures p.ip.Some? ==>
      var k := GetFlowKey(p).value;
      var before := if k in t.flows then t.flows[k] else EmptyFlow;
      && r.flows.Keys == t.flows.Keys + {k}
      && r.order == (if k in t.flows then t.order else t.order + [k])
      && (forall k' :: k' in t.flows && k' != k ==> r.flows[k'] == t.flows[k'])
      && r.flows[k].totalPackets == before.totalPackets + 1
      && r.flows[k].totalBytes == before.totalBytes + p.length
      && r.flows[k].startTime == Some(EarlierOf(before.startTime, p.time))
      && r.flows[k].endTime == Max(before.endTime, p.time)
  // the first packet of a key names the flow after its own direction and ports; later
  // packets keep them
  ensures p.ip.Some? ==>
    var k := GetFlowKey(p).value;
    var before := if k in t.flows then t.flows[k] else EmptyFlow;
    var f := r.flows[k];
    if before.totalPackets == 0 then
      && f.srcIp == p.ip.value.src && f.dstIp == p.ip.value.dst && f.protocol == p.ip.value.proto
      && (p.transport.NoPorts? ==> f.srcPort == before.srcPort && f.dstPort == before.dstPort)
      && (!p.transport.NoPorts? ==> (f.srcPort, f.dstPort) == Ports(p.transport))
    else
      && f.srcIp == before.srcIp && f.dstIp == before.dstIp && f.protocol == before.protocol
      && f.srcPort == before.srcPort && f.dstPort == before.dstPort
  {
    if p.ip.None? then t
    else
      var k := GetFlowKey(p).value;
      var flow := if k in t.flows then t.flows[k] else EmptyFlow;
      var order := if k in t.flows then t.order else t.order + [k];
      var first :=
        if flow.totalPackets == 0 then
          var named := flow.(srcIp := p.ip.value.src, dstIp := p.ip.value.dst, protocol := p.ip.value.proto);
          match p.transport
          case Tcp(s, d) => named.(srcPort := s, dstPort := d)
          case Udp(s, d) => named.(srcPort := s, dstPort := d)
          case NoPorts => named
        else flow;
      var counted := first.(startTime := Some(EarlierOf(first.startTime, p.time)),
                            endTime := Max(first.endTime, p.time),
                            totalPackets := first.totalPackets + 1,
                            totalBytes := first.totalBytes + p.length);
      Table(order, t.flows[k := counted])
  }

  /** The table after the loop has consumed `ps`. */
  function Aggregate(ps: seq<Packet>): (t: Table)
    ensures forall k :: k in t.flows <==> k in t.order
    ensures |t.order| <= |ps|
    decreases |ps|
  {
    if ps == [] then Table([], map[]) else Update(Aggregate(ps[..|ps| - 1]), ps[|ps| - 1])
  }

  /** `process_pcap`'s packet loop: packets without an IP layer are skipped, the others
      update the record of their key. */
  method ProcessPcap(packets: seq<Packet>) returns (table: Table)
    ensures table == Aggregate(packets)
  {
    table := Table([], map[]);
    for i := 0 to |packets|
      invariant table == Aggregate(packets[..i])
    {
      assert packets[..i + 1][..i] == packets[..i];
      table := CountPacket(table, packets[i]);
    }
    assert packets[..|packets|] == packets;
  }

  /** One pass of the loop body: the record of the packet's key is created on first
      sight, named after that packet, and then counted. */
  method CountPacket(t: Table, pkt: Packet) returns (r: Table)
    ensures r == Update(t, pkt)
  {
    r := t;
    if pkt.ip.Some? {
      var k := GetFlowKey(pkt).value;
      var order := t.order;
      if k !in t.flows {
        order := order + [k];
      }
      var flow := if k in t.flows then t.flows[k] else EmptyFlow;
      if flow.totalPackets == 0 {
        flow := flow.(srcIp := pkt.ip.value.src, dstIp := pkt.ip.value.dst, protocol := pkt.ip.value.proto);
        match pkt.transport {
          case Tcp(s, d) => flow := flow.(srcPort := s, dstPort := d);
          case Udp(s, d) => flow := flow.(srcPort := s, dstPort := d);
          case NoPorts =>
        }
      }
      flow := flow.(startTime := Some(EarlierOf(flow.startTime, pkt.time)));
      flow := flow.(endTime := Max(flow.endTime, pkt.time));
      flow := flow.(totalPackets := flow.totalPackets + 1);
      flow := flow.(totalBytes := flow.totalBytes + pkt.length);
      r := Table(order, t.flows[k := flow]);
    }
  }

  lemma UpdatePreservesValid(t: Table, p: Packet)
    requires Valid(t)
    ensures Valid(Update(t, p))
  {
    var r := Update(t, p);
    if p.ip.Some? {
      var k := GetFlowKey(p).value;
      if k !in t.flows {
        forall i, j | 0 <= i < j < |r.order| ensures r.order[i] != r.order[j] {
          if j == |t.order| {
            assert r.order[i] == t.order[i];
          }
        }
      }
    }
  }

  /** Every record the loop builds has at least one packet and `start_time <= end_time`,
      whatever order the packets arrive in. */
  lemma {:induction false} AggregateIsValid(ps: seq<Packet>)
    ensures Valid(Aggregate(ps))
    decreases |ps|
  {
    if ps != [] {
      AggregateIsValid(ps[..|ps| - 1]);
      UpdatePreservesValid(Aggregate(ps[..|ps| - 1]), ps[|ps| - 1]);
    }
  }

  // ---------------------------------------------------------------- what a record holds

  /** The packets of `ps` that carry key `k`, in capture order. */
  function PacketsOf(ps: seq<Packet>, k: FlowKey): (s: seq<Packet>)
    ensures forall i :: 0 <= i < |s| ==> s[i].ip.Some?
    ensures forall i :: 0 <= i < |s| ==> s[i] in ps && GetFlowKey(s[i]) == Some(k)
    ensures forall p :: p in ps && GetFlowKey(p) == Some(k) ==> p in s
    decreases |ps|
  {
    if ps == [] then []
    else PacketsOf(ps[..|ps| - 1], k) + (if GetFlowKey(ps[|ps| - 1]) == Some(k) then [ps[|ps| - 1]] else [])
  }

  /** The earliest and the latest capture time of a non-empty sequence of packets. */
  function MinTime(s: seq<Packet>): (m: nat)
    requires s != []
    ensures forall i :: 0 <= i < |s| ==> m <= s[i].time
    ensures exists i :: 0 <= i < |s| && s[i].time == m
    decreases |s|
  {
    if |s| == 1 then s[0].time
    else
      var m := MinTime(s[..|s| - 1]);
      assert forall i :: 0 <= i < |s| - 1 ==> s[..|s| - 1][i] == s[i];
      if m < s[|s| - 1].time then m else s[|s| - 1].time
  }

  function MaxTime(s: seq<Packet>): (m: nat)
    requires s != []
    ensures forall i :: 0 <= i < |s| ==> s[i].time <= m
    ensures exists i :: 0 <= i < |s| && s[i].time == m
    decreases |s|
  {
    if |s| == 1 then s[0].time
    else
      var m := MaxTime(s[..|s| - 1]);
      assert forall i :: 0 <= i < |s| - 1 ==> s[..|s| - 1][i] == s[i];
      if m < s[|s| - 1].time then s[|s| - 1].time else m
  }

  /** Record `k` of `t` summarises the packets `s`: it exists exactly when there are
      some, and then holds the addresses, ports and protocol of the FIRST of them in its
      own direction, their number and total length, and the earliest and latest of their
      times. */
  predicate Summarises(t: Table, s: seq<Packet>, k: FlowKey)
    requires forall i :: 0 <= i < |s| ==> s[i].ip.Some?
  {
    && (k in t.flows <==> s != [])
    && (k in t.flows ==>
          var f := t.flows[k];
          && f.srcIp == s[0].ip.value.src && f.dstIp == s[0].ip.value.dst
          && (f.srcPort, f.dstPort) == Ports(s[0].transport)
          && f.protocol == s[0].ip.value.proto
          && f.totalPackets == |s|
          && f.totalBytes == TotalLength(s)
          && f.startTime == Some(MinTime(s))
          && f.endTime == MaxTime(s))
  }

  /** A packet of key `k` extends the summary by itself. */
  lemma SummaryExtends(t: Table, s0: seq<Packet>, p: Packet, k: FlowKey)
    requires forall i :: 0 <= i < |s0| ==> s0[i].ip.Some?
    requires Summarises(t, s0, k)
    requires p.ip.Some? && GetFlowKey(p) == Some(k)
    ensures forall i :: 0 <= i < |s0 + [p]| ==> (s0 + [p])[i].ip.Some?
    ensures Summarises(Update(t, p), s0 + [p], k)
  {
    var s := s0 + [p];
    assert s[..|s| - 1] == s0;
    if k in t.flows {
      assert s[0] == s0[0];
    } else {
      assert s0 == [];
      assert s == [p];
      assert TotalLength(s) == TotalLength([]) + p.length;
    }
  }

  /** A packet of another key leaves the summary of `k` as it was. */
  lemma SummaryKept(t: Table, s0: seq<Packet>, p: Packet, k: FlowKey)
    requires forall i :: 0 <= i < |s0| ==> s0[i].ip.Some?
    requires Summarises(t, s0, k)
    requires p.ip.None? || GetFlowKey(p) != Some(k)
    ensures Summarises(Update(t, p), s0, k)
  {
  }

  /** Every record the loop builds summarises exactly the packets of its key. */
  lemma {:induction false} AggregateSummarises(ps: seq<Packet>, k: FlowKey)
    ensures Summarises(Aggregate(ps), PacketsOf(ps, k), k)
    decreases |ps|
  {
    if ps != [] {
      var init, p := ps[..|ps| - 1], ps[|ps| - 1];
      var before := PacketsOf(init, k);
      AggregateSummarises(init, k);
      if p.ip.Some? && GetFlowKey(p) == Some(k) {
        assert PacketsOf(ps, k) == before + [p];
        SummaryExtends(Aggregate(init), before, p, k);
      } else {
        assert PacketsOf(ps, k) == before;
        SummaryKept(Aggregate(init), before, p, k);
      }
    }
  }

  /** `start_time <= end_time` for every record, and every packet of the flow lies
      between the two. */
  lemma PacketsLieWithinFlowTimes(ps: seq<Packet>, k: FlowKey, i: nat)
    requires k in Aggregate(ps).flows
    requires i < |PacketsOf(ps, k)|
    ensures var f := Aggregate(ps).flows[k];
      f.startTime.Some? && f.startTime.value <= PacketsOf(ps, k)[i].time <= f.endTime
  {
    AggregateSummarises(ps, k);
  }

  // ---------------------------------------------------------------- CSV rows

  /** The row `process_pcap` writes: endpoints, protocol, duration and totals only. The
      columns it does not write read back as `""` (and `land` as absent). */
  function CsvRow(f: Flow): (row: FlowRow)
    requires f.startTime.Some?
    ensures row.startTime == "" && row.endTime == ""
    ensures row.srcIp == f.srcIp && row.dstIp == f.dstIp
    ensures row.duration == FormatSeconds(f.endTime - f.startTime.value)
    ensures row.protocolType == "" && row.srcBytes == "" && row.dstBytes == "" && row.land.None?
  {
    FlowRow(f.srcIp, f.dstIp, NatToString(f.srcPort), NatToString(f.dstPort),
            NatToString(f.protocol), "", "", "",
            FormatSeconds(f.endTime - f.startTime.value),
            NatToString(f.totalPackets), NatToString(f.totalBytes), "", "", None)
  }

  /** Reading a written row back gives the record's numbers again. */
  lemma CsvRowRoundTrip(f: Flow)
    requires f.startTime.Some?
    ensures var row := CsvRow(f);
      && ParseInt(row.srcPort) == Some(f.srcPort as int)
      && ParseInt(row.dstPort) == Some(f.dstPort as int)
      && ParseInt(row.protocol) == Some(f.protocol as int)
      && ParseInt(row.totalPackets) == Some(f.totalPackets as int)
      && ParseInt(row.totalBytes) == Some(f.totalBytes as int)
  {
    NatToStringRoundTrip(f.srcPort);
    NatToStringRoundTrip(f.dstPort);
    NatToStringRoundTrip(f.protocol);
    NatToStringRoundTrip(f.totalPackets);
    NatToStringRoundTrip(f.totalBytes);
  }

  /** The same row with the flow's first and last times in the `start_time` and
      `end_time` columns, as the log merger needs them; `formatTime` stands for the
      timestamp rendering. */
  function CsvRowWithTimes(f: Flow, formatTime: nat -> string): (row: FlowRow)
    requires f.startTime.Some?
    ensures row == CsvRow(f).(startTime := formatTime(f.startTime.value), endTime := formatTime(f.endTime))
    ensures row.srcIp == f.srcIp && row.srcPort == NatToString(f.srcPort)
  {
    CsvRow(f).(startTime := formatTime(f.startTime.value), endTime := formatTime(f.endTime))
  }

  /** The rows the writer emits for the records of `keys`, in that order. */
  function WrittenRows(keys: seq<FlowKey>, flows: map<FlowKey, Flow>): (rows: seq<FlowRow>)
    requires forall k :: k in keys ==> k in flows && flows[k].startTime.Some?
    ensures |rows| == |keys|
    decreases |keys|
  {
    if keys == [] then []
    else WrittenRows(keys[..|keys| - 1], flows) + [CsvRow(flows[keys[|keys| - 1]])]
  }

  /** Every key of a table the aggregation can produce names a record with a start time. */
  lemma ValidKeysAreWritable(t: Table)
    requires Valid(t)
    ensures forall k :: k in t.order ==> k in t.flows && t.flows[k].startTime.Some?
  {
    forall k | k in t.order
      ensures k in t.flows && t.flows[k].startTime.Some?
    {
      assert FlowValid(k, t.flows[k]);
    }
  }

  /** Writing one more key appends exactly that record's row. */
  lemma WrittenRowsStep(keys: seq<FlowKey>, flows: map<FlowKey, Flow>, i: nat)
    requires i < |keys|
    requires forall k :: k in keys ==> k in flows && flows[k].startTime.Some?
    ensures forall k :: k in keys[..i] ==> k in flows && flows[k].startTime.Some?
    ensures forall k :: k in keys[..i + 1] ==> k in flows && flows[k].startTime.Some?
    ensures keys[i] in flows && flows[keys[i]].startTime.Some?
    ensures WrittenRows(keys[..i + 1], flows) == WrittenRows(keys[..i], flows) + [CsvRow(flows[keys[i]])]
  {
    assert keys[..i + 1][..i] == keys[..i];
    assert keys[i] in keys;
  }

  /** Row `i` of the rows for the first `n` keys is the row of the record of key `i`. */
  lemma {:induction false} WrittenRowAt(keys: seq<FlowKey>, flows: map<FlowKey, Flow>, n: nat, i: nat)
    requires i < n <= |keys|
    requires forall k :: k in keys ==> k in flows && flows[k].startTime.Some?
    ensures forall k :: k in keys[..n] ==> k in flows && flows[k].startTime.Some?
    ensures WrittenRows(keys[..n], flows)[i] == CsvRow(flows[keys[i]])
  {
    WrittenRowsStep(keys, flows, n - 1);
    if i < n - 1 {
      WrittenRowAt(keys, flows, n - 1, i);
    }
  }

  /** The CSV writer of `process_pcap`: the header row, then one row per record in the
      order the flows were first seen. */
  method WriteFlowCsv(table: Table) returns (csv: Csv)
    requires Valid(table)
    ensures csv.header == PollingColumns
    ensures csv.rows == WrittenRows(table.order, table.flows)
    ensures |csv.rows| == |table.order|
  {
    var rows: seq<FlowRow> := [];
    ValidKeysAreWritable(table);
    for i := 0 to |table.order|
      invariant rows == WrittenRows(table.order[..i], table.flows)
    {
      WrittenRowsStep(table.order, table.flows, i);
      var flow := table.flows[table.order[i]];
      rows := rows + [CsvRow(flow)];
    }
    assert table.order[..|table.order|] == table.order;
    csv := Csv(PollingColumns, rows);
  }

  // ---------------------------------------------------------------- divergence from the streaming processor

  /** The record keeps the first packet's direction: a flow opened by the reply packet
      names the greater endpoint as its source, where the streaming processor names the
      smaller one. */
  lemma FirstPacketDirectionIsKept()
    ensures var reply := Packet(Some(IpHeader("172.18.0.3", "10.0.0.1", 6)), Tcp(80, 1234), 1000, 1500);
            var k := FlowKey(Endpoint("10.0.0.1", 1234), Endpoint("172.18.0.3", 80), 6);
            var sk := Streaming.FlowKey("10.0.0.1", "172.18.0.3", 1234, 80, 6);
            && k in Aggregate([reply]).flows
            && Aggregate([reply]).flows[k].srcIp == "172.18.0.3"
            && Aggregate([reply]).flows[k].srcPort == 80
            && sk in Streaming.Aggregate([reply]).flows
            && Streaming.Aggregate([reply]).flows[sk].srcIp == "10.0.0.1"
            && Streaming.Aggregate([reply]).flows[sk].srcPort == 1234
  {
    var reply := Packet(Some(IpHeader("172.18.0.3", "10.0.0.1", 6)), Tcp(80, 1234), 1000, 1500);
    var k := FlowKey(Endpoint("10.0.0.1", 1234), Endpoint("172.18.0.3", 80), 6);
    var sk := Streaming.FlowKey("10.0.0.1", "172.18.0.3", 1234, 80, 6);
    assert StrLess("10.0.0.1", "172.18.0.3");
    assert EndpointLess(Destination(reply), Source(reply));
    assert GetFlowKey(reply) == Some(k);
    assert Streaming.GetFlowKey(reply) == Some(sk);
    PollingReplyFlow(reply);
    StreamingReplyFlow(reply);
  }

  /** The polling record of a lone packet is named after that packet's direction. */
  lemma PollingReplyFlow(p: Packet)
    requires p.ip.Some?
    ensures var k := GetFlowKey(p).value;
      && k in Aggregate([p]).flows
      && Aggregate([p]).flows[k].srcIp == p.ip.value.src
      && (!p.transport.NoPorts? ==> Aggregate([p]).flows[k].srcPort == Ports(p.transport).0)
  {
    assert [p][..0] == [];
    assert Aggregate([p]) == Update(Table([], map[]), p);
  }

  /** The streaming record of a lone packet is named after its key. */
  lemma StreamingReplyFlow(p: Packet)
    requires p.ip.Some?
    ensures var k := Streaming.GetFlowKey(p).value;
      && k in Streaming.Aggregate([p]).flows
      && Streaming.Aggregate([p]).flows[k].srcIp == k.ipA
      && Streaming.Aggregate([p]).flows[k].srcPort == k.portA
  {
    assert [p][..0] == [];
    assert Streaming.Aggregate([p]) == Streaming.Update(Streaming.Table([], map[]), p);
  }

}
