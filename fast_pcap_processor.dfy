/** The streaming capture-to-CSV converter (scripts/fast_pcap_processor.py): a swapped
    flow key, a single pass over the packets that updates one record per key, and the
    CSV rows with the derived NSL-KDD fields `protocol_type`, `duration` and `land`. */
module FastPcapProcessor {
  import opened Text
  import opened Packets
  import opened FlowTable

  /** The key `(ip_a, ip_b, port_a, port_b, proto)`: the smaller endpoint first. */
  datatype FlowKey = FlowKey(ipA: string, ipB: string, portA: nat, portB: nat, proto: nat)

  function Lo(k: FlowKey): Endpoint { Endpoint(k.ipA, k.portA) }
  function Hi(k: FlowKey): Endpoint { Endpoint(k.ipB, k.portB) }

  /** `get_flow_key`: no key without an IP layer; otherwise the packet's two endpoints,
      exchanged when the source compares greater than the destination. */
  function GetFlowKey(p: Packet): (k: Option<FlowKey>)
    ensures k.None? <==> p.ip.None?
    ensures k.Some? ==> k.value.proto == p.ip.value.proto
    ensures k.Some? ==> (Lo(k.value) == Source(p) && Hi(k.value) == Destination(p)) ||
                        (Lo(k.value) == Destination(p) && Hi(k.value) == Source(p))
    ensures k.Some? && p.transport.NoPorts? ==> k.value.portA == 0 && k.value.portB == 0
  {
    match p.ip
    case None => None
    case Some(h) =>
      var (sport, dport) := Ports(p.transport);
      if EndpointLess(Endpoint(h.dst, dport), Endpoint(h.src, sport)) then
        Some(FlowKey(h.dst, h.src, dport, sport, h.proto))
      else
        Some(FlowKey(h.src, h.dst, sport, dport, h.proto))
  }

  /** The key never puts the greater endpoint first. */
  lemma KeyIsOrdered(p: Packet)
    requires p.ip.Some?
    ensures !EndpointLess(Hi(GetFlowKey(p).value), Lo(GetFlowKey(p).value))
  {
    EndpointLessAsymmetric(Source(p), Destination(p));
  }

  /** A packet and its reply get the same key. */
  lemma KeyIsSymmetric(p: Packet)
    ensures GetFlowKey(Reversed(p)) == GetFlowKey(p)
  {
    if p.ip.Some? {
      ReversedEndpoints(p);
      EndpointLessAsymmetric(Source(p), Destination(p));
      EndpointLessTotal(Source(p), Destination(p));
    }
  }

  // ---------------------------------------------------------------- aggregation

  /** One flow record; the times are `None` until the first packet sets them. */
  datatype Flow = Flow(
    srcIp: string, dstIp: string, srcPort: nat, dstPort: nat, protocol: nat,
    startTime: Option<nat>, endTime: Option<nat>,
    totalPackets: nat, totalBytes: nat, srcBytes: nat, dstBytes: nat)

  /** The record the `defaultdict` creates for a key it has not seen. */
  const EmptyFlow := Flow("", "", 0, 0, 0, None, None, 0, 0, 0, 0)

  /** The `flows` dictionary: its records by key, and its keys in insertion order
      (the order `flows.values()` walks). */
  datatype Table = Table(order: seq<FlowKey>, flows: map<FlowKey, Flow>)

  /** A record as the loop leaves it: created by a packet, with the key's endpoints,
      both times, at least one packet, and every byte counted in one direction. */
  predicate FlowValid(k: FlowKey, f: Flow) {
    && f.srcIp == k.ipA && f.dstIp == k.ipB && f.srcPort == k.portA && f.dstPort == k.portB
    && f.protocol == k.proto
    && f.startTime.Some? && f.endTime.Some?
    && f.totalPackets >= 1
    && f.totalBytes == f.srcBytes + f.dstBytes
  }

  ghost predicate Valid(t: Table) {
    && (forall i, j :: 0 <= i < j < |t.order| ==> t.order[i] != t.order[j])
    && (forall k :: k in t.flows <==> k in t.order)
    && (forall k :: k in t.flows ==> FlowValid(k, t.flows[k]))
  }

  /** The body of the packet loop, for one packet. */
  function Update(t: Table, p: Packet): (r: Table)
    ensures GetFlowKey(p).None? ==> r == t
    ensures GetFlowKey(p).Some? ==>
      var k := GetFlowKey(p).value;
      var before := if k in t.flows then t.flows[k] else EmptyFlow;
      && r.flows.Keys == t.flows.Keys + {k}
      && r.order == (if k in t.flows then t.order else t.order + [k])
      && (forall k' :: k' in t.flows && k' != k ==> r.flows[k'] == t.flows[k'])
      && r.flows[k].totalPackets == before.totalPackets + 1
      && r.flows[k].totalBytes == before.totalBytes + p.length
      && r.flows[k].endTime == Some(p.time)
  // the first packet of a key names the flow after the key and starts its clock;
  // later packets keep both
  ensures GetFlowKey(p).Some? ==>
    var k := GetFlowKey(p).value;
    var before := if k in t.flows then t.flows[k] else EmptyFlow;
    var f := r.flows[k];
    if before.totalPackets == 0 then
      && f.srcIp == k.ipA && f.dstIp == k.ipB && f.srcPort == k.portA && f.dstPort == k.portB
      && f.protocol == k.proto && f.startTime == Some(p.time)
    else
      && f.srcIp == before.srcIp && f.dstIp == before.dstIp
      && f.srcPort == before.srcPort && f.dstPort == before.dstPort
      && f.protocol == before.protocol && f.startTime == before.startTime
  // the length counts as sent from the flow's `src_ip` when the packet comes from it,
  // and as sent from the other side otherwise
  ensures GetFlowKey(p).Some? ==>
    var k := GetFlowKey(p).value;
    var before := if k in t.flows then t.flows[k] else EmptyFlow;
    var f := r.flows[k];
    if p.ip.value.src == f.srcIp then
      f.srcBytes == before.srcBytes + p.length && f.dstBytes == before.dstBytes
    else
      f.srcBytes == before.srcBytes && f.dstBytes == before.dstBytes + p.length
  {
    match GetFlowKey(p)
    case None => t
    case Some(k) =>
      var flow := if k in t.flows then t.flows[k] else EmptyFlow;
      var order := if k in t.flows then t.order else t.order + [k];
      var first :=
        if flow.totalPackets == 0 then
          flow.(srcIp := k.ipA, dstIp := k.ipB, srcPort := k.portA, dstPort := k.portB,
                protocol := k.proto, startTime := Some(p.time))
        else flow;
      var counted := first.(endTime := Some(p.time), totalPackets := first.totalPackets + 1,
                            totalBytes := first.totalBytes + p.length);
      var directed :=
        if p.ip.value.src == counted.srcIp then counted.(srcBytes := counted.srcBytes + p.length)
        else counted.(dstBytes := counted.dstBytes + p.length);
      Table(order, t.flows[k := directed])
  }

  /** The table after the loop has consumed `ps`. */
  function Aggregate(ps: seq<Packet>): (t: Table)
    ensures forall k :: k in t.flows <==> k in t.order
    ensures |t.order| <= |ps|
    decreases |ps|
  {
    if ps == [] then Table([], map[]) else Update(Aggregate(ps[..|ps| - 1]), ps[|ps| - 1])
  }

  /** `process_pcap_streaming`'s packet loop: every packet is counted, packets without a
      key are skipped, and the others update their flow's record. */
  method ProcessPcapStreaming(packets: seq<Packet>) returns (table: Table, packetCount: nat)
    ensures table == Aggregate(packets)
    ensures packetCount == |packets|
  {
    var order: seq<FlowKey> := [];
    var flows: map<FlowKey, Flow> := map[];
    packetCount := 0;
    var i := 0;
    while i < |packets|
      invariant 0 <= i <= |packets|
      invariant packetCount == i
      invariant Table(order, flows) == Aggregate(packets[..i])
    {
      var pkt := packets[i];
      assert packets[..i + 1][..i] == packets[..i];
      packetCount := packetCount + 1;
      var key := GetFlowKey(pkt);
      if key.Some? {
        var k := key.value;
        if k !in flows {
          order := order + [k];
        }
        var flow := if k in flows then flows[k] else EmptyFlow;
        if flow.totalPackets == 0 {
          flow := flow.(srcIp := k.ipA, dstIp := k.ipB, srcPort := k.portA, dstPort := k.portB,
                        protocol := k.proto, startTime := Some(pkt.time));
        }
        flow := flow.(endTime := Some(pkt.time));
        flow := flow.(totalPackets := flow.totalPackets + 1);
        flow := flow.(totalBytes := flow.totalBytes + pkt.length);
        if pkt.ip.value.src == flow.srcIp {
          flow := flow.(srcBytes := flow.srcBytes + pkt.length);
        } else {
          flow := flow.(dstBytes := flow.dstBytes + pkt.length);
        }
        flows := flows[k := flow];
      }
      i := i + 1;
    }
    assert packets[..i] == packets;
    table := Table(order, flows);
  }

  lemma UpdatePreservesValid(t: Table, p: Packet)
    requires Valid(t)
    ensures Valid(Update(t, p))
  {
    var r := Update(t, p);
    if GetFlowKey(p).Some? {
      var k := GetFlowKey(p).value;
      if k !in t.flows {
        forall i, j | 0 <= i < j < |r.order| ensures r.order[i] != r.order[j] {
          if j == |t.order| {
            assert r.order[i] == t.order[i];
          }
        }
      }
    }
  }

  /** Every record the loop builds keeps the key's endpoints, has both times and at
      least one packet, and splits its bytes exactly into the two directions. */
  lemma {:induction false} AggregateIsValid(ps: seq<Packet>)
    ensures Valid(Aggregate(ps))
    decreases |ps|
  {
    if ps != [] {
      AggregateIsValid(ps[..|ps| - 1]);
      UpdatePreservesValid(Aggregate(ps[..|ps| - 1]), ps[|ps| - 1]);
    }
  }

  // ---------------------------------------------------------------- what a record holds

  /** The packets of `ps` that carry key `k`, in capture order. */
  function PacketsOf(ps: seq<Packet>, k: FlowKey): (s: seq<Packet>)
    ensures |s| <= |ps|
    ensures forall i :: 0 <= i < |s| ==> s[i] in ps && GetFlowKey(s[i]) == Some(k)
    ensures forall p :: p in ps && GetFlowKey(p) == Some(k) ==> p in s
    decreases |ps|
  {
    if ps == [] then []
    else PacketsOf(ps[..|ps| - 1], k) + (if GetFlowKey(ps[|ps| - 1]) == Some(k) then [ps[|ps| - 1]] else [])
  }

  /** Record `k` of `t` summarises the packets `s`: it exists exactly when there are
      some, and then holds their number and total length, the bytes sent from the key's
      first address (`src_bytes`) and from the other (`dst_bytes`), the time of the first
      of them (`start_time`) and of the LAST of them (`end_time`, not the latest). */
  predicate Summarises(t: Table, s: seq<Packet>, k: FlowKey) {
    && (k in t.flows <==> s != [])
    && (k in t.flows ==>
          var f := t.flows[k];
          && f.totalPackets == |s|
          && f.totalBytes == TotalLength(s)
          && f.srcBytes == LengthFrom(s, k.ipA)
          && f.dstBytes == TotalLength(s) - LengthFrom(s, k.ipA)
          && f.startTime == Some(s[0].time)
          && f.endTime == Some(s[|s| - 1].time))
  }

  /** A packet of key `k` extends the summary by itself. */
  lemma SummaryExtends(t: Table, s0: seq<Packet>, p: Packet, k: FlowKey)
    requires Valid(t)
    requires Summarises(t, s0, k)
    requires GetFlowKey(p) == Some(k)
    ensures Summarises(Update(t, p), s0 + [p], k)
  {
    var s := s0 + [p];
    assert s[..|s| - 1] == s0;
    if k in t.flows {
      assert s[0] == s0[0];
    } else {
      assert s0 == [];
      assert LengthFrom(s, k.ipA) == LengthFrom([], k.ipA) + (if p.ip.value.src == k.ipA then p.length else 0);
      assert TotalLength(s) == TotalLength([]) + p.length;
    }
  }

  /** A packet of another key leaves the summary of `k` as it was. */
  lemma SummaryKept(t: Table, s0: seq<Packet>, p: Packet, k: FlowKey)
    requires Summarises(t, s0, k)
    requires GetFlowKey(p) != Some(k)
    ensures Summarises(Update(t, p), s0, k)
  {
  }

  /** Every record the loop builds summarises exactly the packets of its key. */
  lemma {:induction false} AggregateSummarises(ps: seq<Packet>, k: FlowKey)
    ensures Summarises(Aggregate(ps), PacketsOf(ps, k), k)
    decreases |ps|
  {
    if ps != [] {
      var init, p := ps[..|ps| - 1], ps[|ps| - 1];
      AggregateSummarises(init, k);
      AggregateIsValid(init);
      if GetFlowKey(p) == Some(k) {
        SummaryExtends(Aggregate(init), PacketsOf(init, k), p, k);
        assert PacketsOf(ps, k) == PacketsOf(init, k) + [p];
      } else {
        SummaryKept(Aggregate(init), PacketsOf(init, k), p, k);
        assert PacketsOf(ps, k) == PacketsOf(init, k);
      }
    }
  }

  /** Packets without an IP layer leave the table exactly as it was. */
  lemma {:induction false} PacketsWithoutIpChangeNothing(ps: seq<Packet>, p: Packet)
    requires p.ip.None?
    ensures Aggregate(ps + [p]) == Aggregate(ps)
  {
    assert (ps + [p])[..|ps|] == ps;
  }

  // ---------------------------------------------------------------- derived features and CSV rows

  /** `proto_map`. */
  const ProtoMap: map<nat, string> := map[6 := "tcp", 17 := "udp", 1 := "icmp"]

  /** `protocol_type`: the `proto_map` entry, `other` for every other protocol number. */
  function ProtocolType(proto: nat): (name: string)
    ensures name == "tcp" <==> proto == 6
    ensures name == "udp" <==> proto == 17
    ensures name == "icmp" <==> proto == 1
    ensures name == "other" <==> proto !in ProtoMap
  {
    if proto in ProtoMap then ProtoMap[proto] else "other"
  }

  /** `land`: 1 exactly when the flow's two addresses are the same. */
  function Land(f: Flow): (land: nat)
    ensures land <= 1
    ensures land == 1 <==> f.srcIp == f.dstIp
  {
    if f.srcIp == f.dstIp then 1 else 0
  }

  /** `duration`, in milliseconds: end minus start, which is negative when the last
      packet of the flow was captured with an earlier time than its first. */
  function Duration(f: Flow): (d: int)
    requires f.startTime.Some? && f.endTime.Some?
    ensures f.startTime.value + d == f.endTime.value
    ensures d < 0 <==> f.endTime.value < f.startTime.value
  {
    f.endTime.value - f.startTime.value
  }

  /** The CSV row written for a record whose times are both set; `formatTime` stands for
      `isoformat()` of the local time. */
  function CsvRow(f: Flow, formatTime: nat -> string): (row: FlowRow)
    requires f.startTime.Some? && f.endTime.Some?
    ensures row.srcIp == f.srcIp && row.dstIp == f.dstIp
    ensures row.startTime == formatTime(f.startTime.value) && row.endTime == formatTime(f.endTime.value)
    ensures row.protocolType == ProtocolType(f.protocol)
    ensures row.duration == FormatSeconds(Duration(f))
    ensures row.land.Some?
  {
    FlowRow(f.srcIp, f.dstIp, NatToString(f.srcPort), NatToString(f.dstPort),
            NatToString(f.protocol), ProtocolType(f.protocol),
            formatTime(f.startTime.value), formatTime(f.endTime.value),
            FormatSeconds(Duration(f)),
            NatToString(f.totalPackets), NatToString(f.totalBytes),
            NatToString(f.srcBytes), NatToString(f.dstBytes),
            Some(NatToString(Land(f))))
  }

  /** Reading a written row back gives the record's numbers again. */
  lemma CsvRowRoundTrip(f: Flow, formatTime: nat -> string)
    requires f.startTime.Some? && f.endTime.Some?
    ensures var row := CsvRow(f, formatTime);
      && ParseInt(row.srcPort) == Some(f.srcPort as int)
      && ParseInt(row.dstPort) == Some(f.dstPort as int)
      && ParseInt(row.protocol) == Some(f.protocol as int)
      && ParseInt(row.totalPackets) == Some(f.totalPackets as int)
      && ParseInt(row.totalBytes) == Some(f.totalBytes as int)
      && ParseInt(row.srcBytes) == Some(f.srcBytes as int)
      && ParseInt(row.dstBytes) == Some(f.dstBytes as int)
      && ParseInt(row.land.value) == Some(Land(f) as int)
  {
    NatToStringRoundTrip(f.srcPort);
    NatToStringRoundTrip(f.dstPort);
    NatToStringRoundTrip(f.protocol);
    NatToStringRoundTrip(f.totalPackets);
    NatToStringRoundTrip(f.totalBytes);
    NatToStringRoundTrip(f.srcBytes);
    NatToStringRoundTrip(f.dstBytes);
    NatToStringRoundTrip(Land(f));
  }

  /** The rows the writer emits for the records of `keys`, in that order: only records
      with both times set. */
  function WrittenRows(keys: seq<FlowKey>, flows: map<FlowKey, Flow>, formatTime: nat -> string): (rows: seq<FlowRow>)
    ensures |rows| <= |keys|
    ensures (forall i :: 0 <= i < |keys| ==>
               keys[i] in flows && flows[keys[i]].startTime.Some? && flows[keys[i]].endTime.Some?) ==>
      |rows| == |keys|
    decreases |keys|
  {
    if keys == [] then []
    else
      var k := keys[|keys| - 1];
      assert forall i :: 0 <= i < |keys| - 1 ==> keys[..|keys| - 1][i] == keys[i];
      WrittenRows(keys[..|keys| - 1], flows, formatTime) +
      (if k in flows && flows[k].startTime.Some? && flows[k].endTime.Some?
       then [CsvRow(flows[k], formatTime)] else [])
  }

  /** The CSV writer: the header row always, then one row per record with both times. */
  method WriteFlowCsv(table: Table, formatTime: nat -> string) returns (csv: Csv)
    ensures csv.header == StreamingColumns
    ensures csv.rows == WrittenRows(table.order, table.flows, formatTime)
  {
    var rows: seq<FlowRow> := [];
    var i := 0;
    while i < |table.order|
      invariant 0 <= i <= |table.order|
      invariant rows == WrittenRows(table.order[..i], table.flows, formatTime)
    {
      WrittenRowsStep(table.order, table.flows, i + 1, formatTime);
      var k := table.order[i];
      if k in table.flows {
        var flow := table.flows[k];
        if flow.startTime.Some? && flow.endTime.Some? {
          rows := rows + [CsvRow(flow, formatTime)];
        }
      }
      i := i + 1;
    }
    assert table.order[..i] == table.order;
    csv := Csv(StreamingColumns, rows);
  }

  /** After the packet loop no record is held back: the writer emits one row per flow,
      in the order the flows were first seen. */
  lemma WrittenRowsOfValid(t: Table, n: nat, formatTime: nat -> string)
    requires Valid(t)
    requires n <= |t.order|
    ensures |WrittenRows(t.order[..n], t.flows, formatTime)| == n
    ensures forall i :: 0 <= i < n ==>
      WrittenRows(t.order[..n], t.flows, formatTime)[i] == CsvRow(t.flows[t.order[i]], formatTime)
  {
    forall i | 0 <= i < |t.order|
      ensures t.order[i] in t.flows && t.flows[t.order[i]].startTime.Some? && t.flows[t.order[i]].endTime.Some?
    {
      assert FlowValid(t.order[i], t.flows[t.order[i]]);
    }
    WrittenRowsCount(t.order, t.flows, n, formatTime);
    forall i | 0 <= i < n
      ensures WrittenRows(t.order[..n], t.flows, formatTime)[i] == CsvRow(t.flows[t.order[i]], formatTime)
    {
      WrittenRowAt(t.order, t.flows, n, i, formatTime);
    }
  }

  /** Writing one more key appends its row when its record has both times, and nothing
      otherwise. */
  lemma WrittenRowsStep(keys: seq<FlowKey>, flows: map<FlowKey, Flow>, n: nat, formatTime: nat -> string)
    requires 0 < n <= |keys|
    ensures var k := keys[n - 1];
      WrittenRows(keys[..n], flows, formatTime) ==
        WrittenRows(keys[..n - 1], flows, formatTime) +
        (if k in flows && flows[k].startTime.Some? && flows[k].endTime.Some?
         then [CsvRow(flows[k], formatTime)] else [])
  {
    assert keys[..n][..n - 1] == keys[..n - 1];
  }

  /** When every key names a record with both times, each key gives one row. */
  lemma {:induction false} WrittenRowsCount(keys: seq<FlowKey>, flows: map<FlowKey, Flow>, n: nat,
                                            formatTime: nat -> string)
    requires n <= |keys|
    requires forall i :: 0 <= i < |keys| ==>
      keys[i] in flows && flows[keys[i]].startTime.Some? && flows[keys[i]].endTime.Some?
    ensures |WrittenRows(keys[..n], flows, formatTime)| == n
  {
    if n > 0 {
      WrittenRowsCount(keys, flows, n - 1, formatTime);
      WrittenRowsStep(keys, flows, n, formatTime);
    }
  }

  /** When every key names a record with both times, row i is the row of key i. */
  lemma {:induction false} WrittenRowAt(keys: seq<FlowKey>, flows: map<FlowKey, Flow>, n: nat, i: nat,
                                        formatTime: nat -> string)
    requires i < n <= |keys|
    requires forall j :: 0 <= j < |keys| ==>
      keys[j] in flows && flows[keys[j]].startTime.Some? && flows[keys[j]].endTime.Some?
    ensures |WrittenRows(keys[..n], flows, formatTime)| == n
    ensures WrittenRows(keys[..n], flows, formatTime)[i] == CsvRow(flows[keys[i]], formatTime)
  {
    WrittenRowsCount(keys, flows, n, formatTime);
    WrittenRowsCount(keys, flows, n - 1, formatTime);
    WrittenRowsStep(keys, flows, n, formatTime);
    if i < n - 1 {
      WrittenRowAt(keys, flows, n - 1, i, formatTime);
    }
  }

  // ---------------------------------------------------------------- divergence from the polling processor

  /** A capture whose second packet carries the earlier time leaves `end_time` before
      `start_time`, so the written duration is negative. */
  lemma LastPacketTimeCanPrecedeFirst()
    ensures var a := Packet(Some(IpHeader("10.0.0.1", "192.168.0.9", 6)), Tcp(1234, 80), 2000, 60);
            var b := Packet(Some(IpHeader("10.0.0.1", "192.168.0.9", 6)), Tcp(1234, 80), 1000, 60);
            var k := FlowKey("10.0.0.1", "192.168.0.9", 1234, 80, 6);
            && k in Aggregate([a, b]).flows
            && Aggregate([a, b]).flows[k].startTime == Some(2000)
            && Aggregate([a, b]).flows[k].endTime == Some(1000)
  {
    var a := Packet(Some(IpHeader("10.0.0.1", "192.168.0.9", 6)), Tcp(1234, 80), 2000, 60);
    var b := Packet(Some(IpHeader("10.0.0.1", "192.168.0.9", 6)), Tcp(1234, 80), 1000, 60);
    var k := FlowKey("10.0.0.1", "192.168.0.9", 1234, 80, 6);
    assert !StrLess("192.168.0.9", "10.0.0.1");
    assert GetFlowKey(a) == Some(k) && GetFlowKey(b) == Some(k);
    assert [a][..0] == [];
    var first := Aggregate([a]);
    assert first == Update(Aggregate([a][..0]), a);
    assert Aggregate([]) == Table([], map[]);
    assert k in first.flows && first.flows[k].startTime == Some(2000) && first.flows[k].totalPackets == 1;
    assert [a, b][..1] == [a];
    assert Aggregate([a, b]) == Update(first, b);
  }
}
