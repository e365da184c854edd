/** How the flow CSV files of the two packet processors fare in the log merger: which
    rows `find_matching_flow` can ever return. */
module Pipeline {
  import opened Text
  import opened Packets
  import opened FlowTable
  import opened MergeLogs
  import Streaming = FastPcapProcessor
  import Polling = PcapProcessor

  /** A row filed under the entry's key whose times admit the entry's time is never
      passed over: the scan returns a flow at least as close to the entry's time. */
  lemma EligibleRowIsMatched(entry: L7Entry, rows: seq<FlowRow>, i: nat, toleranceMs: int,
                             parseIso: string -> Option<int>)
    requires i < |rows|
    requires ParseTimestamp(entry.timestamp, parseIso).Some?
    requires SourceKey(rows[i]) == EntryKey(entry) || DestinationKey(rows[i]) == EntryKey(entry)
    requires Eligible(rows[i], ParseTimestamp(entry.timestamp, parseIso).value, toleranceMs, parseIso)
    ensures var m := MatchIn(entry, Bucket(rows, EntryKey(entry)), toleranceMs, parseIso);
      var t := ParseTimestamp(entry.timestamp, parseIso).value;
      m.Some? && Gap(m.value, t, parseIso) <= Gap(rows[i], t, parseIso)
  {
    var t := ParseTimestamp(entry.timestamp, parseIso).value;
    var bucket := Bucket(rows, EntryKey(entry));
    FlowInBothBuckets(rows, i);
    assert rows[i] in bucket;
    var j :| 0 <= j < |bucket| && bucket[j] == rows[i];
    ClosestIsFirstClosest(bucket, t, toleranceMs, parseIso);
    var c := Closest(bucket, t, toleranceMs, parseIso);
    assert c.Some?;
    assert IsFirstClosest(bucket, c.value, t, toleranceMs, parseIso);
    assert Gap(bucket[c.value], t, parseIso) <= Gap(bucket[j], t, parseIso);
    assert MatchIn(entry, bucket, toleranceMs, parseIso) == Some(bucket[c.value]);
  }

  /** Rows whose `start_time` is empty are never returned, whatever the entry. */
  lemma UntimedRowsNeverMatch(entry: L7Entry, rows: seq<FlowRow>, toleranceMs: int, parseIso: string -> Option<int>)
    requires forall r :: r in rows ==> r.startTime == ""
    ensures MatchIn(entry, Bucket(rows, EntryKey(entry)), toleranceMs, parseIso) == None
  {
    var bucket := Bucket(rows, EntryKey(entry));
    forall r | r in bucket ensures r.startTime == "" {
      BucketSound(rows, EntryKey(entry), r);
    }
    if ParseTimestamp(entry.timestamp, parseIso).Some? {
      ClosestIsFirstClosest(bucket, ParseTimestamp(entry.timestamp, parseIso).value, toleranceMs, parseIso);
    }
  }

  /** Every row the polling writer emits leaves `start_time` empty. */
  lemma {:induction false} PollingRowsUntimed(keys: seq<Polling.FlowKey>, flows: map<Polling.FlowKey, Polling.Flow>)
    requires forall k :: k in keys ==> k in flows && flows[k].startTime.Some?
    ensures forall r :: r in Polling.WrittenRows(keys, flows) ==> r.startTime == ""
    decreases |keys|
  {
    if keys != [] {
      PollingRowsUntimed(keys[..|keys| - 1], flows);
    }
  }

  /** The CSV `process_pcap` writes has no `start_time` column, so the merger matches no
      L7 entry to any of its rows: every merged record gets empty flow columns, `land`
      0 and the default `http` service. */
  lemma PollingRowsNeverMatch(entry: L7Entry, packets: seq<Packet>, attackerIp: string, normalIp: string,
                              parseIso: string -> Option<int>)
    ensures var table := Polling.Aggregate(packets);
      Polling.Valid(table) &&
      var rows := Polling.WrittenRows(table.order, table.flows);
      && MatchIn(entry, Bucket(rows, EntryKey(entry)), DefaultToleranceMs, parseIso) == None
      && var r := RecordFor(entry, rows, attackerIp, normalIp, parseIso);
         r.Success? && r.value.flowStartTime == "" && r.value.totalPackets == "" &&
         r.value.land == "0" && r.value.service == "http"
  {
    var table := Polling.Aggregate(packets);
    Polling.AggregateIsValid(packets);
    PollingRowsUntimed(table.order, table.flows);
    UntimedRowsNeverMatch(entry, Polling.WrittenRows(table.order, table.flows), DefaultToleranceMs, parseIso);
  }

  /** With the flow's times written out (rendered by a `formatTime` that `parseIso` reads
      back), a polling row is found for every entry from the flow's first endpoint whose
      time lies within the tolerance of the flow. */
  lemma TimedPollingRowMatches(entry: L7Entry, f: Polling.Flow, rows: seq<FlowRow>, i: nat,
                               formatTime: nat -> string, parseIso: string -> Option<int>)
    requires f.startTime.Some?
    requires i < |rows| && rows[i] == Polling.CsvRowWithTimes(f, formatTime)
    requires forall ms: nat :: formatTime(ms) != "" && parseIso(formatTime(ms)) == Some(ms)
    requires ExtractIp(entry.ip) == f.srcIp && entry.srcPort == Some(f.srcPort)
    requires ParseTimestamp(entry.timestamp, parseIso).Some?
    requires var t := ParseTimestamp(entry.timestamp, parseIso).value;
      f.startTime.value - DefaultToleranceMs <= t <= f.endTime + DefaultToleranceMs
    ensures MatchIn(entry, Bucket(rows, EntryKey(entry)), DefaultToleranceMs, parseIso).Some?
  {
    assert parseIso(formatTime(f.startTime.value)) == Some(f.startTime.value);
    assert parseIso(formatTime(f.endTime)) == Some(f.endTime);
    EligibleRowIsMatched(entry, rows, i, DefaultToleranceMs, parseIso);
  }

  /** The streaming processor's rows are found the same way: an entry from either
      endpoint of the flow, timed within the tolerance, is matched. */
  lemma StreamingRowMatches(entry: L7Entry, f: Streaming.Flow, rows: seq<FlowRow>, i: nat,
                            formatTime: nat -> string, parseIso: string -> Option<int>)
    requires f.startTime.Some? && f.endTime.Some?
    requires i < |rows| && rows[i] == Streaming.CsvRow(f, formatTime)
    requires forall ms: nat :: formatTime(ms) != "" && parseIso(formatTime(ms)) == Some(ms)
    requires (ExtractIp(entry.ip) == f.srcIp && entry.srcPort == Some(f.srcPort)) ||
             (ExtractIp(entry.ip) == f.dstIp && entry.srcPort == Some(f.dstPort))
    requires ParseTimestamp(entry.timestamp, parseIso).Some?
    requires var t := ParseTimestamp(entry.timestamp, parseIso).value;
      f.startTime.value - DefaultToleranceMs <= t <= f.endTime.value + DefaultToleranceMs
    ensures MatchIn(entry, Bucket(rows, EntryKey(entry)), DefaultToleranceMs, parseIso).Some?
  {
    assert parseIso(formatTime(f.startTime.value)) == Some(f.startTime.value);
    assert parseIso(formatTime(f.endTime.value)) == Some(f.endTime.value);
    EligibleRowIsMatched(entry, rows, i, DefaultToleranceMs, parseIso);
  }

  /** An entry without `src_port` looks under the port `""`, which no row with written
      ports has: it is matched to nothing. */
  lemma MissingPortNeverMatches(entry: L7Entry, rows: seq<FlowRow>, toleranceMs: int, parseIso: string -> Option<int>)
    requires entry.srcPort.None?
    requires forall r :: r in rows ==> r.srcPort != "" && r.dstPort != ""
    ensures Bucket(rows, EntryKey(entry)) == []
    ensures MatchIn(entry, Bucket(rows, EntryKey(entry)), toleranceMs, parseIso) == None
  {
    var bucket := Bucket(rows, EntryKey(entry));
    if bucket != [] {
      BucketSound(rows, EntryKey(entry), bucket[0]);
    }
  }

  /** The record built around a streaming row carries the flow itself: the service named
      after its destination port, its `land` flag, its duration, and its counters read
      back from the cells. */
  lemma StreamingRecordCarriesFlow(entry: L7Entry, f: Streaming.Flow, row: FlowRow, formatTime: nat -> string,
                                   attackerIp: string, normalIp: string)
    requires f.startTime.Some? && f.endTime.Some? && row == Streaming.CsvRow(f, formatTime)
    ensures var r := BuildRecord(entry, Some(row), attackerIp, normalIp);
      && r.Success?
      && r.value.service == PortToService(f.dstPort)
      && r.value.land == NatToString(Streaming.Land(f))
      && r.value.protocolType == Streaming.ProtocolType(f.protocol)
      && r.value.flowStartTime == formatTime(f.startTime.value)
      && r.value.flowDuration == FormatSeconds(f.endTime.value - f.startTime.value)
      && ParseInt(r.value.dstPort) == Some(f.dstPort as int)
      && ParseInt(r.value.totalPackets) == Some(f.totalPackets as int)
      && ParseInt(r.value.srcBytes) == Some(f.srcBytes as int)
      && ParseInt(r.value.dstBytes) == Some(f.dstBytes as int)
  {
    Streaming.CsvRowRoundTrip(f, formatTime);
    assert row.dstPort == NatToString(f.dstPort) && row.dstPort != "";
    var r := BuildRecord(entry, Some(row), attackerIp, normalIp);
    assert r.Success? && HoldsFlowCells(r.value, row);
  }

  /** The record built around a timed polling row: the service named after the flow's
      destination port, `land` 0, no `protocol_type`, and the counters read back. */
  lemma PollingRecordCarriesFlow(entry: L7Entry, f: Polling.Flow, row: FlowRow, formatTime: nat -> string,
                                 attackerIp: string, normalIp: string)
    requires f.startTime.Some? && row == Polling.CsvRowWithTimes(f, formatTime)
    ensures var r := BuildRecord(entry, Some(row), attackerIp, normalIp);
      && r.Success?
      && r.value.service == PortToService(f.dstPort)
      && r.value.land == "0" && r.value.protocolType == ""
      && r.value.flowDuration == FormatSeconds(f.endTime - f.startTime.value)
      && ParseInt(r.value.protocol) == Some(f.protocol as int)
      && ParseInt(r.value.totalPackets) == Some(f.totalPackets as int)
      && ParseInt(r.value.totalBytes) == Some(f.totalBytes as int)
  {
    assert row.dstPort == NatToString(f.dstPort) && row.land.None?;
    assert row.protocolType == "" && row.duration == FormatSeconds(f.endTime - f.startTime.value);
    NatToStringRoundTrip(f.dstPort);
    Polling.CsvRowRoundTrip(f);
  }
}
