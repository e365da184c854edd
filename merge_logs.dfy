/** The log merger (scripts/merge_logs.py): joins each application-level (L7) request
    log entry to the network flow (L3/4) row it belongs to, derives the NSL-KDD style
    features, and labels the record by its source address. */
module MergeLogs {
  import opened Text
  import opened FlowTable

  // ---------------------------------------------------------------- addresses and labels

  /** The prefix of an IPv4-mapped IPv6 address, as Node reports IPv4 clients. */
  const MappedPrefix: string := "::ffff:"

  /** `extract_ip`: the address with the IPv4-mapped prefix removed when it has one. */
  function ExtractIp(s: string): (r: string)
    ensures s == r || s == MappedPrefix + r
    ensures r == s <==> !StartsWith(s, MappedPrefix)
  {
    if StartsWith(s, MappedPrefix) then
      assert s == MappedPrefix + s[|MappedPrefix|..];
      s[|MappedPrefix|..]
    else s
  }

  /** A mapped address and its plain IPv4 form name the same client. */
  lemma MappedAddressRoundTrip(ip: string)
    ensures ExtractIp(MappedPrefix + ip) == ip
    ensures !StartsWith(ip, MappedPrefix) ==> ExtractIp(ip) == ip
  {
    assert (MappedPrefix + ip)[..|MappedPrefix|] == MappedPrefix;
  }

  datatype Label = Attack | Normal | Unknown

  /** The non-empty stripped pieces, in order. */
  function StrippedNonEmpty(pieces: seq<string>): (r: seq<string>)
    ensures |r| <= |pieces|
    ensures forall i :: 0 <= i < |r| ==> r[i] != []
    decreases |pieces|
  {
    if pieces == [] then []
    else
      var last := Strip(pieces[|pieces| - 1]);
      StrippedNonEmpty(pieces[..|pieces| - 1]) + (if last != [] then [last] else [])
  }

  /** Some piece of `pieces` is `ip` once stripped. */
  predicate StripsTo(pieces: seq<string>, ip: string) {
    exists i :: 0 <= i < |pieces| && Strip(pieces[i]) == ip
  }

  /** Every listed item is a non-empty stripped piece. */
  lemma {:induction false} StrippedNonEmptySound(pieces: seq<string>, ip: string)
    ensures ip in StrippedNonEmpty(pieces) ==> ip != [] && StripsTo(pieces, ip)
    decreases |pieces|
  {
    if pieces != [] && ip in StrippedNonEmpty(pieces) {
      var n := |pieces| - 1;
      var init := pieces[..n];
      var last := Strip(pieces[n]);
      var front := StrippedNonEmpty(init);
      assert StrippedNonEmpty(pieces) == front + (if last != [] then [last] else []);
      if ip in front {
        StrippedNonEmptySound(init, ip);
        var i :| 0 <= i < |init| && Strip(init[i]) == ip;
        assert pieces[i] == init[i];
      } else {
        assert ip == last && ip != [];
        assert Strip(pieces[n]) == ip;
      }
    }
  }

  /** Every non-empty stripped piece is listed. */
  lemma {:induction false} StrippedNonEmptyComplete(pieces: seq<string>, ip: string, i: nat)
    requires i < |pieces| && ip != [] && Strip(pieces[i]) == ip
    ensures ip in StrippedNonEmpty(pieces)
    decreases |pieces|
  {
    var n := |pieces| - 1;
    var init := pieces[..n];
    var last := Strip(pieces[n]);
    var front := StrippedNonEmpty(init);
    assert StrippedNonEmpty(pieces) == front + (if last != [] then [last] else []);
    if i < n {
      assert init[i] == pieces[i];
      StrippedNonEmptyComplete(init, ip, i);
      assert ip in front;
    } else {
      assert ip == last;
    }
  }

  lemma StrippedNonEmptyMembers(pieces: seq<string>, ip: string)
    ensures ip in StrippedNonEmpty(pieces) <==> ip != [] && StripsTo(pieces, ip)
  {
    StrippedNonEmptySound(pieces, ip);
    if ip != [] && StripsTo(pieces, ip) {
      var i :| 0 <= i < |pieces| && Strip(pieces[i]) == ip;
      StrippedNonEmptyComplete(pieces, ip, i);
    }
  }

  /** `[ip.strip() for ip in setting.split(',') if ip.strip()]`. */
  function IpList(setting: string): (ips: seq<string>)
    ensures forall i :: 0 <= i < |ips| ==> ips[i] != []
  {
    StrippedNonEmpty(Split(setting, ','))
  }

  /** An address is listed exactly when it is one of the comma-separated items once the
      surrounding whitespace is removed. */
  lemma IpListMembers(setting: string, ip: string)
    ensures ip in IpList(setting) <==> ip != [] && StripsTo(Split(setting, ','), ip)
  {
    StrippedNonEmptyMembers(Split(setting, ','), ip);
  }

  /** An unset `ATTACKER_IP` or `NORMAL_IP` lists no address. */
  lemma EmptySettingListsNothing()
    ensures IpList("") == []
  {
    assert Split("", ',') == [""];
    assert Strip("") == "";
  }

  /** `label_traffic`: `attack` when the stripped address is an attacker address, else
      `normal` when it is a normal address, else `unknown`. */
  function LabelTraffic(srcIp: string, attackerIp: string, normalIp: string): (l: Label)
    ensures l == Attack <==> ExtractIp(srcIp) in IpList(attackerIp)
    ensures l == Normal <==> ExtractIp(srcIp) !in IpList(attackerIp) && ExtractIp(srcIp) in IpList(normalIp)
    ensures l == Unknown <==> ExtractIp(srcIp) !in IpList(attackerIp) && ExtractIp(srcIp) !in IpList(normalIp)
  {
    var ip := ExtractIp(srcIp);
    if ip in IpList(attackerIp) then Attack
    else if ip in IpList(normalIp) then Normal
    else Unknown
  }

  /** An address listed both as attacker and as normal is labelled an attack, and with
      neither list set every record is `unknown`. */
  lemma LabelPrecedence(srcIp: string, attackerIp: string, normalIp: string)
    ensures ExtractIp(srcIp) in IpList(attackerIp) && ExtractIp(srcIp) in IpList(normalIp) ==>
      LabelTraffic(srcIp, attackerIp, normalIp) == Attack
    ensures LabelTraffic(srcIp, "", "") == Unknown
  {
    EmptySettingListsNothing();
  }

  // ---------------------------------------------------------------- services

  /** `service_map` of `port_to_service`. */
  const ServiceMap: map<int, string> := map[
    20 := "ftp_data", 21 := "ftp", 22 := "ssh", 23 := "telnet", 25 := "smtp",
    53 := "domain", 67 := "domain_u", 68 := "domain_u",
    80 := "http", 110 := "pop_3", 119 := "nntp", 123 := "ntp_u",
    143 := "imap4", 161 := "snmp", 162 := "snmp",
    443 := "http_443", 993 := "imap4", 995 := "pop_3",
    3000 := "http", 8000 := "http_8001", 8080 := "http", 8443 := "http_443"]

  /** The default port of a record with no matched flow: the web application's port. */
  const DefaultServicePort: int := 3000

  /** `port_to_service`: total on every integer. */
  function PortToService(port: int): (service: string)
    ensures port in ServiceMap ==> service == ServiceMap[port]
    ensures port !in ServiceMap ==> service == "other"
  {
    if port in ServiceMap then ServiceMap[port] else "other"
  }

  /** No mapped port is reported as `other`, so `other` means exactly "not in the table";
      the three web ports all give `http`, the default port among them. */
  lemma ServiceIsOtherExactlyWhenUnmapped(port: int)
    ensures PortToService(port) == "other" <==> port !in ServiceMap
    ensures PortToService(80) == PortToService(8080) == PortToService(DefaultServicePort) == "http"
  {
    if port in ServiceMap {
      assert port in {20, 21, 22, 23, 25, 53, 67, 68, 80, 110, 119, 123, 143, 161, 162,
                      443, 993, 995, 3000, 8000, 8080, 8443};
    }
  }

  // ---------------------------------------------------------------- flow index

  /** A bucket key: an address and a port, both as the CSV cells hold them. */
  type IndexKey = (string, string)

  type FlowIndex = map<IndexKey, seq<FlowRow>>

  function SourceKey(f: FlowRow): IndexKey {
    (f.srcIp, f.srcPort)
  }

  function DestinationKey(f: FlowRow): IndexKey {
    (f.dstIp, f.dstPort)
  }

  /** `flow_index.get(key, [])`. */
  function Lookup(index: FlowIndex, k: IndexKey): seq<FlowRow> {
    if k in index then index[k] else []
  }

  /** The bucket `build_flow_index` makes for `k`: each flow, in input order, once for
      its source endpoint and once for its destination endpoint. */
  function Bucket(flows: seq<FlowRow>, k: IndexKey): (b: seq<FlowRow>)
    ensures |b| <= 2 * |flows|
    decreases |flows|
  {
    if flows == [] then []
    else Bucket(flows[..|flows| - 1], k) + Filed(flows[|flows| - 1], k)
  }

  /** What one flow adds to the bucket of `k`: itself for its source endpoint, then
      itself again for its destination endpoint. */
  function Filed(f: FlowRow, k: IndexKey): seq<FlowRow> {
    (if SourceKey(f) == k then [f] else []) + (if DestinationKey(f) == k then [f] else [])
  }

  /** Indexing one more flow appends what it files under `k`. */
  lemma BucketStep(flows: seq<FlowRow>, i: nat, k: IndexKey)
    requires i < |flows|
    ensures Bucket(flows[..i + 1], k) == Bucket(flows[..i], k) + Filed(flows[i], k)
  {
    assert flows[..i + 1][..i] == flows[..i];
  }

  /** `build_flow_index`: a dictionary of buckets, holding a key only once something has
      been appended under it. */
  method BuildFlowIndex(flows: seq<FlowRow>) returns (index: FlowIndex)
    ensures forall k :: Lookup(index, k) == Bucket(flows, k)
    ensures forall k :: k in index <==> Bucket(flows, k) != []
  {
    index := map[];
    for i := 0 to |flows|
      invariant forall k :: Lookup(index, k) == Bucket(flows[..i], k)
      invariant forall k :: k in index ==> index[k] != []
    {
      var flow := flows[i];
      var srcKey := (flow.srcIp, flow.srcPort);
      var dstKey := (flow.dstIp, flow.dstPort);
      ghost var before := index;
      index := index[srcKey := Lookup(index, srcKey) + [flow]];
      index := index[dstKey := Lookup(index, dstKey) + [flow]];
      forall k
        ensures Lookup(index, k) == Bucket(flows[..i + 1], k)
      {
        BucketStep(flows, i, k);
        FiledUnderKey(before, flow, k);
      }
    }
    assert flows[..|flows|] == flows;
  }

  /** Appending a flow under its source key and then under its destination key adds to
      the bucket of `k` exactly what the flow files there. */
  lemma FiledUnderKey(index: FlowIndex, f: FlowRow, k: IndexKey)
    ensures var once := index[SourceKey(f) := Lookup(index, SourceKey(f)) + [f]];
      var twice := once[DestinationKey(f) := Lookup(once, DestinationKey(f)) + [f]];
      Lookup(twice, k) == Lookup(index, k) + Filed(f, k)
  {
    var l := Lookup(index, k);
    if SourceKey(f) == k && DestinationKey(f) == k {
      assert l + [f] + [f] == l + ([f] + [f]);
    } else if SourceKey(f) == k {
      assert Filed(f, k) == [f];
    } else if DestinationKey(f) == k {
      assert Filed(f, k) == [f];
    } else {
      assert Filed(f, k) == [];
      assert l + [] == l;
    }
  }

  /** Buckets keep input order: indexing two batches of flows appends the second's
      entries after the first's. */
  lemma {:induction false} BucketAppend(a: seq<FlowRow>, b: seq<FlowRow>, k: IndexKey)
    ensures Bucket(a + b, k) == Bucket(a, k) + Bucket(b, k)
    decreases |b|
  {
    if b == [] {
      assert a + b == a;
    } else {
      var init, last := b[..|b| - 1], b[|b| - 1];
      BucketAppend(a, init, k);
      assert (a + b)[..|a + b| - 1] == a + init && (a + b)[|a + b| - 1] == last;
      var front, filed := Bucket(init, k), Filed(last, k);
      assert Bucket(b, k) == front + filed;
      assert Bucket(a + b, k) == Bucket(a, k) + front + filed;
    }
  }

  /** Every flow is filed under both of its endpoints. */
  lemma FlowInBothBuckets(flows: seq<FlowRow>, i: nat)
    requires i < |flows|
    ensures flows[i] in Bucket(flows, SourceKey(flows[i]))
    ensures flows[i] in Bucket(flows, DestinationKey(flows[i]))
  {
    FlowInBucket(flows, i, SourceKey(flows[i]));
    FlowInBucket(flows, i, DestinationKey(flows[i]));
  }

  lemma FlowInBucket(flows: seq<FlowRow>, i: nat, k: IndexKey)
    requires i < |flows|
    requires k == SourceKey(flows[i]) || k == DestinationKey(flows[i])
    ensures flows[i] in Bucket(flows, k)
  {
    var f := flows[i];
    assert flows == flows[..i + 1] + flows[i + 1..];
    BucketAppend(flows[..i + 1], flows[i + 1..], k);
    BucketStep(flows, i, k);
    assert f in Filed(f, k);
  }

  /** A bucket holds nothing but flows with an endpoint equal to its key. */
  lemma {:induction false} BucketSound(flows: seq<FlowRow>, k: IndexKey, f: FlowRow)
    requires f in Bucket(flows, k)
    ensures f in flows && (SourceKey(f) == k || DestinationKey(f) == k)
    decreases |flows|
  {
    var last := flows[|flows| - 1];
    var init := flows[..|flows| - 1];
    if f in Bucket(init, k) {
      BucketSound(init, k, f);
    } else {
      assert f == last;
    }
  }

  // ---------------------------------------------------------------- matching

  /** `find_matching_flow`'s default tolerance. */
  const DefaultToleranceMs: int := 5000

  /** `parse_timestamp`: the empty string gives no time; any other string is handed to
      `parseIso`, which stands for `datetime.fromisoformat` after the `Z` and time-zone
      handling, in milliseconds, with `None` for a string it rejects. */
  function ParseTimestamp(s: string, parseIso: string -> Option<int>): (t: Option<int>)
    ensures s == "" ==> t == None
    ensures s != "" ==> t == parseIso(s)
  {
    if s == "" then None else parseIso(s)
  }

  /** Whether `flow` may hold a request made at `t`: both its times parse and
      `start - tolerance <= t <= end + tolerance`. */
  predicate Eligible(flow: FlowRow, t: int, toleranceMs: int, parseIso: string -> Option<int>)
    ensures Eligible(flow, t, toleranceMs, parseIso) ==> flow.startTime != "" && flow.endTime != ""
    ensures Eligible(flow, t, toleranceMs, parseIso) ==>
      ParseTimestamp(flow.startTime, parseIso).Some? && ParseTimestamp(flow.endTime, parseIso).Some?
  {
    var start := ParseTimestamp(flow.startTime, parseIso);
    var end := ParseTimestamp(flow.endTime, parseIso);
    start.Some? && end.Some? && start.value - toleranceMs <= t <= end.value + toleranceMs
  }

  /** `|t - start|` of an eligible flow. */
  function Gap(flow: FlowRow, t: int, parseIso: string -> Option<int>): (g: nat)
    requires ParseTimestamp(flow.startTime, parseIso).Some?
    ensures var start := ParseTimestamp(flow.startTime, parseIso).value;
      (t == start + g || t == start - g) && (g == 0 <==> t == start)
  {
    var start := ParseTimestamp(flow.startTime, parseIso).value;
    if t < start then start - t else t - start
  }

  /** The position the scan of `candidates` ends on: a later eligible flow replaces the
      current best only when it is strictly closer. */
  function Closest(candidates: seq<FlowRow>, t: int, toleranceMs: int, parseIso: string -> Option<int>): (r: Option<nat>)
    ensures r.Some? ==> r.value < |candidates| && Eligible(candidates[r.value], t, toleranceMs, parseIso)
    decreases |candidates|
  {
    if candidates == [] then None
    else
      var n := |candidates| - 1;
      var previous := Closest(candidates[..n], t, toleranceMs, parseIso);
      var flow := candidates[n];
      if Eligible(flow, t, toleranceMs, parseIso) &&
         (previous.None? || Gap(flow, t, parseIso) < Gap(candidates[previous.value], t, parseIso))
      then Some(n)
      else previous
  }

  /** Scanning one more candidate replaces the best so far exactly when the candidate is
      eligible and strictly closer. */
  lemma ClosestStep(candidates: seq<FlowRow>, i: nat, t: int, toleranceMs: int, parseIso: string -> Option<int>)
    requires i < |candidates|
    ensures var previous := Closest(candidates[..i], t, toleranceMs, parseIso);
      var flow := candidates[i];
      Closest(candidates[..i + 1], t, toleranceMs, parseIso) ==
        if Eligible(flow, t, toleranceMs, parseIso) &&
           (previous.None? || Gap(flow, t, parseIso) < Gap(candidates[previous.value], t, parseIso))
        then Some(i) else previous
  {
    assert candidates[..i + 1][..i] == candidates[..i];
  }

  /** Independent description of the chosen flow: eligible, no farther from `t` than any
      eligible flow, and strictly closer than every eligible flow before it. */
  predicate IsFirstClosest(candidates: seq<FlowRow>, i: int, t: int, toleranceMs: int, parseIso: string -> Option<int>) {
    && 0 <= i < |candidates|
    && Eligible(candidates[i], t, toleranceMs, parseIso)
    && (forall j :: 0 <= j < |candidates| && Eligible(candidates[j], t, toleranceMs, parseIso) ==>
          Gap(candidates[i], t, parseIso) <= Gap(candidates[j], t, parseIso))
    && (forall j :: 0 <= j < i && Eligible(candidates[j], t, toleranceMs, parseIso) ==>
          Gap(candidates[i], t, parseIso) < Gap(candidates[j], t, parseIso))
  }

  /** The scan finds nothing exactly when no candidate is eligible, and otherwise finds
      the first of the closest eligible candidates. */
  lemma {:induction false} ClosestIsFirstClosest(candidates: seq<FlowRow>, t: int, toleranceMs: int, parseIso: string -> Option<int>)
    ensures Closest(candidates, t, toleranceMs, parseIso).None? <==>
      forall j :: 0 <= j < |candidates| ==> !Eligible(candidates[j], t, toleranceMs, parseIso)
    ensures Closest(candidates, t, toleranceMs, parseIso).Some? ==>
      IsFirstClosest(candidates, Closest(candidates, t, toleranceMs, parseIso).value, t, toleranceMs, parseIso)
    decreases |candidates|
  {
    if candidates != [] {
      var n := |candidates| - 1;
      var init := candidates[..n];
      ClosestIsFirstClosest(init, t, toleranceMs, parseIso);
      var previous := Closest(init, t, toleranceMs, parseIso);
      assert forall j :: 0 <= j < n ==> init[j] == candidates[j];
      if previous.Some? {
        assert IsFirstClosest(init, previous.value, t, toleranceMs, parseIso);
      }
    }
  }

  /** The lookup key of an L7 entry: its stripped address and `str(src_port)`, which is
      the empty string when the entry carries no port. */
  function EntryKey(entry: L7Entry): (k: IndexKey)
    ensures entry.srcPort.None? <==> k.1 == ""
  {
    (ExtractIp(entry.ip), match entry.srcPort case None => "" case Some(p) => NatToString(p))
  }

  /** What `find_matching_flow` returns for `entry` given the bucket for its key. */
  function MatchIn(entry: L7Entry, candidates: seq<FlowRow>, toleranceMs: int, parseIso: string -> Option<int>): (m: Option<FlowRow>)
    ensures ParseTimestamp(entry.timestamp, parseIso).None? ==> m.None?
    ensures m.Some? ==> (m.value in candidates &&
      Eligible(m.value, ParseTimestamp(entry.timestamp, parseIso).value, toleranceMs, parseIso))
  {
    match ParseTimestamp(entry.timestamp, parseIso)
    case None => None
    case Some(t) =>
      match Closest(candidates, t, toleranceMs, parseIso)
      case None => None
      case Some(i) => Some(candidates[i])
  }

  /** `find_matching_flow`: scans the bucket of the entry's (address, port) keeping the
      eligible flow whose start is closest to the entry's time; `None` for the infinite
      initial `min_diff`. */
  method FindMatchingFlow(entry: L7Entry, flowIndex: FlowIndex, toleranceMs: int, parseIso: string -> Option<int>)
    returns (bestMatch: Option<FlowRow>)
    ensures bestMatch == MatchIn(entry, Lookup(flowIndex, EntryKey(entry)), toleranceMs, parseIso)
  {
    var srcIp := ExtractIp(entry.ip);
    var srcPort := match entry.srcPort case None => "" case Some(p) => NatToString(p);
    var l7Time := ParseTimestamp(entry.timestamp, parseIso);
    if l7Time.None? {
      return None;
    }
    var t := l7Time.value;
    var candidates := Lookup(flowIndex, (srcIp, srcPort));
    bestMatch := None;
    var minDiff: Option<nat> := None;
    ghost var bestIndex: Option<nat> := None;
    for i := 0 to |candidates|
      invariant bestIndex == Closest(candidates[..i], t, toleranceMs, parseIso)
      invariant bestIndex.None? ==> bestMatch.None? && minDiff.None?
      invariant bestIndex.Some? ==> (bestIndex.value < i && bestMatch == Some(candidates[bestIndex.value]) &&
        ParseTimestamp(candidates[bestIndex.value].startTime, parseIso).Some? &&
        minDiff == Some(Gap(candidates[bestIndex.value], t, parseIso)))
    {
      ClosestStep(candidates, i, t, toleranceMs, parseIso);
      var flow := candidates[i];
      var flowStart := ParseTimestamp(flow.startTime, parseIso);
      var flowEnd := ParseTimestamp(flow.endTime, parseIso);
      if flowStart.None? {
        continue;
      }
      if flowEnd.Some? {
        if flowStart.value - toleranceMs <= t <= flowEnd.value + toleranceMs {
          var diff: nat := if t < flowStart.value then flowStart.value - t else t - flowStart.value;
          if minDiff.None? || diff < minDiff.value {
            minDiff := Some(diff);
            bestMatch := Some(flow);
            bestIndex := Some(i);
          }
        }
      }
    }
    assert candidates[..|candidates|] == candidates;
  }

  // ---------------------------------------------------------------- records

  /** The `user` field of a log entry: missing, JSON `null`, or a name. */
  datatype JsonUser = Absent | Null | Named(name: string)

  /** One `Traffic Log` entry, each field already read with the default `merge_logs` gives
      it (`""` or `0`); `srcPort` is `None` when the entry has no `src_port`, and `body`
      is the JSON text of the request body, `""` when the body is missing or empty. */
  datatype L7Entry = L7Entry(
    timestamp: string, requestId: string, ip: string, srcPort: Option<nat>,
    httpMethod: string, url: string, responseStatus: int, durationMs: int, user: JsonUser,
    securityLevel: string, responseSize: int, userAgent: string, numHeaders: int,
    numQueryParams: int, numBodyKeys: int, requestContentLength: int, body: string)

  /** One output row. The flow columns hold the matched flow's cells, `""` without a
      match; `user` is `None` for JSON `null`. */
  datatype MergedRecord = MergedRecord(
    timestamp: string, requestId: string, srcIp: string, srcPort: nat,
    httpMethod: string, url: string, responseStatus: int, durationMs: int, user: Option<string>,
    securityLevel: string, responseSize: int, userAgent: string, numHeaders: int,
    numQueryParams: int, numBodyKeys: int, requestContentLength: int, requestBody: string,
    dstPort: string, protocol: string, protocolType: string,
    flowStartTime: string, flowEndTime: string, flowDuration: string,
    totalPackets: string, totalBytes: string, srcBytes: string, dstBytes: string, land: string,
    service: string, loggedIn: nat, isGuestLogin: nat, numFailedLogins: nat, trafficLabel: Label)

  /** `int(flow['dst_port'])` raised: the whole merge stops. */
  datatype MergeError = BadPort(cell: string)

  /** `l7.get('user', 'anonymous')`. */
  function UserOf(entry: L7Entry): (user: Option<string>)
    ensures user.None? <==> entry.user.Null?
    ensures entry.user.Named? ==> user == Some(entry.user.name)
    ensures entry.user.Absent? ==> user == Some("anonymous")
  {
    match entry.user
    case Absent => Some("anonymous")
    case Null => None
    case Named(name) => Some(name)
  }

  /** A request counts as logged in when it names a user other than `anonymous`. */
  predicate LoggedIn(entry: L7Entry)
    ensures LoggedIn(entry) <==> entry.user.Named? && entry.user.name != "" && entry.user.name != "anonymous"
  {
    var user := UserOf(entry);
    user.Some? && user.value != "" && user.value != "anonymous"
  }

  /** The flow cells of a record without a match: all empty. */
  const NoFlow: FlowRow := FlowRow("", "", "", "", "", "", "", "", "", "", "", "", "", None)

  /** The request columns of `rec` are the entry's own fields: `src_port` defaults to
      0, `user` to `anonymous`, and the body is carried as `request_body`. */
  predicate CopiesEntry(rec: MergedRecord, entry: L7Entry) {
    && rec.timestamp == entry.timestamp && rec.requestId == entry.requestId
    && rec.srcPort == (if entry.srcPort.Some? then entry.srcPort.value else 0)
    && rec.httpMethod == entry.httpMethod && rec.url == entry.url
    && rec.responseStatus == entry.responseStatus && rec.durationMs == entry.durationMs
    && rec.user == UserOf(entry) && rec.securityLevel == entry.securityLevel
    && rec.responseSize == entry.responseSize && rec.userAgent == entry.userAgent
    && rec.numHeaders == entry.numHeaders && rec.numQueryParams == entry.numQueryParams
    && rec.numBodyKeys == entry.numBodyKeys && rec.requestContentLength == entry.requestContentLength
    && rec.requestBody == entry.body
  }

  /** The flow columns of `rec` are the cells of `row`. */
  predicate HoldsFlowCells(rec: MergedRecord, row: FlowRow) {
    && rec.dstPort == row.dstPort && rec.protocol == row.protocol
    && rec.protocolType == row.protocolType
    && rec.flowStartTime == row.startTime && rec.flowEndTime == row.endTime
    && rec.flowDuration == row.duration
    && rec.totalPackets == row.totalPackets && rec.totalBytes == row.totalBytes
    && rec.srcBytes == row.srcBytes && rec.dstBytes == row.dstBytes
  }

  /** `is_guest_login`: the user, lowered, is `guest`. */
  predicate GuestLogin(entry: L7Entry) {
    var user := UserOf(entry);
    user.Some? && user.value != "" && Lower(user.value) == "guest"
  }

  /** `num_failed_logins`: a login page answered 401 or 200 to a request not logged in. */
  predicate FailedLogin(entry: L7Entry) {
    Contains(entry.url, "/login") && entry.responseStatus in {401, 200} && !LoggedIn(entry)
  }

  /** A guest is logged in: `anonymous` does not lower to `guest`. */
  lemma GuestIsLoggedIn(entry: L7Entry)
    ensures GuestLogin(entry) ==> LoggedIn(entry)
  {
    if UserOf(entry) == Some("anonymous") {
      assert Lower("anonymous")[0] == 'a';
    }
  }

  /** A condition as the 0/1 value of an NSL-KDD flag. */
  function Flag(b: bool): (n: nat)
    ensures n <= 1 && (n == 1 <==> b)
  {
    if b then 1 else 0
  }

  /** The record literal of `merge_logs` for `entry` around the flow cells `row`, once
      `land` and `service` are known. */
  function Record(entry: L7Entry, row: FlowRow, land: string, service: string, attackerIp: string,
                  normalIp: string): (rec: MergedRecord)
    ensures CopiesEntry(rec, entry) && HoldsFlowCells(rec, row)
    ensures rec.land == land && rec.service == service
    ensures rec.loggedIn == Flag(LoggedIn(entry)) && rec.isGuestLogin == Flag(GuestLogin(entry))
    ensures rec.numFailedLogins == Flag(FailedLogin(entry))
    ensures rec.srcIp == ExtractIp(entry.ip) && rec.trafficLabel == LabelTraffic(ExtractIp(entry.ip), attackerIp, normalIp)
  {
    var srcIp := ExtractIp(entry.ip);
    MergedRecord(
      entry.timestamp, entry.requestId, srcIp,
      match entry.srcPort case None => 0 case Some(p) => p,
      entry.httpMethod, entry.url, entry.responseStatus, entry.durationMs, UserOf(entry),
      entry.securityLevel, entry.responseSize, entry.userAgent, entry.numHeaders,
      entry.numQueryParams, entry.numBodyKeys, entry.requestContentLength, entry.body,
      row.dstPort, row.protocol, row.protocolType, row.startTime, row.endTime, row.duration,
      row.totalPackets, row.totalBytes, row.srcBytes, row.dstBytes,
      land, service, Flag(LoggedIn(entry)), Flag(GuestLogin(entry)), Flag(FailedLogin(entry)),
      LabelTraffic(srcIp, attackerIp, normalIp))
  }

  /** The record `merge_logs` builds for `entry` and its match `flow`. */
  function BuildRecord(entry: L7Entry, flow: Option<FlowRow>, attackerIp: string, normalIp: string)
    : (r: Result<MergedRecord, MergeError>)
    ensures r.Failure? <==> flow.Some? && flow.value.dstPort != "" && ParseInt(flow.value.dstPort).None?
    ensures r.Success? ==> r.value.loggedIn <= 1 && r.value.isGuestLogin <= 1 && r.value.numFailedLogins <= 1
    ensures r.Success? ==> (r.value.loggedIn == 1 <==> LoggedIn(entry))
    ensures r.Success? && r.value.numFailedLogins == 1 ==>
      r.value.loggedIn == 0 && Contains(entry.url, "/login") && entry.responseStatus in {401, 200}
    ensures r.Success? && r.value.isGuestLogin == 1 ==> r.value.loggedIn == 1
    // without a match every flow column is empty (the cells of `NoFlow`)
    ensures r.Success? && flow.None? ==>
      HoldsFlowCells(r.value, NoFlow) && r.value.land == "0" && r.value.service == "http"
    ensures r.Success? ==> (r.value.srcIp == ExtractIp(entry.ip) &&
      r.value.trafficLabel == LabelTraffic(ExtractIp(entry.ip), attackerIp, normalIp))
    ensures r.Success? ==> CopiesEntry(r.value, entry)
    ensures r.Success? ==> HoldsFlowCells(r.value, if flow.Some? then flow.value else NoFlow)
    ensures r.Success? ==>
      r.value.land == (if flow.Some? && flow.value.land.Some? then flow.value.land.value else "0")
    // the service is named after the flow's destination port, 3000 without one
    ensures r.Success? ==>
      r.value.service == PortToService(
        if flow.Some? && flow.value.dstPort != "" then ParseInt(flow.value.dstPort).value else DefaultServicePort)
    ensures r.Success? ==> (r.value.isGuestLogin == 1 <==> GuestLogin(entry))
    ensures r.Success? ==> (r.value.numFailedLogins == 1 <==> FailedLogin(entry))
  {
    GuestIsLoggedIn(entry);
    match flow
    case None =>
      ServiceIsOtherExactlyWhenUnmapped(DefaultServicePort);
      Success(Record(entry, NoFlow, "0", PortToService(DefaultServicePort), attackerIp, normalIp))
    case Some(row) =>
      var dstPortVal := if row.dstPort != "" then ParseInt(row.dstPort) else Some(DefaultServicePort);
      if dstPortVal.None? then Failure(BadPort(row.dstPort))
      else
        var land := match row.land case None => "0" case Some(l) => l;
        Success(Record(entry, row, land, PortToService(dstPortVal.value), attackerIp, normalIp))
  }

  // ---------------------------------------------------------------- merging

  /** The outcome for one entry: its record built from the flow `find_matching_flow`
      picks out of the entry's bucket. */
  function RecordFor(entry: L7Entry, flows: seq<FlowRow>, attackerIp: string, normalIp: string,
                     parseIso: string -> Option<int>): (r: Result<MergedRecord, MergeError>)
    ensures var flow := MatchIn(entry, Bucket(flows, EntryKey(entry)), DefaultToleranceMs, parseIso);
      && (r.Failure? <==> flow.Some? && flow.value.dstPort != "" && ParseInt(flow.value.dstPort).None?)
      && (r.Success? ==> CopiesEntry(r.value, entry) && HoldsFlowCells(r.value, if flow.Some? then flow.value else NoFlow))
  {
    var flow := MatchIn(entry, Bucket(flows, EntryKey(entry)), DefaultToleranceMs, parseIso);
    BuildRecord(entry, flow, attackerIp, normalIp)
  }

  /** The records `build` gives the entries, in order, or the error of the first entry
      it fails on: the loop of `merge_logs`, whose first exception ends the merge. */
  function MergeWith(entries: seq<L7Entry>, build: L7Entry -> Result<MergedRecord, MergeError>)
    : Result<seq<MergedRecord>, MergeError>
    decreases |entries|
  {
    if entries == [] then Success([])
    else
      match MergeWith(entries[..|entries| - 1], build)
      case Failure(e) => Failure(e)
      case Success(records) =>
        match build(entries[|entries| - 1])
        case Failure(e) => Failure(e)
        case Success(r) => Success(records + [r])
  }

  lemma {:induction false} MergeWithOnePerEntry(entries: seq<L7Entry>, build: L7Entry -> Result<MergedRecord, MergeError>)
    ensures var result := MergeWith(entries, build);
      && (result.Success? <==> forall i :: 0 <= i < |entries| ==> build(entries[i]).Success?)
      && (result.Success? ==> (|result.value| == |entries| &&
            forall i :: 0 <= i < |entries| ==> build(entries[i]) == Success(result.value[i])))
    decreases |entries|
  {
    if entries != [] {
      var n := |entries| - 1;
      MergeWithOnePerEntry(entries[..n], build);
      assert forall i :: 0 <= i < n ==> entries[..n][i] == entries[i];
    }
  }

  lemma {:induction false} MergeWithKeepsFirstFailure(entries: seq<L7Entry>, n: nat,
                                                      build: L7Entry -> Result<MergedRecord, MergeError>)
    requires n <= |entries|
    requires MergeWith(entries[..n], build).Failure?
    ensures MergeWith(entries, build) == MergeWith(entries[..n], build)
    decreases |entries| - n
  {
    if n < |entries| {
      var m := |entries| - 1;
      assert entries[..m][..n] == entries[..n];
      MergeWithKeepsFirstFailure(entries[..m], n, build);
    } else {
      assert entries[..n] == entries;
    }
  }

  /** One more entry either appends what `build` gives it or, when `build` fails on it,
      decides the outcome for all the entries. */
  lemma MergeWithStep(entries: seq<L7Entry>, i: nat, build: L7Entry -> Result<MergedRecord, MergeError>,
                      merged: seq<MergedRecord>)
    requires i < |entries|
    requires MergeWith(entries[..i], build) == Success(merged)
    ensures build(entries[i]).Success? ==> MergeWith(entries[..i + 1], build) == Success(merged + [build(entries[i]).value])
    ensures build(entries[i]).Failure? ==> MergeWith(entries, build) == Failure(build(entries[i]).error)
  {
    assert entries[..i + 1][..i] == entries[..i];
    if build(entries[i]).Failure? {
      MergeWithKeepsFirstFailure(entries, i + 1, build);
    }
  }

  /** What `merge_logs` returns for the entries and the flow rows. */
  function MergeAll(entries: seq<L7Entry>, flows: seq<FlowRow>, attackerIp: string, normalIp: string,
                    parseIso: string -> Option<int>): (result: Result<seq<MergedRecord>, MergeError>)
    ensures result.Success? ==> |result.value| == |entries|
    ensures result.Failure? ==>
      exists i :: 0 <= i < |entries| && RecordFor(entries[i], flows, attackerIp, normalIp, parseIso).Failure?
  {
    MergeWithOnePerEntry(entries, entry => RecordFor(entry, flows, attackerIp, normalIp, parseIso));
    MergeWith(entries, entry => RecordFor(entry, flows, attackerIp, normalIp, parseIso))
  }

  /** Exactly one record per entry, in input order, when the merge succeeds; it fails
      exactly when some entry's record cannot be built. */
  lemma MergeAllOnePerEntry(entries: seq<L7Entry>, flows: seq<FlowRow>, attackerIp: string,
                            normalIp: string, parseIso: string -> Option<int>)
    ensures var result := MergeAll(entries, flows, attackerIp, normalIp, parseIso);
      && (result.Success? <==>
            forall i :: 0 <= i < |entries| ==> RecordFor(entries[i], flows, attackerIp, normalIp, parseIso).Success?)
      && (result.Success? ==> (|result.value| == |entries| &&
            forall i :: 0 <= i < |entries| ==>
              RecordFor(entries[i], flows, attackerIp, normalIp, parseIso) == Success(result.value[i])))
  {
    MergeWithOnePerEntry(entries, entry => RecordFor(entry, flows, attackerIp, normalIp, parseIso));
  }

  /** One more entry either appends its record or, when its record cannot be built,
      decides the outcome of the whole merge. */
  lemma MergeAllStep(entries: seq<L7Entry>, i: nat, flows: seq<FlowRow>, attackerIp: string,
                     normalIp: string, parseIso: string -> Option<int>, merged: seq<MergedRecord>)
    requires i < |entries|
    requires MergeAll(entries[..i], flows, attackerIp, normalIp, parseIso) == Success(merged)
    ensures var r := RecordFor(entries[i], flows, attackerIp, normalIp, parseIso);
      && (r.Success? ==> MergeAll(entries[..i + 1], flows, attackerIp, normalIp, parseIso) == Success(merged + [r.value]))
      && (r.Failure? ==> MergeAll(entries, flows, attackerIp, normalIp, parseIso) == Failure(r.error))
  {
    MergeWithStep(entries, i, entry => RecordFor(entry, flows, attackerIp, normalIp, parseIso), merged);
  }

  /** The body of `merge_logs`'s loop for one entry: look up its flow in the index, then
      derive the record. */
  method MergeEntry(l7: L7Entry, flowIndex: FlowIndex, l3l4Logs: seq<FlowRow>, attackerIp: string,
                    normalIp: string, parseIso: string -> Option<int>)
    returns (record: Result<MergedRecord, MergeError>)
    requires forall k :: Lookup(flowIndex, k) == Bucket(l3l4Logs, k)
    ensures record == RecordFor(l7, l3l4Logs, attackerIp, normalIp, parseIso)
  {
    var flow := FindMatchingFlow(l7, flowIndex, DefaultToleranceMs, parseIso);
    record := BuildRecord(l7, flow, attackerIp, normalIp);
  }

  /** `merge_logs`: indexes the flows, then builds one record per entry; `int()` raising on
      a flow's `dst_port` aborts the whole merge. `parseIso` stands for the timestamp
      parser (see `ParseTimestamp`). */
  method Merge(l7Logs: seq<L7Entry>, l3l4Logs: seq<FlowRow>, attackerIp: string, normalIp: string,
               parseIso: string -> Option<int>) returns (result: Result<seq<MergedRecord>, MergeError>)
    ensures result == MergeAll(l7Logs, l3l4Logs, attackerIp, normalIp, parseIso)
  {
    var flowIndex := BuildFlowIndex(l3l4Logs);
    var merged: seq<MergedRecord> := [];
    for i := 0 to |l7Logs|
      invariant MergeAll(l7Logs[..i], l3l4Logs, attackerIp, normalIp, parseIso) == Success(merged)
    {
      var l7 := l7Logs[i];
      var record := MergeEntry(l7, flowIndex, l3l4Logs, attackerIp, normalIp, parseIso);
      MergeAllStep(l7Logs, i, l3l4Logs, attackerIp, normalIp, parseIso, merged);
      if record.Failure? {
        return Failure(record.error);
      }
      merged := merged + [record.value];
    }
    assert l7Logs[..|l7Logs|] == l7Logs;
    return Success(merged);
  }

  // ---------------------------------------------------------------- output and statistics

  /** The columns of a merged row, in the order the record lists its keys. */
  const MergedColumns: seq<string> := [
    "timestamp", "request_id", "src_ip", "src_port", "method", "url", "response_status",
    "duration_ms", "user", "security_level", "response_size", "user_agent", "num_headers",
    "num_query_params", "num_body_keys", "request_content_length", "request_body",
    "dst_port", "protocol", "protocol_type", "flow_start_time", "flow_end_time",
    "flow_duration", "total_packets", "total_bytes", "src_bytes", "dst_bytes", "land",
    "service", "logged_in", "is_guest_login", "num_failed_logins", "label"]

  datatype MergedCsv = MergedCsv(header: seq<string>, rows: seq<MergedRecord>)

  /** `save_merged_csv`: no file at all for an empty merge, otherwise the header taken from
      the first record's keys followed by every record. */
  function SaveMergedCsv(merged: seq<MergedRecord>): (out: Option<MergedCsv>)
    ensures out.None? <==> merged == []
    ensures out.Some? ==> out.value.header == MergedColumns && out.value.rows == merged
  {
    if merged == [] then None else Some(MergedCsv(MergedColumns, merged))
  }

  /** The number of records of `records` carrying `l`. */
  function CountLabel(records: seq<MergedRecord>, l: Label): (n: nat)
    ensures n <= |records|
    decreases |records|
  {
    if records == [] then 0
    else CountLabel(records[..|records| - 1], l) + (if records[|records| - 1].trafficLabel == l then 1 else 0)
  }

  /** Every record carries exactly one of the three labels. */
  lemma {:induction false} LabelCountsAddUp(records: seq<MergedRecord>)
    ensures CountLabel(records, Attack) + CountLabel(records, Normal) + CountLabel(records, Unknown) == |records|
    decreases |records|
  {
    if records != [] {
      LabelCountsAddUp(records[..|records| - 1]);
    }
  }

  /** The label distribution `main` reports: a `defaultdict(int)` that gains a key the
      first time a label is seen. */
  method LabelDistribution(merged: seq<MergedRecord>) returns (labels: map<Label, nat>)
    ensures forall l :: l in labels <==> CountLabel(merged, l) > 0
    ensures forall l :: l in labels ==> labels[l] == CountLabel(merged, l)
  {
    labels := map[];
    if merged != [] {
      for i := 0 to |merged|
        invariant forall l :: l in labels <==> CountLabel(merged[..i], l) > 0
        invariant forall l :: l in labels ==> labels[l] == CountLabel(merged[..i], l)
      {
        assert merged[..i + 1][..i] == merged[..i];
        var r := merged[i];
        labels := labels[r.trafficLabel := (if r.trafficLabel in labels then labels[r.trafficLabel] else 0) + 1];
      }
      assert merged[..|merged|] == merged;
    }
  }
}
