# Flow reconstruction and L7/flow correlation of vuln-shop

vuln-shop collects labelled traffic for intrusion-detection experiments. Two packet
processors turn captures into flow CSV files:

- the streaming batch script `scripts/fast_pcap_processor.py`;
- the polling service `pcap_processor/process.py`.

The log merger `scripts/merge_logs.py` then joins every application request log entry
(an "L7" entry) to the flow row it belongs to. It derives NSL-KDD style features and
labels the record `attack`, `normal` or `unknown` by its source address.

This project models that core in Dafny:

- `Packets` models a decoded packet: an optional IP layer, TCP/UDP ports, a time in
  milliseconds and a length. `Packets` also defines the `(address, port)` ordering.
- `FastPcapProcessor` models the swap-canonicalised flow key, the per-packet update of the
  flow dictionary, the derived `protocol_type`/`land`/`duration`, and the CSV writer.
- `PcapProcessor` models the sorted flow key, the min/max aggregation and its CSV writer.
- `PcapBacklog` models `cleanup_old_files`, the `processed_files` set of the polling
  service, and the selection rule of its main loop.
- `MergeLogs` models `extract_ip`, `label_traffic`, `port_to_service`, `build_flow_index`,
  `find_matching_flow`, the record derivation of `merge_logs`, the empty check of
  `save_merged_csv` and the label count of `main`.
- `Pipeline` relates the processors' CSV rows to what the merger can match.
- `Text` and `FlowTable` hold the shared string operations and the CSV row shape.

The two processors differ, and each is modelled as written:

- The streaming script stores the canonical key's endpoints as `src`/`dst`. The polling
  service stores the first packet's direction (`PcapProcessor.FirstPacketDirectionIsKept`).
- The streaming script's `end_time` is the last packet's time, which can be earlier than
  `start_time` (`FastPcapProcessor.LastPacketTimeCanPrecedeFirst`). The polling service
  keeps the minimum and the maximum.

The request logger in `server.js:45-66` writes no `src_port` field. `find_matching_flow`
then looks under the port `""`, which no written flow row has, so such an entry is never
matched (`Pipeline.MissingPortNeverMatches`).

## Model

| member | source | states |
|---|---|---|
| Text.StrLessIrreflexive | scripts/fast_pcap_processor.py:41 | no address is smaller than itself under Python string order |
| Text.StrLessAsymmetric | scripts/fast_pcap_processor.py:41 | string order never holds both ways |
| Text.StrLessTotal | scripts/fast_pcap_processor.py:41 | two different strings are ordered one way or the other |
| Text.Strip | scripts/merge_logs.py:138-139 | `strip()` returns a slice of the input with only whitespace dropped at both ends, and no whitespace left at either end |
| Text.StripUnchanged | scripts/merge_logs.py:138-139 | a string without whitespace at its ends is its own strip |
| Text.StripPadded | scripts/merge_logs.py:138-139 | whitespace put around a string that has none at its ends is exactly what `strip()` removes |
| Text.Split | scripts/merge_logs.py:138-139 | `split(',')` gives at least one piece, and no piece contains the separator |
| Text.JoinSplit | scripts/merge_logs.py:138-139 | joining the pieces of a split with the separator gives the string back |
| Text.LowerChar | scripts/merge_logs.py:191 | ASCII capitals map to lower case and every other character is unchanged |
| Text.Lower | scripts/merge_logs.py:191 | `lower()` keeps the length and lowers each character |
| Text.NatToString | scripts/merge_logs.py:102 | `str(n)` is a non-empty string of digits |
| Text.NatToStringNoLeadingZero | scripts/merge_logs.py:102 | `str(n)` has no leading zero: it starts with `0` only for zero |
| Text.ParseInt | scripts/merge_logs.py:184 | `int(s)` succeeds only when `s` contains a digit |
| Text.ParseIntSign | scripts/merge_logs.py:184 | `int(s)` needs a non-blank stripped string, is negative only when that starts with `-`, and reads a stripped run of digits as their decimal value |
| Text.ParseIntPadded | scripts/merge_logs.py:184 | `int()` reads `str(n)` back as `n` whatever whitespace surrounds it |
| Text.NatToStringRoundTrip | scripts/merge_logs.py:184 | `int(str(n)) == n`: a port written by a processor is read back by the merger |
| Text.NatToStringInjective | scripts/merge_logs.py:102 | two different ports never render as the same key string |
| Text.DigitsValueAppend | scripts/merge_logs.py:184 | the value of a digit string is positional: appending digits shifts the value before them by a power of ten |
| Packets.Ports | scripts/fast_pcap_processor.py:32-38 | a packet's ports are those of its TCP or UDP layer, otherwise 0 and 0 |
| Packets.EndpointLessAsymmetric | scripts/fast_pcap_processor.py:41 | tuple order on `(ip, port)` never holds both ways |
| Packets.EndpointLessTotal | scripts/fast_pcap_processor.py:41 | two different endpoints are ordered one way or the other |
| Packets.Reversed | scripts/fast_pcap_processor.py:40-43 | the reply packet keeps the time and length |
| Packets.ReversedEndpoints | scripts/fast_pcap_processor.py:40-43 | the reply packet swaps source and destination and keeps the protocol |
| FlowTable.FormatSeconds | scripts/fast_pcap_processor.py:128 | `f"{d:.6f}"` ends in a point and six digits, the last three 0, and starts with a minus sign exactly for negative durations |
| FlowTable.Pad3Value | scripts/fast_pcap_processor.py:128 | the three millisecond digits read back as the milliseconds |
| FlowTable.FractionValue | scripts/fast_pcap_processor.py:128 | the six digits after the point read back as the milliseconds times 1000 |
| FlowTable.FormatSecondsValue | scripts/fast_pcap_processor.py:118-128 | the rendering is an optional minus sign, the whole seconds, a point and six digits; read back, they give the magnitude of the duration in microseconds |
| FastPcapProcessor.GetFlowKey | scripts/fast_pcap_processor.py:22-43 | no key exactly when there is no IP layer; the key holds the packet's protocol and its two endpoints in one order or the other; ports are 0 without TCP/UDP |
| FastPcapProcessor.KeyIsOrdered | scripts/fast_pcap_processor.py:41-43 | the key's first endpoint is not greater than its second |
| FastPcapProcessor.KeyIsSymmetric | scripts/fast_pcap_processor.py:40-43 | a packet and its reply get the same key |
| FastPcapProcessor.Update | scripts/fast_pcap_processor.py:67-94 | a packet without a key changes nothing; otherwise only its flow changes: one more packet, `len` more bytes, and the packet's time as `end_time`; the first packet names the flow after the key and sets `start_time`, later packets keep both; the length counts as `src_bytes` exactly when the packet comes from the flow's `src_ip`, otherwise as `dst_bytes` |
| FastPcapProcessor.ProcessPcapStreaming | scripts/fast_pcap_processor.py:58-94 | the loop builds the dictionary the per-packet updates define, and counts every packet read |
| FastPcapProcessor.Aggregate | scripts/fast_pcap_processor.py:61-94 | a record exists exactly for the keys in insertion order, and there are no more keys than packets |
| FastPcapProcessor.UpdatePreservesValid | scripts/fast_pcap_processor.py:86-94 | each update keeps `total_bytes == src_bytes + dst_bytes`, at least one packet per flow, and both times set |
| FastPcapProcessor.AggregateIsValid | scripts/fast_pcap_processor.py:61-94 | after any packet sequence, every flow satisfies the invariant above |
| FastPcapProcessor.PacketsOf | scripts/fast_pcap_processor.py:67-71 | exactly the capture's packets that carry the key: every filed packet comes from the capture and has the key, and every such packet is filed |
| FastPcapProcessor.SummaryExtends | scripts/fast_pcap_processor.py:78-94 | a packet of the key adds itself to its record's summary: one more packet, its length on the sending side, its time as `end_time`, and `start_time` kept |
| FastPcapProcessor.AggregateSummarises | scripts/fast_pcap_processor.py:61-94 | a flow exists exactly when packets have its key; its counters are their count and total length, split by sender; `start_time` is the first packet's time and `end_time` the last one's |
| FastPcapProcessor.PacketsWithoutIpChangeNothing | scripts/fast_pcap_processor.py:67-69 | a packet without an IP layer leaves the dictionary as it was |
| FastPcapProcessor.ProtocolType | scripts/fast_pcap_processor.py:106 | `tcp`, `udp` and `icmp` exactly for 6, 17 and 1, and `other` for every other protocol |
| FastPcapProcessor.Land | scripts/fast_pcap_processor.py:120 | `land` is 0 or 1, and 1 exactly when the source and destination addresses are equal |
| FastPcapProcessor.Duration | scripts/fast_pcap_processor.py:118 | `duration` is end minus start: the start plus the duration is the end, and it is negative exactly when the end precedes the start |
| FastPcapProcessor.CsvRow | scripts/fast_pcap_processor.py:116-132 | the written row carries the flow's addresses, its rendered times, its protocol type, a `land` cell, and the rendering of end minus start as its `duration` |
| FastPcapProcessor.CsvRowRoundTrip | scripts/fast_pcap_processor.py:122-132 | reading the row's number cells back gives the flow's ports, protocol, counters and `land` |
| FastPcapProcessor.WrittenRows | scripts/fast_pcap_processor.py:116-132 | at most one row per key, and exactly one per key when every record has both times |
| FastPcapProcessor.WriteFlowCsv | scripts/fast_pcap_processor.py:108-132 | the header is written even for no flows, followed by one row per flow with both times, in insertion order |
| FastPcapProcessor.WrittenRowsOfValid | scripts/fast_pcap_processor.py:116-132 | for a reachable dictionary, every flow is written: row i is flow i's row |
| FastPcapProcessor.LastPacketTimeCanPrecedeFirst | scripts/fast_pcap_processor.py:84-86 | packets captured out of order leave an `end_time` earlier than `start_time` |
| PcapProcessor.GetFlowKey | pcap_processor/process.py:14-31 | no key exactly when there is no IP layer; the key is the two endpoints in sorted order plus the protocol; ports are 0 without TCP/UDP |
| PcapProcessor.KeysAgree | pcap_processor/process.py:29 | the sorted key and the swapped key of the streaming script hold the same endpoints in the same order |
| PcapProcessor.KeyIsSymmetricAndSorted | pcap_processor/process.py:28-30 | a packet and its reply get the same key, and its first endpoint is not greater than the second |
| PcapProcessor.EarlierOf | pcap_processor/process.py:77 | `min(start, t)` with an infinite initial start: not above either, and equal to one of them |
| PcapProcessor.Max | pcap_processor/process.py:78 | `max(end, t)` is not below either and equals one of them |
| PcapProcessor.Update | pcap_processor/process.py:54-80 | a packet without an IP layer changes nothing; otherwise only its flow changes: one more packet, `len` more bytes, `start_time` the minimum and `end_time` the maximum of the old value and the packet's time; the first packet names the flow after its own source, destination, protocol and TCP/UDP ports, and later packets keep them |
| PcapProcessor.ProcessPcap | pcap_processor/process.py:54-80 | the loop builds the dictionary the per-packet updates define |
| PcapProcessor.Aggregate | pcap_processor/process.py:54-80 | a record exists exactly for the keys in insertion order, and there are no more keys than packets |
| PcapProcessor.CountPacket | pcap_processor/process.py:58-80 | the loop body computes exactly the per-packet update: a new record takes the first packet's endpoints and ports, then the min/max times and counters are updated |
| PcapProcessor.UpdatePreservesValid | pcap_processor/process.py:77-80 | each update keeps `start_time <= end_time` and at least one packet per flow |
| PcapProcessor.AggregateIsValid | pcap_processor/process.py:54-80 | after any packet sequence every flow satisfies the invariant above |
| PcapProcessor.PacketsOf | pcap_processor/process.py:55-62 | exactly the capture's packets that carry the key, all with an IP layer: every filed packet comes from the capture and has the key, and every such packet is filed |
| PcapProcessor.SummaryExtends | pcap_processor/process.py:65-80 | a packet of the key adds itself to its record's summary: the first packet names the record, and the times become the minimum and maximum so far |
| PcapProcessor.MinTime | pcap_processor/process.py:77 | the minimum is attained and below every packet time |
| PcapProcessor.MaxTime | pcap_processor/process.py:78 | the maximum is attained and above every packet time |
| PcapProcessor.AggregateSummarises | pcap_processor/process.py:54-80 | a flow exists exactly when packets have its key; its endpoints and protocol are the first packet's; its counters are their count and total length; its times are their minimum and maximum |
| PcapProcessor.PacketsLieWithinFlowTimes | pcap_processor/process.py:77-78 | every packet of a flow lies between its `start_time` and `end_time`, whatever the arrival order |
| PcapProcessor.CsvRow | pcap_processor/process.py:88-99 | the row carries the flow's addresses and has no times, `protocol_type`, byte split or `land`; its `duration` is the rendering of `end_time - start_time` |
| PcapProcessor.CsvRowRoundTrip | pcap_processor/process.py:91-98 | reading the row's port, protocol and counter cells back gives the flow's values |
| PcapProcessor.CsvRowWithTimes | pcap_processor/process.py:84-99 | the same row with the flow's first and last times written out |
| PcapProcessor.WrittenRows | pcap_processor/process.py:88-99 | one row per key |
| PcapProcessor.WrittenRowAt | pcap_processor/process.py:88-99 | row i is the row of the record of key i, in insertion order |
| PcapProcessor.WriteFlowCsv | pcap_processor/process.py:84-99 | the header, then exactly one row per flow in insertion order |
| PcapProcessor.FirstPacketDirectionIsKept | pcap_processor/process.py:65-74 | a flow first seen in the reply direction is stored in that direction, unlike the streaming script's flow |
| PcapProcessor.PollingReplyFlow | pcap_processor/process.py:65-74 | the record of a lone packet carries that packet's source address and, with TCP/UDP, its source port |
| PcapProcessor.StreamingReplyFlow | scripts/fast_pcap_processor.py:78-84 | the streaming record of a lone packet carries the key's first address and port, whatever the packet's direction |
| PcapBacklog.InsertByMtime | pcap_processor/process.py:160 | inserting keeps the list sorted by mtime and a permutation of its input |
| PcapBacklog.SortByMtime | pcap_processor/process.py:160 | the listing sorted by mtime, oldest first, as a permutation of the listing |
| PcapBacklog.Unprocessed | pcap_processor/process.py:162-167 | the waiting list is no longer than the listing |
| PcapBacklog.UnprocessedMembers | pcap_processor/process.py:164-167 | a file waits exactly when it has no CSV and is not in `processed_files` |
| PcapBacklog.UnprocessedSorted | pcap_processor/process.py:160-167 | the waiting list stays oldest first |
| PcapBacklog.Deletable | pcap_processor/process.py:173-178 | the dropped files are no more than the files to delete |
| PcapBacklog.DeletableMembers | pcap_processor/process.py:173-178 | exactly the files whose deletion does not raise are dropped |
| PcapBacklog.Victims | pcap_processor/process.py:169-171 | no victims while at most 50 captures wait; otherwise all but 50 of them, taken from the oldest end of the waiting list |
| PcapBacklog.Stems | pcap_processor/process.py:176 | a set of names no larger than its list |
| PcapBacklog.StemsAppend | pcap_processor/process.py:176 | marking one more file adds exactly its name |
| PcapBacklog.StemsMembers | pcap_processor/process.py:176 | a name is marked exactly when some dropped file carries it |
| PcapBacklog.VictimsAreOldest | pcap_processor/process.py:169-171 | nothing is deleted while at most 50 files wait; otherwise exactly the newest 50 are kept, and every victim is no newer than any kept file |
| PcapBacklog.UnprocessedMarked | pcap_processor/process.py:166-176 | marking names as processed removes exactly those names from the waiting list |
| PcapBacklog.OldestMarkedLeaveRest | pcap_processor/process.py:170-176 | marking the oldest n waiting captures leaves at most the others waiting |
| PcapBacklog.CleanupBoundsBacklog | pcap_processor/process.py:169-176 | when every deletion succeeds, at most 50 captures remain waiting |
| PcapBacklog.Processor.constructor | pcap_processor/process.py:126 | `processed_files` starts empty |
| PcapBacklog.Processor.ListUnprocessed | pcap_processor/process.py:160-167 | the loop builds the waiting list, oldest first |
| PcapBacklog.Processor.DeleteFiles | pcap_processor/process.py:173-178 | exactly the files whose deletion succeeds are dropped and added to `processed_files` |
| PcapBacklog.Processor.CleanupOldFiles | pcap_processor/process.py:152-181 | the dropped files are the deletable victims of the eviction rule, and `processed_files` grows by exactly their names |
| PcapBacklog.Processor.ReadyToConvert | pcap_processor/process.py:138-141 | a capture is ready exactly when it has no CSV, is not in `processed_files`, and was last modified at least 10 seconds ago |
| PcapBacklog.Processor.PollOnce | pcap_processor/process.py:132-144 | each capture is tested against its own reading of the clock: a capture is converted only if it was ready when tested; every capture ready when tested is converted; no name twice; `processed_files` grows by exactly the converted names, so none of them is ever ready again |
| MergeLogs.ExtractIp | scripts/merge_logs.py:75-79 | the result is the input, or the input is `::ffff:` followed by the result; it is unchanged exactly when the prefix is absent |
| MergeLogs.MappedAddressRoundTrip | scripts/merge_logs.py:75-79 | a mapped address yields its IPv4 form, and an unmapped one is kept |
| MergeLogs.IpList | scripts/merge_logs.py:138-139 | the configured list holds no empty item |
| MergeLogs.IpListMembers | scripts/merge_logs.py:138-139 | an address is listed exactly when it is non-empty and equals a stripped comma-separated item |
| MergeLogs.EmptySettingListsNothing | scripts/merge_logs.py:138-139 | an unset setting lists no address |
| MergeLogs.LabelTraffic | scripts/merge_logs.py:133-146 | `attack` exactly when the stripped address is an attacker address; `normal` exactly when it is not but is a normal address; otherwise `unknown` |
| MergeLogs.LabelPrecedence | scripts/merge_logs.py:141-146 | an address in both lists is an attack, and with neither list set everything is `unknown` |
| MergeLogs.PortToService | scripts/merge_logs.py:149-159 | mapped ports give their table entry and all other integers give `other` |
| MergeLogs.ServiceIsOtherExactlyWhenUnmapped | scripts/merge_logs.py:149-159 | `other` means exactly "not in the table"; ports 80, 8080 and the default 3000 give `http` |
| MergeLogs.Bucket | scripts/merge_logs.py:86-94 | a bucket has at most two entries per flow |
| MergeLogs.FiledUnderKey | scripts/merge_logs.py:93-94 | the two appends of one flow add to a bucket exactly the flow once per endpoint equal to its key, twice when both are |
| MergeLogs.BuildFlowIndex | scripts/merge_logs.py:82-96 | every lookup returns the bucket of each flow appended under both endpoints, in input order; a key is present exactly when its bucket is non-empty |
| MergeLogs.BucketAppend | scripts/merge_logs.py:86-94 | buckets keep input order: indexing more flows only appends |
| MergeLogs.FlowInBothBuckets | scripts/merge_logs.py:93-94 | every flow is in the bucket of its source and of its destination |
| MergeLogs.BucketSound | scripts/merge_logs.py:93-94 | a bucket holds only input flows with an endpoint equal to its key |
| MergeLogs.ParseTimestamp | scripts/merge_logs.py:58-72 | the empty string gives no time; any other string is left to the ISO parser |
| MergeLogs.Eligible | scripts/merge_logs.py:114-124 | an eligible flow has a non-empty `start_time` and `end_time`, and both parse |
| MergeLogs.Gap | scripts/merge_logs.py:125 | the distance between the entry's time and the flow's start, zero exactly when they coincide |
| MergeLogs.Closest | scripts/merge_logs.py:110-128 | the scan's result, when there is one, is an eligible candidate |
| MergeLogs.ClosestStep | scripts/merge_logs.py:123-128 | one more candidate replaces the best so far exactly when it is eligible and strictly closer |
| MergeLogs.ClosestIsFirstClosest | scripts/merge_logs.py:113-128 | no result exactly when no candidate is eligible; otherwise the result is no farther from the entry's time than any eligible candidate, and strictly closer than every earlier eligible one |
| MergeLogs.EntryKey | scripts/merge_logs.py:101-102 | the port part of the lookup key is empty exactly when the entry has no `src_port` |
| MergeLogs.MatchIn | scripts/merge_logs.py:101-130 | no match when the entry's timestamp does not parse, whatever the index holds; a match is in the entry's bucket and has `start - tol <= t <= end + tol` |
| MergeLogs.FindMatchingFlow | scripts/merge_logs.py:99-130 | the loop with `min_diff` and strict `<` returns the first closest eligible flow of the entry's bucket |
| MergeLogs.UserOf | scripts/merge_logs.py:180 | a missing `user` is `anonymous`, JSON `null` is no user, and a name is kept |
| MergeLogs.LoggedIn | scripts/merge_logs.py:188 | logged in exactly when the entry names a non-empty user other than `anonymous`; a missing user never is |
| MergeLogs.GuestIsLoggedIn | scripts/merge_logs.py:188-191 | a guest login is always a logged-in one, since `anonymous` does not lower to `guest` |
| MergeLogs.BuildRecord | scripts/merge_logs.py:179-238 | the merge fails exactly when a matched flow's non-empty `dst_port` is not an integer; otherwise the request columns are the entry's fields (`src_port` 0 and `user` `anonymous` when missing) and the flow columns the matched row's cells, all empty without a match; `land` is the row's or 0; the service is `port_to_service` of the row's `dst_port`, 3000 without one; `logged_in`, `is_guest_login` and `num_failed_logins` are 1 exactly under their definitions, and a guest or a failed login implies the corresponding `logged_in`; the label is `label_traffic` of the stripped address |
| MergeLogs.RecordFor | scripts/merge_logs.py:171-238 | an entry's record fails exactly when its match has a non-empty `dst_port` that is not an integer; otherwise it carries the entry's fields and the match's cells |
| MergeLogs.MergeWithOnePerEntry | scripts/merge_logs.py:171-240 | a successful loop yields one record per entry, record i being entry i's; it succeeds exactly when every entry's record can be built |
| MergeLogs.MergeWithKeepsFirstFailure | scripts/merge_logs.py:171-184 | the first entry that raises decides the outcome, whatever follows |
| MergeLogs.MergeWithStep | scripts/merge_logs.py:171-240 | one more entry appends its record, or its failure becomes the outcome for all the entries |
| MergeLogs.MergeAll | scripts/merge_logs.py:162-243 | a successful merge has one record per entry, and a failed one comes from an entry whose record cannot be built |
| MergeLogs.MergeAllStep | scripts/merge_logs.py:171-240 | one more entry appends its record, or its failure becomes the outcome of the whole merge |
| MergeLogs.MergeAllOnePerEntry | scripts/merge_logs.py:162-243 | `merge_logs` emits exactly one record per L7 entry, in input order, each built from that entry's match |
| MergeLogs.MergeEntry | scripts/merge_logs.py:173-238 | the loop body, given an index that holds every bucket, computes exactly the record the specification gives for the entry |
| MergeLogs.Merge | scripts/merge_logs.py:162-243 | the method indexes the flows and returns what the specification above defines, including the failure |
| MergeLogs.SaveMergedCsv | scripts/merge_logs.py:246-259 | nothing is written exactly when there are no records; otherwise the header is the record's keys and every record follows |
| MergeLogs.CountLabel | scripts/merge_logs.py:299-301 | a label count never exceeds the number of records |
| MergeLogs.LabelCountsAddUp | scripts/merge_logs.py:298-304 | the three label counts add up to the number of records |
| MergeLogs.LabelDistribution | scripts/merge_logs.py:298-301 | a label is present exactly when some record carries it, with the number of records carrying it |
| Pipeline.EligibleRowIsMatched | scripts/merge_logs.py:108-128 | a row under the entry's key whose window admits the entry's time is never passed over: a match at least as close is returned |
| Pipeline.UntimedRowsNeverMatch | scripts/merge_logs.py:114-118 | rows with an empty `start_time` are never returned |
| Pipeline.PollingRowsUntimed | pcap_processor/process.py:86-99 | every row the polling writer emits leaves `start_time` empty |
| Pipeline.PollingRowsNeverMatch | pcap_processor/process.py:84-99 | no L7 entry is matched to any row of the polling service's CSV; every such record has empty flow columns, `land` 0 and service `http` |
| Pipeline.TimedPollingRowMatches | pcap_processor/process.py:84-99 | with times written, an entry from the flow's first endpoint within the tolerance is matched |
| Pipeline.StreamingRowMatches | scripts/fast_pcap_processor.py:122-132 | an entry from either endpoint of a streaming flow, within the tolerance, is matched |
| Pipeline.MissingPortNeverMatches | scripts/merge_logs.py:102-108 | an entry without `src_port` has an empty bucket among rows with written ports, so it is never matched |
| Pipeline.StreamingRecordCarriesFlow | scripts/merge_logs.py:184-228 | a record built around a streaming row carries the flow: service from its destination port, its `land` flag, `protocol_type`, start time and duration, and its port and counters read back |
| Pipeline.PollingRecordCarriesFlow | scripts/merge_logs.py:184-228 | a record built around a timed polling row carries the flow's service, duration, protocol and counters, with `land` 0 and no `protocol_type` |

## Left out

- Packet decoding by scapy (`rdpcap`, `PcapReader`, layer lookups) is not modelled. A packet is a value with an optional IP header, optional TCP/UDP ports, a time and a length.
- Reading errors of a capture are not modelled: the early `return` without a CSV in both processors, and the `try` around the polling loop.
- Times are integer milliseconds. Float timestamps, `datetime.fromtimestamp`, `isoformat` and time zones are left out. `formatTime` and `parseIso` are parameters that stand for rendering and ISO parsing. The UTC `Z` stamps of the logger and the local-time stamps of the streaming script are not compared.
- FlowTable.FormatSeconds: renders integer milliseconds and pads to microseconds. It is not Python's float formatting.
- PcapBacklog.SortByMtime: states order and permutation but not stability (ties keeping listing order), since the listing order of `glob` is not modelled either.
- `len(pkt)` is taken as given, with no link to the packet's bytes.
- File and directory I/O is not modelled: globbing, `csv` reading and writing, `mkdir`, `unlink`, `stat`, and `PCAP_DIR.exists()`. Also left out are printing, `argparse`, the environment variables, the 10-second `sleep` of the polling loop, and the streaming script's `main`, which skips files by size.
- The conversion itself inside the polling round is left out: `convert_pcap_to_csv` runs `process_pcap` and deletes the capture.
- PcapBacklog.Processor.PollOnce: returns the converted captures instead of converting them. A capture is identified by its stem, because every capture sits in the same directory. The clock reading `time.time()` for each capture is a parameter, one per listed capture; the model does not assume these readings increase.
- PcapBacklog.Processor.CleanupOldFiles: names whose deletion raises are a parameter (`undeletable`). The mtimes are given, and files do not change between listing and deleting.
- MergeLogs.BuildFlowIndex: the total of twice the number of flows is stated per flow (each flow is filed under both endpoints), not as a sum over the dictionary.
- MergeLogs.Merge: `matched_count` is not kept, since it is only printed.
- MergeLogs.FindMatchingFlow: compares `|t - start|` in integer milliseconds rather than float seconds.
- MergeLogs.L7Entry: fields are already read with the merger's defaults. Non-integer `src_port` values, non-string `user` values and the JSON encoding of the request body are not modelled. `load_l7_logs` and its message filter are not part of this model.
- Text.Strip, Text.Lower and Text.ParseInt: cover ASCII whitespace and letters, a sign and ASCII digits. Unicode whitespace, Unicode case mapping and underscores in `int()` are left out.
- PcapProcessor.WriteFlowCsv: requires a dictionary that the aggregation can produce (`Valid`). A flow that received no packet, with an infinite `start_time`, cannot occur.

## Findings

| source | as written | input that shows it | evidently intended | confidence | as-written member | corrected member |
|---|---|---|---|---|---|---|
| pcap_processor/process.py:84-99 | the polling service's CSV has no `start_time`/`end_time` columns, and `find_matching_flow` skips a flow without `start_time` | any capture, e.g. one TCP packet from 10.0.0.5:40000 to port 3000, and an L7 entry from that address and port at the same time | write the flow's first and last times, as the streaming script does, so that the merger can correlate the rows (`Pipeline.TimedPollingRowMatches`) | medium, not executed | Pipeline.PollingRowsNeverMatch | PcapProcessor.CsvRowWithTimes |
