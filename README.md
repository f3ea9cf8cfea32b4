# GoNetWatch core in Dafny

This project models the core of GoNetWatch, a network monitoring and interception tool, and proves properties of the model. It covers these parts:

- **ARP resolver** (`GetMAC`): broadcasts one ARP request for an IPv4 address, then waits up to three seconds for the matching reply.
- **Subnet scanner** (`Scan`):
  - applies the configuration defaults;
  - walks the local IPv4 subnet with an in-place increment, skipping the network, broadcast and local addresses, up to a host cap;
  - records the first ARP reply from each address in the subnet;
  - returns the hosts sorted by address.
- **Spoofing engine** (`NewEngine`, `Start`, `Stop`, the spoof loop's tick, `cleanup`): sends forged ARP replies to a target and its gateway, then restores the true mappings on stop.
- **Traffic statistics** (`TrafficStats`): byte and packet counters, per-source bytes, per-protocol counts, a 50-entry domain log, rates since the last reading, and sorted top-talker and protocol listings.
- **Anomaly detector** (`AnomalyDetector`): the broadcast-storm, unsecure-protocol and per-source DoS rules, with a 20-entry alert history.
- **The smaller pure pieces:**
  - the well-known port table;
  - the tshark line predicate and the record conversion;
  - `formatBytes`;
  - the string truncation and panel-width helpers of the terminal view.

## How it is modelled

- Objects whose fields the Go code updates become Dafny classes: `TrafficStats`, `AnomalyDetector` and `Engine`.
  - Each class has a spec state: a datatype returned by `State()`.
  - Each method ensures that the new state equals a rule function applied to the old state and the inputs.
  - The lemmas about the source's promises are proved about those rule functions.
- Loops that change local variables become methods with loop invariants:
  - the probe loop, `inc`, the masking loops and the reply wait;
  - the address search, the insertion sort used for `sort.Slice`, and the `formatBytes` loop.
- Bytes are integers 0..255. Bitwise `&`, `|` and `^` are defined bit by bit on natural numbers.
- Values that come from outside become inputs:
  - the clock (`now`);
  - pcap results (does the handle open, does the filter apply, does each write succeed);
  - the received frames;
  - the ticker and cancellation events of the probe loop.
- Frames the program writes are returned as sequences, or appended to an action log.

## Differences between the code and its documentation

In each case the model follows the code.

- `ScanConfig.MaxHosts` is documented as defaulting to 4096 when unset (internal/discovery/scanner.go:27). The 4096 only applies to a nil configuration. A non-nil configuration with `MaxHosts == 0` means no cap (lines 51-53).
- internal/analysis/stats.go:53 calls `NewAnomalyDetector(DefaultConfig())`. The constructor at internal/analysis/anomalies.go:49 takes no arguments, and no `DefaultConfig` exists. The model uses the argument-less constructor and the detector's hard-coded thresholds.
- The detector has no configuration and no periodic cleanup of idle entries, so none is modelled.
- internal/reporting/report.go:27-29 calls `GetTotalDataTransferred`, `GetAllDomains` and `GetAllAlerts`. `TrafficStats` does not have these methods, so they are not modelled.
- The engine has no "resolving" state. `NewEngine` resolves both addresses before the engine exists.
- `Start` has no guard against a second call.
- The listings are sorted non-increasing, with ties in any order.
- A cancellation during the probe loop fails the scan with the context error, even after probes were sent. A cancellation during the final idle wait returns what was collected.

## Model

| member | source | states |
|---|---|---|
| View.TruncateEnd | internal/tui/view.go:321-333 | a non-positive bound gives the empty string; a string within the bound is kept; a longer one is cut to exactly the bound, its first `max-3` bytes kept and "..." at the end once the bound exceeds 3 |
| View.TruncateMiddle | internal/tui/view.go:335-348 | a non-positive bound gives ""; a string within the bound is kept; beyond 3, a longer one keeps `(max-3)/2` bytes of its head and of its tail around "...", one byte short of the bound when `max-3` is odd |
| View.TruncationsFit | internal/tui/view.go:321-348 | neither truncation yields more bytes than a non-negative bound |
| View.TruncationsIdempotent | internal/tui/view.go:321-348 | truncating again with the same bound changes nothing |
| View.DomainWidth | internal/tui/view.go:350-362 | 30 exactly for an unknown width (0); otherwise 18 exactly below 60, 22 from 60 to 89 and 32 exactly from 90 |
| View.AlertWidth | internal/tui/view.go:364-376 | 40 exactly for an unknown width; otherwise 28 exactly below 70, 34 from 70 to 89 and 48 exactly from 90 |
| View.WidthsMonotone | internal/tui/view.go:350-376 | a wider known terminal never gets a narrower domain or alert column |
| View.MarginForWidth | internal/tui/view.go:313-319 | the margin is 0 or 1, and 0 exactly on a known terminal narrower than 80 columns |
| GoStrings.TrimLeft | internal/tshark/monitor.go:67 | the result is a suffix of the line; it is empty or starts with a non-blank byte; every byte removed is blank |
| GoStrings.TrimRight | internal/tshark/monitor.go:67 | the result is a prefix; it is empty or ends with a non-blank byte; every byte removed is blank |
| GoStrings.TrimSpaceEmptyIffAllSpace | internal/tshark/monitor.go:67 | a trimmed line is empty exactly when every byte of it is white space |
| Strconv.DigitChar | internal/analysis/service_map.go:27 | the character of a decimal digit is a digit and denotes that digit |
| Strconv.Digits | internal/analysis/service_map.go:27 | the decimal rendering of a natural number is non-empty and made only of digits |
| Strconv.DigitsValue | internal/analysis/service_map.go:27 | the digits of `n` denote `n` |
| Strconv.ItoaShape | internal/analysis/service_map.go:27 | `Itoa` is never empty, never starts with '+', starts with '-' exactly for a negative number, and has only digits after the first byte |
| Strconv.ItoaInjective | internal/analysis/service_map.go:27 | two integers with the same rendering are equal |
| Strconv.DigitRunLength | internal/tshark/monitor.go:106 | the leading run of digits lies within the string and is maximal |
| Strconv.DigitRunFull | internal/tshark/monitor.go:106 | a string made only of digits is its own leading run |
| Strconv.Atoi | internal/tshark/monitor.go:106-135 | the value always fits in 64 bits, and on any error it is 0 or one of the two 64-bit bounds |
| Strconv.AtoiItoa | internal/tshark/monitor.go:106-135 | parsing the rendering of any 64-bit integer gives it back, with no error |
| ServiceMap.CommonPort | internal/analysis/service_map.go:5-20 | every listed name is non-empty and starts with a capital letter |
| ServiceMap.ListedPortsExactly | internal/analysis/service_map.go:5-20 | a port has a name exactly when it is one of the fourteen listed ports |
| ServiceMap.GetServiceName | internal/analysis/service_map.go:22-28 | the name is never empty, and it starts like a number (digit or '-') exactly when the port is not listed |
| ServiceMap.ListedNamesLow | internal/analysis/service_map.go:5-14 | ports 20 to 143 get their listed names |
| ServiceMap.ListedNamesHigh | internal/analysis/service_map.go:15-19 | ports 443 to 8080 get their listed names |
| ServiceMap.UnlistedParsesBack | internal/analysis/service_map.go:22-28 | the name of an unlisted 64-bit port parses back to the port with no error |
| ServiceMap.ServiceNameInjective | internal/analysis/service_map.go:22-28 | different ports never share a name |
| Tshark.Transport | internal/tshark/monitor.go:119-140 | TCP exactly when a TCP port field is present, else UDP exactly when a UDP port field is present, else OTHER; the ports are the parsed first values of the chosen layer (0 for an absent field, and both 0 for OTHER) |
| Tshark.ConvertToModel | internal/tshark/monitor.go:93-157 | a record with neither IP address is dropped and every other one is kept; the timestamp is the clock reading; protocol and ports are those of the transport choice; the addresses and the Ethernet destination are the first values of their fields ("" when absent); the length is the parsed frame length when it parses and 0 otherwise; the numbers fit in 64 bits |
| Tshark.HostnamePriority | internal/tshark/monitor.go:142-149 | a non-empty SNI wins, then a non-empty DNS name, and otherwise the host name is the first HTTP Host value ("" when absent); the host name is empty exactly when none of the three fields has a non-empty first value |
| Tshark.ConvertRender | internal/tshark/monitor.go:93-157 | converting the EK record of a packet summary gives that summary back |
| Tshark.LineSelectedIffMarker | internal/tshark/monitor.go:64-75 | the blank-line test never rejects a line the marker test accepts: a line is passed on exactly when it contains `"layers"` |
| History.Trim | internal/analysis/anomalies.go:172-175 | the trimmed history has `min(len, cap)` entries and is the tail of the history |
| History.TrimAppend | internal/analysis/anomalies.go:168-176 | trimming an intermediate history does not change the final trim |
| History.TrimExtend | internal/analysis/stats.go:94-99 | two appends with a trim after each equal one append of both with one trim |
| History.PushAllKeepsLast | internal/analysis/anomalies.go:168-176 | starting within capacity, pushing entries one after another keeps exactly the last `cap` of everything pushed, oldest first |
| History.PushBound | internal/analysis/stats.go:94-99 | the history never exceeds its capacity; below it a push appends, and at it a push drops the oldest entry |
| Anomalies.KeyInjective | internal/analysis/anomalies.go:117 | two different (source, port) pairs never share a throttle key `"<ip>:<port>"` |
| Anomalies.AnomalyDetector.constructor | internal/analysis/anomalies.go:49-60 | a new detector has zero counters, the zero time as broadcast window, empty maps and no alerts |
| Anomalies.AnomalyDetector.ProcessPacket | internal/analysis/anomalies.go:62-77 | the new state is the three rules applied in order with one clock reading |
| Anomalies.AnomalyDetector.DetectBroadcastStorm | internal/analysis/anomalies.go:79-105 | the new state is the storm rule applied to the old one |
| Anomalies.AnomalyDetector.DetectUnsecureProtocol | internal/analysis/anomalies.go:107-131 | the new state is the plaintext-protocol rule applied to the old one |
| Anomalies.AnomalyDetector.DetectDoS | internal/analysis/anomalies.go:133-166 | the new state is the per-source rate rule applied to the old one |
| Anomalies.AnomalyDetector.RefreshIPWindow | internal/analysis/anomalies.go:139-149 | a new source gets a window at `now` and count 0; an expired window restarts at `now` with count 0; nothing else changes |
| Anomalies.AnomalyDetector.CountIP | internal/analysis/anomalies.go:151-165 | the source's count goes up by one; past 500 one alert naming the count is pushed and the window restarts at `now` with count 0 |
| Anomalies.AnomalyDetector.AddAlert | internal/analysis/anomalies.go:168-176 | the history becomes the last 20 of the old history plus the alert, and no other field changes |
| Anomalies.AnomalyDetector.GetRecentAlerts | internal/analysis/anomalies.go:178-198 | the result is the newest `limit` alerts (all of them when there are fewer), oldest first |
| Anomalies.BroadcastKeepsInv | internal/analysis/anomalies.go:79-105 | the storm rule keeps the broadcast count within 0..50, every source count within 0..500 and at most 20 alerts |
| Anomalies.UnsecureKeepsInv | internal/analysis/anomalies.go:107-131 | the plaintext rule keeps those bounds |
| Anomalies.DoSKeepsInv | internal/analysis/anomalies.go:133-166 | the rate rule keeps those bounds |
| Anomalies.ProcessKeepsInv | internal/analysis/anomalies.go:62-77 | every packet keeps those bounds |
| Anomalies.AlertsReportThreshold | internal/analysis/anomalies.go:92-160 | within the bounds a storm alert always reports 51 broadcasts and a rate alert 501 packets |
| Anomalies.OnlyBroadcastsCount | internal/analysis/anomalies.go:80-82 | only frames to ff:ff:ff:ff:ff:ff touch the storm counter and window, and the other rules never do |
| Anomalies.StormFiresIff | internal/analysis/anomalies.go:84-92 | the storm alert fires exactly when the frame is a broadcast and its count passes 50, the count restarting once more than a second has passed |
| Anomalies.StormWindowMoves | internal/analysis/anomalies.go:84-103 | the window moves only to `now` and only on expiry or an alert; after an alert the count is 0; without one no alert is stored and the count is the old one (or 0 on expiry) plus one |
| Anomalies.StormRunCounts | internal/analysis/anomalies.go:84-89 | the first k broadcasts of a fresh window (k up to 50) only count, opening the window at the first arrival |
| Anomalies.StormAfter51 | internal/analysis/anomalies.go:80-105 | 51 broadcasts within a second of a fresh window raise exactly one storm alert reporting 51, and leave the count 0 with the window at the last arrival |
| Anomalies.UnsecureThrottle | internal/analysis/anomalies.go:108-131 | plaintext alerts fire only for ports 80, 21 and 23 and at most once per (source, port) pair in any 10 seconds; without an alert nothing changes; with one only that pair's time moves |
| Anomalies.UnsecureOncePerPair | internal/analysis/anomalies.go:115-129 | two port-80 packets of a new pair five seconds apart raise exactly one alert |
| Anomalies.DoSPerSource | internal/analysis/anomalies.go:134-165 | packets without a source are ignored, and another source's count and window never change |
| Anomalies.DoSRunCounts | internal/analysis/anomalies.go:139-151 | the first k packets of a fresh source window (k up to 500) only count |
| Anomalies.DoSCountStep | internal/analysis/anomalies.go:144-151 | a packet in a live window (at most a second old) whose count is below 500 raises the count by one and keeps the window start |
| Anomalies.DoSFirstStep | internal/analysis/anomalies.go:139-151 | the first packet of a source without a window opens one at `now` with count 1 |
| Anomalies.DoSFiresAt501 | internal/analysis/anomalies.go:151-165 | the 501st packet of a live window raises the rate alert reporting 501 and restarts the window at `now` |
| Anomalies.DoSAfter501 | internal/analysis/anomalies.go:134-166 | 501 packets from one source within a second of a fresh window raise exactly one rate alert naming that source and reporting 501 |
| Anomalies.BroadcastAlerts | internal/analysis/anomalies.go:79-105 | the storm rule appends at most its own alert and leaves the plaintext and rate fields alone |
| Anomalies.UnsecureAlerts | internal/analysis/anomalies.go:107-131 | the plaintext rule appends at most its own alert and leaves the rate fields alone |
| Anomalies.DoSAlerts | internal/analysis/anomalies.go:133-166 | the rate rule appends at most its own alert |
| Anomalies.ProcessAlerts | internal/analysis/anomalies.go:62-176 | one packet adds its raised alerts (storm, then plaintext, then rate) and the history keeps the last 20 |
| Anomalies.ProcessPushesRaised | internal/analysis/anomalies.go:62-176 | a packet raises at most three alerts, and the history equals them pushed one by one through `addAlert` |
| Anomalies.HistoryKeepsLast | internal/analysis/anomalies.go:44-176 | over any run of packets the history is the last 20 of everything raised, oldest first |
| Stats.ProtocolKey | internal/analysis/stats.go:71-77 | the counting key is never empty and is the packet's protocol whenever that is non-empty |
| Stats.TrafficStats.constructor | internal/analysis/stats.go:45-55 | a new aggregator has zero counters, the rate window opened at `now`, empty maps and log, and a fresh detector in its initial state |
| Stats.TrafficStats.ProcessPacket | internal/analysis/stats.go:57-106 | the counters and log follow the stats rule, and the detector's state follows its own rule for the same packet and clock reading |
| Stats.TrafficStats.CountPacket | internal/analysis/stats.go:62-77 | the new state is the counting rule applied to the old one |
| Stats.TrafficStats.LogDomain | internal/analysis/stats.go:79-100 | the new state is the logging rule applied to the old one |
| Stats.TrafficStats.GetRates | internal/analysis/stats.go:108-129 | it returns the window's bits and packets per second, or (0, 0) over a zero interval, and opens a new window at `now` unless no time passed |
| Stats.TrafficStats.GetTopTalkers | internal/analysis/stats.go:138-159 | it returns `min(limit, sources)` distinct sources with their byte counts, largest first, and no source left out sent more than any source returned |
| Stats.TrafficStats.GetProtocolStats | internal/analysis/stats.go:161-177 | it returns every protocol exactly once with its count, largest count first |
| Stats.TrafficStats.GetDomainLog | internal/analysis/stats.go:179-188 | it returns the log as it is, oldest entry first |
| Stats.TrafficStats.GetAlerts | internal/analysis/stats.go:190-194 | it returns the detector's five newest alerts (all when fewer), oldest first |
| Stats.SortedDescending | internal/analysis/stats.go:143-152 | the listing holds every entry of the map exactly once, with its value, largest value first |
| Stats.DescendingListing | internal/analysis/stats.go:149-152 | a listing of the map rearranged in non-decreasing order of the negated value lists every entry once, largest value first |
| Stats.TopOfListing | internal/analysis/stats.go:154-158 | the first `n` entries of a listing sorted largest first are `n` distinct entries that no entry left out beats |
| Stats.CountersAreSums | internal/analysis/stats.go:62-64 | over any run both byte counters grow by exactly the sum of the lengths and the packet counter by the number of packets; the window start stays |
| Stats.SourceBytes | internal/analysis/stats.go:66-69 | a packet with a source adds its length to that source's bytes; no other source changes; a packet without a source changes none |
| Stats.ProtocolCounted | internal/analysis/stats.go:71-77 | each packet adds one to its protocol (or "Unknown"), and no other protocol's count changes |
| Stats.DomainSourceCases | internal/analysis/stats.go:80-87 | SNI exactly for ports 443 and 853; DNS exactly for port 53 or UDP on other ports; HTTP exactly otherwise |
| Stats.DomainLogKeepsLast | internal/analysis/stats.go:79-100 | over any run the domain log holds the last 50 entries logged, oldest first, and never more than 50 |
| Stats.LogStep | internal/analysis/stats.go:94-99 | the last packet of a run adds its entry, if any, to the log of the rest |
| Stats.FirstEntryEvicted | internal/analysis/stats.go:96-99 | 51 entries into an empty log leave the last 50 |
| Stats.LogAppends | internal/analysis/stats.go:89-94 | below the bound a packet naming a host appends exactly its entry |
| Stats.RatesMeaning | internal/analysis/stats.go:113-128 | the interval is zero exactly when no time passed, and then the rates are (0, 0) and nothing resets; otherwise rate times interval gives back the window's bits and packets, and the reset window reports (0, 0) at once |
| Stats.WindowSinceReset | internal/analysis/stats.go:62-126 | after a reset the window holds exactly the bytes and packets processed since |
| Stats.ReportDomains | internal/reporting/report_test.go:16-34 | the test's two packets (port 443, port 53) log their domains as SNI and DNS, in order |
| Stats.ReportCounts | internal/reporting/report_test.go:16-34 | the test's two packets count 800 bytes for their shared source, one TCP and one UDP packet, 800 bytes in total |
| Stats.TalkerTotals | internal/analysis/stats.go:66-69 | 500 and 200 bytes from one host and 300 from another give 700 and 300 |
| Report.FormatBytes | internal/reporting/report.go:134-145 | below 1024 (negatives included) the text is the decimal count and " B"; from 1024 the divisor is `1024^(exp+1)` with `div <= bytes < 1024*div`, `exp <= 5`, and the letter is `"KMGTPE"[exp]` |
| Report.ScaleStep | internal/reporting/report.go:140-143 | one more division of the quotient by 1024 is a division of the byte count by the next power, so the loop invariant `div*n <= bytes < div*(n+1)` holds |
| Report.UnitBound | internal/reporting/report.go:140-144 | when the loop stops, `div <= bytes < 1024*div`, and an `int64` input keeps `exp` within 0..5, so the letter lookup is in bounds |
| Report.Pow1024Seven | internal/reporting/report.go:144 | `1024^7` exceeds the largest `int64`, so no input reaches a seventh unit |
| Report.Pow1024Monotone | internal/reporting/report.go:140-143 | powers of 1024 grow with the exponent |
| Report.UnitBracketUnique | internal/reporting/report.go:144 | the unit is fixed by the power bracket: K for [2^10, 2^20), M for [2^20, 2^30), and so on |
| Sorting.SortByKey | internal/analysis/stats.go:149-152 | the array ends sorted by the key and is a permutation of what it held |
| Sorting.InsertLast | internal/analysis/stats.go:149-152 | one insertion step extends the sorted prefix by one element and keeps the multiset |
| Sorting.PermutationKeepsDistinct | internal/analysis/stats.go:143-152 | a permutation of a list without repeats has no repeats |
| Sorting.ReadMap | internal/analysis/stats.go:144-147 | ranging over a map lists every entry exactly once, with its value, in some order |
| Sorting.SameEntries | internal/analysis/stats.go:143-152 | a permutation of such a listing is again one: every key once, each with its value |
| Octets.And | internal/discovery/scanner.go:208 | byte `&` never exceeds either operand |
| Octets.Or | internal/discovery/scanner.go:217 | byte OR is at least either operand and stays a byte |
| Octets.AndTwice | internal/discovery/scanner.go:206-210 | masking an already masked number changes nothing |
| Octets.HostBitsKeepMask | internal/discovery/scanner.go:212-219 | setting every bit outside the mask leaves the masked bits as they were |
| Octets.BelowHostBits | internal/discovery/scanner.go:212-219 | a number is at most its masked bits with every host bit set |
| Octets.MaskByte | internal/discovery/scanner.go:206-219 | per byte: the network byte and the broadcast byte carry the local byte's masked bits |
| Octets.MemberByte | internal/discovery/scanner.go:206-219 | per byte: a byte with the local byte's masked bits lies between the network byte and the broadcast byte |
| Octets.OnesZerosAgree | internal/discovery/scanner.go:230 | per byte: 255 and 0 have the same masked bits only under the zero mask byte |
| Octets.FullByte | internal/discovery/scanner.go:206-219 | the mask byte 255 keeps a byte and adds no host bits |
| Octets.TwoHostBits | internal/discovery/scanner.go:206-219 | the mask byte 252 clears the two low bits, and setting them again adds exactly 3 |
| IPv4.ValueBound | internal/discovery/scanner.go:230 | an `n`-byte address reads below `256^n` |
| IPv4.ValueAppend | internal/discovery/scanner.go:303-310 | the big-endian reading of a concatenation is the prefix shifted left plus the suffix |
| IPv4.Inc | internal/discovery/scanner.go:303-310 | after `inc` the address reads as one more than before, modulo `256^len`: the all-255 address becomes all-zero |
| IPv4.IncStops | internal/discovery/scanner.go:305-308 | when the carry stops at a byte that does not wrap, the result is the old value plus one |
| IPv4.IncWraps | internal/discovery/scanner.go:304-309 | when every byte wraps, the result is zero, the old value plus one modulo `256^len` |
| IPv4.IncAt | internal/discovery/scanner.go:304-309 | adding one to the last non-255 byte and zeroing the bytes after it adds one to the value |
| IPv4.MaskInPlace | internal/discovery/scanner.go:206-210 | each byte the mask covers becomes `byte & mask`, the others stay |
| IPv4.SetHostBits | internal/discovery/scanner.go:215-219 | each byte the mask covers becomes the byte OR the complement of the mask byte, the others stay |
| IPv4.ValueMonotone | internal/discovery/scanner.go:230 | byte-wise smaller or equal reads smaller or equal |
| IPv4.SubnetBounds | internal/discovery/scanner.go:206-219 | the network and broadcast addresses are in the subnet, and every subnet address reads between them |
| IPv4.WrapNeedsZeroMask | internal/discovery/scanner.go:230 | 255.255.255.255 and 0.0.0.0 share a subnet only under the all-zero mask, the only case where `inc` can wrap while `Contains` still holds |
| IPv4.LexLessIsValueLess | internal/discovery/scanner.go:296-298 | for equal lengths, `bytes.Compare(a, b) < 0` holds exactly when `a` reads smaller than `b` |
| IPv4.LexTotal | internal/discovery/scanner.go:296-298 | two different addresses of one length are ordered one way or the other |
| IPv4.ValueInjective | internal/discovery/scanner.go:255-260 | two addresses of one length read the same exactly when they are equal, so `IP.Equal` is equality of values |
| Arp.ArpRequest | internal/discovery/scanner.go:317-333 | the broadcast request is a well-formed Ethernet/IPv4 ARP request to ff:ff:ff:ff:ff:ff with a zero target hardware address |
| Arp.ArpReply | internal/spoofer/injector.go:140-156 | the spoofer's frame is a well-formed ARP reply whose Ethernet source and destination are the ARP sender and target hardware addresses |
| Arp.Receive | internal/spoofer/injector.go:116-124 | a receiving host only ever adds to its cache (RFC 826, section "Packet Reception") |
| Arp.ReplyTeaches | internal/spoofer/injector.go:116-118 | a reply addressed to a host makes it map the claimed protocol address to the claimed hardware address |
| Arp.OtherSenderKeeps | internal/spoofer/injector.go:133-135 | a frame from another sender leaves a cache entry alone |
| NetIf.To4 | internal/spoofer/resolver.go:43 | `To4` keeps a 4-byte address, extracts the last four bytes of a 16-byte IPv4-mapped address, and rejects other lengths |
| NetIf.IPEqualIsTo4 | internal/spoofer/resolver.go:105 | `IP.Equal` against an IPv4 address holds exactly when the other address's `To4` form is that address, so a 4-byte address or its IPv4-mapped 16-byte form matches |
| NetIf.FindIPv4 | internal/discovery/scanner.go:87-100 | returns the first address-list entry that is an IP network with an IPv4 address, with its position and mask, or None exactly when there is no such entry |
| Resolver.AwaitReply | internal/spoofer/resolver.go:86-113 | the wait returns the sender hardware address of the first ARP reply from the target seen within three seconds; it times out at the first turn past the deadline or when events run out |
| Resolver.AwaitReplyIsFirstReply | internal/spoofer/resolver.go:93-113 | the wait's outcome is exactly the first on-time matching reply, or a timeout when there is none |
| Resolver.TargetReplyResolves | internal/spoofer/resolver.go:104-106 | an on-time reply from the target resolves to the hardware address it claims |
| Resolver.OnlyTargetRepliesMatch | internal/spoofer/resolver.go:104-105 | a request is never taken for a reply; a reply matches exactly when the IPv4 form (`To4`) of its sender protocol address is the target, which for a 4-byte sender address means it is the target |
| Resolver.GetMAC | internal/spoofer/resolver.go:16-114 | the error checks happen in source order (invalid IP, interface, handle, address list, no IPv4 source); once the handle is open and a source address is found, exactly one broadcast request, from the first IPv4 address, is written; a failed write is an error; otherwise the result is the first on-time reply or a timeout; on a valid target and interface the result is `Resolver.Outcome`, the first failing step in code order, else the reply or a timeout |
| Injector.Engine.constructor | internal/spoofer/injector.go:58-66 | a new engine stores its addresses and starts idle, with no handle and an empty log |
| Injector.Engine.Start | internal/spoofer/injector.go:70-80 | the handle is reopened; on failure an error and the running flag unchanged, on success the engine runs |
| Injector.Engine.SendARP | internal/spoofer/injector.go:140-164 | appends exactly the ARP reply with the given addresses to the log and reports the link's answer |
| Injector.Engine.SendSpoofPackets | internal/spoofer/injector.go:115-128 | the target is told first; the gateway only after that write succeeded; either error is returned |
| Injector.Engine.Tick | internal/spoofer/injector.go:99-113 | a tick sends the spoof pair only while the loop is alive; an error is reported and the loop goes on |
| Injector.Engine.Cleanup | internal/spoofer/injector.go:130-138 | appends three rounds of the true mappings, target then gateway, whatever the writes report |
| Injector.Engine.Stop | internal/spoofer/injector.go:83-97 | nothing unless running; otherwise signal, stop running, restore, and close the handle |
| Injector.StartOutcome | internal/spoofer/injector.go:70-80 | after Start the engine runs exactly when it ran before or the handle opened; a failed first start leaves it idle |
| Injector.TickFrames | internal/spoofer/injector.go:115-128 | a tick writes one or two frames: the spoof to the target first, then the spoof to the gateway exactly when the first write succeeded; success requires both |
| Injector.CleanupSixFrames | internal/spoofer/injector.go:133-137 | cleanup is six writes that alternate target, gateway |
| Injector.StopBehaviour | internal/spoofer/injector.go:83-97 | Stop on an idle engine does nothing, so stopping twice equals stopping once; on a running engine the log gains signal, six restorations, close |
| Injector.SpoofPoisons | internal/spoofer/injector.go:116-126 | after the spoof frames the target maps the gateway's address to this host and the gateway maps the target's address to this host |
| Injector.RestorationHeals | internal/spoofer/injector.go:130-138 | after the restoration frames both parties map each other's address to the true hardware address, whatever their caches held |
| Injector.FramesAppend | internal/spoofer/injector.go:130-138 | the frames of a concatenated log are the frames of each part |
| Injector.ReceiveAllAppend | internal/spoofer/injector.go:130-138 | receiving two frame sequences one after the other is receiving their concatenation |
| Injector.NewEngine | internal/spoofer/injector.go:29-67 | both addresses must parse and the interface must exist; a failed target resolution is reported with its cause after at most one request, a failed gateway resolution after the target resolved; an engine exists exactly when both resolutions succeed, and holds the first on-time replies as its hardware addresses |
| Scanner.ApplyDefaults | internal/discovery/scanner.go:34-65 | the configuration the scan works with always has positive durations, a cap of at least 512 or no cap (-1), and a promiscuous flag |
| Scanner.DefaultsRules | internal/discovery/scanner.go:44-63 | field by field: a positive duration is kept and any other replaced by 50 µs or 500 ms; a cap of 0 or less becomes "no cap", one below 512 becomes 512, a larger one is kept; a nil flag becomes true |
| Scanner.SettledIsFixed | internal/discovery/scanner.go:44-64 | a configuration is returned unchanged exactly when it is already settled |
| Scanner.ApplyDefaultsIdempotent | internal/discovery/scanner.go:34-65 | applying the defaults twice is applying them once |
| Scanner.NilAndZeroConfig | internal/discovery/scanner.go:35-56 | a nil configuration is the zero one with a cap of 4096, while an explicit zero cap means no cap |
| Scanner.Successes | internal/discovery/scanner.go:264-268 | the count of successful writes is at most the number of writes, equals it exactly when every write succeeded, and is 0 exactly when none did |
| Scanner.SubnetEnds | internal/discovery/scanner.go:199-219 | the loop starts from a fresh copy of the local address masked in place, the network address, next to the broadcast address |
| Scanner.Advance | internal/discovery/scanner.go:230 | the `inc` at the end of an iteration moves the address one step on, modulo 2^32 |
| Scanner.Sweep | internal/discovery/scanner.go:199-269 | the loop visits consecutive addresses from the network address, one per tick, all in the subnet; it writes a request for each visited address but the first, the broadcast and the local address; `scanned` counts the successful writes and never passes a positive cap; it stops when the address leaves the subnet, when the cap is reached, or when the context is done |
| Scanner.Iterate | internal/discovery/scanner.go:241-268 | one ticked iteration adds the current address to the visited ones and advances it; the requests and the count follow the rule and the count grows by at most one |
| Scanner.Visit | internal/discovery/scanner.go:250-268 | the first address, the broadcast and the local address are skipped; any other gets a request, counted when its write succeeds |
| Scanner.WrapInTrace | internal/discovery/scanner.go:230 | a trace that passes 255.255.255.255 means the all-zero mask |
| Scanner.NoWrap | internal/discovery/scanner.go:230 | under any other mask the k-th visited address is the network address plus k, below 2^32 |
| Scanner.ProbedInSubnet | internal/discovery/scanner.go:230-262 | every address a request is written for is in the subnet and is neither the broadcast nor the local address |
| Scanner.ProbedAscending | internal/discovery/scanner.go:230-262 | under any nonzero mask the request addresses lie strictly between the network and broadcast addresses and strictly ascend, so none is probed twice |
| Scanner.ProbeCount | internal/discovery/scanner.go:230-262 | under any nonzero mask at most `broadcast - network - 1` requests are written |
| Scanner.AscendingCount | internal/discovery/scanner.go:230-262 | strictly ascending values strictly between `lo` and `hi` number at most `hi - lo - 1` |
| Scanner.Slash30Span | internal/discovery/scanner.go:206-219 | a /30 has its broadcast address 3 above its network address |
| Scanner.Slash30AtMostTwo | internal/discovery/scanner.go:230-262 | a /30 gets at most two requests |
| Scanner.CollectKeys | internal/discovery/scanner.go:137-165 | an address is recorded exactly when some ARP reply from it lies in the subnet and is not from the local address |
| Scanner.FirstReplyWins | internal/discovery/scanner.go:183-189 | the first recordable reply from an address decides its hardware address, whatever comes later |
| Scanner.RecordedIsFirstReply | internal/discovery/scanner.go:143-189 | every recorded entry is in the subnet, is not the local address, and holds the sender of the first recordable reply from it |
| Scanner.SortHosts | internal/discovery/scanner.go:290-298 | the result holds every map entry exactly once, with its hardware address and an empty name, in strictly ascending `bytes.Compare` order |
| Scanner.HostsFromListing | internal/discovery/scanner.go:290-298 | the sorted listing of the map keeps its size and entries and is strictly ascending |
| Scanner.HostsAreEntries | internal/discovery/scanner.go:290-293 | a listing of the map rearranged is still the map's entries, each present |
| Scanner.HostsAscending | internal/discovery/scanner.go:296-298 | distinct hosts sorted by address value are in strictly ascending byte order |
| Scanner.DistinctHosts | internal/discovery/scanner.go:290-293 | distinct map entries make distinct hosts |
| Scanner.Scan | internal/discovery/scanner.go:69-301 | the errors come in source order (interface, address list, no IPv4, handle, filter) and write nothing; the handle uses the defaulted promiscuous flag; a cancelled probe loop fails with the context error; otherwise the result is the recorded hosts, sorted; every frame written is a request from the local address for a subnet address other than the broadcast and the local one, in ascending order under a nonzero mask |
| Scanner.ProbeAndCollect | internal/discovery/scanner.go:230-300 | a cancelled probe loop fails with the context error; otherwise the result is the sorted recorded hosts; the frames written are the probe requests, ascending and at most `broadcast - network - 1` under a nonzero mask |
| Scanner.Probe | internal/discovery/scanner.go:230-269 | the frames written are the requests for the probed targets, each in the subnet and neither broadcast nor local, ascending and bounded in number under a nonzero mask |
| Scanner.WrittenRequests | internal/discovery/scanner.go:255-264 | the request frames of a sweep are probe requests, ascending and bounded in number under a nonzero mask |
| Scanner.RequestsAscend | internal/discovery/scanner.go:264 | requests written for ascending targets have ascending target addresses |
| Scanner.RequestTargets | internal/discovery/scanner.go:255-264 | each request written is from the local address for a probed target |

## Left out

- pcap and gopacket I/O are left out: opening handles, BPF filters, serialization and packet sources. Their outcomes are inputs. Written frames are recorded as values, not bytes.
- The JSON decoding and the tshark subprocess in `StartCapture` are left out. Only `convertToModel` and the line predicate are modelled.
- Concurrency is left out:
  - goroutines, channels and mutexes;
  - the unlock and relock around the detector call in `ProcessPacket` (internal/analysis/stats.go:102-105);
  - the race between `Stop`'s 100 ms sleep and the spoof loop.
  
  Each component is modelled as running sequentially. The scanner's collector sees the received frames in order.
- Timing is left out. These waits become events in a list:
  - `RateLimit` and `IdleWait` in the scanner;
  - the 2 s ticker of the spoof loop;
  - the 100 ms poll and the sleeps in the resolver and in cleanup.
- The end of the scanner's step list counts as the context being done. The context comes from a deadline in main.go.
- The final idle wait can end early or on time; either way the result is the same, so it is not modelled.
- `net.ParseIP`, `net.InterfaceByName` and `iface.Addrs` become inputs: an optional 4-byte address, and an optional interface holding a MAC and an optional address list.
- Only 4-byte masks are modelled. 16-byte masks are left out, and so are the 16-byte forms `IPNet.Contains` accepts for reply senders. The resolver's reply match does model `IP.Equal` with 16-byte IPv4-mapped sender addresses; the target itself is always an IPv4 address.
- `String()` keys of the collector map are modelled as the 4-byte address itself.
- Scanner.ProbedAscending: ascending order is stated only for a nonzero mask. With the all-zero mask and no cap, the Go loop wraps from 255.255.255.255 to 0.0.0.0 and never ends; the model's step list bounds it.
- Scanner.ProbeCount: the bound is stated only for a nonzero mask, for the same reason.
- Scanner.Probe: ascending targets and the count bound are stated only for a nonzero mask, for the same reason.
- Scanner.Scan: the ascending order of written frames is stated only for a nonzero mask, for the same reason.
- Scanner.ProbeAndCollect: the ascending order and the count bound of the written requests are stated only for a nonzero mask, for the same reason.
- Scanner.WrittenRequests: the ascending order and the count bound of the request frames are stated only for a nonzero mask, for the same reason.
- Floating-point output is left out: `formatBps`, `formatDuration`, the `float64` panel widths, and the `%.1f` quotient in `formatBytes`. `FormatBytes` returns the divisor and the unit letter, not the printed number. `GetRates` uses exact reals, not IEEE floats.
- The rendering layer (`View`, `overlay`, the TUI model and update), the HTML writing in `GenerateSessionReport`, main.go and forward.go are left out as UI and wiring.
- `GetBandwidth` is not part of this model.
- Stats.TrafficStats.ProcessPacket: counters are unbounded integers and do not model the `int64` wrap-around, which needs more than 2^63 bytes. The model also gives one clock reading `now` to both the domain entry's timestamp and the detector, where the code reads the clock separately (internal/analysis/stats.go:91 and internal/analysis/anomalies.go:67); the two readings can differ by the time between the calls.
- GoStrings.TrimSpaceEmptyIffAllSpace: the model trims only the ASCII white-space bytes of Go's `asciiSpace` set; Go's `strings.TrimSpace` also trims Unicode white space such as U+0085 and U+00A0, so a line made only of such characters (bytes C2 A0, say) is blank in Go but not in the model. The outcome of the capture loop's line filter is unchanged, because a line is selected exactly when it contains the `"layers"` marker (Tshark.LineSelectedIffMarker) and such a line is not blank in either reading.
- Time is an integer count of nanoseconds. `time.Duration` saturation in `Sub` is not modelled, since it does not change the one- and ten-second comparisons.
- Stats.TrafficStats.GetTopTalkers: requires `limit >= 0`. For a negative limit the Go slice expression panics.
- Anomalies.AnomalyDetector.GetRecentAlerts: requires `limit >= 0` when the history is not empty. A negative limit then makes the Go slice start past the end and panic.
- Injector.Engine.Stop: requires the engine not to be in a state where Go panics. The excluded states are closing `stopChan` a second time after a restart, and a nil handle after a failed restart while running.
- Injector.Engine.Tick: requires the handle to be open while the loop is alive, because the Go code would dereference a nil handle otherwise.
