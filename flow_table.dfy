/** The flow CSV files the packet processors write and the log merger reads back. */
module FlowTable {
  import opened Text

  /** One flow row as `csv.DictReader` gives it back: every cell is a string, and a column
      the file does not have reads as `""` (the `flow.get(column, '')` default of the
      merger). `land` is the one column whose absence the merger treats differently
      (`flow.get('land', 0)`), so its absence is kept as `None`. */
  datatype FlowRow = FlowRow(
    srcIp: string, dstIp: string, srcPort: string, dstPort: string,
    protocol: string, protocolType: string,
    startTime: string, endTime: string, duration: string,
    totalPackets: string, totalBytes: string, srcBytes: string, dstBytes: string,
    land: Option<string>)

  /** A written CSV file: its header row and its data rows. */
  datatype Csv = Csv(header: seq<string>, rows: seq<FlowRow>)

  /** Header of the streaming processor's CSV. */
  const StreamingColumns: seq<string> := [
    "src_ip", "dst_ip", "src_port", "dst_port", "protocol", "protocol_type",
    "start_time", "end_time", "duration", "total_packets", "total_bytes",
    "src_bytes", "dst_bytes", "land"]

  /** Header of the polling processor's CSV: no protocol_type, times, directional bytes or land. */
  const PollingColumns: seq<string> := [
    "src_ip", "dst_ip", "src_port", "dst_port", "protocol", "duration",
    "total_packets", "total_bytes"]

  /** `n` written with three digits, zero-padded on the left. */
  function Pad3(n: nat): (s: string)
    requires n < 1000
    ensures |s| == 3
  {
    if n < 10 then "00" + NatToString(n)
    else if n < 100 then
      assert |NatToString(n)| == 2 by { assert NatToString(n) == NatToString(n / 10) + [DigitChar(n % 10)]; }
      "0" + NatToString(n)
    else
      assert |NatToString(n)| == 3 by {
        assert NatToString(n) == NatToString(n / 10) + [DigitChar(n % 10)];
        assert NatToString(n / 10) == NatToString(n / 100) + [DigitChar((n / 10) % 10)];
      }
      NatToString(n)
  }

  /** Three digits whose value is `n`: the leading zeros add nothing. */
  lemma Pad3Value(n: nat)
    requires n < 1000
    ensures AllDigits(Pad3(n)) && DigitsValue(Pad3(n)) == n
  {
    DigitsValueOfNat(n);
    assert "0"[..0] == [];
    assert "00"[..1] == "0";
    assert AllDigits("0") && DigitsValue("0") == 0;
    assert AllDigits("00") && DigitsValue("00") == 0;
    if n < 10 {
      DigitsValueAppend("00", NatToString(n));
    } else if n < 100 {
      DigitsValueAppend("0", NatToString(n));
    }
  }

  /** The magnitude of a duration in milliseconds. */
  function Magnitude(ms: int): nat {
    if ms < 0 then -ms else ms
  }

  /** The digits before the point: whole seconds. */
  function WholePart(ms: int): string {
    NatToString(Magnitude(ms) / 1000)
  }

  /** The six digits after the point: milliseconds, then three zeros. */
  function FractionPart(ms: int): string {
    Pad3(Magnitude(ms) % 1000) + "000"
  }

  /** `f"{seconds:.6f}"` for a duration of `ms` milliseconds. */
  function FormatSeconds(ms: int): (s: string)
    ensures |s| >= 8 && s[|s| - 7] == '.' && s[|s| - 3..] == "000"
    ensures (s[0] == '-') <==> ms < 0
  {
    (if ms < 0 then "-" else "") + WholePart(ms) + "." + FractionPart(ms)
  }

  /** The six fractional digits read back as the milliseconds times 1000. */
  lemma FractionValue(n: nat)
    requires n < 1000
    ensures AllDigits(Pad3(n) + "000") && DigitsValue(Pad3(n) + "000") == n * 1000
  {
    Pad3Value(n);
    assert "000"[..2] == "00" && "00"[..1] == "0" && "0"[..0] == [];
    assert AllDigits("000") && DigitsValue("000") == 0;
    DigitsValueAppend(Pad3(n), "000");
    assert Pow10(3) == 1000;
  }

  /** Read back, the rendering is the duration in seconds: an optional minus sign, the
      whole seconds, a point and six digits, whose value in microseconds together is
      `|ms| * 1000`. */
  lemma FormatSecondsValue(ms: int)
    ensures FormatSeconds(ms) == (if ms < 0 then "-" else "") + WholePart(ms) + "." + FractionPart(ms)
    ensures AllDigits(WholePart(ms)) && |WholePart(ms)| >= 1
    ensures AllDigits(FractionPart(ms)) && |FractionPart(ms)| == 6
    ensures DigitsValue(WholePart(ms)) * 1000000 + DigitsValue(FractionPart(ms)) == Magnitude(ms) * 1000
  {
    var m := Magnitude(ms);
    DigitsValueOfNat(m / 1000);
    FractionValue(m % 1000);
    WholeAndFraction(m);
  }

  lemma WholeAndFraction(m: nat)
    ensures (m / 1000) * 1000000 + (m % 1000) * 1000 == m * 1000
  {
    assert m == (m / 1000) * 1000 + m % 1000;
  }
}
