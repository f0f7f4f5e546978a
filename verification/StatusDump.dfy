/** What a line of an OpenVPN `status 2` dump reports: the parsing half of `update_sessions`,
    master/monitor.c. */
module StatusDump {
  import opened CText
  import opened Decimal
  import opened LineSplit
  import opened Options

  datatype Report = Report(name: string, realIp: string, virtualIp: string,
                           received: nat, sent: nat, since: string)

  /** The address without its port, through a 64 byte buffer. */
  function StripPort(addr: string): string {
    var ip := Take(addr, 63);
    ip[..IndexOf(ip, ':', 0)]
  }

  const CLIENT_LIST := "CLIENT_LIST,"

  /** What one line of the dump reports: nothing, unless it is a client line of seven fields. */
  function ReportOf(line: string): Option<Report> {
    if !At(line, 0, CLIENT_LIST) then None else
      var f := Fields(line[|CLIENT_LIST|..], 20);
      if |f| < 7 then None
      else Some(Report(f[0], StripPort(f[1]), f[2], Counter(f[4]), Counter(f[5]), f[6]))
  }

  /** The same, through a copy of the line that is split in place. */
  method ParseLine(line: string) returns (r: Option<Report>)
    requires IsText(line)
    ensures r == ReportOf(line)
  {
    if !At(line, 0, CLIENT_LIST) {
      return None;
    }
    var rest := line[|CLIENT_LIST|..];
    var copy := new char[|rest| + 1](i requires 0 <= i <= |rest| => if i < |rest| then rest[i] else NUL);
    assert Cut(copy[..], rest, 0);
    var fields := SplitLine(copy, 20, rest);
    if |fields| < 7 {
      return None;
    }
    return Some(Report(CString(copy[fields[0]..]), StripPort(CString(copy[fields[1]..])),
                       CString(copy[fields[2]..]), Counter(CString(copy[fields[4]..])),
                       Counter(CString(copy[fields[5]..])), CString(copy[fields[6]..])));
  }

  lemma AfterHeading(rest: string)
    ensures At(CLIENT_LIST + rest, 0, CLIENT_LIST) && (CLIENT_LIST + rest)[|CLIENT_LIST|..] == rest
  {
    assert (CLIENT_LIST + rest)[..|CLIENT_LIST|] == CLIENT_LIST;
  }

  /** A client line says what its fields say: name, address, virtual address, received and sent
      bytes and time of connection in the first, second, third, fifth, sixth and seventh place.
      Fields beyond the seventh do not matter, nor does the fourth. */
  lemma ClientLineIsReported(fields: seq<string>)
    requires |fields| >= 7 && (forall k | 0 <= k < |fields| :: ',' !in fields[k])
    requires |fields| > 7 || fields[6] != ""
    ensures ReportOf(CLIENT_LIST + Join(fields))
      == Some(Report(fields[0], StripPort(fields[1]), fields[2], Counter(fields[4]), Counter(fields[5]), fields[6]))
  {
    FirstFields(fields);
    ReportOfFields(Join(fields));
  }

  lemma FirstFields(fields: seq<string>)
    requires |fields| >= 7 && (forall k | 0 <= k < |fields| :: ',' !in fields[k])
    requires |fields| > 7 || fields[6] != ""
    ensures var f := Fields(Join(fields), 20); |f| >= 7 && forall k | 0 <= k < 7 :: f[k] == fields[k]
  {
    SegmentsOfJoin(fields);
  }

  lemma ReportOfFields(rest: string)
    requires |Fields(rest, 20)| >= 7
    ensures var f := Fields(rest, 20);
      ReportOf(CLIENT_LIST + rest) == Some(Report(f[0], StripPort(f[1]), f[2], Counter(f[4]), Counter(f[5]), f[6]))
  {
    AfterHeading(rest);
  }

  /** A line of fewer fields is not reported. */
  lemma ShortLineIsNotReported(fields: seq<string>)
    requires 0 < |fields| < 7 && (forall k | 0 <= k < |fields| :: ',' !in fields[k])
    ensures ReportOf(CLIENT_LIST + Join(fields)).None?
  {
    AfterHeading(Join(fields));
    SegmentsOfJoin(fields);
  }

  /** The line buffer of `update_sessions` holds 4095 characters. */
  const LINE_LIMIT := 4095

  function LineAt(s: string, i: nat, end: nat): string
    requires i <= end <= |s|
  {
    s[i..if end - i <= LINE_LIMIT then end else i + LINE_LIMIT]
  }

  /** One past the line that starts at `i`, within the first `m` characters. */
  function NextLine(s: string, i: nat, m: nat): (r: nat)
    requires i < m <= |s|
    ensures i < r <= m
  {
    var nl := IndexOf(s, '\n', i);
    if nl < m then nl + 1 else m
  }

  function LineReport(s: string, i: nat, m: nat): seq<Report>
    requires i < m <= |s|
  {
    var nl := IndexOf(s, '\n', i);
    match ReportOf(LineAt(s, i, if nl < m then nl else m))
    case None => []
    case Some(r) => [r]
  }

  /** The reports of the first `m` characters of a dump, from the line that starts at `i`. */
  function ReportsUpTo(s: string, i: nat, m: nat): seq<Report>
    requires i <= m <= |s|
    decreases m - i
  {
    if i == m then [] else LineReport(s, i, m) + ReportsUpTo(s, NextLine(s, i, m), m)
  }

  function Reports(s: string): seq<Report> {
    ReportsUpTo(s, 0, |s|)
  }
}
