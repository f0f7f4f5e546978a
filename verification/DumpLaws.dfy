/** What a status dump says, line by line and field by field (master/monitor.c:66-120,
    340-356), in the terms of the texts themselves. */
module DumpLaws {
  import opened CText
  import opened Decimal
  import opened LineSplit
  import opened Options
  import opened StatusDump
  import opened StatusStream

  // ----- lines -----

  /** The lines that the reader takes, from the one at `i`: a newline ends a line, and 4095
      characters of it are kept. */
  function LineTexts(s: string, i: nat): seq<string>
    requires i <= |s|
    decreases |s| - i
  {
    if i == |s| then []
    else [LineAt(s, i, IndexOf(s, '\n', i))] + LineTexts(s, NextLine(s, i, |s|))
  }

  /** What a line reports. */
  function OfText(line: string): seq<Report> {
    match ReportOf(line)
    case None => []
    case Some(r) => [r]
  }

  function OfTexts(lines: seq<string>): seq<Report> {
    if lines == [] then [] else OfText(lines[0]) + OfTexts(lines[1..])
  }

  lemma OneTextMore(line: string, lines: seq<string>)
    ensures OfTexts([line] + lines) == OfText(line) + OfTexts(lines)
  {
    assert ([line] + lines)[1..] == lines;
  }

  lemma ReportOfLineAt(s: string, i: nat)
    requires i < |s|
    ensures LineReport(s, i, |s|) == OfText(LineAt(s, i, IndexOf(s, '\n', i)))
  {
  }

  lemma {:induction false} ReportsAreOfTexts(s: string, i: nat)
    requires i <= |s|
    ensures ReportsUpTo(s, i, |s|) == OfTexts(LineTexts(s, i))
    decreases |s| - i
  {
    if i < |s| {
      var line, next := LineAt(s, i, IndexOf(s, '\n', i)), NextLine(s, i, |s|);
      ReportOfLineAt(s, i);
      ReportsAreOfTexts(s, next);
      OneTextMore(line, LineTexts(s, next));
    }
  }

  // The lines of a tail are those of the whole.

  lemma LineAtBehind(s: string, i: nat, k: nat, u: string)
    requires i <= |s| && u == s[i..] && k < |u|
    ensures LineAt(s, i + k, IndexOf(s, '\n', i + k)) == LineAt(u, k, IndexOf(u, '\n', k))
    ensures NextLine(s, i + k, |s|) == i + NextLine(u, k, |u|)
  {
    IndexOfBehind(s, '\n', i, k);
  }

  lemma FirstText(s: string, i: nat, line: string, j: nat)
    requires i < |s| && line == LineAt(s, i, IndexOf(s, '\n', i)) && j == NextLine(s, i, |s|)
    ensures LineTexts(s, i) == [line] + LineTexts(s, j)
  {
  }

  lemma {:induction false} LineTextsBehind(s: string, i: nat, k: nat, u: string, from: nat)
    requires i <= |s| && u == s[i..] && k <= |u| && from == i + k
    ensures LineTexts(s, from) == LineTexts(u, k)
    decreases |u| - k
  {
    if k < |u| {
      var j := NextLine(u, k, |u|);
      LineTextsBehind(s, i, j, u, i + j);
      OneMoreText(s, i, k, u, j, from, i + j);
    } else {
      NoMoreTexts(s);
      NoMoreTexts(u);
    }
  }

  lemma NoMoreTexts(s: string)
    ensures LineTexts(s, |s|) == []
  {
  }

  lemma OneMoreText(s: string, i: nat, k: nat, u: string, j: nat, from: nat, next: nat)
    requires i <= |s| && u == s[i..] && k < |u| && j == NextLine(u, k, |u|)
    requires from == i + k && next == i + j && LineTexts(s, next) == LineTexts(u, j)
    ensures LineTexts(s, from) == LineTexts(u, k)
  {
    FirstTextBehind(s, i, k, u, LineAt(u, k, IndexOf(u, '\n', k)), j, from, next);
  }

  lemma FirstTextBehind(s: string, i: nat, k: nat, u: string, line: string, j: nat, from: nat, next: nat)
    requires i <= |s| && u == s[i..] && k < |u| && line == LineAt(u, k, IndexOf(u, '\n', k))
    requires j == NextLine(u, k, |u|) && from == i + k && next == i + j
    ensures LineTexts(u, k) == [line] + LineTexts(u, j)
    ensures next <= |s| && LineTexts(s, from) == [line] + LineTexts(s, next)
  {
    LineAtBehind(s, i, k, u);
    FirstText(u, k, line, j);
    FirstText(s, from, line, next);
  }

  /** A text as far as the line buffer keeps it. */
  function Kept(line: string): string {
    if |line| <= 4095 then line else line[..4095]
  }

  lemma NewlineAfter(line: string, rest: string)
    requires '\n' !in line
    ensures IndexOf(line + "\n" + rest, '\n', 0) == |line|
  {
    var s := line + "\n" + rest;
    forall k | 0 <= k < |line|
      ensures s[k] != '\n'
    {
      assert s[k] == line[k] && line[k] in line;
    }
    IndexOfIs(s, '\n', 0, |line|);
  }

  lemma FirstLineText(line: string, rest: string)
    requires '\n' !in line
    ensures LineTexts(line + "\n" + rest, 0) == [Kept(line)] + LineTexts(rest, 0)
  {
    var s, n := line + "\n" + rest, |line| + 1;
    NewlineAfter(line, rest);
    KeptOfLine(s, line);
    FirstText(s, 0, Kept(line), n);
    assert s[n..] == rest;
    LineTextsBehind(s, n, 0, rest, n);
  }

  lemma KeptOfLine(s: string, line: string)
    requires line <= s
    ensures LineAt(s, 0, |line|) == Kept(line)
  {
  }

  lemma LastLineText(line: string)
    requires '\n' !in line && line != ""
    ensures LineTexts(line, 0) == [Kept(line)]
  {
    IndexOfIs(line, '\n', 0, |line|);
    assert LineAt(line, 0, |line|) == Kept(line);
    assert LineTexts(line, |line|) == [];
  }

  /** The text of the lines, each with its newline. */
  function LinesText(lines: seq<string>): string {
    if lines == [] then "" else lines[0] + "\n" + LinesText(lines[1..])
  }

  /** What the lines report, each by its first 4095 characters. */
  function OfLines(lines: seq<string>): seq<Report> {
    if lines == [] then [] else OfText(Kept(lines[0])) + OfLines(lines[1..])
  }

  /** The first line reports for itself, and the rest of the dump as if it stood alone. */
  lemma FirstLine(line: string, rest: string)
    requires '\n' !in line
    ensures Reports(line + "\n" + rest) == OfText(Kept(line)) + Reports(rest)
  {
    ReportsAreOfTexts(line + "\n" + rest, 0);
    ReportsAreOfTexts(rest, 0);
    FirstLineText(line, rest);
    OneTextMore(Kept(line), LineTexts(rest, 0));
  }

  /** A last line without a newline counts as well. */
  lemma LastLineAlone(line: string)
    requires '\n' !in line && line != ""
    ensures Reports(line) == OfText(Kept(line))
  {
    ReportsAreOfTexts(line, 0);
    LastLineText(line);
    OneTextMore(Kept(line), []);
  }

  /** A dump reports what its lines report, in their order. */
  lemma {:induction false} DumpReportsItsLines(lines: seq<string>)
    requires forall k | 0 <= k < |lines| :: '\n' !in lines[k]
    ensures Reports(LinesText(lines)) == OfLines(lines)
    decreases |lines|
  {
    if lines != [] {
      FirstLine(lines[0], LinesText(lines[1..]));
      DumpReportsItsLines(lines[1..]);
    }
  }

  // ----- fields -----

  /** A client line of up to 4095 characters. */
  lemma ClientLine(fields: seq<string>)
    requires |fields| >= 7 && (forall k | 0 <= k < |fields| :: ',' !in fields[k])
    requires |fields| > 7 || fields[6] != ""
    requires |"CLIENT_LIST," + Join(fields)| <= 4095
    ensures OfText(Kept("CLIENT_LIST," + Join(fields)))
      == [Report(fields[0], StripPort(fields[1]), fields[2], Counter(fields[4]), Counter(fields[5]), fields[6])]
  {
    ClientLineIsReported(fields);
  }

  /** Any other line is skipped. */
  lemma OtherLine(line: string)
    requires !("CLIENT_LIST," <= line)
    ensures OfText(Kept(line)) == []
  {
    NoHeading(line, Kept(line));
  }

  lemma NoHeading(line: string, cut: string)
    requires !("CLIENT_LIST," <= line) && cut <= line && (|cut| >= 12 || cut == line)
    ensures !At(cut, 0, CLIENT_LIST)
  {
    assert |cut| >= 12 ==> cut[0..12] == line[..12];
  }

  /** The address is what stands before the first colon, of at most 63 characters. */
  lemma PortIsStripped(host: string, port: string)
    requires ':' !in host
    ensures |host| <= 63 ==> StripPort(host) == host && StripPort(host + ":" + port) == host
    ensures |host| > 63 ==> StripPort(host) == StripPort(host + ":" + port) == host[..63]
  {
    AddressIs(host, host);
    AddressIs(host + ":" + port, host);
  }

  lemma AddressIs(addr: string, host: string)
    requires ':' !in host && host <= addr && (|host| < |addr| ==> addr[|host|] == ':')
    ensures StripPort(addr) == if |host| <= 63 then host else host[..63]
  {
    var ip := Take(addr, 63);
    var n := if |host| <= |ip| then |host| else |ip|;
    forall k | 0 <= k < n
      ensures ip[k] != ':'
    {
      assert ip[k] == host[k] && host[k] in host;
    }
    IndexOfIs(ip, ':', 0, n);
  }

  /** A counter is read behind white space and a sign up to the first other character; it is at
      most 2^64 - 1, and a negative one is counted back from 2^64. */
  lemma CounterIs(n: nat, junk: string)
    requires junk == "" || !('0' <= junk[0] <= '9')
    ensures var least := if n < 0x1_0000_0000_0000_0000 then n else 0xFFFF_FFFF_FFFF_FFFF;
      && Counter(Print(n) + junk) == least && Counter("+" + (Print(n) + junk)) == least
    ensures 0 < n < 0x1_0000_0000_0000_0000 ==> Counter("-" + (Print(n) + junk)) == 0x1_0000_0000_0000_0000 - n
  {
    var s := Print(n) + junk;
    DigitsBeforeJunk(n, junk);
    assert s[0] == Print(n)[0] && IsDigit(s[0]);
    assert ("+" + s)[1..] == s && ("-" + s)[1..] == s;
  }

  /** White space in front does not matter. */
  lemma {:induction false} BlanksAreSkipped(blanks: string, s: string)
    requires forall k | 0 <= k < |blanks| :: blanks[k] in [' ', '\t', '\n', 11 as char, 12 as char, '\r']
    ensures Counter(blanks + s) == Counter(s) && Atoi(blanks + s) == Atoi(s)
    decreases |blanks|
  {
    if blanks == "" {
      assert blanks + s == s;
    } else {
      assert (blanks + s)[0] == blanks[0] && (blanks + s)[1..] == blanks[1..] + s;
      BlanksAreSkipped(blanks[1..], s);
    }
  }

  // ----- reception -----

  lemma EndIsSeen(t: string)
    ensures HasEnd(t) <==> exists k :: 0 <= k < |t| && (At(t, k, "\nEND\r\n") || At(t, k, "\nEND\n"))
  {
    var a, b := FindWord(t, "\nEND\r\n", 0), FindWord(t, "\nEND\n", 0);
    if a < |t| {
      assert At(t, a, "\nEND\r\n");
    }
    if b < |t| {
      assert At(t, b, "\nEND\n");
    }
  }

  /** Reading stops short of the end of the stream only when 16383 characters are there, or an
      END line. */
  lemma StopsOnlyAtEnd(s: string, m: nat)
    requires Received(s, m)
    ensures m <= |s| && m <= 16383
    ensures m < |s| && m < 16383 ==>
      exists k | 0 <= k < |CString(s[..m])| ::
        At(CString(s[..m]), k, "\nEND\r\n") || At(CString(s[..m]), k, "\nEND\n")
  {
    EndIsSeen(CString(s[..m]));
  }
}
