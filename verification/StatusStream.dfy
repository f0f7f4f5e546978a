/** The receive loop of `monitor_thread`, master/monitor.c: the status dump arrives in pieces
    of any size and is read until an END line, the end of the stream, or a full buffer. */
module StatusStream {
  import opened CText
  import opened StatusDump

  const CAPACITY := 16384

  function Concat(pieces: seq<string>): string {
    if pieces == [] then "" else pieces[0] + Concat(pieces[1..])
  }

  /** A connected management socket: the pieces not yet read. An empty `recv` ends the stream,
      so no piece is empty. */
  class ManagementSocket {
    var pending: seq<string>

    ghost predicate Valid()
      reads this
    {
      forall k | 0 <= k < |pending| :: pending[k] != ""
    }

    constructor (pieces: seq<string>)
      requires forall k | 0 <= k < |pieces| :: pieces[k] != ""
      ensures Valid() && pending == pieces
    {
      pending := pieces;
    }

    /** `recv` delivers at most one piece, and no more than fits. */
    method Recv(buf: array<char>, at: nat, cap: nat) returns (n: nat)
      requires Valid() && at + cap <= buf.Length
      modifies this, buf
      ensures Valid() && n <= cap
      ensures n == 0 <==> cap == 0 || old(pending) == []
      ensures n <= |old(Concat(pending))| && Concat(pending) == old(Concat(pending))[n..]
      ensures forall k | at <= k < at + n :: buf[k] == old(Concat(pending))[k - at]
      ensures forall k | 0 <= k < buf.Length && !(at <= k < at + n) :: buf[k] == old(buf[k])
    {
      if cap == 0 || pending == [] {
        return 0;
      }
      var piece := pending[0];
      assert Concat(pending) == piece + Concat(pending[1..]);
      n := if |piece| <= cap then |piece| else cap;
      forall k | 0 <= k < n {
        buf[at + k] := piece[k];
      }
      if n == |piece| {
        pending := pending[1..];
      } else {
        assert ([piece[n..]] + pending[1..])[1..] == pending[1..];
        pending := [piece[n..]] + pending[1..];
      }
    }
  }

  const END_CRLF := "\nEND\r\n"
  const END_LF := "\nEND\n"

  predicate HasEnd(t: string) {
    FindWord(t, END_CRLF, 0) < |t| || FindWord(t, END_LF, 0) < |t|
  }

  /** The dump as the C code sees it after `m` characters of the stream: it stops at a NUL. */
  function Text(s: string, m: nat): string
    requires m <= |s|
  {
    CString(s[..m])
  }

  function Limit(s: string): nat {
    if |s| < CAPACITY then |s| else CAPACITY - 1
  }

  /** When the loop may stop: an END line has arrived, or nothing more can. */
  ghost predicate Received(s: string, m: nat) {
    m <= Limit(s) && (HasEnd(Text(s, m)) || m == Limit(s))
  }

  /** The receive loop. However the stream is cut into pieces, the buffer ends up with a prefix
      of it that never passes 16383 characters and is long enough. */
  method ReceiveStatus(sock: ManagementSocket, buf: array<char>) returns (total: nat)
    requires sock.Valid() && buf.Length == CAPACITY
    modifies sock, buf
    ensures total <= 16383 && Received(old(Concat(sock.pending)), total)
    ensures total > 0 ==> CString(buf[..]) == Text(old(Concat(sock.pending)), total)
  {
    ghost var s := Concat(sock.pending);
    total := 0;
    assert s[0..] == s;
    while true
      invariant sock.Valid() && total <= Limit(s) && Concat(sock.pending) == s[total..]
      invariant forall k | 0 <= k < total :: buf[k] == s[k]
      invariant total > 0 ==> buf[total] == NUL
      decreases |s| - total
    {
      var n := sock.Recv(buf, total, CAPACITY - total - 1);
      if n == 0 {
        break;
      }
      TailOfTail(s, total, n);
      total := total + n;
      buf[total] := NUL;
      BufferText(buf[..], s, total);
      var text := CString(buf[..]);
      if HasEnd(text) {
        break;
      }
    }
    if total > 0 {
      BufferText(buf[..], s, total);
    }
  }

  lemma TailOfTail(s: string, i: nat, n: nat)
    requires i <= |s| && n <= |s[i..]|
    ensures s[i..][n..] == s[i + n..]
    ensures forall k | i <= k < i + n :: s[k] == s[i..][k - i]
  {
  }

  lemma BufferText(b: seq<char>, s: string, m: nat)
    requires m <= |s| && m < |b| && b[m] == NUL && forall k | 0 <= k < m :: b[k] == s[k]
    ensures CString(b) == Text(s, m)
  {
    var z := IndexOf(s[..m], NUL, 0);
    IndexOfIs(b, NUL, 0, z);
    assert b[..z] == s[..m][..z];
  }

  // ----- the split of the stream does not matter -----

  /** One past the first occurrence of a marker, or past the end of the text. */
  function MarkerEnd(t: string, w: string): (e: nat)
    requires w != ""
  {
    var a := FindWord(t, w, 0);
    if a < |t| then a + |w| else |t| + 1
  }

  /** Where the dump ends: one past its first END line. */
  function EndPoint(t: string): (e: nat) {
    var a, b := MarkerEnd(t, END_CRLF), MarkerEnd(t, END_LF);
    if a < b then a else b
  }

  lemma MarkerInPrefix(t: string, w: string, m: nat)
    requires m <= |t| && w != ""
    ensures FindWord(t[..m], w, 0) < m <==> MarkerEnd(t, w) <= m
  {
    var a, r := FindWord(t, w, 0), FindWord(t[..m], w, 0);
    AtInPrefix(t, m, r, w);
    AtInPrefix(t, m, a, w);
  }

  lemma PrefixHasEnd(t: string, m: nat)
    requires m <= |t|
    ensures HasEnd(t[..m]) <==> EndPoint(t) <= m
  {
    MarkerInPrefix(t, END_CRLF, m);
    MarkerInPrefix(t, END_LF, m);
  }

  lemma EndPointEndsLine(t: string)
    requires EndPoint(t) <= |t|
    ensures 0 < EndPoint(t) && t[EndPoint(t) - 1] == '\n'
  {
    var e := EndPoint(t);
    var w := if MarkerEnd(t, END_CRLF) < MarkerEnd(t, END_LF) then END_CRLF else END_LF;
    assert t[e - |w|..e] == w;
    assert t[e - 1] == t[e - |w|..e][|w| - 1];
  }

  /** A line that ends before the line start `c` is the same up to `c` and beyond. */
  lemma SameLine(t: string, i: nat, c: nat, m: nat)
    requires i < c <= m <= |t| && t[c - 1] == '\n'
    ensures NextLine(t, i, m) == NextLine(t, i, c) && LineReport(t, i, m) == LineReport(t, i, c)
    ensures NextLine(t, i, c) < c ==> t[NextLine(t, i, c) - 1] == '\n'
  {
    assert IndexOf(t, '\n', i) < c;
  }

  lemma ConcatIsAssociative(a: seq<Report>, b: seq<Report>, c: seq<Report>)
    ensures a + b + c == a + (b + c)
  {
  }

  /** Reading up to `m` is reading up to a line start `c`, and on from there. */
  lemma {:induction false} ReportsSplit(t: string, i: nat, c: nat, m: nat)
    requires i <= c <= m <= |t| && (i < c ==> t[c - 1] == '\n')
    ensures ReportsUpTo(t, i, m) == ReportsUpTo(t, i, c) + ReportsUpTo(t, c, m)
    decreases c - i
  {
    if i < c {
      var n, first := NextLine(t, i, c), LineReport(t, i, c);
      SameLine(t, i, c, m);
      ReportsSplit(t, n, c, m);
      ConcatIsAssociative(first, ReportsUpTo(t, n, c), ReportsUpTo(t, c, m));
    }
  }

  lemma LineOfPrefix(t: string, i: nat, m: nat)
    requires i < m <= |t|
    ensures NextLine(t[..m], i, m) == NextLine(t, i, m)
    ensures LineReport(t[..m], i, m) == LineReport(t, i, m)
  {
    var nl := IndexOf(t, '\n', i);
    var end := if nl < m then nl else m;
    IndexOfIs(t[..m], '\n', i, end);
    var stop := if end - i <= LINE_LIMIT then end else i + LINE_LIMIT;
    assert t[..m][i..stop] == t[i..stop];
  }

  lemma {:induction false} ReportsOfPrefix(t: string, i: nat, m: nat)
    requires i <= m <= |t|
    ensures ReportsUpTo(t[..m], i, m) == ReportsUpTo(t, i, m)
    decreases m - i
  {
    if i < m {
      LineOfPrefix(t, i, m);
      ReportsOfPrefix(t, NextLine(t, i, m), m);
    }
  }

  ghost predicate NoClientLineFrom(t: string, e: nat) {
    forall k | e <= k < |t| && 0 < k && t[k - 1] == '\n' :: !At(t, k, CLIENT_LIST)
  }

  lemma NoReportWithoutClientLine(t: string, i: nat, m: nat)
    requires i < m <= |t| && !At(t, i, CLIENT_LIST)
    ensures LineReport(t, i, m) == []
  {
    var nl := IndexOf(t, '\n', i);
    var end := if nl < m then nl else m;
    AtInSlice(t, i, if end - i <= LINE_LIMIT then end else i + LINE_LIMIT, CLIENT_LIST);
  }

  lemma {:induction false} NothingReportedFrom(t: string, k: nat, m: nat)
    requires k <= m <= |t| && NoClientLineFrom(t, k)
    requires k < m ==> 0 < k && t[k - 1] == '\n'
    ensures ReportsUpTo(t, k, m) == []
    decreases m - k
  {
    if k < m {
      NoReportWithoutClientLine(t, k, m);
      NothingReportedFrom(t, NextLine(t, k, m), m);
    }
  }

  lemma TextIsPrefix(s: string, m: nat)
    requires m <= |s|
    ensures
      var t := CString(s);
      Text(s, m) == t[..if m <= |t| then m else |t|]
  {
    var z := IndexOf(s, NUL, 0);
    IndexOfIs(s[..m], NUL, 0, if m <= z then m else z);
  }

  /** What any reception of the stream reports: everything up to the first END line, and
      whatever client lines happened to be read beyond it. */
  lemma ReceivedReports(s: string, m: nat)
    requires Received(s, m)
    ensures
      var t, e := CString(s), EndPoint(CString(s));
      if e <= |t| && e <= Limit(s)
      then e <= |Text(s, m)|
        && Reports(Text(s, m)) == ReportsUpTo(t, 0, e) + ReportsUpTo(t, e, |Text(s, m)|)
      else m == Limit(s)
  {
    var t, e := CString(s), EndPoint(CString(s));
    TextIsPrefix(s, m);
    var n := |Text(s, m)|;
    PrefixHasEnd(t, n);
    if e <= |t| && e <= Limit(s) {
      EndPointEndsLine(t);
      ReportsOfPrefix(t, 0, n);
      ReportsSplit(t, 0, e, n);
    }
  }

  /** Whatever pieces the stream is cut into, the same clients are reported: for any two
      receptions of a stream that has no client lines after its END line. */
  lemma SplitDoesNotMatter(s: string, m: nat, n: nat)
    requires Received(s, m) && Received(s, n)
    requires NoClientLineFrom(CString(s), EndPoint(CString(s)))
    ensures Reports(Text(s, m)) == Reports(Text(s, n))
  {
    var t, e := CString(s), EndPoint(CString(s));
    ReceivedReports(s, m);
    ReceivedReports(s, n);
    if e <= |t| && e <= Limit(s) {
      EndPointEndsLine(t);
      TextIsPrefix(s, m);
      TextIsPrefix(s, n);
      NothingReportedFrom(t, e, |Text(s, m)|);
      NothingReportedFrom(t, e, |Text(s, n)|);
    }
  }
}
