/** `split_line` of master/monitor.c: a line is split at its commas in place. */
module LineSplit {
  import opened CText

  /** The field at `x` runs to the next comma. */
  function FieldFrom(s: string, x: nat): string
    requires x <= |s|
  {
    s[x..IndexOf(s, ',', x)]
  }

  /** Every segment of the text between commas from position `i` on, empty ones included. */
  function Segments(s: string, i: nat): (r: seq<string>)
    requires i <= |s|
    ensures r != []
    decreases |s| - i
  {
    var c := IndexOf(s, ',', i);
    if c < |s| then [FieldFrom(s, i)] + Segments(s, c + 1) else [FieldFrom(s, i)]
  }

  function DropTrailingEmpty(r: seq<string>): seq<string> {
    if r != [] && r[|r| - 1] == "" then r[..|r| - 1] else r
  }

  function Take<T>(r: seq<T>, n: nat): seq<T> {
    if |r| <= n then r else r[..n]
  }

  /** What `split_line` promises: at most `max` segments, without a trailing empty one. */
  function Fields(s: string, max: nat): seq<string> {
    Take(DropTrailingEmpty(Segments(s, 0)), max)
  }

  function Join(r: seq<string>): string {
    if r == [] then "" else if |r| == 1 then r[0] else r[0] + "," + Join(r[1..])
  }

  lemma JoinOfCons(x: string, rest: seq<string>)
    requires rest != []
    ensures Join([x] + rest) == x + "," + Join(rest)
  {
    assert ([x] + rest)[1..] == rest;
  }

  lemma SplitAtComma(s: string, i: nat)
    requires i <= |s| && IndexOf(s, ',', i) < |s|
    ensures s[i..] == FieldFrom(s, i) + "," + s[IndexOf(s, ',', i) + 1..]
  {
  }

  lemma OneMoreField(s: string, i: nat, rest: seq<string>)
    requires i <= |s| && IndexOf(s, ',', i) < |s|
    requires rest != [] && Join(rest) == s[IndexOf(s, ',', i) + 1..]
    ensures Join([FieldFrom(s, i)] + rest) == s[i..]
  {
    JoinOfCons(FieldFrom(s, i), rest);
    SplitAtComma(s, i);
  }

  lemma FieldAndRest(s: string, i: nat, rest: seq<string>)
    requires i <= |s| && IndexOf(s, ',', i) < |s| && rest == Segments(s, IndexOf(s, ',', i) + 1)
    requires Join(rest) == s[IndexOf(s, ',', i) + 1..]
    ensures Join(Segments(s, i)) == s[i..]
  {
    var all := [FieldFrom(s, i)] + rest;
    assert Segments(s, i) == all;
    OneMoreField(s, i, rest);
  }

  lemma LastField(s: string, i: nat)
    requires i <= |s| && IndexOf(s, ',', i) == |s|
    ensures Join(Segments(s, i)) == s[i..]
  {
    assert FieldFrom(s, i) == s[i..];
    assert Segments(s, i) == [s[i..]];
  }

  lemma {:induction false} SegmentsRejoin(s: string, i: nat)
    requires i <= |s|
    ensures Join(Segments(s, i)) == s[i..]
    decreases |s| - i
  {
    var c := IndexOf(s, ',', i);
    if c < |s| {
      SegmentsRejoin(s, c + 1);
      FieldAndRest(s, i, Segments(s, c + 1));
    } else {
      LastField(s, i);
    }
  }

  lemma {:induction false} SegmentsHaveNoComma(s: string, i: nat)
    requires i <= |s|
    ensures forall k | 0 <= k < |Segments(s, i)| :: ',' !in Segments(s, i)[k]
    decreases |s| - i
  {
    assert ',' !in FieldFrom(s, i);
    if IndexOf(s, ',', i) < |s| {
      SegmentsHaveNoComma(s, IndexOf(s, ',', i) + 1);
    }
  }

  lemma {:induction false} JoinOfOneMore(r: seq<string>, x: string)
    ensures Join(r + [x]) == if r == [] then x else Join(r) + "," + x
    decreases |r|
  {
    if r != [] {
      assert (r + [x])[1..] == r[1..] + [x];
      JoinOfOneMore(r[1..], x);
    }
  }

  lemma SegmentsOneByOne(s: string, i: nat)
    requires i <= |s|
    ensures var c := IndexOf(s, ',', i);
      Segments(s, i) == if c < |s| then [FieldFrom(s, i)] + Segments(s, c + 1) else [FieldFrom(s, i)]
  {
  }

  /** From `i` and from `j` on, the two texts are the same. */
  ghost predicate EqualTails(s: string, i: nat, t: string, j: nat) {
    && i <= |s| && j <= |t| && |s| - i == |t| - j
    && forall k | j <= k < |t| :: t[k] == s[k - j + i]
  }

  lemma {:induction false} SegmentsOfEqualTails(s: string, i: nat, t: string, j: nat)
    requires EqualTails(s, i, t, j)
    ensures Segments(s, i) == Segments(t, j)
    decreases |s| - i
  {
    FieldOfEqualTails(s, i, t, j);
    if IndexOf(s, ',', i) < |s| {
      SegmentsOfEqualTails(s, IndexOf(s, ',', i) + 1, t, IndexOf(t, ',', j) + 1);
    }
    OneSegmentMore(s, i, t, j);
  }

  lemma OneSegmentMore(s: string, i: nat, t: string, j: nat)
    requires i <= |s| && j <= |t| && FieldFrom(s, i) == FieldFrom(t, j)
    requires IndexOf(s, ',', i) < |s| <==> IndexOf(t, ',', j) < |t|
    requires IndexOf(s, ',', i) < |s| ==> Segments(s, IndexOf(s, ',', i) + 1) == Segments(t, IndexOf(t, ',', j) + 1)
    ensures Segments(s, i) == Segments(t, j)
  {
    SegmentsOneByOne(s, i);
    SegmentsOneByOne(t, j);
  }

  lemma FieldOfEqualTails(s: string, i: nat, t: string, j: nat)
    requires EqualTails(s, i, t, j)
    ensures IndexOf(t, ',', j) == IndexOf(s, ',', i) - i + j
    ensures FieldFrom(t, j) == FieldFrom(s, i)
    ensures IndexOf(s, ',', i) < |s| ==> EqualTails(s, IndexOf(s, ',', i) + 1, t, IndexOf(t, ',', j) + 1)
  {
    var c := IndexOf(s, ',', i);
    var d := c - i + j;
    IndexOfIs(t, ',', j, d);
    assert s[i..c] == t[j..d];
  }

  /** Splitting undoes joining. */
  lemma {:induction false} SegmentsOfJoin(r: seq<string>)
    requires r != [] && forall k | 0 <= k < |r| :: ',' !in r[k]
    ensures Segments(Join(r), 0) == r
    decreases |r|
  {
    var s := Join(r);
    if |r| == 1 {
      IndexOfIs(s, ',', 0, |s|);
      assert s[0..|s|] == r[0];
    } else {
      IndexOfIs(s, ',', 0, |r[0]|);
      assert s[..|r[0]|] == r[0];
      SegmentsOfEqualTails(s, |r[0]| + 1, Join(r[1..]), 0);
      SegmentsOfJoin(r[1..]);
    }
  }

  lemma {:induction false} JoinOfPrefix(r: seq<string>, n: nat)
    requires n <= |r|
    ensures Join(r[..n]) <= Join(r)
    decreases n
  {
    if 1 < n {
      JoinOfPrefix(r[1..], n - 1);
      assert r[..n][1..] == r[1..][..n - 1];
    }
  }

  /** No field holds a comma, and the fields joined again begin the line. */
  lemma FieldsRejoin(s: string, max: nat)
    ensures |Fields(s, max)| <= max
    ensures forall k | 0 <= k < |Fields(s, max)| :: ',' !in Fields(s, max)[k]
    ensures Join(Fields(s, max)) <= s
  {
    SegmentsRejoin(s, 0);
    SegmentsHaveNoComma(s, 0);
    var r := Segments(s, 0);
    var n := |Fields(s, max)|;
    assert Fields(s, max) == r[..n];
    JoinOfPrefix(r, n);
  }

  datatype Span = Span(from: nat, to: nat)

  ghost predicate NoComma(s: string, i: nat, j: nat)
    requires j <= |s|
  {
    forall k | i <= k < j :: s[k] != ','
  }

  /** Where the segments lie in the line. */
  function Spans(s: string, i: nat): (at: seq<Span>)
    requires i <= |s|
    ensures at != [] && at[0].from == i
    decreases |s| - i
  {
    var c := IndexOf(s, ',', i);
    if c < |s| then [Span(i, c)] + Spans(s, c + 1) else [Span(i, c)]
  }

  /** Segment `k` of the line, and the comma that leads to the next one. */
  ghost predicate SpanOk(s: string, at: seq<Span>, k: nat)
    requires k < |at|
  {
    && at[k].from <= at[k].to <= |s| && NoComma(s, at[k].from, at[k].to)
    && (if k + 1 < |at|
        then at[k].to < |s| && s[at[k].to] == ',' && at[k + 1].from == at[k].to + 1
        else at[k].to == |s|)
  }

  lemma {:induction false} SpansAreOk(s: string, i: nat, k: nat)
    requires i <= |s| && k < |Spans(s, i)|
    ensures SpanOk(s, Spans(s, i), k)
    decreases k
  {
    if k > 0 {
      SpansAreOk(s, IndexOf(s, ',', i) + 1, k - 1);
    }
  }

  lemma {:induction false} SpansAreSegments(s: string, i: nat)
    requires i <= |s|
    ensures |Spans(s, i)| == |Segments(s, i)|
    decreases |s| - i
  {
    if IndexOf(s, ',', i) < |s| {
      SpansAreSegments(s, IndexOf(s, ',', i) + 1);
    }
  }

  lemma {:induction false} SpanIsSegment(s: string, i: nat, k: nat)
    requires i <= |s| && k < |Spans(s, i)| && k < |Segments(s, i)|
    ensures Spans(s, i)[k].from <= |s| && Segments(s, i)[k] == FieldFrom(s, Spans(s, i)[k].from)
    decreases k
  {
    if k > 0 {
      SpanIsSegment(s, IndexOf(s, ',', i) + 1, k - 1);
    }
  }

  /** The line buffer after the commas before `p` have been overwritten. */
  ghost predicate Cut(b: seq<char>, s: string, p: nat) {
    && IsText(s) && p <= |s| < |b| && b[|s|] == NUL
    && forall k | 0 <= k < |s| :: b[k] == if k < p && s[k] == ',' then NUL else s[k]
  }

  /** A field reads back from the buffer once the comma after it has been overwritten. */
  lemma FieldReadsBack(b: seq<char>, s: string, p: nat, x: Span)
    requires Cut(b, s, p) && x.from <= x.to <= |s| && NoComma(s, x.from, x.to)
    requires if x.to == |s| then true else x.to < p && s[x.to] == ','
    ensures CString(b[x.from..]) == FieldFrom(s, x.from)
  {
    IndexOfIs(s, ',', x.from, x.to);
    var t := b[x.from..];
    assert t[..x.to - x.from] == s[x.from..x.to];
    CStringIs(t, s[x.from..x.to]);
  }

  /** The loop's bookkeeping: the offsets are the starts of the first segments, all of them over
      before `p`, and `p` is in the next one. */
  ghost predicate Reading(s: string, at: seq<Span>, fields: seq<nat>, p: nat) {
    && |fields| < |at| && at[|fields|].from <= p <= at[|fields|].to <= |s|
    && Ended(s, at, fields, p)
  }

  ghost predicate Ended(s: string, at: seq<Span>, fields: seq<nat>, p: nat) {
    && |fields| <= |at|
    && forall k | 0 <= k < |fields| :: fields[k] == at[k].from && (at[k].to < p || at[k].to == |s|)
  }

  /** The segment being read goes on exactly while no comma is met. */
  lemma CharacterRead(s: string, at: seq<Span>, fields: seq<nat>, p: nat)
    requires Reading(s, at, fields, p) && p < |s|
    requires forall k | k == |fields| || k == |fields| + 1 :: k < |at| ==> SpanOk(s, at, k)
    ensures s[p] != ',' ==> Reading(s, at, fields, p + 1)
    ensures s[p] == ',' ==>
      var f := fields + [at[|fields|].from];
      Reading(s, at, f, p + 1) && at[|f|].from == p + 1
  {
    assert SpanOk(s, at, |fields|);
    assert |fields| + 1 < |at| ==> SpanOk(s, at, |fields| + 1);
  }

  /** At the end of the line the last segment is being read. */
  lemma LineRead(s: string, at: seq<Span>, fields: seq<nat>)
    requires Reading(s, at, fields, |s|) && SpanOk(s, at, |fields|)
    ensures |fields| + 1 == |at| && Ended(s, at, fields + [at[|fields|].from], |s|)
    ensures at[|fields|].from < |s| ==> s[at[|fields|].from] != ','
  {
  }

  /** How many fields the loop records. */
  lemma FieldCount(s: string, at: seq<Span>, max: nat, n: nat)
    requires at == Spans(s, 0) && n <= max
    requires || n == max < |at|
             || n == if at[|at| - 1].from == |s| then |at| - 1 else |at|
    ensures n == |Fields(s, max)|
  {
    SpansAreSegments(s, 0);
    LastSegment(s, at);
    var d := DropTrailingEmpty(Segments(s, 0));
    assert |d| == if at[|at| - 1].from == |s| then |at| - 1 else |at|;
    assert |Fields(s, max)| == if |d| <= max then |d| else max;
  }

  lemma LastSegment(s: string, at: seq<Span>)
    requires at == Spans(s, 0) && |at| == |Segments(s, 0)|
    ensures Segments(s, 0)[|at| - 1] == "" <==> at[|at| - 1].from == |s|
  {
    SpansAreOk(s, 0, |at| - 1);
    SpanIsSegment(s, 0, |at| - 1);
  }

  lemma ReadBack(b: seq<char>, s: string, p: nat, max: nat, fields: seq<nat>)
    requires Cut(b, s, p) && Ended(s, Spans(s, 0), fields, p) && |fields| == |Fields(s, max)|
    ensures forall k | 0 <= k < |fields| ::
      fields[k] <= |b| && CString(b[fields[k]..]) == Fields(s, max)[k]
  {
    var at := Spans(s, 0);
    forall k | 0 <= k < |fields|
      ensures fields[k] <= |b| && CString(b[fields[k]..]) == Fields(s, max)[k]
    {
      SpansAreOk(s, 0, k);
      SpansAreSegments(s, 0);
      SpanIsSegment(s, 0, k);
      FieldReadsBack(b, s, p, at[k]);
    }
  }

  /** `split_line`: commas become NULs in the line itself; the result is where the fields
      start. Its caller asks for twenty fields. */
  method SplitLine(line: array<char>, max: nat, ghost s: string) returns (fields: seq<nat>)
    requires max > 0 && Cut(line[..], s, 0)
    modifies line
    ensures |fields| == |Fields(s, max)|
    ensures forall k | 0 <= k < |fields| ::
      fields[k] <= line.Length && CString(line[fields[k]..]) == Fields(s, max)[k]
  {
    ghost var at := Spans(s, 0);
    forall k | 0 <= k < |at| ensures SpanOk(s, at, k) {
      SpansAreOk(s, 0, k);
    }
    fields := [];
    var p, start := 0, 0;
    while line[p] != NUL
      invariant Cut(line[..], s, p) && |fields| < max
      invariant Reading(s, at, fields, p) && start == at[|fields|].from
      decreases |s| - p
    {
      CharacterRead(s, at, fields, p);
      if line[p] == ',' {
        line[p] := NUL;
        fields := fields + [start];
        if |fields| >= max {
          FieldCount(s, at, max, |fields|);
          ReadBack(line[..], s, p + 1, max, fields);
          return;
        }
        start := p + 1;
      }
      p := p + 1;
    }
    LineRead(s, at, fields);
    if |fields| < max && line[start] != NUL {
      fields := fields + [start];
    }
    FieldCount(s, at, max, |fields|);
    ReadBack(line[..], s, |s|, max, fields);
  }
}
