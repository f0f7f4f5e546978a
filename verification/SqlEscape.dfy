/** Quoting for SQL text (master/cert_utils.c:175-194): a pass that counts, then a pass
    that fills through a moving pointer. */
module SqlEscape {
  import opened CText

  const QUOTE: char := '\''

  /** Every quote doubled. */
  function Escaped(s: string): string {
    if s == "" then "" else (if s[0] == QUOTE then [QUOTE, QUOTE] else [s[0]]) + Escaped(s[1..])
  }

  function Quotes(s: string, i: nat): nat
    requires i <= |s|
  {
    if i == 0 then 0 else Quotes(s, i - 1) + if s[i - 1] == QUOTE then 1 else 0
  }

  // --- the two passes ---

  /** The place of character `k` in the output: one further for every quote before it. */
  function Place(s: string, k: nat): nat
    requires k <= |s|
  {
    k + Quotes(s, k)
  }

  /** What the fill pass has written for the first `i` characters. */
  ghost predicate Filled(out: seq<char>, s: string, i: nat) {
    && i <= |s| && Place(s, i) <= |out|
    && forall k | 0 <= k < i :: FilledAt(out, s, k)
  }

  ghost predicate FilledAt(out: seq<char>, s: string, k: nat) {
    && k < |s| && Place(s, k + 1) <= |out|
    && out[Place(s, k)] == s[k]
    && (s[k] == QUOTE ==> out[Place(s, k) + 1] == QUOTE)
  }

  lemma {:induction false} PlacesGrow(s: string, i: nat, j: nat)
    requires i <= j <= |s|
    ensures Place(s, i) <= Place(s, j)
  {
    if i < j {
      PlacesGrow(s, i, j - 1);
    }
  }

  method CountQuotes(s: string) returns (extra: nat)
    ensures extra == Quotes(s, |s|)
  {
    extra := 0;
    for i := 0 to |s|
      invariant extra == Quotes(s, i)
    {
      if s[i] == QUOTE {
        extra := extra + 1;
      }
    }
  }

  /** `escape_sql_string` on a string in memory. The buffer has exactly one cell for every
      character that is written, the closing NUL included. */
  method EscapeSqlString(s: string) returns (escaped: array<char>)
    requires IsText(s)
    ensures escaped.Length == |Escaped(s)| + 1
    ensures CString(escaped[..]) == Escaped(s)
  {
    var extra := CountQuotes(s);
    escaped := new char[|s| + extra + 1];
    var p := 0;
    for i := 0 to |s|
      invariant p == Place(s, i)
      invariant Filled(escaped[..], s, i)
    {
      PlacesGrow(s, i + 1, |s|);
      ghost var before := escaped[..];
      if s[i] == QUOTE {
        escaped[p] := QUOTE;
        p := p + 1;
        escaped[p] := QUOTE;
        p := p + 1;
      } else {
        escaped[p] := s[i];
        p := p + 1;
      }
      OneMoreFilled(before, escaped[..], s, i);
    }
    ghost var filled := escaped[..];
    FilledIsEscaped(filled, s);
    escaped[p] := NUL;
    assert escaped[..][..p] == filled[..p];
    EscapedIsText(s);
    CStringIs(escaped[..], Escaped(s));
  }

  lemma OneMoreFilled(before: seq<char>, out: seq<char>, s: string, i: nat)
    requires i < |s| && Filled(before, s, i) && |out| == |before| && Place(s, i + 1) <= |out|
    requires forall j | 0 <= j < Place(s, i) :: out[j] == before[j]
    requires FilledAt(out, s, i)
    ensures Filled(out, s, i + 1)
  {
    forall k | 0 <= k < i
      ensures FilledAt(out, s, k)
    {
      assert FilledAt(before, s, k);
      PlacesGrow(s, k + 1, i);
    }
  }

  lemma {:induction false} EscapedSnoc(s: string, c: char)
    ensures Escaped(s + [c]) == Escaped(s) + if c == QUOTE then [QUOTE, QUOTE] else [c]
  {
    if s == "" {
      assert [c][1..] == "";
    } else {
      assert (s + [c])[1..] == s[1..] + [c];
      EscapedSnoc(s[1..], c);
    }
  }

  lemma {:induction false} FilledUpTo(out: seq<char>, s: string, i: nat)
    requires i <= |s| && Filled(out, s, i)
    ensures |Escaped(s[..i])| == Place(s, i) && out[..Place(s, i)] == Escaped(s[..i])
  {
    if i == 0 {
      assert s[..0] == "";
    } else {
      assert FilledAt(out, s, i - 1);
      assert s[..i] == s[..i - 1] + [s[i - 1]];
      EscapedSnoc(s[..i - 1], s[i - 1]);
      FilledUpTo(out, s, i - 1);
      var p := Place(s, i - 1);
      if s[i - 1] == QUOTE {
        assert out[..p + 2] == out[..p] + [QUOTE, QUOTE];
      } else {
        assert out[..p + 1] == out[..p] + [s[i - 1]];
      }
    }
  }

  lemma FilledIsEscaped(out: seq<char>, s: string)
    requires Filled(out, s, |s|)
    ensures |Escaped(s)| == Place(s, |s|) && out[..|Escaped(s)|] == Escaped(s)
  {
    FilledUpTo(out, s, |s|);
    assert s[..|s|] == s;
  }

  lemma {:induction false} EscapedIsText(s: string)
    requires IsText(s)
    ensures IsText(Escaped(s))
  {
    if s != "" {
      assert s[0] in s;
      EscapedIsText(s[1..]);
    }
  }

  // --- as an SQL literal ---

  /** Reading a character string literal behind its opening quote: a doubled quote stands
      for one, a single quote ends it (ISO/IEC 9075-2, section 5.3). The result is the value
      and what follows the literal, or nothing if it does not end. */
  datatype Literal = Unterminated | Literal(value: string, rest: string)

  function ScanLiteral(t: string): Literal {
    if t == "" then Unterminated
    else if t[0] != '\'' then Prefixed(t[0], ScanLiteral(t[1..]))
    else if |t| > 1 && t[1] == '\'' then Prefixed('\'', ScanLiteral(t[2..]))
    else Literal("", t[1..])
  }

  function Prefixed(c: char, l: Literal): Literal {
    match l
    case Unterminated => Unterminated
    case Literal(v, rest) => Literal([c] + v, rest)
  }

  lemma ScanPair(tail: string)
    ensures ScanLiteral([QUOTE, QUOTE] + tail) == Prefixed(QUOTE, ScanLiteral(tail))
  {
    assert ([QUOTE, QUOTE] + tail)[2..] == tail;
  }

  lemma ScanPlain(c: char, tail: string)
    requires c != QUOTE
    ensures ScanLiteral([c] + tail) == Prefixed(c, ScanLiteral(tail))
  {
    assert ([c] + tail)[1..] == tail;
  }

  lemma EscapedHead(s: string, rest: string)
    requires s != ""
    ensures Escaped(s) + rest == (if s[0] == QUOTE then [QUOTE, QUOTE] else [s[0]]) + (Escaped(s[1..]) + rest)
  {
  }

  /** Put between quotes, the escaped string is one literal whose value is the string and
      that ends at the closing quote, whatever follows. */
  lemma EscapedIsOneLiteral(s: string, rest: string)
    requires rest == "" || rest[0] != '\''
    ensures ScanLiteral(Escaped(s) + "'" + rest) == Literal(s, rest)
  {
    EscapedBefore(s, [QUOTE] + rest);
    assert Escaped(s) + [QUOTE] + rest == Escaped(s) + ([QUOTE] + rest);
    assert ([QUOTE] + rest)[1..] == rest;
  }

  lemma {:induction false} EscapedBefore(s: string, end: string)
    requires ScanLiteral(end).Literal? && ScanLiteral(end).value == ""
    ensures ScanLiteral(Escaped(s) + end) == Literal(s, ScanLiteral(end).rest)
  {
    if s == "" {
      assert Escaped(s) + end == end;
    } else {
      EscapedBefore(s[1..], end);
      EscapedHead(s, end);
      OneCharacter(s, Escaped(s[1..]) + end, ScanLiteral(end).rest);
    }
  }

  lemma OneCharacter(s: string, tail: string, rest: string)
    requires s != "" && ScanLiteral(tail) == Literal(s[1..], rest)
    ensures ScanLiteral((if s[0] == QUOTE then [QUOTE, QUOTE] else [s[0]]) + tail) == Literal(s, rest)
  {
    assert [s[0]] + s[1..] == s;
    if s[0] == QUOTE {
      ScanPair(tail);
    } else {
      ScanPlain(s[0], tail);
    }
  }

  /** The reader of doubled quotes. */
  function Undoubled(t: string): string {
    if t == "" then ""
    else if t[0] == '\'' && |t| > 1 && t[1] == '\'' then ['\''] + Undoubled(t[2..])
    else [t[0]] + Undoubled(t[1..])
  }

  lemma {:induction false} UndoublingRecovers(s: string)
    ensures Undoubled(Escaped(s)) == s
  {
    if s != "" {
      var t := Escaped(s);
      UndoublingRecovers(s[1..]);
      if s[0] == QUOTE {
        assert t[2..] == Escaped(s[1..]);
      } else {
        assert t[1..] == Escaped(s[1..]);
      }
    }
  }

  /** Every quote of the output belongs to a pair. */
  predicate InPairs(t: string) {
    t == "" || (if t[0] == '\'' then |t| > 1 && t[1] == '\'' && InPairs(t[2..]) else InPairs(t[1..]))
  }

  lemma {:induction false} QuotesComeInPairs(s: string)
    ensures InPairs(Escaped(s))
  {
    if s != "" {
      var t := Escaped(s);
      QuotesComeInPairs(s[1..]);
      if s[0] == QUOTE {
        assert t[2..] == Escaped(s[1..]);
      } else {
        assert t[1..] == Escaped(s[1..]);
      }
    }
  }

  /** The strings with paired quotes are exactly the escaped ones. */
  lemma {:induction false} PairedStringsAreEscaped(t: string)
    requires InPairs(t)
    ensures Escaped(Undoubled(t)) == t
    decreases |t|
  {
    if t != "" {
      if t[0] == QUOTE {
        PairedStringsAreEscaped(t[2..]);
        assert ([QUOTE] + Undoubled(t[2..]))[1..] == Undoubled(t[2..]);
      } else {
        PairedStringsAreEscaped(t[1..]);
        assert ([t[0]] + Undoubled(t[1..]))[1..] == Undoubled(t[1..]);
      }
    }
  }
}
