/** The `{id,id,...}` array literal of master/monitor.c: built by repeated concatenation in a
    1024 byte buffer, read back by the database. */
module IdList {
  import opened CText
  import opened Decimal
  import opened LineSplit
  import opened Options

  function Numerals(ids: seq<nat>): (r: seq<string>)
    ensures |r| == |ids| && forall k | 0 <= k < |ids| :: r[k] == Print(ids[k])
  {
    seq(|ids|, k requires 0 <= k < |ids| => Print(ids[k]))
  }

  function Literal(ids: seq<nat>): string {
    "{" + Join(Numerals(ids)) + "}"
  }

  /** How PostgreSQL reads an `integer[]` literal made of plain numerals. */
  ghost function ParseArray(text: string): Option<seq<nat>> {
    if |text| < 2 || text[0] != '{' || text[|text| - 1] != '}' then None
    else
      var body := text[1..|text| - 1];
      var parts := Segments(body, 0);
      if body == "" then Some([])
      else if forall k | 0 <= k < |parts| :: IsNumeral(parts[k]) then
        Some(seq(|parts|, k requires 0 <= k < |parts| && IsNumeral(parts[k]) =>
          Value(parts[k], 0, |parts[k]|)))
      else None
  }

  lemma NumeralsHaveNoComma(ids: seq<nat>)
    ensures forall k | 0 <= k < |ids| :: ',' !in Numerals(ids)[k]
  {
    forall k | 0 <= k < |ids| ensures ',' !in Numerals(ids)[k] {
      assert IsNumeral(Print(ids[k]));
    }
  }

  lemma JoinIsNotEmpty(ids: seq<nat>)
    requires ids != []
    ensures Join(Numerals(ids)) != ""
  {
    assert IsNumeral(Print(ids[0]));
    assert Numerals(ids)[0] != "";
  }

  lemma PartsAreIds(ids: seq<nat>)
    requires ids != []
    ensures
      var parts := Segments(Join(Numerals(ids)), 0);
      |parts| == |ids| && forall k | 0 <= k < |ids| ::
        IsNumeral(parts[k]) && Value(parts[k], 0, |parts[k]|) == ids[k]
  {
    NumeralsHaveNoComma(ids);
    SegmentsOfJoin(Numerals(ids));
    forall k | 0 <= k < |ids| ensures Value(Numerals(ids)[k], 0, |Numerals(ids)[k]|) == ids[k] {
      ValueOfPrint(ids[k]);
    }
  }

  /** The database reads exactly the online list, in order. */
  lemma LiteralParsesBack(ids: seq<nat>)
    ensures ParseArray(Literal(ids)) == Some(ids)
  {
    var text, body := Literal(ids), Join(Numerals(ids));
    assert text[0] == '{' && text[|text| - 1] == '}' && text[1..|text| - 1] == body;
    if ids != [] {
      JoinIsNotEmpty(ids);
      PartsAreIds(ids);
      assert ParseArray(text).value == ids;
    }
  }

  function DigitTotal(ids: seq<nat>): nat {
    if ids == [] then 0 else DigitTotal(ids[..|ids| - 1]) + |Print(ids[|ids| - 1])|
  }

  lemma NumeralsOfOneMore(ids: seq<nat>, x: nat)
    ensures Numerals(ids + [x]) == Numerals(ids) + [Print(x)]
  {
  }

  lemma {:induction false} JoinLength(ids: seq<nat>)
    ensures |Join(Numerals(ids))| == DigitTotal(ids) + if ids == [] then 0 else |ids| - 1
    decreases |ids|
  {
    if ids != [] {
      var front, x := ids[..|ids| - 1], ids[|ids| - 1];
      JoinLength(front);
      assert ids == front + [x];
      NumeralsOfOneMore(front, x);
      JoinOfOneMore(Numerals(front), Print(x));
    }
  }

  const BUFFER_SIZE := 1024

  /** The literal fits its buffer exactly when digits and entries together are at most 1022. */
  lemma LiteralFits(ids: seq<nat>)
    requires ids != []
    ensures |Literal(ids)| + 1 <= BUFFER_SIZE <==> DigitTotal(ids) + |ids| <= 1022
  {
    JoinLength(ids);
  }

  ghost predicate Holds(buf: array<char>, s: string)
    reads buf
  {
    |s| < buf.Length && buf[|s|] == NUL && forall k | 0 <= k < |s| :: buf[k] == s[k]
  }

  /** `strcat`, at the end of a text of `n` characters. */
  method StrCat(buf: array<char>, n: nat, w: string, ghost s: string) returns (m: nat)
    requires Holds(buf, s) && |s| == n && n + |w| < buf.Length
    modifies buf
    ensures Holds(buf, s + w) && m == n + |w|
  {
    forall k | n <= k < n + |w| {
      buf[k] := w[k - n];
    }
    m := n + |w|;
    buf[m] := NUL;
  }

  /** The text in the buffer after the first `i` entries. */
  ghost function Partial(ids: seq<nat>, i: nat): string
    requires i <= |ids|
  {
    "{" + Join(Numerals(ids[..i]))
  }

  lemma PartialOfOneMore(ids: seq<nat>, i: nat)
    requires i < |ids|
    ensures Partial(ids, i + 1) == Partial(ids, i) + ((if i > 0 then "," else "") + Print(ids[i]))
  {
    assert ids[..i + 1] == ids[..i] + [ids[i]];
    NumeralsOfOneMore(ids[..i], ids[i]);
    JoinOfOneMore(Numerals(ids[..i]), Print(ids[i]));
  }

  lemma {:induction false} PartialFits(ids: seq<nat>, i: nat)
    requires i <= |ids|
    ensures |Partial(ids, i)| < |Literal(ids)|
    decreases |ids| - i
  {
    if i < |ids| {
      PartialOfOneMore(ids, i);
      PartialFits(ids, i + 1);
    } else {
      assert ids[..i] == ids;
    }
  }

  /** The loop that writes the literal. */
  method BuildIdList(ids: seq<nat>) returns (buf: array<char>)
    requires |Literal(ids)| + 1 <= BUFFER_SIZE
    ensures fresh(buf) && buf.Length == BUFFER_SIZE && CString(buf[..]) == Literal(ids)
  {
    buf := new char[BUFFER_SIZE](k => NUL);
    buf[0] := '{';
    var n := 1;
    assert Partial(ids, 0) == "{";
    for i := 0 to |ids|
      invariant n == |Partial(ids, i)| && Holds(buf, Partial(ids, i))
    {
      PartialOfOneMore(ids, i);
      PartialFits(ids, i + 1);
      n := StrCat(buf, n, (if i > 0 then "," else "") + Print(ids[i]), Partial(ids, i));
    }
    assert ids[..|ids|] == ids;
    n := StrCat(buf, n, "}", Partial(ids, |ids|));
    LiteralIsText(ids);
    assert buf[..n] == Literal(ids);
    CStringIs(buf[..], Literal(ids));
  }

  lemma {:induction false} JoinIsText(r: seq<string>)
    requires forall k | 0 <= k < |r| :: NUL !in r[k]
    ensures NUL !in Join(r)
    decreases |r|
  {
    if |r| > 1 {
      JoinIsText(r[1..]);
    }
  }

  lemma LiteralIsText(ids: seq<nat>)
    ensures IsText(Literal(ids))
  {
    forall k | 0 <= k < |ids| ensures NUL !in Numerals(ids)[k] {
      assert IsNumeral(Print(ids[k]));
    }
    JoinIsText(Numerals(ids));
  }
}
