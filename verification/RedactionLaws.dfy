/** What the redaction of a message is, case by case (master/logger.c:17-55): every text falls
    under exactly one of the laws, and each reduces it to the redaction of a shorter text. */
module RedactionLaws {
  import opened CText
  import opened LogRedaction

  // ----- the scan looks ahead only -----

  lemma AtBehind(s: string, i: nat, k: nat, w: string)
    requires i <= |s|
    ensures At(s[i..], k, w) <==> At(s, i + k, w)
  {
    if i + k + |w| <= |s| {
      assert s[i..][k..k + |w|] == s[i + k..i + k + |w|];
    }
  }

  lemma FindWordBehind(s: string, w: string, i: nat)
    requires i <= |s| && w != ""
    ensures FindWord(s, w, i) == i + FindWord(s[i..], w, 0)
  {
    var r := FindWord(s[i..], w, 0);
    AtBehind(s, i, r, w);
    forall k | i <= k < i + r
      ensures !At(s, k, w)
    {
      AtBehind(s, i, k - i, w);
    }
    FindWordIs(s, w, i, i + r);
  }

  lemma SkipBehind(s: string, i: nat, k: nat)
    requires i <= |s| && k <= |s| - i
    ensures SkipSeparators(s, i + k) == i + SkipSeparators(s[i..], k)
  {
    SkipSeparatorsIs(s, i + k, i + SkipSeparators(s[i..], k));
  }

  lemma SpliceBehind(s: string, i: nat, x: nat, y: nat, ins: string)
    requires i <= |s| && x <= y <= |s| - i
    ensures Splice(s, i + x, i + y, ins) == s[..i] + Splice(s[i..], x, y, ins)
  {
  }

  lemma WholeText(s: string, i: nat)
    requires i <= |s|
    ensures s == s[..i] + s[i..]
  {
  }

  predicate IsCut(s: string, i: nat)
    requires i < |s|
  {
    At(s, i, BEGIN) && FindWord(s, END, i) < |s| && |REDACTED| <= CutEnd(s, i) - i
  }

  function CutEnd(s: string, i: nat): (y: nat)
    requires i < |s|
    ensures i <= y <= |s|
  {
    LineEnd(s, FindWord(s, END, i))
  }

  lemma BlockTaken(s: string, i: nat, y: nat)
    requires i < |s| && IsCut(s, i) && y == CutEnd(s, i)
    ensures RedactBlock(s, i) == Splice(s, i, y, REDACTED)
  {
  }

  lemma BlockSkipped(s: string, i: nat)
    requires i < |s| && !IsCut(s, i)
    ensures RedactBlock(s, i) == s
  {
  }

  lemma CutBehind(s: string, i: nat)
    requires i < |s|
    ensures CutEnd(s, i) == i + CutEnd(s[i..], 0) && (IsCut(s, i) <==> IsCut(s[i..], 0))
  {
    FindWordBehind(s, END, i);
    AtBehind(s, i, 0, BEGIN);
    IndexOfBehind(s, '\n', i, FindWord(s[i..], END, 0));
  }

  lemma BlockBehind(s: string, i: nat)
    requires i < |s|
    ensures RedactBlock(s, i) == s[..i] + RedactBlock(s[i..], 0)
  {
    CutBehind(s, i);
    if IsCut(s, i) {
      TakenBlockBehind(s, i, s[i..], CutEnd(s[i..], 0));
    } else {
      SkippedBlockBehind(s, i, s[i..]);
    }
  }

  lemma TakenBlockBehind(s: string, i: nat, u: string, y: nat)
    requires i < |s| && u == s[i..] && IsCut(s, i) && IsCut(u, 0)
    requires y == CutEnd(u, 0) && i + y == CutEnd(s, i)
    ensures RedactBlock(s, i) == s[..i] + RedactBlock(u, 0)
  {
    BlockTaken(s, i, i + y);
    BlockTaken(u, 0, y);
    SpliceBehind(s, i, 0, y, REDACTED);
  }

  lemma SkippedBlockBehind(s: string, i: nat, u: string)
    requires i < |s| && u == s[i..] && !IsCut(s, i) && !IsCut(u, 0)
    ensures RedactBlock(s, i) == s[..i] + RedactBlock(u, 0)
  {
    BlockSkipped(s, i);
    BlockSkipped(u, 0);
    WholeText(s, i);
  }

  /** Where the value after the word at `i` starts, and whether it is taken. */
  function ValueStart(s: string, i: nat): (q: nat)
    requires At(s, i, PASSWORD)
    ensures i <= q <= |s|
  {
    SkipSeparators(s, i + |PASSWORD|)
  }

  predicate IsMasked(s: string, i: nat) {
    At(s, i, PASSWORD) && Maskable(s, ValueStart(s, i))
  }

  lemma MaskTaken(s: string, i: nat, q: nat, y: nat)
    requires i < |s| && IsMasked(s, i) && q == ValueStart(s, i) && y == ValueEnd(s, q)
    ensures MaskPassword(s, i) == Splice(s, q, y, MASK)
  {
  }

  lemma MaskSkipped(s: string, i: nat)
    requires i < |s| && !IsMasked(s, i)
    ensures MaskPassword(s, i) == s
  {
  }

  lemma MaskedBehind(s: string, i: nat)
    requires i < |s|
    ensures IsMasked(s, i) <==> IsMasked(s[i..], 0)
    ensures IsMasked(s, i) ==>
      var q := ValueStart(s[i..], 0); ValueStart(s, i) == i + q && ValueEnd(s, i + q) == i + ValueEnd(s[i..], q)
  {
    AtBehind(s, i, 0, PASSWORD);
    if At(s, i, PASSWORD) {
      SkipBehind(s, i, |PASSWORD|);
      ValueEndBehind(s, i, ValueStart(s[i..], 0));
    }
  }

  lemma MaskBehind(s: string, i: nat)
    requires i < |s|
    ensures MaskPassword(s, i) == s[..i] + MaskPassword(s[i..], 0)
  {
    MaskedBehind(s, i);
    if IsMasked(s, i) {
      var q := ValueStart(s[i..], 0);
      var y := ValueEnd(s[i..], q);
      MaskTaken(s, i, i + q, i + y);
      MaskTaken(s[i..], 0, q, y);
      TakenValueBehind(s, i, s[i..], q, y);
    } else {
      SkippedValueBehind(s, i, s[i..]);
    }
  }

  lemma TakenValueBehind(s: string, i: nat, u: string, q: nat, y: nat)
    requires i < |s| && u == s[i..] && q <= y <= |u|
    requires MaskPassword(s, i) == Splice(s, i + q, i + y, MASK) && MaskPassword(u, 0) == Splice(u, q, y, MASK)
    ensures MaskPassword(s, i) == s[..i] + MaskPassword(u, 0)
  {
    SpliceBehind(s, i, q, y, MASK);
  }

  lemma SkippedValueBehind(s: string, i: nat, u: string)
    requires i < |s| && u == s[i..] && !IsMasked(s, i) && !IsMasked(u, 0)
    ensures MaskPassword(s, i) == s[..i] + MaskPassword(u, 0)
  {
    MaskSkipped(s, i);
    MaskSkipped(u, 0);
    WholeText(s, i);
  }

  lemma ValueEndBehind(s: string, i: nat, q: nat)
    requires i <= |s| && q <= |s| - i
    ensures ValueEnd(s, i + q) == i + ValueEnd(s[i..], q)
    ensures Maskable(s, i + q) <==> Maskable(s[i..], q)
  {
    IndexOfBehind(s, ' ', i, q);
    IndexOfBehind(s, ',', i, q);
  }

  lemma StepBehind(s: string, i: nat)
    requires i < |s|
    ensures Step(s, i) == s[..i] + Step(s[i..], 0)
  {
    var t := RedactBlock(s, i);
    BlockBehind(s, i);
    MaskBehind(t, i);
    assert t[..i] == s[..i] && t[i..] == RedactBlock(s[i..], 0);
  }

  lemma ScanBehindStep(s: string, i: nat)
    requires i < |s|
    requires var t := Step(s, i); Scan(t, i + 1) == t[..i + 1] + Redacted(t[i + 1..])
    requires var v := Step(s[i..], 0); Scan(v, 1) == v[..1] + Redacted(v[1..])
    ensures Scan(s, i) == s[..i] + Scan(s[i..], 0)
  {
    var t, v := Step(s, i), Step(s[i..], 0);
    StepBehind(s, i);
    ScanUnfolds(s, i);
    ScanUnfolds(s[i..], 0);
    BothParts(s[..i], v, Redacted(v[1..]));
    OneMoreCharacter(s[..i], v);
  }

  lemma OneMoreCharacter(a: string, v: string)
    requires v != ""
    ensures (a + v)[..|a| + 1] == a + v[..1] && (a + v)[|a| + 1..] == v[1..]
  {
  }

  lemma BothParts(a: string, v: string, rest: string)
    requires v != ""
    ensures a + v[..1] + rest == a + (v[..1] + rest)
  {
  }

  lemma ScanBehindEnd(s: string, i: nat)
    requires i == |s|
    ensures Scan(s, i) == s[..i] + Redacted(s[i..])
  {
    assert s[i..] == "" && s[..i] == s;
    EmptyIsKept();
  }

  function Measure(s: string, i: nat): nat
    requires i <= |s|
  {
    |s| - i + 10 * Count(s, i)
  }

  lemma StepShrinks(s: string, i: nat)
    requires i < |s|
    ensures Measure(Step(s, i), i + 1) < Measure(s, i)
  {
    StepWithinBudget(s, i);
  }

  lemma TailMeasure(s: string, i: nat)
    requires i <= |s|
    ensures Measure(s[i..], 0) == Measure(s, i)
  {
    CountOfEqualTails(s, i, s[i..], 0);
  }

  lemma SameMeasure(s: string, i: nat, u: string)
    requires i <= |s| && u == s[i..]
    ensures Measure(u, 0) == Measure(s, i)
  {
    TailMeasure(s, i);
  }

  lemma StepShrinksBelow(u: string, z: nat, m: nat)
    requires z < |u| && Measure(u, z) == m
    ensures Measure(Step(u, z), z + 1) < m
  {
    StepShrinks(u, z);
  }

  /** By induction on a bound for the measure; the tail alone has the measure of the whole. */
  lemma {:induction false} ScanBehindBy(s: string, i: nat, m: nat)
    requires i <= |s| && Measure(s, i) <= m
    ensures Scan(s, i) == s[..i] + Redacted(s[i..])
    decreases m, 1
  {
    if i == |s| {
      ScanBehindEnd(s, i);
    } else {
      StepShrinks(s, i);
      ScanBehindBy(Step(s, i), i + 1, m - 1);
      SameMeasure(s, i, s[i..]);
      TailIsScanned(s[i..], m);
      ScanBehindStep(s, i);
    }
  }

  lemma {:induction false} TailIsScanned(u: string, m: nat)
    requires u != "" && Measure(u, 0) <= m
    ensures Scan(Step(u, 0), 1) == Step(u, 0)[..1] + Redacted(Step(u, 0)[1..])
    decreases m, 0
  {
    StepShrinks(u, 0);
    ScanBehindBy(Step(u, 0), 1, m - 1);
  }

  /** What stands before the cursor does not matter for what comes. */
  lemma ScanBehind(s: string, i: nat)
    requires i <= |s|
    ensures Scan(s, i) == s[..i] + Redacted(s[i..])
  {
    ScanBehindBy(s, i, Measure(s, i));
  }

  lemma RedactedUnfolds(s: string)
    requires s != ""
    ensures Redacted(s) == [Step(s, 0)[0]] + Redacted(Step(s, 0)[1..])
  {
    ScanUnfolds(s, 0);
    ScanBehind(Step(s, 0), 1);
    assert Step(s, 0)[..1] == [Step(s, 0)[0]];
  }

  // ----- text without a word -----

  lemma EmptyIsKept()
    ensures Redacted("") == ""
  {
  }

  /** A character at which neither word starts is kept. */
  lemma CharacterIsKept(s: string)
    requires s != "" && !At(s, 0, "-----BEGIN") && !At(s, 0, "password")
    ensures Redacted(s) == [s[0]] + Redacted(s[1..])
  {
    RedactedUnfolds(s);
    assert Step(s, 0) == s;
  }

  ghost predicate NoWordIn(u: string, w: string) {
    forall k | 0 <= k < |u| :: !At(u + w, k, "-----BEGIN") && !At(u + w, k, "password")
  }

  lemma NoWordInTail(u: string, w: string)
    requires u != "" && NoWordIn(u, w)
    ensures NoWordIn(u[1..], w) && (u + w)[1..] == u[1..] + w
    ensures !At(u + w, 0, "-----BEGIN") && !At(u + w, 0, "password")
  {
    var s := u + w;
    assert s[1..] == u[1..] + w;
    forall k | 0 <= k < |u[1..]|
      ensures !At(u[1..] + w, k, "-----BEGIN") && !At(u[1..] + w, k, "password")
    {
      AtBehind(s, 1, k, "-----BEGIN");
      AtBehind(s, 1, k, "password");
      assert !At(s, k + 1, "-----BEGIN") && !At(s, k + 1, "password");
    }
  }

  /** So is a text in which none starts, whatever follows it. */
  lemma {:induction false} TextIsKept(u: string, w: string)
    requires NoWordIn(u, w)
    ensures Redacted(u + w) == u + Redacted(w)
    decreases |u|
  {
    if u == "" {
      assert u + w == w;
    } else {
      NoWordInTail(u, w);
      TextIsKept(u[1..], w);
      OneMoreKept(u, w);
    }
  }

  lemma HeadAndTail(u: string, w: string)
    requires u != ""
    ensures u + w != "" && (u + w)[0] == u[0] && (u + w)[1..] == u[1..] + w
  {
  }

  lemma Glue(u: string, w: string)
    requires u != ""
    ensures [u[0]] + (u[1..] + w) == u + w
  {
  }

  lemma OneMoreKept(u: string, w: string)
    requires u != "" && Redacted(u[1..] + w) == u[1..] + Redacted(w)
    requires !At(u + w, 0, "-----BEGIN") && !At(u + w, 0, "password")
    ensures Redacted(u + w) == u + Redacted(w)
  {
    HeadAndTail(u, w);
    CharacterIsKept(u + w);
    Glue(u, Redacted(w));
  }

  /** No word starts in a text without their first letters. */
  lemma LettersAreKept(u: string, w: string)
    requires 'p' !in u && '-' !in u
    ensures Redacted(u + w) == u + Redacted(w)
  {
    forall k | 0 <= k < |u|
      ensures !At(u + w, k, "-----BEGIN") && !At(u + w, k, "password")
    {
      assert (u + w)[k] == u[k] && u[k] in u;
      AtStarts(u + w, k, "-----BEGIN");
      AtStarts(u + w, k, "password");
    }
    TextIsKept(u, w);
  }

  // ----- PEM blocks -----

  /** A block: from its BEGIN to the end of the line of the first END, newline included. */
  ghost predicate IsBlock(block: string, e: nat, rest: string) {
    && At(block, 0, "-----BEGIN") && At(block, e, "-----END")
    && (forall k | 0 <= k < e :: !At(block, k, "-----END"))
    && (forall k | e <= k < |block| - 1 :: block[k] != '\n')
    && (block[|block| - 1] == '\n' || rest == "")
  }

  lemma BlockEnds(block: string, e: nat, rest: string)
    requires IsBlock(block, e, rest)
    ensures var s := block + rest;
      && At(s, 0, BEGIN) && FindWord(s, END, 0) == e < |s| && LineEnd(s, e) == |block|
  {
    var s := block + rest;
    assert s[..|block|] == block;
    forall k | 0 <= k <= e
      ensures At(s, k, "-----END") <==> At(block, k, "-----END")
    {
      AtInPrefix(s, |block|, k, "-----END");
    }
    AtInPrefix(s, |block|, 0, "-----BEGIN");
    FindWordIs(s, END, 0, e);
    var nl := if block[|block| - 1] == '\n' then |block| - 1 else |block|;
    assert forall k | e <= k < nl :: s[k] == block[k];
    IndexOfIs(s, '\n', e, nl);
  }

  const MARKER := "[PRIVATE KEY REDACTED]\n"

  lemma StepOfBlock(block: string, e: nat, rest: string)
    requires IsBlock(block, e, rest) && |block| >= 23
    ensures block + rest != "" && Step(block + rest, 0) == MARKER + rest
  {
    var s := block + rest;
    BlockEnds(block, e, rest);
    assert s[|block|..] == rest && s[..0] == "";
    var t := RedactBlock(s, 0);
    assert t == MARKER + rest;
    AtStarts(t, 0, PASSWORD);
  }

  /** What the scan puts in is passed over. */
  lemma LettersFollow(u: string, rest: string)
    requires u != "" && 'p' !in u[1..] && '-' !in u[1..]
    ensures [u[0]] + Redacted((u + rest)[1..]) == u + Redacted(rest)
  {
    HeadAndTail(u, rest);
    LettersAreKept(u[1..], rest);
    Glue(u, Redacted(rest));
  }

  /** A step that puts such a text in front leaves the rest to be redacted alone. */
  lemma StepThenRest(s: string, u: string, rest: string)
    requires s != "" && u != "" && Step(s, 0) == u + rest && 'p' !in u[1..] && '-' !in u[1..]
    ensures Redacted(s) == u + Redacted(rest)
  {
    RedactedUnfolds(s);
    HeadAndTail(u, rest);
    LettersFollow(u, rest);
  }

  /** A block of at least 23 bytes becomes the marker, and the text behind it is redacted as if
      it stood alone. */
  lemma BlockIsRedacted(block: string, e: nat, rest: string)
    requires IsBlock(block, e, rest) && |block| >= 23
    ensures Redacted(block + rest) == "[PRIVATE KEY REDACTED]\n" + Redacted(rest)
  {
    StepOfBlock(block, e, rest);
    MarkerHasNoLetters(MARKER);
    StepThenRest(block + rest, MARKER, rest);
  }

  lemma MarkerHasNoLetters(u: string)
    requires u == MARKER
    ensures u != "" && 'p' !in u[1..] && '-' !in u[1..]
  {
    assert forall k | 0 <= k < |u| :: u[k] != 'p' && u[k] != '-';
  }

  /** A shorter block is kept, at its BEGIN. */
  lemma ShortBlockIsKept(block: string, e: nat, rest: string)
    requires IsBlock(block, e, rest) && |block| < 23
    ensures Redacted(block + rest) == ['-'] + Redacted((block + rest)[1..])
  {
    var s := block + rest;
    BlockEnds(block, e, rest);
    BeginIsKept(s);
  }

  lemma BeginIsKept(s: string)
    requires At(s, 0, BEGIN) && RedactBlock(s, 0) == s
    ensures Redacted(s) == ['-'] + Redacted(s[1..])
  {
    AtStarts(s, 0, BEGIN);
    AtStarts(s, 0, PASSWORD);
    assert Step(s, 0) == s;
    RedactedUnfolds(s);
  }

  /** So is a BEGIN without any END after it. */
  lemma OpenBlockIsKept(s: string)
    requires At(s, 0, "-----BEGIN") && forall k | 0 <= k < |s| :: !At(s, k, "-----END")
    ensures Redacted(s) == ['-'] + Redacted(s[1..])
  {
    assert FindWord(s, END, 0) == |s|;
    BeginIsKept(s);
  }

  // ----- password values -----

  /** The value at `q` ends at `r`: at the first space, or if there is none ahead, at the first
      comma, or if there is none either, at the end of the text. */
  ghost predicate Ends(s: string, q: nat, r: nat) {
    && q <= r <= |s| && (forall k | q <= k < r :: s[k] != ' ')
    && ((r < |s| && s[r] == ' ') ||
        (&& (forall k | r <= k < |s| :: s[k] != ' ')
         && (forall k | q <= k < r :: s[k] != ',')
         && (r == |s| || s[r] == ',')))
  }

  lemma EndsThere(s: string, q: nat, r: nat)
    requires Ends(s, q, r)
    ensures ValueEnd(s, q) == r
  {
    if r < |s| && s[r] == ' ' {
      IndexOfIs(s, ' ', q, r);
    } else {
      IndexOfIs(s, ' ', q, |s|);
      IndexOfIs(s, ',', q, r);
    }
  }

  /** The value after "password": `q` is the first character that is no space, colon or equals
      sign. */
  ghost predicate ValueAt(s: string, b: nat, q: nat) {
    && At(s, b, "password") && b + 8 <= q <= |s|
    && (forall k | b + 8 <= k < q :: s[k] == ' ' || s[k] == ':' || s[k] == '=')
    && (q < |s| ==> s[q] != ' ' && s[q] != ':' && s[q] != '=')
  }

  predicate White(c: char) {
    c == ' ' || c == '\t' || c == '\n' || c == '\r' || c == 11 as char || c == 12 as char
  }

  /** The scan takes the value from 1 to 19 characters, not starting with white space. */
  ghost predicate IsTaken(s: string, q: nat, r: nat) {
    Ends(s, q, r) && q < |s| && !White(s[q]) && 1 <= r - q <= 19
  }

  lemma TakenIsMaskable(s: string, b: nat, q: nat, r: nat)
    requires ValueAt(s, b, q) && Ends(s, q, r)
    ensures SkipSeparators(s, b + |PASSWORD|) == q && ValueEnd(s, q) == r
    ensures Maskable(s, q) <==> IsTaken(s, q, r)
  {
    SkipSeparatorsIs(s, b + |PASSWORD|, q);
    EndsThere(s, q, r);
  }

  lemma StepOfValue(s: string, q: nat, r: nat, u: string)
    requires ValueAt(s, 0, q) && IsTaken(s, q, r) && u == s[..q] + "[PASSWORD]"
    ensures s != "" && Step(s, 0) == u + s[r..]
  {
    TakenIsMaskable(s, 0, q, r);
    assert s[0] == s[0..8][0] == 'p';
    AtStarts(s, 0, BEGIN);
  }

  /** A value that is taken becomes the mask, and the text behind it is redacted as if it stood
      alone. */
  lemma ValueIsMasked(s: string, q: nat, r: nat)
    requires ValueAt(s, 0, q) && IsTaken(s, q, r)
    ensures Redacted(s) == s[..q] + "[PASSWORD]" + Redacted(s[r..])
  {
    ValueGivesWay(s, q, r, s[..q] + "[PASSWORD]");
  }

  lemma ValueGivesWay(s: string, q: nat, r: nat, u: string)
    requires ValueAt(s, 0, q) && IsTaken(s, q, r) && u == s[..q] + "[PASSWORD]"
    ensures Redacted(s) == u + Redacted(s[r..])
  {
    StepOfValue(s, q, r, u);
    HeadHasNoLetters(s, q, u);
    StepThenRest(s, u, s[r..]);
  }

  lemma HeadHasNoLetters(s: string, q: nat, u: string)
    requires ValueAt(s, 0, q) && u == s[..q] + "[PASSWORD]"
    ensures u != "" && 'p' !in u[1..] && '-' !in u[1..]
  {
    assert u[1..] == s[1..q] + "[PASSWORD]";
    assert forall k | 0 <= k < 8 :: s[k] == s[0..8][k] == "password"[k];
    assert forall k | 1 <= k < 8 :: "password"[k] != 'p' && "password"[k] != '-';
  }

  /** Any other is kept, at its "password". */
  lemma ValueIsKept(s: string, q: nat, r: nat)
    requires ValueAt(s, 0, q) && Ends(s, q, r) && !IsTaken(s, q, r)
    ensures Redacted(s) == ['p'] + Redacted(s[1..])
  {
    TakenIsMaskable(s, 0, q, r);
    assert s[0] == s[0..8][0] == 'p';
    AtStarts(s, 0, BEGIN);
    assert Step(s, 0) == s;
    RedactedUnfolds(s);
  }

  lemma PasswordAlone(v: string)
    requires 1 <= |v| <= 19 && ' ' !in v && ',' !in v && !White(v[0]) && v[0] != ':' && v[0] != '='
    ensures Redacted("password=" + v) == "password=[PASSWORD]"
  {
    var s := "password=" + v;
    assert s[0..8] == "password" && s[8] == '=' && s[9] == v[0];
    forall k | 9 <= k < |s|
      ensures s[k] != ' ' && s[k] != ','
    {
      assert s[k] == v[k - 9] && v[k - 9] in v;
    }
    assert ValueAt(s, 0, 9) && IsTaken(s, 9, |s|);
    ValueIsMasked(s, 9, |s|);
    NothingBehind(s);
  }

  lemma NothingBehind(s: string)
    requires |s| >= 9 && s[..9] == "password="
    ensures s[..9] + "[PASSWORD]" + Redacted(s[|s|..]) == "password=[PASSWORD]"
  {
    assert s[|s|..] == "";
    EmptyIsKept();
  }

  /** Behind any plain text, every password of 1 to 19 characters without a space or comma is
      masked. */
  lemma PasswordIsMasked(before: string, v: string)
    requires NoWordIn(before, "password=" + v)
    requires 1 <= |v| <= 19 && ' ' !in v && ',' !in v && !White(v[0]) && v[0] != ':' && v[0] != '='
    ensures Redacted(before + ("password=" + v)) == before + "password=[PASSWORD]"
  {
    TextIsKept(before, "password=" + v);
    PasswordAlone(v);
  }

  /** Nothing the scan would take is left: such a value in the result shows the mask, or was cut
      short by the marker of a block. */
  lemma NoTakenValueIsLeft(s: string, b: nat, q: nat, r: nat)
    requires b < |Redacted(s)| && ValueAt(Redacted(s), b, q) && IsTaken(Redacted(s), q, r)
    ensures exists k | q <= k ::
      (k + 10 <= r && At(Redacted(s), k, "[PASSWORD]")) || (k + 8 <= r && At(Redacted(s), k, "[PRIVATE"))
  {
    var t := Redacted(s);
    RedactionIsComplete(s, b);
    TakenIsMaskable(t, b, q, r);
    var k :| q <= k && ShowsAt(t, k, ValueEnd(t, q));
    assert (k + 10 <= r && At(t, k, "[PASSWORD]")) || (k + 8 <= r && At(t, k, "[PRIVATE"));
  }
}
