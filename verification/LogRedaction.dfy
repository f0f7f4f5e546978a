/** `mask_sensitive` of master/logger.c: one scan over a log message that rewrites its own
    buffer. PEM blocks shrink to a marker; password values become a ten byte mask, so the text
    may grow ahead of the cursor. PEM boundaries are those of section 2 of RFC 7468. */
module LogRedaction {
  import opened CText

  const BEGIN := "-----BEGIN"
  const END := "-----END"
  const REDACTED := "[PRIVATE KEY REDACTED]\n"
  const PASSWORD := "password"
  const MASK := "[PASSWORD]"

  /** The marker of a PEM block as far as a password value can reach into it. */
  const MARKED := "[PRIVATE"

  // ----- one step of the scan, on texts -----

  /** `memmove` of the tail, then `memcpy` of the insertion. */
  function Splice(s: string, x: nat, y: nat, ins: string): (t: string)
    requires x <= y <= |s|
    ensures |t| == |s| - (y - x) + |ins|
  {
    s[..x] + ins + s[y..]
  }

  /** One past the newline that ends the line of `e`, or the end of the text. */
  function LineEnd(s: string, e: nat): (r: nat)
    requires e <= |s|
    ensures e <= r <= |s|
  {
    var nl := IndexOf(s, '\n', e);
    if nl < |s| then nl + 1 else nl
  }

  function RedactBlock(s: string, i: nat): (t: string)
    requires i < |s|
    ensures i < |t| <= |s|
  {
    var e := FindWord(s, END, i);
    if At(s, i, BEGIN) && e < |s| && |REDACTED| <= LineEnd(s, e) - i
    then Splice(s, i, LineEnd(s, e), REDACTED)
    else s
  }

  predicate IsSeparator(c: char) {
    c == ' ' || c == ':' || c == '='
  }

  function SkipSeparators(s: string, i: nat): (q: nat)
    requires i <= |s|
    ensures i <= q <= |s|
    ensures forall k | i <= k < q :: IsSeparator(s[k])
    ensures q < |s| ==> !IsSeparator(s[q])
    decreases |s| - i
  {
    if i < |s| && IsSeparator(s[i]) then SkipSeparators(s, i + 1) else i
  }

  /** Where a password value stops: the first space, else the first comma, else the end. */
  function ValueEnd(s: string, q: nat): (r: nat)
    requires q <= |s|
    ensures q <= r <= |s|
  {
    var r := IndexOf(s, ' ', q);
    if r < |s| then r else IndexOf(s, ',', q)
  }

  predicate Maskable(s: string, q: nat) {
    q < |s| && !IsSpace(s[q]) && 0 < ValueEnd(s, q) - q < 20
  }

  function MaskPassword(s: string, i: nat): (t: string)
    requires i < |s|
    ensures i < |t|
  {
    if At(s, i, PASSWORD) then
      var q := SkipSeparators(s, i + |PASSWORD|);
      if Maskable(s, q) then Splice(s, q, ValueEnd(s, q), MASK) else s
    else s
  }

  function Step(s: string, i: nat): (t: string)
    requires i < |s|
    ensures i < |t|
  {
    MaskPassword(RedactBlock(s, i), i)
  }

  /** How many times "password" starts at or after position `i`. */
  function Count(s: string, i: nat): nat
    decreases |s| - i
  {
    if i >= |s| then 0 else (if At(s, i, PASSWORD) then 1 else 0) + Count(s, i + 1)
  }

  // ----- what an edit does to the words the scan looks for -----

  /** The insertions start with a bracket that no searched word contains, and they do not
      contain the first character of any searched word. */
  predicate Inert(w: string, ins: string) {
    w != "" && ins != "" && ins[0] == '[' && '[' !in w && w[0] !in ins
  }

  lemma InsertionsAreInert()
    ensures forall w, ins | w in {BEGIN, END, PASSWORD} && ins in {REDACTED, MASK} :: Inert(w, ins)
  {
    assert PASSWORD[0] == 'p' && BEGIN[0] == '-' && END[0] == '-';
  }

  /** No edit creates a word: every occurrence after the edit was one before it. */
  lemma WordSurvives(s: string, x: nat, y: nat, ins: string, w: string, b: nat)
    requires x <= y <= |s| && Inert(w, ins)
    requires At(Splice(s, x, y, ins), b, w)
    ensures
      || (b + |w| <= x && At(s, b, w))
      || (x + |ins| <= b && At(s, b - x - |ins| + y, w))
  {
    var t := Splice(s, x, y, ins);
    assert forall k | 0 <= k < |w| :: t[b + k] == w[k];
    assert t[x] == '[';
    assert t[b] == w[0];
    assert !(x <= b < x + |ins|);
    if b < x {
      assert '[' !in t[b..b + |w|];
      assert t[b..b + |w|] == s[b..b + |w|];
    } else {
      var c := b - x - |ins| + y;
      assert t[b..b + |w|] == s[c..c + |w|];
    }
  }

  lemma {:induction false} CountOfEqualTails(s: string, i: nat, t: string, j: nat)
    requires i <= |s| && j <= |t| && s[i..] == t[j..]
    ensures Count(s, i) == Count(t, j)
    decreases |s| - i
  {
    assert |s| - i == |s[i..]| == |t[j..]| == |t| - j;
    if i < |s| {
      assert s[i + 1..] == s[i..][1..] == t[j + 1..];
      CountOfEqualTails(s, i + 1, t, j + 1);
      if i + |PASSWORD| <= |s| {
        assert s[i..i + |PASSWORD|] == s[i..][..|PASSWORD|] == t[j..j + |PASSWORD|];
      }
    }
  }

  lemma {:induction false} CountIsAntitone(s: string, i: nat, j: nat)
    requires i <= j <= |s|
    ensures Count(s, j) <= Count(s, i)
    decreases j - i
  {
    if i < j {
      CountIsAntitone(s, i + 1, j);
    }
  }

  lemma {:induction false} CountAfterSplice(s: string, x: nat, y: nat, ins: string, i: nat)
    requires i <= x + |ins| && x <= y <= |s| && Inert(PASSWORD, ins)
    ensures Count(Splice(s, x, y, ins), i) <= if i <= x then Count(s, i) else Count(s, y)
    decreases x + |ins| - i
  {
    var t := Splice(s, x, y, ins);
    if i == x + |ins| {
      assert t[i..] == s[y..];
      CountOfEqualTails(t, i, s, y);
    } else {
      CountAfterSplice(s, x, y, ins, i + 1);
      if i == x {
        CountIsAntitone(s, x, y);
      }
      if At(t, i, PASSWORD) {
        WordSurvives(s, x, y, ins, PASSWORD, i);
      }
    }
  }

  /** The growth budget: an edit may add nine bytes only where it consumes an occurrence. */
  lemma StepWithinBudget(s: string, i: nat)
    requires i < |s|
    ensures |RedactBlock(s, i)| + 9 * Count(RedactBlock(s, i), i) <= |s| + 9 * Count(s, i)
    ensures |Step(s, i)| + 9 * Count(Step(s, i), i + 1) <= |s| + 9 * Count(s, i)
    ensures |Step(s, i)| + 10 * Count(Step(s, i), i + 1) <= |s| + 10 * Count(s, i)
  {
    InsertionsAreInert();
    var t := RedactBlock(s, i);
    if t != s {
      CountAfterSplice(s, i, LineEnd(s, FindWord(s, END, i)), REDACTED, i);
    }
    var u := MaskPassword(t, i);
    if u != t {
      var q := SkipSeparators(t, i + |PASSWORD|);
      CountAfterSplice(t, q, ValueEnd(t, q), MASK, i + 1);
    }
  }

  /** The whole scan from position `i`; it ends although a step may lengthen the text. */
  function Scan(s: string, i: nat): (t: string)
    requires i <= |s|
    decreases |s| - i + 10 * Count(s, i)
  {
    if i == |s| then s else
      StepWithinBudget(s, i);
      Scan(Step(s, i), i + 1)
  }

  function Redacted(s: string): string {
    Scan(s, 0)
  }

  // ----- completeness: what the scan leaves behind the cursor -----

  /** A BEGIN line survives only without a later END line, or with a block too short to hold
      the marker. */
  ghost predicate PemSettled(s: string, b: nat)
    requires b <= |s|
  {
    At(s, b, BEGIN) ==>
      var e := FindWord(s, END, b);
      e == |s| || LineEnd(s, e) - b < |REDACTED|
  }

  /** A password value survives only when it is empty, starts with white space, has at least
      twenty bytes, or shows a redaction. */
  ghost predicate PasswordSettled(s: string, b: nat)
    requires b <= |s|
  {
    At(s, b, PASSWORD) ==> ValueSettled(s, SkipSeparators(s, b + |PASSWORD|))
  }

  /** The value at `q`, if it is one the scan would mask, holds a whole mask, or the marker of a
      block that was redacted later and cut the value short. */
  ghost predicate ValueSettled(s: string, q: nat) {
    Maskable(s, q) ==> exists k :: q <= k && ShowsAt(s, k, ValueEnd(s, q))
  }

  ghost predicate ShowsAt(s: string, k: nat, r: nat) {
    (k + |MASK| <= r && At(s, k, MASK)) || (k + |MARKED| <= r && At(s, k, MARKED))
  }

  ghost predicate SettledBelow(s: string, i: nat)
    requires i <= |s|
  {
    forall b | 0 <= b < i :: PemSettled(s, b) && PasswordSettled(s, b)
  }

  predicate IsWord(w: string) {
    w == BEGIN || w == END || w == PASSWORD
  }

  /** The searched words do not overlap one another. */
  lemma WordsAreDisjoint(s: string, a: nat, v: string, b: nat, w: string)
    requires IsWord(v) && IsWord(w) && At(s, a, v) && At(s, b, w) && a <= b
    ensures a + |v| <= b || (a == b && v == w)
  {
    assert forall k | 0 <= k < |v| :: s[a + k] == v[k];
    assert forall k | 0 <= k < |w| :: s[b + k] == w[k];
    var d := b - a;
    assert d < |v| ==> s[a + d] == v[d] == w[0];
    assert s[a + 5] == v[5] && s[b + 5] == w[5];
    assert d <= 5 ==> s[b + (5 - d)] == w[5 - d];
  }

  lemma WordStaysOnItsLine(s: string, i: nat, w: string)
    requires IsWord(w) && At(s, i, w)
    ensures |w| >= 8 && forall k | i <= k < i + |w| :: s[k] != '\n'
  {
    assert '\n' !in s[i..i + |w|];
  }

  /** A block that was too short to redact lies wholly behind any word found later. */
  lemma ShortBlockIsBehind(s: string, b: nat, i: nat, w: string, e: nat)
    requires w in {BEGIN, PASSWORD} && At(s, b, BEGIN) && At(s, i, w) && b < i
    requires b <= e && At(s, e, END) && LineEnd(s, e) - b < 23
    ensures LineEnd(s, e) <= i
  {
    WordsAreDisjoint(s, b, BEGIN, e, END);
    WordsAreDisjoint(s, b, BEGIN, i, w);
    WordStaysOnItsLine(s, i, w);
    WordStaysOnItsLine(s, e, END);
    if i <= e {
      WordsAreDisjoint(s, i, w, e, END);
    } else {
      WordsAreDisjoint(s, e, END, i, w);
    }
  }

  lemma NoEndAppears(s: string, x: nat, y: nat, ins: string, b: nat)
    requires b <= x <= y <= |s| && Inert(END, ins) && FindWord(s, END, b) == |s|
    ensures FindWord(Splice(s, x, y, ins), END, b) == |Splice(s, x, y, ins)|
  {
    var t := Splice(s, x, y, ins);
    var e := FindWord(t, END, b);
    if e < |t| {
      WordSurvives(s, x, y, ins, END, e);
    }
  }

  lemma BlockAheadOfEditStays(s: string, x: nat, y: nat, ins: string, b: nat)
    requires b <= x <= y <= |s| && x < |s|
    requires FindWord(s, END, b) < |s| && LineEnd(s, FindWord(s, END, b)) <= x
    ensures
      var t, e := Splice(s, x, y, ins), FindWord(s, END, b);
      e < |t| && FindWord(t, END, b) == e && LineEnd(t, e) == LineEnd(s, e)
  {
    var t, e := Splice(s, x, y, ins), FindWord(s, END, b);
    var nl := IndexOf(s, '\n', e);
    WordStaysOnItsLine(s, e, END);
    assert e + |END| <= nl && LineEnd(s, e) <= x < |s|;
    assert t[..x] == s[..x];
    assert forall j | 0 <= j < x :: t[j] == s[j] by {
      assert forall j | 0 <= j < x :: t[j] == t[..x][j] && s[j] == s[..x][j];
    }
    forall k | b <= k <= e ensures At(t, k, END) == At(s, k, END) {
      assert t[k..k + |END|] == s[k..k + |END|];
    }
    FindWordIs(t, END, b, e);
    IndexOfIs(t, '\n', e, nl);
  }

  lemma PemStaysSettled(s: string, x: nat, y: nat, ins: string, b: nat)
    requires b < x <= y <= |s| && x < |s| && Inert(BEGIN, ins) && Inert(END, ins) && PemSettled(s, b)
    requires At(s, b, BEGIN) && FindWord(s, END, b) < |s| ==> LineEnd(s, FindWord(s, END, b)) <= x
    ensures PemSettled(Splice(s, x, y, ins), b)
  {
    var t := Splice(s, x, y, ins);
    if At(t, b, BEGIN) {
      WordSurvives(s, x, y, ins, BEGIN, b);
      if FindWord(s, END, b) == |s| {
        NoEndAppears(s, x, y, ins, b);
      } else {
        BlockAheadOfEditStays(s, x, y, ins, b);
      }
    }
  }

  lemma SkipSeparatorsIs(s: string, i: nat, q: nat)
    requires i <= q <= |s|
    requires forall k | i <= k < q :: IsSeparator(s[k])
    requires q < |s| ==> !IsSeparator(s[q])
    ensures SkipSeparators(s, i) == q
    decreases q - i
  {
    if i < q {
      SkipSeparatorsIs(s, i + 1, q);
    }
  }

  /** What the insertions show to a value that reaches them: their first `m` characters are
      the mask, or the marker up to its first space. */
  ghost predicate Shows(ins: string, m: nat) {
    || (ins == MASK && m == |MASK|)
    || (ins == REDACTED && m == |MARKED|)
  }

  lemma ShownIsSolid(ins: string, m: nat)
    requires Shows(ins, m)
    ensures 0 < m <= |ins| && ins[0] == '[' && ins[..m] == if ins == MASK then MASK else MARKED
    ensures forall k | 0 <= k < m :: ins[k] != ' ' && ins[k] != ','
  {
  }

  /** Where a value that starts before an edit ends after it: either nothing changed, or the
      value now reaches over what the insertion shows. */
  lemma ValueEndAfterEdit(s: string, x: nat, y: nat, ins: string, q: nat, m: nat)
    requires q <= x <= y <= |s| && m <= |ins| && forall k | 0 <= k < m :: ins[k] != ' ' && ins[k] != ','
    requires
      var t := Splice(s, x, y, ins);
      IndexOf(t, ' ', x) == |t| ==> IndexOf(s, ' ', x) == |s|
    ensures
      var t := Splice(s, x, y, ins);
      ValueEnd(t, q) >= x + m || (ValueEnd(t, q) == ValueEnd(s, q) < x)
  {
    var t := Splice(s, x, y, ins);
    assert t[..x] == s[..x];
    assert forall k | x <= k < x + m :: t[k] == ins[k - x];
    var c := IndexOf(t, ' ', q);
    assert forall k | q <= k < x :: t[k] == s[k];
    if c < x {
      IndexOfIs(s, ' ', q, c);
    } else if c == |t| {
      IndexOfIs(t, ' ', x, |t|);
      IndexOfIs(s, ' ', q, |s|);
      var d := IndexOf(t, ',', q);
      if d < x {
        IndexOfIs(s, ',', q, d);
      }
    }
  }

  lemma ShownBeforeEdit(s: string, x: nat, y: nat, ins: string, k: nat, r: nat)
    requires r <= x <= y <= |s| && ShowsAt(s, k, r)
    ensures ShowsAt(Splice(s, x, y, ins), k, r)
  {
    var t := Splice(s, x, y, ins);
    assert t[..x] == s[..x];
    AtInPrefix(s, x, k, MASK);
    AtInPrefix(t, x, k, MASK);
    AtInPrefix(s, x, k, MARKED);
    AtInPrefix(t, x, k, MARKED);
  }

  lemma ShownByEdit(s: string, x: nat, y: nat, ins: string, m: nat, r: nat)
    requires x <= y <= |s| && Shows(ins, m) && x + m <= r
    ensures ShowsAt(Splice(s, x, y, ins), x, r)
  {
    var t := Splice(s, x, y, ins);
    ShownIsSolid(ins, m);
    assert t[x..x + m] == ins[..m];
  }

  lemma ValueStaysSettled(s: string, x: nat, y: nat, ins: string, m: nat, q: nat)
    requires q <= x <= y <= |s| && Shows(ins, m) && (q < x ==> ValueSettled(s, q))
    requires
      var t := Splice(s, x, y, ins);
      IndexOf(t, ' ', x) == |t| ==> IndexOf(s, ' ', x) == |s|
    ensures ValueSettled(Splice(s, x, y, ins), q)
  {
    var t := Splice(s, x, y, ins);
    var r := ValueEnd(t, q);
    ShownIsSolid(ins, m);
    ValueEndAfterEdit(s, x, y, ins, q, m);
    if x + m <= r {
      ShownByEdit(s, x, y, ins, m, r);
    } else if Maskable(t, q) {
      assert t[q] == t[..x][q] == s[..x][q];
      var k :| q <= k && ShowsAt(s, k, r);
      ShownBeforeEdit(s, x, y, ins, k, r);
    }
  }

  lemma PasswordStaysSettled(s: string, x: nat, y: nat, ins: string, m: nat, b: nat)
    requires b < x <= y <= |s| && Inert(PASSWORD, ins) && Shows(ins, m) && PasswordSettled(s, b)
    requires
      var t := Splice(s, x, y, ins);
      IndexOf(t, ' ', x) == |t| ==> IndexOf(s, ' ', x) == |s|
    ensures PasswordSettled(Splice(s, x, y, ins), b)
  {
    var t := Splice(s, x, y, ins);
    if At(t, b, PASSWORD) {
      WordSurvives(s, x, y, ins, PASSWORD, b);
      SeparatorsBeforeEdit(s, x, y, ins, b + |PASSWORD|);
      ValueStaysSettled(s, x, y, ins, m, SkipSeparators(t, b + |PASSWORD|));
    }
  }

  lemma SeparatorsBeforeEdit(s: string, x: nat, y: nat, ins: string, a: nat)
    requires a <= x <= y <= |s| && ins != "" && ins[0] == '['
    ensures
      var q := SkipSeparators(Splice(s, x, y, ins), a);
      q <= x && (q < x ==> SkipSeparators(s, a) == q)
  {
    var t := Splice(s, x, y, ins);
    var q := SkipSeparators(t, a);
    assert t[x] == '[' && forall k | a <= k < x :: t[k] == s[k];
    if q < x {
      SkipSeparatorsIs(s, a, q);
    }
  }

  /** The edits keep the "is there a space ahead" test that the preceding lemma needs. */
  lemma MaskKeepsLaterSpace(s: string, q: nat)
    requires q < |s|
    ensures
      var t := Splice(s, q, ValueEnd(s, q), MASK);
      IndexOf(t, ' ', q) == |t| ==> IndexOf(s, ' ', q) == |s|
  {
    var r := ValueEnd(s, q);
    var t := Splice(s, q, r, MASK);
    if r < |s| && s[r] == ' ' {
      assert t[q + 10] == s[r];
    }
  }

  lemma MarkerHasSpace(s: string, i: nat, y: nat)
    requires i <= y <= |s|
    ensures IndexOf(Splice(s, i, y, REDACTED), ' ', i) < |Splice(s, i, y, REDACTED)|
  {
    assert Splice(s, i, y, REDACTED)[i + 8] == REDACTED[8] == ' ';
  }

  lemma RedactBlockKeepsBehind(s: string, i: nat, b: nat)
    requires b < i < |s| && PemSettled(s, b) && PasswordSettled(s, b)
    ensures PemSettled(RedactBlock(s, i), b) && PasswordSettled(RedactBlock(s, i), b)
  {
    if RedactBlock(s, i) != s {
      InsertionsAreInert();
      var y, f := LineEnd(s, FindWord(s, END, i)), FindWord(s, END, b);
      MarkerHasSpace(s, i, y);
      if At(s, b, BEGIN) && f < |s| {
        ShortBlockIsBehind(s, b, i, BEGIN, f);
      }
      PemStaysSettled(s, i, y, REDACTED, b);
      PasswordStaysSettled(s, i, y, REDACTED, |MARKED|, b);
    }
  }

  lemma RedactBlockSettles(s: string, i: nat)
    requires i < |s|
    ensures PemSettled(RedactBlock(s, i), i)
  {
    var t, e := RedactBlock(s, i), FindWord(s, END, i);
    if At(s, i, BEGIN) && e < |s| && |REDACTED| <= LineEnd(s, e) - i {
      InsertionsAreInert();
      if At(t, i, BEGIN) {
        WordSurvives(s, i, LineEnd(s, e), REDACTED, BEGIN, i);
      }
    }
  }

  lemma MaskPasswordKeepsPem(s: string, i: nat, b: nat)
    requires b <= i < |s| && PemSettled(s, b)
    ensures PemSettled(MaskPassword(s, i), b)
  {
    if MaskPassword(s, i) != s {
      InsertionsAreInert();
      var q, f := SkipSeparators(s, i + |PASSWORD|), FindWord(s, END, b);
      if At(s, b, BEGIN) && f < |s| {
        WordsAreDisjoint(s, b, BEGIN, i, PASSWORD);
        ShortBlockIsBehind(s, b, i, PASSWORD, f);
      }
      PemStaysSettled(s, q, ValueEnd(s, q), MASK, b);
    }
  }

  lemma MaskedValueIsSettled(s: string, a: nat)
    requires a <= |s| && Maskable(s, SkipSeparators(s, a))
    ensures
      var q := SkipSeparators(s, a);
      var t := Splice(s, q, ValueEnd(s, q), MASK);
      ValueSettled(t, SkipSeparators(t, a))
  {
    var q := SkipSeparators(s, a);
    var r := ValueEnd(s, q);
    var t := Splice(s, q, r, MASK);
    MaskKeepsLaterSpace(s, q);
    SeparatorsBeforeEdit(s, q, r, MASK, a);
    SkipSeparatorsIs(t, a, q);
    ValueStaysSettled(s, q, r, MASK, |MASK|, q);
  }

  lemma MaskPasswordKeepsPasswords(s: string, i: nat, b: nat)
    requires b <= i < |s| && (b < i ==> PasswordSettled(s, b))
    ensures PasswordSettled(MaskPassword(s, i), b)
  {
    if At(s, i, PASSWORD) && Maskable(s, SkipSeparators(s, i + |PASSWORD|)) {
      var q := SkipSeparators(s, i + |PASSWORD|);
      InsertionsAreInert();
      MaskKeepsLaterSpace(s, q);
      if b < i {
        PasswordStaysSettled(s, q, ValueEnd(s, q), MASK, |MASK|, b);
      } else {
        MaskedValueIsSettled(s, i + |PASSWORD|);
      }
    }
  }

  lemma StepSettles(s: string, i: nat)
    requires i < |s| && SettledBelow(s, i)
    ensures SettledBelow(Step(s, i), i + 1)
  {
    var t := RedactBlock(s, i);
    forall b | 0 <= b < i + 1 ensures PemSettled(Step(s, i), b) && PasswordSettled(Step(s, i), b) {
      if b < i {
        RedactBlockKeepsBehind(s, i, b);
      } else {
        RedactBlockSettles(s, i);
      }
      MaskPasswordKeepsPem(t, i, b);
      MaskPasswordKeepsPasswords(t, i, b);
    }
  }

  lemma {:induction false} ScanSettles(s: string, i: nat)
    requires i <= |s| && SettledBelow(s, i)
    ensures SettledBelow(Scan(s, i), |Scan(s, i)|)
    decreases |s| - i + 10 * Count(s, i)
  {
    if i < |s| {
      StepWithinBudget(s, i);
      StepSettles(s, i);
      ScanSettles(Step(s, i), i + 1);
    }
  }

  /** Redaction is complete: on any message, every BEGIN line that survives has no END line
      after it or heads a block of less than 23 bytes, and every value after a surviving
      "password" is one the scan does not mask, or holds the mask, or was cut short by the
      marker of a block. */
  lemma RedactionIsComplete(s: string, b: nat)
    requires b < |Redacted(s)|
    ensures PemSettled(Redacted(s), b)
    ensures PasswordSettled(Redacted(s), b)
  {
    ScanSettles(s, 0);
  }

  /** How a value comes to be cut short: it was too long to be masked, and a block inside it
      was redacted after the cursor had passed "password". What stood before the block
      remains. */
  lemma LaterBlockCutsValue(s: string, q: nat, i: nat)
    requires q <= i < |s| && At(s, i, BEGIN) && FindWord(s, END, i) < |s|
    requires |REDACTED| <= LineEnd(s, FindWord(s, END, i)) - i
    requires forall k | q <= k < i :: s[k] != ' '
    ensures
      var t := RedactBlock(s, i);
      ValueEnd(t, q) == i + |MARKED| <= |t| && t[q..i] == s[q..i] && At(t, i, MARKED)
  {
    var y := LineEnd(s, FindWord(s, END, i));
    var t := Splice(s, i, y, REDACTED);
    assert t[..i] == s[..i];
    assert forall k | q <= k < i :: t[k] == t[..i][k] && s[k] == s[..i][k];
    assert forall k | i <= k < i + |REDACTED| :: t[k] == REDACTED[k - i];
    ShownIsSolid(REDACTED, |MARKED|);
    assert t[i + |MARKED|] == ' ';
    IndexOfIs(t, ' ', q, i + |MARKED|);
    ShownByEdit(s, i, y, REDACTED, |MARKED|, i + |MARKED|);
    assert t[q..i] == s[q..i];
    assert t[i..i + |MARKED|] == REDACTED[..|MARKED|];
  }

  // ----- how much room the scan needs -----

  /** The longest text the buffer holds while the scan runs. */
  function Peak(s: string, i: nat): nat
    requires i <= |s|
    decreases |s| - i + 10 * Count(s, i)
  {
    if i == |s| then |s| else
      StepWithinBudget(s, i);
      var later := Peak(Step(s, i), i + 1);
      if later < |s| then |s| else later
  }

  /** A message of n bytes in which "password" occurs k times never needs more than
      n + 9k bytes (and the NUL). */
  lemma {:induction false} PeakWithinBudget(s: string, i: nat)
    requires i <= |s|
    ensures |Scan(s, i)| <= Peak(s, i) <= |s| + 9 * Count(s, i)
    decreases |s| - i + 10 * Count(s, i)
  {
    if i < |s| {
      StepWithinBudget(s, i);
      PeakWithinBudget(Step(s, i), i + 1);
    }
  }

  lemma AtStarts(s: string, i: nat, w: string)
    requires w != ""
    ensures At(s, i, w) ==> i < |s| && s[i] == w[0]
  {
    if At(s, i, w) {
      assert s[i..i + |w|][0] == s[i];
    }
  }

  lemma {:induction false} CountNearTheEnd(s: string, i: nat)
    requires |s| < i + |PASSWORD|
    ensures Count(s, i) == 0
    decreases |s| - i
  {
    if i < |s| {
      CountNearTheEnd(s, i + 1);
    }
  }

  ghost predicate PlainBetween(s: string, i: nat, n: nat) {
    i <= n <= |s| && forall k | i <= k < n :: s[k] != 'p' && s[k] != '-'
  }

  /** Text in which no searched word can start is passed over. */
  lemma {:induction false} PlainIsPassed(s: string, i: nat, n: nat)
    requires PlainBetween(s, i, n)
    ensures Count(s, i) == Count(s, n) && Peak(s, i) >= Peak(s, n)
    decreases n - i
  {
    if i < n {
      AtStarts(s, i, BEGIN);
      AtStarts(s, i, PASSWORD);
      assert Step(s, i) == s;
      PlainIsPassed(s, i + 1, n);
    }
  }

  /** A message that ends in a password value of one character. */
  function EndsInPassword(before: string, c: char): string {
    before + (PASSWORD + ":" + [c])
  }

  lemma MaskedAtTheEnd(before: string, c: char)
    requires !IsSpace(c) && !IsSeparator(c) && c != ','
    ensures var s, n := EndsInPassword(before, c), |before|;
      Count(s, n) == 1 && |Step(s, n)| == |s| + 9
  {
    var s, n := EndsInPassword(before, c), |before|;
    assert s[n..n + 8] == PASSWORD && s[n + 8] == ':' && s[n + 9] == c && |s| == n + 10;
    assert s[n] == s[n..n + 8][0] && s[n + 1] == s[n..n + 8][1] && s[n + 2] == s[n..n + 8][2];
    CountNearTheEnd(s, n + 3);
    AtStarts(s, n + 1, PASSWORD);
    AtStarts(s, n + 2, PASSWORD);
    AtStarts(s, n, BEGIN);
    assert Count(s, n + 1) == Count(s, n + 2) == 0;
    assert SkipSeparators(s, n + 8) == n + 9 by {
      assert SkipSeparators(s, n + 9) == n + 9;
    }
    assert IndexOf(s, ' ', n + 9) == n + 10 && IndexOf(s, ',', n + 9) == n + 10;
    assert Step(s, n) == Splice(s, n + 9, n + 10, MASK);
  }

  /** The bound is reached: behind any plain text, masking a value of one character takes nine
      bytes more. */
  lemma BoundIsReached(before: string, c: char)
    requires PlainBetween(before, 0, |before|) && !IsSpace(c) && !IsSeparator(c) && c != ','
    ensures var s := EndsInPassword(before, c);
      Count(s, 0) == 1 && Peak(s, 0) == |s| + 9
  {
    var s, n := EndsInPassword(before, c), |before|;
    assert forall k | 0 <= k < n :: s[k] == before[k];
    MaskedAtTheEnd(before, c);
    PlainIsPassed(s, 0, n);
    PeakWithinBudget(s, 0);
    PeakReachesStep(s, n);
  }

  lemma PeakReachesStep(s: string, i: nat)
    requires i < |s|
    ensures Peak(s, i) >= |Step(s, i)|
  {
    StepWithinBudget(s, i);
    PeakWithinBudget(Step(s, i), i + 1);
  }

  // ----- the buffer of log_message -----

  /** `log_message` formats into this many bytes, the NUL included (master/logger.c:67). */
  const LOG_BUFFER := 4096

  function Needed(s: string): nat {
    Peak(s, 0)
  }

  lemma NeededWithinBudget(s: string, count: nat)
    requires count == Count(s, 0)
    ensures |s| <= Needed(s) <= |s| + 9 * count
  {
    PeakIsBetween(s, 0);
  }

  lemma PeakIsBetween(s: string, i: nat)
    requires i <= |s|
    ensures |s| <= Peak(s, i) <= |s| + 9 * Count(s, i)
  {
    PeakWithinBudget(s, i);
    PeakIsNotLess(s, i);
  }

  lemma PeakIsNotLess(s: string, i: nat)
    requires i <= |s|
    ensures |s| <= Peak(s, i)
  {
  }

  /** The occurrences of "password" in a message. */
  ghost function Passwords(s: string, i: nat): set<nat> {
    set k | i <= k < |s| && At(s, k, "password")
  }

  lemma {:induction false} CountIsOfPasswords(s: string, i: nat)
    ensures Count(s, i) == |Passwords(s, i)|
    decreases |s| - i
  {
    if i >= |s| {
      assert Passwords(s, i) == {};
    } else {
      CountIsOfPasswords(s, i + 1);
      assert Passwords(s, i) == Passwords(s, i + 1) + if At(s, i, PASSWORD) then {i} else {};
    }
  }

  /** A message fits all the time if it does with nine bytes more for each "password". */
  lemma ShortMessageFits(s: string)
    requires |s| + 9 * |Passwords(s, 0)| < 4096
    ensures Needed(s) < 4096
  {
    NeededWithinBudget(s, Count(s, 0));
    CountIsOfPasswords(s, 0);
  }

  lemma FullMessage() returns (before: string, s: string)
    ensures s == EndsInPassword(before, 'x') && PlainBetween(before, 0, |before|)
    ensures |s| == 4095 && IsText(s) && s[|s| - 10..] == "password:x"
  {
    before := seq(LOG_BUFFER - 11, _ => 'm');
    s := EndsInPassword(before, 'x');
    assert s[|before|..] == PASSWORD + ":" + ['x'] == "password:x";
    forall k | 0 <= k < |s|
      ensures s[k] != NUL
    {
      assert k < |before| ==> s[k] == before[k];
      assert k >= |before| ==> s[k] == "password:x"[k - |before|];
    }
  }

  /** Not every message does: one that fills the buffer of 4096 bytes and ends in "password:x"
      needs nine bytes more than there are. */
  lemma FullMessageDoesNotFit() returns (s: string)
    ensures |s| == 4095 && IsText(s) && s[|s| - 10..] == "password:x"
    ensures Needed(s) == 4104
  {
    var before;
    before, s := FullMessage();
    NeededAtTheBound(before, 'x');
  }

  lemma NeededAtTheBound(before: string, c: char)
    requires PlainBetween(before, 0, |before|) && !IsSpace(c) && !IsSeparator(c) && c != ','
    ensures Needed(EndsInPassword(before, c)) == |EndsInPassword(before, c)| + 9
  {
    BoundIsReached(before, c);
  }

  // ----- what the scan keeps -----

  ghost predicate SameUpTo(s: string, t: string, i: nat) {
    i <= |s| && i <= |t| && forall k | 0 <= k < i :: s[k] == t[k]
  }

  lemma StepKeepsPrefix(s: string, i: nat)
    requires i < |s|
    ensures SameUpTo(s, Step(s, i), i)
  {
    assert SameUpTo(s, RedactBlock(s, i), i);
  }

  lemma SameUpToTwice(s: string, t: string, u: string, i: nat)
    requires SameUpTo(s, t, i) && SameUpTo(t, u, i + 1)
    ensures SameUpTo(s, u, i)
  {
  }

  /** Nothing before the cursor changes any more. */
  lemma {:induction false} ScanKeepsPrefix(s: string, i: nat)
    requires i <= |s|
    ensures SameUpTo(s, Scan(s, i), i)
    decreases |s| - i + 10 * Count(s, i)
  {
    if i < |s| {
      var t := Step(s, i);
      StepWithinBudget(s, i);
      StepKeepsPrefix(s, i);
      ScanKeepsPrefix(t, i + 1);
      SameUpToTwice(s, t, Scan(t, i + 1), i);
      ScanUnfolds(s, i);
    }
  }

  /** A message is kept up to its first "-----BEGIN" or "password"; without either it is
      logged as it is. */
  lemma PlainTextIsKept(s: string, j: nat)
    requires j <= |s| && forall k | 0 <= k < j :: !At(s, k, BEGIN) && !At(s, k, PASSWORD)
    ensures SameUpTo(s, Redacted(s), j)
    ensures j == |s| ==> Redacted(s) == s
  {
    ScanSkipsPlainText(s, j);
    ScanKeepsPrefix(s, j);
  }

  lemma ScanIsIdle(s: string, i: nat)
    requires i < |s| && !At(s, i, BEGIN) && !At(s, i, PASSWORD)
    ensures Scan(s, i) == Scan(s, i + 1)
  {
    assert RedactBlock(s, i) == s && MaskPassword(s, i) == s;
  }

  lemma ScanSkipsPlainText(s: string, j: nat)
    requires j <= |s| && forall k | 0 <= k < j :: !At(s, k, BEGIN) && !At(s, k, PASSWORD)
    ensures Redacted(s) == Scan(s, j)
  {
    var r := Redacted(s);
    for i := 0 to j
      invariant r == Scan(s, i)
    {
      ScanIsIdle(s, i);
    }
  }

  // ----- the scan in its buffer -----

  /** The buffer holds the text `s`, with its NUL. */
  ghost predicate Holds(buf: array<char>, s: string)
    reads buf
  {
    IsText(s) && |s| < buf.Length && buf[..|s|] == s && buf[|s|] == NUL
  }

  /** `memmove(buf + dst, buf + src, n)` */
  method MemMove(buf: array<char>, dst: nat, src: nat, n: nat)
    requires dst + n <= buf.Length && src + n <= buf.Length
    modifies buf
    ensures buf[..] == old(buf[..dst] + buf[src..src + n] + buf[dst + n..])
  {
    forall k | 0 <= k < n {
      buf[dst + k] := buf[src + k];
    }
  }

  /** `memcpy(buf + dst, w, |w|)` */
  method MemCpy(buf: array<char>, dst: nat, w: string)
    requires dst + |w| <= buf.Length
    modifies buf
    ensures buf[..] == old(buf[..dst]) + w + old(buf[dst + |w|..])
  {
    forall k | 0 <= k < |w| {
      buf[dst + k] := w[k];
    }
  }

  /** `ins` is written at `x`, then the tail from `y` is moved up against it. */
  lemma CopyThenMove(b: seq<char>, s: string, x: nat, y: nat, ins: string)
    requires |s| < |b| && b[..|s|] == s && b[|s|] == NUL && x + |ins| <= y <= |s|
    ensures
      var b1, n := b[..x] + ins + b[x + |ins|..], |s| - y + 1;
      var b2 := b1[..x + |ins|] + b1[y..y + n] + b1[x + |ins| + n..];
      var t := Splice(s, x, y, ins);
      |t| < |b2| && b2[..|t|] == t && b2[|t|] == NUL
  {
    var b1, n := b[..x] + ins + b[x + |ins|..], |s| - y + 1;
    assert b1[y..y + n] == b[y..y + n];
    assert b[y..y + n] == s[y..] + [NUL];
  }

  /** The tail from `y` is moved to make room, then `ins` is written at `x`. */
  lemma MoveThenCopy(b: seq<char>, b1: seq<char>, b2: seq<char>, s: string, x: nat, y: nat, ins: string)
    requires |s| < |b| && b[..|s|] == s && b[|s|] == NUL && x <= y <= |s|
    requires x + |ins| + |s| - y < |b|
    requires b1 == b[..x + |ins|] + b[y..y + (|s| - y + 1)] + b[x + |ins| + (|s| - y + 1)..]
    requires b2 == b1[..x] + ins + b1[x + |ins|..]
    ensures var t := Splice(s, x, y, ins);
      |t| < |b2| && b2[..|t|] == t && b2[|t|] == NUL
  {
    var n := |s| - y + 1;
    assert b[y..y + n] == s[y..] + [NUL];
  }

  lemma SpliceIsText(s: string, x: nat, y: nat, ins: string)
    requires x <= y <= |s| && IsText(s) && IsText(ins)
    ensures IsText(Splice(s, x, y, ins))
  {
  }

  method RedactBlockInPlace(buf: array<char>, p: nat, ghost s: string)
    requires Holds(buf, s) && p < |s|
    modifies buf
    ensures Holds(buf, RedactBlock(s, p))
  {
    CStringIs(buf[..], s);
    var text := CString(buf[..]);
    if At(text, p, BEGIN) {
      var end := FindWord(text, END, p);
      if end < |text| {
        var lineEnd := LineEnd(text, end);
        var blockLen := lineEnd - p;
        if |REDACTED| <= blockLen {
          SpliceIsText(s, p, lineEnd, REDACTED);
          CopyThenMove(buf[..], s, p, lineEnd, REDACTED);
          MemCpy(buf, p, REDACTED);
          MemMove(buf, p + |REDACTED|, lineEnd, |text| - lineEnd + 1);
        }
      }
    }
  }

  method MaskValueInPlace(buf: array<char>, q: nat, ghost s: string)
    requires Holds(buf, s) && q <= |s| && Maskable(s, q)
    requires |Splice(s, q, ValueEnd(s, q), MASK)| < buf.Length
    modifies buf
    ensures Holds(buf, Splice(s, q, ValueEnd(s, q), MASK))
  {
    CStringIs(buf[..], s);
    var text := CString(buf[..]);
    ReplaceInPlace(buf, q, ValueEnd(text, q), |text|, s);
  }

  /** The tail moves first, then the mask is written; the text may grow. */
  method ReplaceInPlace(buf: array<char>, q: nat, r: nat, n: nat, ghost s: string)
    requires Holds(buf, s) && q <= r <= |s| && n == |s|
    requires |Splice(s, q, r, MASK)| < buf.Length
    modifies buf
    ensures Holds(buf, Splice(s, q, r, MASK))
  {
    ghost var b := buf[..];
    MemMove(buf, q + |MASK|, r, n - r + 1);
    ghost var b1 := buf[..];
    MemCpy(buf, q, MASK);
    SpliceIsText(s, q, r, MASK);
    MoveThenCopy(b, b1, buf[..], s, q, r, MASK);
  }

  method FindValue(buf: array<char>, from: nat, ghost s: string) returns (q: nat)
    requires Holds(buf, s) && from <= |s|
    ensures q == SkipSeparators(s, from)
  {
    q := from;
    while buf[q] != NUL && IsSeparator(buf[q])
      invariant from <= q <= |s|
      invariant SkipSeparators(s, q) == SkipSeparators(s, from)
      decreases |s| - q
    {
      assert buf[q] == buf[..|s|][q];
      q := q + 1;
    }
  }

  method MaskPasswordInPlace(buf: array<char>, p: nat, ghost s: string)
    requires Holds(buf, s) && p < |s| && |MaskPassword(s, p)| < buf.Length
    modifies buf
    ensures Holds(buf, MaskPassword(s, p))
  {
    CStringIs(buf[..], s);
    var text := CString(buf[..]);
    if At(text, p, PASSWORD) {
      var q := FindValue(buf, p + |PASSWORD|, s);
      if buf[q] != NUL && !IsSpace(buf[q]) {
        assert buf[q] == text[q];
        var r := ValueEnd(text, q);
        if 0 < r - q < 20 {
          MaskValueInPlace(buf, q, s);
        }
      }
    }
  }

  method StepInPlace(buf: array<char>, p: nat, ghost s: string)
    requires Holds(buf, s) && p < |s| && |Step(s, p)| < buf.Length
    modifies buf
    ensures Holds(buf, Step(s, p))
  {
    RedactBlockInPlace(buf, p, s);
    MaskPasswordInPlace(buf, p, RedactBlock(s, p));
  }

  lemma ScanUnfolds(s: string, i: nat)
    requires i < |s|
    ensures Scan(s, i) == Scan(Step(s, i), i + 1)
    ensures |Step(s, i)| <= Peak(Step(s, i), i + 1) <= Peak(s, i)
    ensures |Step(s, i)| - i - 1 + 10 * Count(Step(s, i), i + 1) < |s| - i + 10 * Count(s, i)
  {
    StepWithinBudget(s, i);
  }

  /** One turn of the loop: the scan that is left has the same result, fits the same buffer and
      is shorter by the measure of `Scan`. */
  method Turn(buf: array<char>, p: nat, ghost s: string, ghost goal: string, ghost left: nat)
      returns (ghost t: string, ghost less: nat)
    requires Holds(buf, s) && p < |s|
    requires Scan(s, p) == goal && Peak(s, p) < buf.Length && left == |s| - p + 10 * Count(s, p)
    modifies buf
    ensures Holds(buf, t) && p + 1 <= |t|
    ensures Scan(t, p + 1) == goal && Peak(t, p + 1) < buf.Length
    ensures less == |t| - (p + 1) + 10 * Count(t, p + 1) < left
  {
    ScanUnfolds(s, p);
    StepInPlace(buf, p, s);
    t := Step(s, p);
    less := |t| - (p + 1) + 10 * Count(t, p + 1);
  }

  lemma AtTheNul(buf: array<char>, s: string, p: nat)
    requires Holds(buf, s) && p <= |s|
    ensures buf[p] == NUL <==> p == |s|
  {
    assert p < |s| ==> buf[p] == buf[..|s|][p];
  }

  /** The scan in place. It needs a buffer for the longest intermediate text (see
      `NeededWithinBudget`), and the result is the redaction of the message. */
  method MaskSensitive(buf: array<char>)
    requires NUL in buf[..]
    requires Needed(CString(buf[..])) < buf.Length
    modifies buf
    ensures NUL in buf[..]
    ensures CString(buf[..]) == Redacted(old(CString(buf[..])))
  {
    ghost var s := CString(buf[..]);
    ghost var goal, left := Redacted(s), |s| + 10 * Count(s, 0);
    var p := 0;
    AtTheNul(buf, s, p);
    while buf[p] != NUL
      invariant p <= |s| && Holds(buf, s) && (buf[p] == NUL <==> p == |s|)
      invariant Scan(s, p) == goal && Peak(s, p) < buf.Length
      invariant left == |s| - p + 10 * Count(s, p)
      decreases left
    {
      s, left := Turn(buf, p, s, goal, left);
      p := p + 1;
      AtTheNul(buf, s, p);
    }
    CStringIs(buf[..], s);
  }
}
