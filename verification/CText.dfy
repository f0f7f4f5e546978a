/** C strings and the libc searches that the core is written with.

    A text is the content of a NUL-terminated buffer, without the NUL. `At`, `IndexOf` and
    `FindWord` are `strncmp`, `strchr` and `strstr`; a search that fails returns the length
    of the text, which is where the NUL stands. */
module CText {

  const NUL: char := '\0'

  /** `isspace` in the C locale. */
  predicate IsSpace(c: char) {
    c == ' ' || '\t' <= c <= '\r'
  }

  predicate IsText(s: string) {
    NUL !in s
  }

  /** `strncmp(s + i, w, |w|) == 0` */
  predicate At(s: string, i: nat, w: string) {
    i + |w| <= |s| && s[i..i + |w|] == w
  }

  /** `strchr` from position `i`. */
  function IndexOf(s: string, c: char, i: nat): (r: nat)
    requires i <= |s|
    ensures i <= r <= |s|
    ensures r < |s| ==> s[r] == c
    ensures forall k | i <= k < r :: s[k] != c
    decreases |s| - i
  {
    if i == |s| || s[i] == c then i else IndexOf(s, c, i + 1)
  }

  /** `strstr` from position `i`. */
  function FindWord(s: string, w: string, i: nat): (r: nat)
    requires i <= |s| && w != ""
    ensures i <= r <= |s|
    ensures r < |s| ==> At(s, r, w)
    ensures forall k | i <= k < r :: !At(s, k, w)
    decreases |s| - i
  {
    if i == |s| || At(s, i, w) then i else FindWord(s, w, i + 1)
  }

  /** The text held by a buffer: everything before the first NUL. */
  function CString(buf: seq<char>): (s: string)
    ensures IsText(s) && s <= buf
    ensures NUL in buf ==> |s| < |buf| && buf[|s|] == NUL
  {
    buf[..IndexOf(buf, NUL, 0)]
  }

  lemma CStringIs(buf: seq<char>, s: string)
    requires IsText(s) && |s| < |buf| && buf[..|s|] == s && buf[|s|] == NUL
    ensures CString(buf) == s
  {
    var n := IndexOf(buf, NUL, 0);
    assert NUL !in buf[..|s|];
  }

  /** A search is settled by the first hit. */
  lemma IndexOfIs(s: string, c: char, i: nat, r: nat)
    requires i <= r <= |s|
    requires forall k | i <= k < r :: s[k] != c
    requires r < |s| ==> s[r] == c
    ensures IndexOf(s, c, i) == r
  {
  }

  lemma FindWordIs(s: string, w: string, i: nat, r: nat)
    requires i <= r <= |s| && w != ""
    requires forall k | i <= k < r :: !At(s, k, w)
    requires r < |s| ==> At(s, r, w)
    ensures FindWord(s, w, i) == r
  {
  }

  /** Occurrences in a prefix, and at the front of a tail. */
  lemma AtInPrefix(s: string, m: nat, i: nat, w: string)
    requires m <= |s|
    ensures At(s[..m], i, w) <==> i + |w| <= m && At(s, i, w)
  {
    if i + |w| <= m {
      assert s[..m][i..i + |w|] == s[i..i + |w|];
    }
  }

  lemma AtInSlice(s: string, i: nat, j: nat, w: string)
    requires i <= j <= |s|
    ensures At(s[i..j], 0, w) <==> i + |w| <= j && At(s, i, w)
  {
    if i + |w| <= j {
      assert s[i..j][0..|w|] == s[i..i + |w|];
    }
  }

  /** A search in a tail. */
  lemma IndexOfBehind(s: string, c: char, i: nat, k: nat)
    requires i <= |s| && k <= |s| - i
    ensures IndexOf(s, c, i + k) == i + IndexOf(s[i..], c, k)
  {
    IndexOfIs(s, c, i + k, i + IndexOf(s[i..], c, k));
  }

  /** What a buffer of the given capacity holds of a text. */
  function Truncated(s: string, capacity: nat): (r: string)
    requires capacity > 0
  {
    if |s| < capacity then s else s[..capacity - 1]
  }
}
