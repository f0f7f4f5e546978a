/** Masks as texts: from the web forms (web/routes/configs.py:93-125, 206-225) through the
    stored `address/bits` back to dotted text (master/openvpn.c:91-142). */
module MaskText {
  import opened Options
  import opened CText
  import opened Decimal
  import opened Bits
  import opened Netmask

  // --- dotted text ---

  /** `(nm >> k) & 0xFF` */
  function Octet(x: nat, k: nat): nat {
    And(Shr(x, k), 0xFF)
  }

  /** The octets of a word from octet `k` down, as decimal numbers with dots between them. */
  function DottedFrom(x: nat, k: nat): string {
    if k == 0 then Print(Octet(x, 0)) else Print(Octet(x, 8 * k)) + "." + DottedFrom(x, k - 1)
  }

  function Dotted(x: nat): string {
    DottedFrom(x, 3)
  }

  lemma DottedIsFourNumbers(x: nat)
    ensures Dotted(x)
      == Print(Octet(x, 24)) + "." + (Print(Octet(x, 16)) + "." + (Print(Octet(x, 8)) + "." + Print(Octet(x, 0))))
  {
    assert DottedFrom(x, 1) == Print(Octet(x, 8)) + "." + Print(Octet(x, 0));
    assert DottedFrom(x, 2) == Print(Octet(x, 16)) + "." + DottedFrom(x, 1);
  }

  /** `s.split('.')` */
  function SplitDots(s: string): (parts: seq<string>)
    ensures parts != []
  {
    var i := IndexOf(s, '.', 0);
    if i == |s| then [s] else [s[..i]] + SplitDots(s[i + 1..])
  }

  /** Four groups of one to three digits. */
  predicate IsDotted(s: string) {
    var parts := SplitDots(s);
    |parts| == 4 && forall k | 0 <= k < 4 :: IsGroup(parts[k], 3)
  }

  predicate IsGroup(s: string, most: nat) {
    1 <= |s| <= most && forall k | 0 <= k < |s| :: IsDigit(s[k])
  }

  /** A dotted address, a slash and one or two digits. */
  predicate IsCidr(s: string) {
    var i := IndexOf(s, '/', 0);
    i < |s| && IsDotted(s[..i]) && IsGroup(s[i + 1..], 2)
  }

  function DottedValue(s: string): nat
    requires IsDotted(s)
  {
    var parts := SplitDots(s);
    Shl(Digits(parts[0], 0), 24) + Shl(Digits(parts[1], 0), 16) + Shl(Digits(parts[2], 0), 8) + Digits(parts[3], 0)
  }

  // --- the two forms, as far as the mask goes ---

  /** What is stored for the mask, or nothing when the request is refused. */
  function AddedMask(server: string, mask: string): Option<string> {
    if IsDotted(mask) then Some(server + "/" + Print(LeadingOnes(DottedValue(mask), 32)))
    else if IsCidr(mask) then Some(mask)
    else None
  }

  function EditedMask(server: string, mask: string): Option<string> {
    if IsDotted(mask) then Some(server + "/" + SignedText(EditBits(DottedValue(mask), 32)))
    else if mask == "" || IsCidr(mask) then Some(mask)
    else None
  }

  // --- expansion in the core ---

  /** The mask for the text of a prefix length, or nothing for an impossible one. */
  function NetmaskText(length: string, size: nat): string
    requires size > 0
  {
    var bits := Atoi(length);
    if 0 <= bits <= 32 then Truncated(Dotted(LoopForm(bits, 32)), size) else ""
  }

  /** A text without a slash is a mask if it has a dot and begins with a positive number, and
      else a network. */
  predicate LooksLikeMask(text: string) {
    IndexOf(text, '.', 0) < |text| && Atoi(text) > 0
  }

  /** The network that the configuration file is written with. */
  function NetworkPart(cidr: string, size: nat): string
    requires size > 0
  {
    var slash := IndexOf(cidr, '/', 0);
    if slash < |cidr| then Truncated(cidr[..slash], size)
    else if LooksLikeMask(cidr) then "" else Truncated(cidr, size)
  }

  /** The mask that it is written with. */
  function MaskPart(cidr: string, size: nat): string
    requires size > 0
  {
    var slash := IndexOf(cidr, '/', 0);
    if slash < |cidr| then NetmaskText(cidr[slash + 1..], size)
    else if LooksLikeMask(cidr) then Truncated(cidr, size) else ""
  }

  function Expanded(cidr: string, networkSize: nat, maskSize: nat): (string, string)
    requires networkSize > 0 && maskSize > 0
  {
    (NetworkPart(cidr, networkSize), MaskPart(cidr, maskSize))
  }

  /** `cidr_to_netmask` */
  method CidrToNetmask(cidr: string, networkSize: nat, maskSize: nat) returns (network: string, netmask: string)
    requires networkSize > 0 && maskSize > 0
    ensures network == NetworkPart(cidr, networkSize)
    ensures netmask == MaskPart(cidr, maskSize)
  {
    network, netmask := "", "";
    var slash := IndexOf(cidr, '/', 0);
    if slash == |cidr| {
      if LooksLikeMask(cidr) {
        netmask := Truncated(cidr, maskSize);
      } else {
        network := Truncated(cidr, networkSize);
      }
      return;
    }
    network := Truncated(cidr[..slash], networkSize);
    netmask := PrintNetmask(cidr[slash + 1..], maskSize);
  }

  /** Its second half (master/openvpn.c:129-141). */
  method PrintNetmask(length: string, size: nat) returns (netmask: string)
    requires size > 0
    ensures netmask == NetmaskText(length, size)
  {
    var bits := Atoi(length);
    if bits < 0 || bits > 32 {
      return "";
    }
    var nm := MaskLoop(bits, 32);
    netmask := Truncated(Dotted(nm), size);
  }

  // --- four octets are the word ---

  lemma {:induction false} ShlOfSum(x: nat, y: nat, k: nat)
    ensures Shl(x + y, k) == Shl(x, k) + Shl(y, k)
  {
    if k > 0 {
      ShlOfSum(x, y, k - 1);
    }
  }

  lemma {:induction false} ShlTwice(x: nat, j: nat, k: nat)
    ensures Shl(Shl(x, j), k) == Shl(x, j + k)
  {
    if k > 0 {
      ShlTwice(x, j, k - 1);
    }
  }

  lemma {:induction false} ShrTwice(x: nat, j: nat, k: nat)
    ensures Shr(Shr(x, j), k) == Shr(x, j + k)
  {
    if j > 0 {
      ShrTwice(x / 2, j - 1, k);
    }
  }

  lemma {:induction false} ShlOfDouble(x: nat, k: nat)
    ensures Shl(2 * x, k) == 2 * Shl(x, k)
  {
    if k > 0 {
      ShlOfDouble(x, k - 1);
    }
  }

  lemma {:induction false} LowAndRest(x: nat, k: nat)
    ensures x == Low(x, k) + Shl(Shr(x, k), k)
  {
    if k > 0 {
      LowAndRest(x / 2, k - 1);
    }
  }

  lemma {:induction false} AndOfOnes(x: nat, k: nat)
    ensures And(x, Ones(k)) == Low(x, k)
  {
    if x == 0 {
      LowBelow(0, k);
    } else if k > 0 {
      AndOfOnes(x / 2, k - 1);
      assert Ones(k) / 2 == Ones(k - 1);
    }
  }

  lemma {:induction false} LowIsBelow(x: nat, k: nat)
    ensures Low(x, k) <= Ones(k)
  {
    if k > 0 {
      LowIsBelow(x / 2, k - 1);
    }
  }

  /** One octet of a word and what is above it. */
  lemma OctetAndRest(x: nat, k: nat)
    ensures Octet(x, k) < 256
    ensures Shr(x, k) == Octet(x, k) + Shl(Shr(x, k + 8), 8)
  {
    var y := Shr(x, k);
    OnesOfEight();
    AndOfOnes(y, 8);
    LowIsBelow(y, 8);
    LowAndRest(y, 8);
    ShrTwice(x, k, 8);
  }

  lemma TwoOctetsAndRest(x: nat, k: nat)
    ensures Shr(x, k) == Octet(x, k) + Shl(Octet(x, k + 8), 8) + Shl(Shr(x, k + 16), 16)
  {
    OctetAndRest(x, k);
    OctetAndRest(x, k + 8);
    ShlOfSum(Octet(x, k + 8), Shl(Shr(x, k + 16), 8), 8);
    ShlTwice(Shr(x, k + 16), 8, 8);
  }

  lemma OctetsMakeTheWord(x: nat)
    requires Shr(x, 32) == 0
    ensures x == Shl(Octet(x, 24), 24) + Shl(Octet(x, 16), 16) + Shl(Octet(x, 8), 8) + Octet(x, 0)
  {
    TwoAndTwoOctets(x, 8, 16, 24, 32);
  }

  lemma TwoAndTwoOctets(x: nat, k1: nat, k2: nat, k3: nat, k4: nat)
    requires k1 == 8 && k2 == 16 && k3 == 24 && k4 == 32 && Shr(x, k4) == 0
    ensures x == Shl(Octet(x, k3), k3) + Shl(Octet(x, k2), k2) + Shl(Octet(x, k1), k1) + Octet(x, 0)
  {
    TwoOctetsAndRest(x, 0);
    TwoOctetsAndRest(x, k2);
    ShlOfZero(k2);
    ShlOfSum(Octet(x, k2), Shl(Octet(x, k3), k1), k2);
    ShlTwice(Octet(x, k3), k1, k2);
  }

  lemma {:induction false} ShlOfZero(k: nat)
    ensures Shl(0, k) == 0
  {
    if k > 0 {
      ShlOfZero(k - 1);
    }
  }

  // --- dotted text is read back ---

  lemma SplitFirst(a: string, rest: string)
    requires '.' !in a
    ensures SplitDots(a + "." + rest) == [a] + SplitDots(rest)
  {
    var s := a + "." + rest;
    IndexOfIs(s, '.', 0, |a|);
    assert s[..|a|] == a && s[|a| + 1..] == rest;
  }

  lemma SplitLast(a: string)
    requires '.' !in a
    ensures SplitDots(a) == [a]
  {
    IndexOfIs(a, '.', 0, |a|);
  }

  lemma NumeralOfOctet(n: nat)
    requires n < 256
    ensures IsGroup(Print(n), 3) && '.' !in Print(n) && Digits(Print(n), 0) == n
  {
    AtoiOfPrint(n);
    assert n >= 10 ==> |Print(n / 10)| <= 2 by {
      assert n >= 100 ==> |Print(n / 10 / 10)| == 1;
    }
  }

  lemma DottedReadsBack(x: nat)
    requires Shr(x, 32) == 0
    ensures IsDotted(Dotted(x)) && DottedValue(Dotted(x)) == x
  {
    OctetAndRest(x, 0);
    OctetAndRest(x, 8);
    OctetAndRest(x, 16);
    OctetAndRest(x, 24);
    OctetsMakeTheWord(x);
    NumeralsReadBack(Octet(x, 24), Octet(x, 16), Octet(x, 8), Octet(x, 0));
    DottedIsFourNumbers(x);
  }

  lemma NumeralsReadBack(o3: nat, o2: nat, o1: nat, o0: nat)
    requires o3 < 256 && o2 < 256 && o1 < 256 && o0 < 256
    ensures var s := Print(o3) + "." + (Print(o2) + "." + (Print(o1) + "." + Print(o0)));
      && IsDotted(s)
      && DottedValue(s) == Shl(o3, 24) + Shl(o2, 16) + Shl(o1, 8) + o0
  {
    NumeralOfOctet(o3);
    NumeralOfOctet(o2);
    NumeralOfOctet(o1);
    NumeralOfOctet(o0);
    SplitsInFour(Print(o3), Print(o2), Print(o1), Print(o0));
  }

  lemma SplitsInFour(p3: string, p2: string, p1: string, p0: string)
    requires '.' !in p3 && '.' !in p2 && '.' !in p1 && '.' !in p0
    ensures SplitDots(p3 + "." + (p2 + "." + (p1 + "." + p0))) == [p3, p2, p1, p0]
  {
    var r := p2 + "." + (p1 + "." + p0);
    SplitsInThree(p2, p1, p0);
    SplitPrepends(p3, r, [p2, p1, p0]);
  }

  lemma SplitsInThree(p2: string, p1: string, p0: string)
    requires '.' !in p2 && '.' !in p1 && '.' !in p0
    ensures SplitDots(p2 + "." + (p1 + "." + p0)) == [p2, p1, p0]
  {
    SplitLast(p0);
    SplitFirst(p1, p0);
    SplitPrepends(p2, p1 + "." + p0, [p1, p0]);
  }

  lemma SplitPrepends(a: string, rest: string, parts: seq<string>)
    requires '.' !in a && SplitDots(rest) == parts
    ensures SplitDots(a + "." + rest) == [a] + parts
  {
    SplitFirst(a, rest);
  }

  lemma MaskIsAWord(n: nat)
    requires n <= 32
    ensures Shr(ShiftForm(n, 32), 32) == 0
  {
    var x := ShiftForm(n, 32);
    ShiftFormIsMask(n, 32);
    forall i: nat
      ensures Bit(Shr(x, 32), i) <==> Bit(0, i)
    {
      BitOfShr(x, 32, i);
      BitOfZero(i);
    }
    BitsDetermine(Shr(x, 32), 0);
  }

  lemma ShortDotted(x: nat)
    ensures |Dotted(x)| <= 15
  {
    DottedIsFourNumbers(x);
    OctetAndRest(x, 0);
    OctetAndRest(x, 8);
    OctetAndRest(x, 16);
    OctetAndRest(x, 24);
    NumeralOfOctet(Octet(x, 0));
    NumeralOfOctet(Octet(x, 8));
    NumeralOfOctet(Octet(x, 16));
    NumeralOfOctet(Octet(x, 24));
  }

  /** `address/bits` as it is stored, expanded for the configuration file. */
  lemma StoredExpands(server: string, n: nat)
    requires n <= 32 && '/' !in server && |server| < 64
    ensures Expanded(server + "/" + Print(n), 64, 64) == (server, Dotted(ShiftForm(n, 32)))
  {
    var s := server + "/" + Print(n);
    IndexOfIs(s, '/', 0, |server|);
    assert s[..|server|] == server && s[|server| + 1..] == Print(n);
    AtoiOfPrint(n);
    ShortDotted(ShiftForm(n, 32));
    LoopFormIsShiftForm(n, 32);
  }

  /** A mask entered in the add form comes out of the core as it was entered, for every
      length; after an edit it comes out one bit shorter, unless it was zero. */
  lemma MaskRoundTrip(server: string, n: nat)
    requires n <= 32 && '/' !in server && |server| < 64
    ensures var mask := Dotted(ShiftForm(n, 32));
      && AddedMask(server, mask).Some?
      && Expanded(AddedMask(server, mask).value, 64, 64) == (server, mask)
      && EditedMask(server, mask).Some?
      && Expanded(EditedMask(server, mask).value, 64, 64)
        == (server, Dotted(ShiftForm(if n == 0 then 0 else n - 1, 32)))
  {
    var x := ShiftForm(n, 32);
    MaskIsAWord(n);
    DottedReadsBack(x);
    PrefixOfMask(n, 32);
    StoredExpands(server, n);
    StoredExpands(server, if n == 0 then 0 else n - 1);
  }

  /** The lengths that the forms store behind the slash: those of the two computations. */
  lemma StoredLengths(server: string, mask: string)
    requires IsDotted(mask) && '/' !in server
    ensures var x := DottedValue(mask);
      && StoresLength(server, AddedMask(server, mask), LeadingOnes(x, 32))
      && StoresLength(server, EditedMask(server, mask), EditBits(x, 32))
  {
    var x := DottedValue(mask);
    SignedIsStored(server, LeadingOnes(x, 32));
    SignedIsStored(server, EditBits(x, 32));
  }

  ghost predicate StoresLength(server: string, stored: Option<string>, n: int) {
    && stored.Some? && |stored.value| > |server| && stored.value[..|server| + 1] == server + "/"
    && Atoi(stored.value[|server| + 1..]) == n
  }

  lemma SignedIsStored(server: string, n: int)
    ensures StoresLength(server, Some(server + "/" + SignedText(n)), n)
  {
    var stored := server + "/" + SignedText(n);
    assert stored[..|server| + 1] == server + "/" && stored[|server| + 1..] == SignedText(n);
    AtoiOfSigned(n);
  }

  /** A dotted text without a slash is taken for a mask when its first number is positive, and
      else for a network, like every text without a dot. */
  lemma BareText(n: nat, rest: string)
    requires '/' !in rest
    ensures var text := Print(n) + "." + rest;
      Expanded(text, 64, 64) == if n > 0 then ("", Shortened(text)) else (Shortened(text), "")
  {
    var text := Print(n) + "." + rest;
    assert text == Print(n) + ("." + rest) && text[|Print(n)|] == '.';
    AtoiIs(n, "." + rest);
    NoSlashAtAll(text);
    assert !(IndexOf(text, '.', 0) > |Print(n)|);
  }

  lemma BareNetwork(text: string)
    requires '/' !in text && '.' !in text
    ensures Expanded(text, 64, 64) == (Shortened(text), "")
  {
    NoSlashAtAll(text);
    IndexOfIs(text, '.', 0, |text|);
  }

  /** What a buffer of 64 bytes keeps of a text. */
  function Shortened(text: string): string {
    if |text| <= 63 then text else text[..63]
  }

  lemma NoSlashAtAll(text: string)
    requires '/' !in text
    ensures IndexOf(text, '/', 0) == |text|
  {
    IndexOfIs(text, '/', 0, |text|);
  }

  // --- which texts are taken ---

  /** So many digits at least one. */
  ghost predicate DigitGroup(s: string, most: nat) {
    1 <= |s| <= most && forall k | 0 <= k < |s| :: '0' <= s[k] <= '9'
  }

  ghost predicate FourGroups(s: string, a: string, b: string, c: string, d: string) {
    && DigitGroup(a, 3) && DigitGroup(b, 3) && DigitGroup(c, 3) && DigitGroup(d, 3)
    && s == a + "." + (b + "." + (c + "." + d))
  }

  /** The first of several parts ends at the first dot. */
  lemma FirstPart(s: string, parts: seq<string>) returns (a: string, rest: string)
    requires parts == SplitDots(s) && |parts| > 1
    ensures a == parts[0] && SplitDots(rest) == parts[1..]
    ensures s == a + "." + rest
  {
    var i := IndexOf(s, '.', 0);
    a := s[..i];
    rest := s[i + 1..];
    assert parts == [a] + SplitDots(rest);
  }

  lemma OnlyPart(s: string)
    requires |SplitDots(s)| == 1
    ensures SplitDots(s) == [s]
  {
  }

  /** The dotted texts are those of four groups of one to three digits. */
  lemma DottedHasFourGroups(s: string) returns (a: string, b: string, c: string, d: string)
    requires IsDotted(s)
    ensures FourGroups(s, a, b, c, d)
  {
    var parts := SplitDots(s);
    a, b, c, d := FourParts(s, parts);
    GroupIsDigits(parts[0], 3);
    GroupIsDigits(parts[1], 3);
    GroupIsDigits(parts[2], 3);
    GroupIsDigits(parts[3], 3);
  }

  lemma GroupIsDigits(s: string, most: nat)
    ensures IsGroup(s, most) <==> DigitGroup(s, most)
  {
  }

  lemma FourParts(s: string, parts: seq<string>) returns (a: string, b: string, c: string, d: string)
    requires parts == SplitDots(s) && |parts| == 4
    ensures a == parts[0] && b == parts[1] && c == parts[2] && d == parts[3]
    ensures s == a + "." + (b + "." + (c + "." + d))
  {
    var bcd, cd;
    a, bcd := FirstPart(s, parts);
    b, cd := FirstPart(bcd, parts[1..]);
    c, d := FirstPart(cd, parts[1..][1..]);
    OnlyPart(d);
  }

  lemma FourGroupsAreDotted(s: string, a: string, b: string, c: string, d: string)
    requires FourGroups(s, a, b, c, d)
    ensures IsDotted(s)
  {
    SplitsInFour(a, b, c, d);
  }

  /** The prefix texts are those of a dotted address, a slash and one or two digits. */
  lemma CidrIsAddressAndLength(s: string)
    ensures IsCidr(s) <==> exists i :: 0 <= i < |s| && IsCidrAt(s, i)
  {
    var i := IndexOf(s, '/', 0);
    if IsCidr(s) {
      assert IsCidrAt(s, i);
    } else if exists j :: 0 <= j < |s| && IsCidrAt(s, j) {
      var j :| 0 <= j < |s| && IsCidrAt(s, j);
      SlashIsFirst(s, j);
    }
  }

  ghost predicate IsCidrAt(s: string, i: nat)
    requires i < |s|
  {
    s[i] == '/' && IsDotted(s[..i]) && DigitGroup(s[i + 1..], 2)
  }

  lemma SlashIsFirst(s: string, j: nat)
    requires j < |s| && IsCidrAt(s, j)
    ensures IndexOf(s, '/', 0) == j
  {
    var a, b, c, d := DottedHasFourGroups(s[..j]);
    NoSlash(s[..j], a, b, c, d);
    assert forall k | 0 <= k < j :: s[k] == s[..j][k];
    IndexOfIs(s, '/', 0, j);
  }

  lemma NoSlash(s: string, a: string, b: string, c: string, d: string)
    requires FourGroups(s, a, b, c, d)
    ensures forall k | 0 <= k < |s| :: s[k] != '/'
  {
    var cd := c + "." + d;
    var bcd := b + "." + cd;
    assert forall k | 0 <= k < |cd| :: cd[k] != '/';
    assert forall k | 0 <= k < |bcd| :: bcd[k] != '/';
  }

  /** A mask entered as address and length is stored as entered, by both forms. */
  lemma CidrIsStored(server: string, address: string, length: string)
    requires IsDotted(address) && DigitGroup(length, 2)
    ensures var text := address + "/" + length;
      AddedMask(server, text) == Some(text) && EditedMask(server, text) == Some(text)
  {
    var text, n := address + "/" + length, |address|;
    assert text[..n] == address && text[n + 1..] == length;
    assert IsCidrAt(text, n);
    CidrIsAddressAndLength(text);
    SlashIsFirst(text, n);
    NotDotted(text, n);
  }

  lemma NotDotted(s: string, j: nat)
    requires j < |s| && s[j] == '/'
    ensures !IsDotted(s)
  {
    if IsDotted(s) {
      var a, b, c, d := DottedHasFourGroups(s);
      NoSlash(s, a, b, c, d);
    }
  }

  lemma EmptyIsNoMask()
    ensures !IsDotted("") && !IsCidr("")
  {
  }

  lemma CidrIsNotDotted(s: string)
    requires IsCidr(s)
    ensures !IsDotted(s)
  {
    NotDotted(s, IndexOf(s, '/', 0));
  }

  /** Other texts are refused, but for an empty one in an edit, which is stored. */
  lemma OtherMasksAreRefused(server: string, text: string)
    requires !IsDotted(text) && !IsCidr(text)
    ensures AddedMask(server, text) == None
    ensures EditedMask(server, text) == if text == "" then Some("") else None
  {
  }

  // --- the pool of a stored mask ---

  /** `calc_ip_pool`. The results of `inet_aton` on the two texts are inputs; a mask that it
      does not take is read as `address/bits`. */
  function CalcIpPool(server: Option<nat>, mask: Option<nat>, maskText: string): Option<(nat, nat)> {
    if server.None? then None
    else if mask.Some? then Some((PoolAddress(server.value, mask.value, 100), PoolAddress(server.value, mask.value, 200)))
    else
      var slash := IndexOf(maskText, '/', 0);
      if slash == |maskText| then None
      else
        var bits := Atoi(maskText[slash + 1..]);
        if bits < 0 || bits > 32 then None
        else
          var nm := ShiftForm(bits, 32);
          Some((PoolAddress(server.value, nm, 100), PoolAddress(server.value, nm, 200)))
  }

  /** The mask that the add form stores and its dotted original give the same pool; for at
      most 24 bits that is network + 100 to network + 200. */
  lemma PoolOfStoredMask(ip: nat, address: string, n: nat)
    requires n <= 32 && '/' !in address
    ensures var mask := ShiftForm(n, 32);
      var pool := CalcIpPool(Some(ip), None, address + "/" + Print(n));
      && pool == CalcIpPool(Some(ip), Some(mask), Dotted(mask))
      && (n <= 24 ==> pool == Some((NetworkOf(ip, mask) + 100, NetworkOf(ip, mask) + 200)))
  {
    var s := address + "/" + Print(n);
    IndexOfIs(s, '/', 0, |address|);
    assert s[|address| + 1..] == Print(n);
    AtoiOfPrint(n);
    if n <= 24 {
      PoolOfShortPrefix(ip, n);
    }
  }

  /** The ends of the pool, bit by bit and for any mask: the network bits of the server, and the
      bits of 100 and of 200; each stays in the subnet exactly when its own bits under the mask
      are set in the server address. */
  lemma PoolEnds(ip: nat, mask: nat, text: string)
    ensures var pool := CalcIpPool(Some(ip), Some(mask), text);
      && pool.Some?
      && (forall i: nat :: Bit(pool.value.0, i) <==> (Bit(ip, i) && Bit(mask, i)) || Bit(100, i))
      && (forall i: nat :: Bit(pool.value.1, i) <==> (Bit(ip, i) && Bit(mask, i)) || Bit(200, i))
      && (And(pool.value.0, mask) == And(ip, mask) <==> forall i: nat :: Bit(100, i) && Bit(mask, i) ==> Bit(ip, i))
      && (And(pool.value.1, mask) == And(ip, mask) <==> forall i: nat :: Bit(200, i) && Bit(mask, i) ==> Bit(ip, i))
  {
    PoolAddressStaysIn(ip, mask, 100);
    PoolAddressStaysIn(ip, mask, 200);
    forall i: nat
      ensures Bit(PoolAddress(ip, mask, 100), i) <==> (Bit(ip, i) && Bit(mask, i)) || Bit(100, i)
      ensures Bit(PoolAddress(ip, mask, 200), i) <==> (Bit(ip, i) && Bit(mask, i)) || Bit(200, i)
    {
      PoolBit(ip, mask, 100, i);
      PoolBit(ip, mask, 200, i);
    }
  }

  lemma PoolBit(ip: nat, mask: nat, v: nat, i: nat)
    ensures Bit(PoolAddress(ip, mask, v), i) <==> (Bit(ip, i) && Bit(mask, i)) || Bit(v, i)
  {
    BitOfAnd(ip, mask, i);
    BitOfOr(And(ip, mask), v, i);
  }

  /** A text behind whose first slash stands a number from 0 to 32. */
  ghost predicate HasLength(text: string, slash: nat, length: string) {
    && slash < |text| && text[slash] == '/' && (forall k | 0 <= k < slash :: text[k] != '/')
    && length == text[slash + 1..] && 0 <= Atoi(length) <= 32
  }

  /** There is no pool without a server address or a mask that can be read. */
  lemma NoPool(server: Option<nat>, mask: Option<nat>, text: string)
    ensures CalcIpPool(server, mask, text) == None <==>
      server == None || (mask == None && !exists slash, length :: HasLength(text, slash, length))
  {
    var i := IndexOf(text, '/', 0);
    if i < |text| {
      var length := text[i + 1..];
      assert 0 <= Atoi(length) <= 32 ==> HasLength(text, i, length);
    }
    if slash, length :| HasLength(text, slash, length) {
      IndexOfIs(text, '/', 0, slash);
    }
  }
}
