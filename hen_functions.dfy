/**
 * The module-level helper functions of the HEN library module `auxiliary.hen`:
 * dotted-quad IPv4 strings, DD/MM/YYYY dates, and small string searches.
 *
 * Python's `int(...)` raising ValueError is modelled by `None`; a Python
 * slice `s[a:b]` by `Common.Slice`; `str.find` of one character by `Common.FindChar`; and
 * `str.rfind` by `Common.RFind`.
 */
module HenFunctions {
  import opened Common

  // ---------------------------------------------------------------------
  // reverseIPAddress

  /** Each field followed by a dot. */
  function Dotted(parts: seq<string>): string
    decreases |parts|
  {
    if |parts| == 0 then "" else parts[0] + "." + Dotted(parts[1..])
  }

  lemma {:induction false} DottedIsJoin(parts: seq<string>)
    requires |parts| >= 1
    ensures Dotted(parts) == JoinWith(parts, ".") + "."
    decreases |parts|
  {
    if |parts| > 1 {
      DottedIsJoin(parts[1..]);
    }
  }

  /** The dot-separated fields of ip in reverse order, joined with dots. */
  function ReversedIP(ip: string): string
  {
    JoinWith(Reverse(Split(ip, '.')), ".")
  }

  /** The fields of t, last first, each followed by a dot. */
  function RevDotted(t: string): string
  {
    Dotted(Reverse(Split(t, '.')))
  }

  /** reverseIPAddress: walks ip + "." from the right, rfind-ing two dots at a time. */
  method ReverseIPAddress(ip: Option<string>) returns (r: Option<string>)
    ensures ip.None? ==> r.None?
    ensures ip.Some? ==> r == Some(ReversedIP(ip.value))
  {
    if ip.None? {
      return None;
    }
    var s := ip.value + ".";
    ghost var all := RevDotted(ip.value);
    assert s[..|s| - 1] == ip.value;
    var i := |s|;
    var result := "";
    while i > 0
      invariant 0 <= i <= |s|
      invariant i > 0 ==> s[i - 1] == '.' && all == result + RevDotted(s[..i - 1])
      invariant i == 0 ==> result == all
      decreases i
    {
      i, result := ReverseRound(s, i, all, result);
    }
    DottedIsJoin(Reverse(Split(ip.value, '.')));
    return Some(result[..|result| - 1]);
  }

  /** One round of reverseIPAddress's loop: move the field before s[i - 1] to the result. */
  method ReverseRound(s: string, i: nat, ghost all: string, result: string) returns (next: nat, res: string)
    requires 0 < i <= |s| && s[i - 1] == '.'
    requires all == result + RevDotted(s[..i - 1])
    ensures next < i
    ensures next > 0 ==> s[next - 1] == '.' && all == res + RevDotted(s[..next - 1])
    ensures next == 0 ==> res == all
  {
    var right := RFind(s, '.', i);
    assert right == i - 1;
    var left := RFind(s, '.', right);
    next := left + 1;
    res := result + s[next..i - 1] + ".";
    if next > 0 {
      RoundInner(s, i, next, all, result, res);
    } else {
      RoundLast(s, i, all, result, res);
    }
  }

  lemma RoundInner(s: string, i: nat, next: nat, all: string, result: string, res: string)
    requires 0 < next < i <= |s| && s[next - 1] == '.'
    requires forall j :: next - 1 < j < i - 1 ==> s[j] != '.'
    requires all == result + RevDotted(s[..i - 1])
    requires res == result + s[next..i - 1] + "."
    ensures all == res + RevDotted(s[..next - 1])
  {
    var left, right := next - 1, i - 1;
    assert s[left + 1..right] == s[next..i - 1];
    ReverseStepInner(s, left, right);
    Regroup(all, result, s[left + 1..right], RevDotted(s[..right]), RevDotted(s[..left]));
  }

  lemma RoundLast(s: string, i: nat, all: string, result: string, res: string)
    requires 0 < i <= |s|
    requires forall j :: -1 < j < i - 1 ==> s[j] != '.'
    requires all == result + RevDotted(s[..i - 1])
    requires res == result + s[0..i - 1] + "."
    ensures res == all
  {
    var right := i - 1;
    assert s[0..right] == s[..right];
    ReverseStepLast(s, right);
    Regroup(all, result, s[..right], RevDotted(s[..right]), "");
  }

  lemma Regroup(all: string, result: string, field: string, rest: string, tail: string)
    requires all == result + rest && rest == field + "." + tail
    ensures all == result + field + "." + tail
  {
  }

  /** The field between two dots is dot-free. */
  lemma FieldLacksDot(s: string, left: int, right: nat)
    requires -1 <= left < right <= |s|
    requires forall j :: left < j < right ==> s[j] != '.'
    ensures '.' !in s[left + 1..right]
  {
    var field := s[left + 1..right];
    forall k | 0 <= k < |field| ensures field[k] != '.' {
      assert field[k] == s[left + 1 + k];
    }
  }

  /** A loop round that finds a left dot: the field between the dots comes first. */
  lemma ReverseStepInner(s: string, left: nat, right: nat)
    requires left < right <= |s| && s[left] == '.'
    requires forall j :: left < j < right ==> s[j] != '.'
    ensures RevDotted(s[..right]) == s[left + 1..right] + "." + RevDotted(s[..left])
  {
    var field := s[left + 1..right];
    var front := Split(s[..left], '.');
    FieldLacksDot(s, left, right);
    SplitWhole(field, '.');
    assert s[..right] == s[..left] + ['.'] + field;
    SplitAround(s[..left], field, '.');
    ReverseAppend(front, field);
    assert Reverse(Split(s[..right], '.')) == [field] + Reverse(front);
    assert ([field] + Reverse(front))[1..] == Reverse(front);
  }

  /** The last loop round: no dot is left, so the remaining prefix is the last field. */
  lemma ReverseStepLast(s: string, right: nat)
    requires right <= |s|
    requires forall j :: 0 <= j < right ==> s[j] != '.'
    ensures RevDotted(s[..right]) == s[..right] + "." + ""
  {
    FieldLacksDot(s, -1, right);
    assert s[0..right] == s[..right];
    SplitWhole(s[..right], '.');
    assert Reverse([s[..right]]) == [s[..right]];
    assert Dotted([s[..right]]) == s[..right] + "." + Dotted([]);
  }

  /** Reversing twice gives the address back. */
  lemma ReversedIPInvolution(ip: string)
    ensures ReversedIP(ReversedIP(ip)) == ip
  {
    var parts := Split(ip, '.');
    SplitPartsLackSep(ip, '.');
    forall i | 0 <= i < |Reverse(parts)|
      ensures '.' !in Reverse(parts)[i]
    {
      ReverseIndex(parts, i);
    }
    SplitJoin(Reverse(parts), '.');
    ReverseReverse(parts);
    JoinSplit(ip, '.');
  }

  // ---------------------------------------------------------------------
  // getPartialIPNumber

  /** The position reached after k steps of `first = ip.find(".", first + 1)`. */
  function DotAfter(ip: string, k: nat, from: int): (r: int)
    requires from >= -1
    ensures r >= -1
    decreases k
  {
    if k == 0 then from else DotAfter(ip, k - 1, FindChar(ip, '.', from + 1))
  }

  /** getPartialIPNumber(ipAddress, sectionNumber); None outside 0..3. */
  function PartialIP(ip: string, section: int): Option<string>
  {
    if section < 0 || section > 3 then None
    else if section == 0 then Some(Slice(ip, 0, FindChar(ip, '.', 0)))
    else
      var first := DotAfter(ip, section, 0);
      var last := if section == 3 then |ip| else FindChar(ip, '.', first + 1);
      Some(Slice(ip, first + 1, last))
  }

  method GetPartialIPNumber(ip: string, section: int) returns (r: Option<string>)
    ensures r == PartialIP(ip, section)
    ensures r.None? <==> (section < 0 || section > 3)
  {
    if section < 0 || section > 3 {
      return None;
    }
    if section == 0 {
      return Some(Slice(ip, 0, FindChar(ip, '.', 0)));
    }
    var first := 0;
    var i := 0;
    while i < section
      invariant 0 <= i <= section
      invariant first >= -1
      invariant DotAfter(ip, section - i, first) == DotAfter(ip, section, 0)
    {
      first := FindChar(ip, '.', first + 1);
      i := i + 1;
    }
    var last := if section == 3 then |ip| else FindChar(ip, '.', first + 1);
    return Some(Slice(ip, first + 1, last));
  }

  /** find(".", start) stops at the first dot at or after start. */
  lemma FindDot(s: string, start: nat, p: int)
    requires start <= p < |s| && s[p] == '.'
    requires forall i :: start <= i < p ==> s[i] != '.'
    ensures FindChar(s, '.', start) == p
  {
    FindCharFirst(s, '.', start);
  }

  /** a.b.c.d as a string. */
  function Join4(a: string, b: string, c: string, d: string): string
  {
    a + "." + b + "." + c + "." + d
  }

  /** Searching from within a dot-free field that a dot follows finds that dot. */
  lemma DotAfterField(pre: string, field: string, post: string, start: nat)
    requires '.' !in field && |post| > 0 && post[0] == '.'
    requires |pre| <= start <= |pre| + |field|
    ensures FindChar(pre + field + post, '.', start) == |pre| + |field|
  {
    var ip := pre + field + post;
    forall i | start <= i < |pre| + |field|
      ensures ip[i] != '.'
    {
      assert ip[i] == field[i - |pre|];
    }
    FindDot(ip, start, |pre| + |field|);
  }

  /** The first dot of a.b.c.d, found from any start within a. */
  lemma FirstDot(a: string, b: string, c: string, d: string, start: nat)
    requires start <= |a| && '.' !in a
    ensures FindChar(Join4(a, b, c, d), '.', start) == |a|
  {
    assert Join4(a, b, c, d) == "" + a + ("." + b + "." + c + "." + d);
    DotAfterField("", a, "." + b + "." + c + "." + d, start);
  }

  lemma SecondDot(a: string, b: string, c: string, d: string)
    requires '.' !in b
    ensures FindChar(Join4(a, b, c, d), '.', |a| + 1) == |a| + 1 + |b|
  {
    var post := "." + c + "." + d;
    assert post[0] == '.';
    JoinRegroup(a, b, c, d);
    DotAfterField(a + ".", b, post, |a| + 1);
  }

  lemma JoinRegroup(a: string, b: string, c: string, d: string)
    ensures Join4(a, b, c, d) == (a + ".") + b + ("." + c + "." + d)
  {
  }

  lemma ThirdDot(a: string, b: string, c: string, d: string)
    requires '.' !in c
    ensures FindChar(Join4(a, b, c, d), '.', |a| + |b| + 2) == |a| + |b| + |c| + 2
  {
    assert Join4(a, b, c, d) == (a + "." + b + ".") + c + ("." + d);
    DotAfterField(a + "." + b + ".", c, "." + d, |a| + |b| + 2);
  }

  /** On a dotted quad with a non-empty first field, section n is the n-th field. */
  lemma PartialOfQuad(a: string, b: string, c: string, d: string)
    requires |a| > 0
    requires '.' !in a && '.' !in b && '.' !in c && '.' !in d
    ensures PartialIP(Join4(a, b, c, d), 0) == Some(a)
    ensures PartialIP(Join4(a, b, c, d), 1) == Some(b)
    ensures PartialIP(Join4(a, b, c, d), 2) == Some(c)
    ensures PartialIP(Join4(a, b, c, d), 3) == Some(d)
  {
    Section0(a, b, c, d);
    Section1(a, b, c, d);
    Section2(a, b, c, d);
    Section3(a, b, c, d);
  }

  lemma Section0(a: string, b: string, c: string, d: string)
    requires '.' !in a
    ensures PartialIP(Join4(a, b, c, d), 0) == Some(a)
  {
    var ip := Join4(a, b, c, d);
    FirstDot(a, b, c, d, 0);
    assert ip[0..|a|] == a;
  }

  lemma Section1(a: string, b: string, c: string, d: string)
    requires |a| > 0 && '.' !in a && '.' !in b
    ensures PartialIP(Join4(a, b, c, d), 1) == Some(b)
  {
    var ip := Join4(a, b, c, d);
    FirstDot(a, b, c, d, 1);
    SecondDot(a, b, c, d);
    assert DotAfter(ip, 1, 0) == |a|;
    assert ip[|a| + 1..|a| + 1 + |b|] == b;
  }

  lemma Section2(a: string, b: string, c: string, d: string)
    requires |a| > 0 && '.' !in a && '.' !in b && '.' !in c
    ensures PartialIP(Join4(a, b, c, d), 2) == Some(c)
  {
    var ip := Join4(a, b, c, d);
    FirstDot(a, b, c, d, 1);
    SecondDot(a, b, c, d);
    ThirdDot(a, b, c, d);
    assert DotAfter(ip, 2, 0) == DotAfter(ip, 1, |a|) == |a| + 1 + |b|;
    assert ip[|a| + |b| + 2..|a| + |b| + |c| + 2] == c;
  }

  lemma Section3(a: string, b: string, c: string, d: string)
    requires |a| > 0 && '.' !in a && '.' !in b && '.' !in c
    ensures PartialIP(Join4(a, b, c, d), 3) == Some(d)
  {
    var ip := Join4(a, b, c, d);
    var p3 := |a| + |b| + |c| + 2;
    FirstDot(a, b, c, d, 1);
    SecondDot(a, b, c, d);
    ThirdDot(a, b, c, d);
    assert DotAfter(ip, 3, 0) == DotAfter(ip, 2, |a|) == DotAfter(ip, 1, |a| + 1 + |b|) == p3;
    assert ip[p3 + 1..|ip|] == d;
  }

  // ---------------------------------------------------------------------
  // IPv4 values

  const MAX_IP: int := 0x1_0000_0000 - 1

  predicate IsOctet(x: int) { 0 <= x < 256 }

  /** The dotted quad of four integers, each written with str(). */
  function Quad(a: int, b: int, c: int, d: int): string
  {
    Join4(IntToString(a), IntToString(b), IntToString(c), IntToString(d))
  }

  /** The 32-bit value of four octets. */
  function Value(a: int, b: int, c: int, d: int): int
  {
    ((a * 256 + b) * 256 + c) * 256 + d
  }

  /** The dotted quad of a 32-bit value. */
  function QuadOf(x: int): string
  {
    Quad(x / 256 / 256 / 256, x / 256 / 256 % 256, x / 256 % 256, x % 256)
  }

  lemma DivMod256(q: int, r: int)
    requires 0 <= r < 256
    ensures (q * 256 + r) / 256 == q && (q * 256 + r) % 256 == r
  {
  }

  lemma QuadOfValue(a: int, b: int, c: int, d: int)
    requires IsOctet(a) && IsOctet(b) && IsOctet(c) && IsOctet(d)
    ensures QuadOf(Value(a, b, c, d)) == Quad(a, b, c, d)
  {
    DivMod256((a * 256 + b) * 256 + c, d);
    DivMod256(a * 256 + b, c);
    DivMod256(a, b);
  }

  lemma NoDotInNumber(n: int)
    ensures '.' !in IntToString(n)
    ensures n >= 0 ==> |IntToString(n)| > 0
  {
    var s := NatToString(if n < 0 then -n else n);
    forall i | 0 <= i < |s|
      ensures s[i] != '.'
    {
      assert IsDigit(s[i]);
    }
  }

  /** Section n of a quad of integers is the n-th integer written out. */
  lemma PartialOfNumbers(a: int, b: int, c: int, d: int)
    requires a >= 0
    ensures PartialIP(Quad(a, b, c, d), 0) == Some(IntToString(a))
    ensures PartialIP(Quad(a, b, c, d), 1) == Some(IntToString(b))
    ensures PartialIP(Quad(a, b, c, d), 2) == Some(IntToString(c))
    ensures PartialIP(Quad(a, b, c, d), 3) == Some(IntToString(d))
  {
    NoDotInNumber(a);
    NoDotInNumber(b);
    NoDotInNumber(c);
    NoDotInNumber(d);
    PartialOfQuad(IntToString(a), IntToString(b), IntToString(c), IntToString(d));
  }

  /** int(getPartialIPNumber(ip, n)); None where int() raises ValueError. */
  function SectionValue(ip: string, n: int): Option<int>
  {
    match PartialIP(ip, n)
    case None => None
    case Some(t) => ParseInt(t)
  }

  lemma SectionsOfQuad(a: int, b: int, c: int, d: int)
    requires a >= 0
    ensures SectionValue(Quad(a, b, c, d), 0) == Some(a)
    ensures SectionValue(Quad(a, b, c, d), 1) == Some(b)
    ensures SectionValue(Quad(a, b, c, d), 2) == Some(c)
    ensures SectionValue(Quad(a, b, c, d), 3) == Some(d)
  {
    PartialOfNumbers(a, b, c, d);
    ParseIntOfIntToString(a);
    ParseIntOfIntToString(b);
    ParseIntOfIntToString(c);
    ParseIntOfIntToString(d);
  }

  // ---------------------------------------------------------------------
  // incrementIPAddress

  /** incrementIPAddress; None where a section is not a number. */
  function IncrementIPAddress(ip: string): Option<string>
  {
    var s0 := SectionValue(ip, 0);
    var s1 := SectionValue(ip, 1);
    var s2 := SectionValue(ip, 2);
    var s3 := SectionValue(ip, 3);
    if s0.None? || s1.None? || s2.None? || s3.None? then None
    else Some(IncrementSections(s0.value, s1.value, s2.value, s3.value))
  }

  /** The string incrementIPAddress builds from the four section values. */
  function IncrementSections(a: int, b: int, c: int, d: int): string
  {
    if d != 255 then Quad(a, b, c, d + 1)
    else if c != 255 then Quad(a, b, c + 1, 0)
    else if b != 255 then Quad(a, b + 1, 0, 0)
    else if a != 255 then Quad(a + 1, 0, 0, 0)
    else "255.255.255.255"
  }

  /** Incrementing a dotted quad adds one to its 32-bit value, saturating at 255.255.255.255. */
  lemma IncrementSaturates(x: string, a: int, b: int, c: int, d: int)
    requires IsOctet(a) && IsOctet(b) && IsOctet(c) && IsOctet(d)
    requires x == Quad(a, b, c, d)
    ensures IncrementIPAddress(x) == Some(QuadOf(if Value(a, b, c, d) == MAX_IP then MAX_IP else Value(a, b, c, d) + 1))
  {
    SectionsOfQuad(a, b, c, d);
    IncrementValue(a, b, c, d);
  }

  lemma IncrementValue(a: int, b: int, c: int, d: int)
    requires IsOctet(a) && IsOctet(b) && IsOctet(c) && IsOctet(d)
    ensures IncrementSections(a, b, c, d) == QuadOf(if Value(a, b, c, d) == MAX_IP then MAX_IP else Value(a, b, c, d) + 1)
  {
    if d != 255 {
      IncrementCarry(a, b, c, d, a, b, c, d + 1);
    } else if c != 255 {
      IncrementCarry(a, b, c, d, a, b, c + 1, 0);
    } else if b != 255 {
      IncrementCarry(a, b, c, d, a, b + 1, 0, 0);
    } else if a != 255 {
      IncrementCarry(a, b, c, d, a + 1, 0, 0, 0);
    } else {
      IncrementTop(a, b, c, d);
    }
  }

  lemma IncrementTop(a: int, b: int, c: int, d: int)
    requires a == 255 && b == 255 && c == 255 && d == 255
    ensures IncrementSections(a, b, c, d) == QuadOf(MAX_IP)
  {
    assert Value(a, b, c, d) == MAX_IP;
    QuadOfValue(a, b, c, d);
    TwoFiftyFive();
    LastAddress();
  }

  lemma LastAddress()
    ensures Join4("255", "255", "255", "255") == "255.255.255.255"
  {
  }

  /** The value after a carry is one more, and below the top address. */
  lemma IncrementCarry(a: int, b: int, c: int, d: int, e: int, f: int, g: int, h: int)
    requires IsOctet(a) && IsOctet(b) && IsOctet(c) && IsOctet(d)
    requires IsOctet(e) && IsOctet(f) && IsOctet(g) && IsOctet(h)
    requires Value(e, f, g, h) == Value(a, b, c, d) + 1
    ensures Value(a, b, c, d) != MAX_IP
    ensures QuadOf(Value(a, b, c, d) + 1) == Quad(e, f, g, h)
  {
    QuadOfValue(e, f, g, h);
  }

  lemma TwoFiftyFive()
    ensures IntToString(255) == "255"
  {
    assert DigitChar(2) == '2' && DigitChar(5) == '5';
    assert NatToString(25) == NatToString(2) + [DigitChar(5)];
    assert NatToString(255) == NatToString(25) + [DigitChar(5)];
  }

  // ---------------------------------------------------------------------
  // isHigherIPAddress

  /** The loop of isHigherIPAddress from section i on, as written: True at the first greater section. */
  function HigherFromAsWritten(a: string, b: string, i: nat): Option<bool>
    decreases 4 - i
  {
    if i >= 4 then Some(false)
    else
      var x := SectionValue(a, i);
      var y := SectionValue(b, i);
      if x.None? || y.None? then None
      else if x.value > y.value then Some(true)
      else HigherFromAsWritten(a, b, i + 1)
  }

  function HigherAsWritten(a: string, b: string): Option<bool>
  {
    if a == b then Some(false) else HigherFromAsWritten(a, b, 0)
  }

  /** isHigherIPAddress as written. */
  method IsHigherIPAddress(a: string, b: string) returns (r: Option<bool>)
    ensures r == HigherAsWritten(a, b)
    ensures a == b ==> r == Some(false)
  {
    if a == b {
      return Some(false);
    }
    var i := 0;
    while i < 4
      invariant 0 <= i <= 4
      invariant HigherFromAsWritten(a, b, i) == HigherAsWritten(a, b)
    {
      var x := SectionValue(a, i);
      var y := SectionValue(b, i);
      if x.None? || y.None? {
        return None;
      }
      if x.value > y.value {
        return Some(true);
      }
      i := i + 1;
    }
    return Some(false);
  }

  /** As written, 1.9.0.0 and 2.0.0.0 are each higher than the other. */
  lemma HigherAsWrittenBothWays(x: string, y: string)
    requires x == Quad(1, 9, 0, 0) && y == Quad(2, 0, 0, 0)
    ensures HigherAsWritten(x, y) == Some(true)
    ensures HigherAsWritten(y, x) == Some(true)
  {
    SectionsOfQuad(1, 9, 0, 0);
    SectionsOfQuad(2, 0, 0, 0);
    HigherSecondField(x, y);
    HigherAsWrittenStep(y, x, 0, 2, 1);
  }

  lemma HigherSecondField(x: string, y: string)
    requires SectionValue(x, 0) == Some(1) && SectionValue(x, 1) == Some(9)
    requires SectionValue(y, 0) == Some(2) && SectionValue(y, 1) == Some(0)
    ensures HigherAsWritten(x, y) == Some(true)
  {
    HigherAsWrittenStep(x, y, 0, 1, 2);
    HigherAsWrittenStep(x, y, 1, 9, 0);
  }

  /** One section of the as-written loop. */
  lemma HigherAsWrittenStep(x: string, y: string, i: nat, u: int, v: int)
    requires i < 4 && SectionValue(x, i) == Some(u) && SectionValue(y, i) == Some(v)
    ensures i == 0 && u != v ==> x != y
    ensures HigherFromAsWritten(x, y, i) == if u > v then Some(true) else HigherFromAsWritten(x, y, i + 1)
  {
  }

  /** The intended loop: the first differing section decides. */
  function HigherFrom(a: string, b: string, i: nat): Option<bool>
    decreases 4 - i
  {
    if i >= 4 then Some(false)
    else
      var x := SectionValue(a, i);
      var y := SectionValue(b, i);
      if x.None? || y.None? then None
      else if x.value > y.value then Some(true)
      else if x.value < y.value then Some(false)
      else HigherFrom(a, b, i + 1)
  }

  /** isHigherIPAddress as intended. */
  function IsHigherIP(a: string, b: string): Option<bool>
  {
    if a == b then Some(false) else HigherFrom(a, b, 0)
  }

  /** On dotted quads the corrected comparison is the order of 32-bit values. */
  lemma IsHigherIPIsValueOrder(x: string, y: string, a: int, b: int, c: int, d: int, e: int, f: int, g: int, h: int)
    requires IsOctet(a) && IsOctet(b) && IsOctet(c) && IsOctet(d)
    requires IsOctet(e) && IsOctet(f) && IsOctet(g) && IsOctet(h)
    requires x == Quad(a, b, c, d) && y == Quad(e, f, g, h)
    ensures IsHigherIP(x, y) == Some(Value(a, b, c, d) > Value(e, f, g, h))
  {
    var xs, ys := [a, b, c, d], [e, f, g, h];
    QuadSections(x, a, b, c, d);
    QuadSections(y, e, f, g, h);
    HigherFromLex(x, y, 0, xs, ys);
    LexValue(a, b, c, d, e, f, g, h);
    if x == y {
      assert SectionValue(x, 0) == SectionValue(y, 0) && SectionValue(x, 1) == SectionValue(y, 1);
      assert SectionValue(x, 2) == SectionValue(y, 2) && SectionValue(x, 3) == SectionValue(y, 3);
      assert xs[0] == ys[0] && xs[1] == ys[1] && xs[2] == ys[2] && xs[3] == ys[3];
    }
  }

  /** The sections of a quad, by index. */
  lemma QuadSections(x: string, a: int, b: int, c: int, d: int)
    requires a >= 0 && x == Quad(a, b, c, d)
    ensures forall k :: 0 <= k < 4 ==> SectionValue(x, k) == Some([a, b, c, d][k])
  {
    SectionsOfQuad(a, b, c, d);
    var qs := [a, b, c, d];
    assert SectionValue(x, 0) == Some(qs[0]) && SectionValue(x, 1) == Some(qs[1]);
    assert SectionValue(x, 2) == Some(qs[2]) && SectionValue(x, 3) == Some(qs[3]);
    forall k | 0 <= k < 4
      ensures SectionValue(x, k) == Some(qs[k])
    {
      assert k == 0 || k == 1 || k == 2 || k == 3;
    }
  }

  /** Left-to-right lexicographic comparison of equal-length sequences. */
  function LexHigher(xs: seq<int>, ys: seq<int>): bool
    requires |xs| == |ys|
    decreases |xs|
  {
    if |xs| == 0 then false
    else if xs[0] != ys[0] then xs[0] > ys[0]
    else LexHigher(xs[1..], ys[1..])
  }

  /** From section i on, the corrected loop compares the remaining sections lexicographically. */
  lemma {:induction false} HigherFromLex(x: string, y: string, i: nat, xs: seq<int>, ys: seq<int>)
    requires i <= 4 && |xs| == 4 && |ys| == 4
    requires forall k :: i <= k < 4 ==> SectionValue(x, k) == Some(xs[k])
    requires forall k :: i <= k < 4 ==> SectionValue(y, k) == Some(ys[k])
    ensures HigherFrom(x, y, i) == Some(LexHigher(xs[i..], ys[i..]))
    decreases 4 - i
  {
    if i < 4 {
      HigherStep(x, y, i, xs[i], ys[i]);
      HigherFromLex(x, y, i + 1, xs, ys);
      assert xs[i..][1..] == xs[i + 1..] && ys[i..][1..] == ys[i + 1..];
    }
  }

  /** Comparing octets left to right compares the 32-bit values. */
  lemma LexValue(a: int, b: int, c: int, d: int, e: int, f: int, g: int, h: int)
    requires IsOctet(a) && IsOctet(b) && IsOctet(c) && IsOctet(d)
    requires IsOctet(e) && IsOctet(f) && IsOctet(g) && IsOctet(h)
    ensures (Value(a, b, c, d) > Value(e, f, g, h)) == LexHigher([a, b, c, d], [e, f, g, h])
  {
    var xs, ys := [a, b, c, d], [e, f, g, h];
    assert xs[1..] == [b, c, d] && ys[1..] == [f, g, h];
    assert [b, c, d][1..] == [c, d] && [f, g, h][1..] == [g, h];
    assert [c, d][1..] == [d] && [g, h][1..] == [h];
    assert [d][1..] == [] && [h][1..] == [];
    assert LexHigher([d], [h]) == (d > h);
    assert LexHigher([c, d], [g, h]) == if c != g then c > g else d > h;
    assert LexHigher([b, c, d], [f, g, h]) == if b != f then b > f else LexHigher([c, d], [g, h]);
    assert LexHigher(xs, ys) == if a != e then a > e else LexHigher([b, c, d], [f, g, h]);
  }

  /** One section of the corrected comparison. */
  lemma HigherStep(x: string, y: string, i: nat, u: int, v: int)
    requires i < 4 && SectionValue(x, i) == Some(u) && SectionValue(y, i) == Some(v)
    ensures HigherFrom(x, y, i) == if u > v then Some(true) else if u < v then Some(false) else HigherFrom(x, y, i + 1)
  {
  }

  /** The corrected comparison is never true in both directions. */
  lemma IsHigherIPAsymmetric(a: string, b: string)
    ensures !(IsHigherIP(a, b) == Some(true) && IsHigherIP(b, a) == Some(true))
  {
    if a != b {
      HigherFromAsymmetric(a, b, 0);
    }
  }

  lemma {:induction false} HigherFromAsymmetric(a: string, b: string, i: nat)
    ensures !(HigherFrom(a, b, i) == Some(true) && HigherFrom(b, a, i) == Some(true))
    decreases 4 - i
  {
    if i < 4 {
      HigherFromAsymmetric(a, b, i + 1);
    }
  }

  // ---------------------------------------------------------------------
  // isDateAfter and datesOverlap (dates are DD/MM/YYYY strings)

  datatype Date = Date(day: int, month: int, year: int)

  /** int() of the day, month and year fields; None where one raises ValueError. */
  function ParseDate(s: string): Option<Date>
  {
    var d := ParseInt(Slice(s, 0, 2));
    var m := ParseInt(Slice(s, 3, 5));
    var y := ParseInt(Slice(s, 6, 10));
    if d.None? || m.None? || y.None? then None else Some(Date(d.value, m.value, y.value))
  }

  /** Exactly DD/MM/YYYY digits. */
  predicate IsDateString(s: string)
  {
    |s| == 10 && s[2] == '/' && s[5] == '/'
    && AllDigits(s[0..2]) && AllDigits(s[3..5]) && AllDigits(s[6..10])
  }

  /** isDateAfter as written: False as soon as any field of the first date is smaller. */
  function DateAfterAsWritten(first: string, second: string): Option<bool>
  {
    if first == second then Some(false)
    else
      var f := ParseDate(first);
      var s := ParseDate(second);
      if f.None? || s.None? then None
      else Some(!(f.value.year < s.value.year || f.value.month < s.value.month || f.value.day < s.value.day))
  }

  /** datesOverlap as written, over isDateAfter as written; `or` short-circuits. */
  function DatesOverlapAsWritten(begin1: string, end1: string, begin2: string, end2: string): Option<bool>
  {
    match DateAfterAsWritten(begin1, end2)
    case None => None
    case Some(true) => Some(false)
    case Some(false) =>
      match DateAfterAsWritten(begin2, end1)
      case None => None
      case Some(after) => Some(!after)
  }

  lemma ParseDigits(s: string)
    requires 0 < |s| && AllDigits(s)
    ensures ParseInt(s) == Some(DigitsValue(s) as int)
  {
  }

  lemma ParseDateOfDateString(s: string)
    requires IsDateString(s)
    ensures ParseDate(s) == Some(Date(DigitsValue(s[0..2]), DigitsValue(s[3..5]), DigitsValue(s[6..10])))
  {
    ParseDigits(s[0..2]);
    ParseDigits(s[3..5]);
    ParseDigits(s[6..10]);
  }

  /** Two DD/MM/YYYY strings with the same fields are the same string. */
  lemma DateStringInjective(s: string, t: string)
    requires IsDateString(s) && IsDateString(t)
    requires ParseDate(s) == ParseDate(t)
    ensures s == t
  {
    ParseDateOfDateString(s);
    ParseDateOfDateString(t);
    DigitsValueInjective(s[0..2], t[0..2]);
    DigitsValueInjective(s[3..5], t[3..5]);
    DigitsValueInjective(s[6..10], t[6..10]);
    assert s == s[0..2] + [s[2]] + s[3..5] + [s[5]] + s[6..10];
    assert t == t[0..2] + [t[2]] + t[3..5] + [t[5]] + t[6..10];
  }

  /** As written, isDateAfter is irreflexive and, on DD/MM/YYYY strings, never true both ways. */
  lemma DateAfterAsWrittenAsymmetric(a: string, b: string)
    ensures DateAfterAsWritten(a, a) == Some(false)
    ensures IsDateString(a) && IsDateString(b) ==> !(DateAfterAsWritten(a, b) == Some(true) && DateAfterAsWritten(b, a) == Some(true))
  {
    if IsDateString(a) && IsDateString(b) && DateAfterAsWritten(a, b) == Some(true) && DateAfterAsWritten(b, a) == Some(true) {
      DateStringInjective(a, b);
    }
  }

  /** On DD/MM/YYYY strings datesOverlap is symmetric in its two ranges. */
  lemma DatesOverlapAsWrittenSymmetric(a: string, b: string, c: string, d: string)
    requires IsDateString(a) && IsDateString(b) && IsDateString(c) && IsDateString(d)
    ensures DatesOverlapAsWritten(a, b, c, d) == DatesOverlapAsWritten(c, d, a, b)
  {
    ParseDateOfDateString(a);
    ParseDateOfDateString(b);
    ParseDateOfDateString(c);
    ParseDateOfDateString(d);
  }

  /** As written, 1 March 2020 is not after 15 February 2020, so two disjoint ranges overlap. */
  lemma DateAfterAsWrittenMissesMonths()
    ensures DateAfterAsWritten("01/03/2020", "15/02/2020") == Some(false)
  {
    Year2020();
    ParsedDate("01/03/2020", "01", "03", "2020", 1, 3, 2020);
    ParsedDate("15/02/2020", "15", "02", "2020", 15, 2, 2020);
  }

  /** Hence, as written, 1-5 March 2020 overlaps 10-15 February 2020. */
  lemma DatesOverlapAsWrittenWrong()
    ensures DatesOverlapAsWritten("01/03/2020", "05/03/2020", "10/02/2020", "15/02/2020") == Some(true)
  {
    DateAfterAsWrittenMissesMonths();
    DateAfterAsWrittenFebMarch();
  }

  lemma DateAfterAsWrittenFebMarch()
    ensures DateAfterAsWritten("10/02/2020", "05/03/2020") == Some(false)
  {
    Year2020();
    ParsedDate("05/03/2020", "05", "03", "2020", 5, 3, 2020);
    ParsedDate("10/02/2020", "10", "02", "2020", 10, 2, 2020);
  }

  lemma Year2020()
    ensures AllDigits("2020") && DigitsValue("2020") == 2020
  {
    assert "2020"[..3] == "202";
    assert "202"[..2] == "20";
    assert "20"[..1] == "2";
    assert "2"[..0] == "";
  }

  lemma ParsedDate(s: string, dd: string, mm: string, yyyy: string, d: int, m: int, y: int)
    requires |dd| == 2 && |mm| == 2 && |yyyy| == 4
    requires AllDigits(dd) && AllDigits(mm) && AllDigits(yyyy)
    requires s == dd + "/" + mm + "/" + yyyy
    requires DigitsValue(dd) == d && DigitsValue(mm) == m && DigitsValue(yyyy) == y
    ensures ParseDate(s) == Some(Date(d, m, y))
  {
    DateOf(s, dd, mm, yyyy);
  }

  /** The fields of dd/mm/yyyy. */
  lemma DateOf(s: string, dd: string, mm: string, yyyy: string)
    requires |dd| == 2 && |mm| == 2 && |yyyy| == 4
    requires AllDigits(dd) && AllDigits(mm) && AllDigits(yyyy)
    requires s == dd + "/" + mm + "/" + yyyy
    ensures ParseDate(s) == Some(Date(DigitsValue(dd), DigitsValue(mm), DigitsValue(yyyy)))
  {
    assert s[0..2] == dd && s[3..5] == mm && s[6..10] == yyyy;
  }

  /** Chronological order of parsed dates: year, then month, then day. */
  predicate Later(f: Date, s: Date)
  {
    if f.year != s.year then f.year > s.year
    else if f.month != s.month then f.month > s.month
    else f.day > s.day
  }

  /** isDateAfter as intended. */
  function DateAfter(first: string, second: string): Option<bool>
  {
    if first == second then Some(false)
    else
      var f := ParseDate(first);
      var s := ParseDate(second);
      if f.None? || s.None? then None else Some(Later(f.value, s.value))
  }

  /** datesOverlap over the intended isDateAfter. */
  function DatesOverlap(begin1: string, end1: string, begin2: string, end2: string): Option<bool>
  {
    match DateAfter(begin1, end2)
    case None => None
    case Some(true) => Some(false)
    case Some(false) =>
      match DateAfter(begin2, end1)
      case None => None
      case Some(after) => Some(!after)
  }

  /** On DD/MM/YYYY strings the intended isDateAfter is a strict total order. */
  lemma DateAfterStrictTotal(a: string, b: string, c: string)
    requires IsDateString(a) && IsDateString(b) && IsDateString(c)
    ensures DateAfter(a, a) == Some(false)
    ensures DateAfter(a, b).Some?
    ensures !(DateAfter(a, b) == Some(true) && DateAfter(b, a) == Some(true))
    ensures a != b ==> (DateAfter(a, b) == Some(true) || DateAfter(b, a) == Some(true))
    ensures DateAfter(a, b) == Some(true) && DateAfter(b, c) == Some(true) ==> DateAfter(a, c) == Some(true)
  {
    ParseDateOfDateString(a);
    ParseDateOfDateString(b);
    ParseDateOfDateString(c);
    if a != b && ParseDate(a) == ParseDate(b) {
      DateStringInjective(a, b);
    }
  }

  /** Two DD/MM/YYYY ranges overlap exactly when neither begins after the other ends. */
  lemma DatesOverlapMeaning(a: string, b: string, c: string, d: string)
    requires IsDateString(a) && IsDateString(b) && IsDateString(c) && IsDateString(d)
    ensures DatesOverlap(a, b, c, d) == Some(DateAfter(a, d) == Some(false) && DateAfter(c, b) == Some(false))
    ensures DatesOverlap(a, b, c, d) == DatesOverlap(c, d, a, b)
  {
    DateAfterStrictTotal(a, d, d);
    DateAfterStrictTotal(c, b, b);
  }

  /** The corrected order sees that March comes after February. */
  lemma DateAfterSeesMonths()
    ensures DateAfter("01/03/2020", "15/02/2020") == Some(true)
    ensures DatesOverlap("01/03/2020", "05/03/2020", "10/02/2020", "15/02/2020") == Some(false)
  {
    Year2020();
    ParsedDate("01/03/2020", "01", "03", "2020", 1, 3, 2020);
    ParsedDate("15/02/2020", "15", "02", "2020", 15, 2, 2020);
  }

  // ---------------------------------------------------------------------
  // findFirstNumberInString, isVLANInList

  /** findFirstNumberInString: the index of the first (ASCII) digit, else -1. */
  method FindFirstNumberInString(s: string) returns (r: int)
    ensures r == -1 <==> forall i :: 0 <= i < |s| ==> !IsDigit(s[i])
    ensures r != -1 ==> 0 <= r < |s| && IsDigit(s[r]) && forall i :: 0 <= i < r ==> !IsDigit(s[i])
  {
    var i := 0;
    while i < |s|
      invariant 0 <= i <= |s|
      invariant forall j :: 0 <= j < i ==> !IsDigit(s[j])
    {
      if IsDigit(s[i]) {
        return i;
      }
      i := i + 1;
    }
    return -1;
  }

  /** isVLANInList over the names of the listed VLANs: the first index with that name, else -1. */
  method IsVLANInList(name: string, names: Option<seq<string>>) returns (r: int)
    ensures r == -1 <==> (names.None? || name !in names.value)
    ensures r != -1 ==> names.Some? && 0 <= r < |names.value| && names.value[r] == name
    ensures r != -1 ==> forall j :: 0 <= j < r ==> names.value[j] != name
  {
    if names.None? {
      return -1;
    }
    var list := names.value;
    var index := 0;
    while index < |list|
      invariant 0 <= index <= |list|
      invariant forall j :: 0 <= j < index ==> list[j] != name
    {
      if list[index] == name {
        return index;
      }
      index := index + 1;
    }
    return -1;
  }

  // ---------------------------------------------------------------------
  // convertIntToHexCharacter and convertHexCharacterToInt

  /** A value, or the NameError the as-written code raises. */
  datatype HexResult = Text(s: string) | NameError

  /** convertIntToHexCharacter as written: the in-range branch names an undefined variable. */
  function IntToHexCharacterAsWritten(n: int): HexResult
  {
    if n < 0 || n > 15 then Text("-1") else NameError
  }

  lemma IntToHexCharacterAsWrittenFails(n: int)
    requires 0 <= n <= 15
    ensures IntToHexCharacterAsWritten(n) == NameError
  {
  }

  function HexDigit(n: int): char
    requires 0 <= n < 16
  {
    if n < 10 then ('0' as int + n) as char else ('A' as int + n - 10) as char
  }

  /** convertIntToHexCharacter as intended: one upper-case hex digit, or "-1" outside 0..15. */
  function IntToHexCharacter(n: int): (r: HexResult)
    ensures r.Text?
    ensures (n < 0 || n > 15) <==> r == Text("-1")
  {
    if n < 0 || n > 15 then Text("-1") else Text([HexDigit(n)])
  }

  function HexValue(c: char): Option<int>
  {
    if '0' <= c <= '9' then Some(c as int - '0' as int)
    else if 'a' <= c <= 'f' then Some(c as int - 'a' as int + 10)
    else if 'A' <= c <= 'F' then Some(c as int - 'A' as int + 10)
    else None
  }

  function HexDigitsValue(s: string): Option<int>
    decreases |s|
  {
    if |s| == 0 then Some(0)
    else
      match (HexDigitsValue(s[..|s| - 1]), HexValue(s[|s| - 1]))
      case (Some(high), Some(low)) => Some(16 * high + low)
      case _ => None
  }

  /**
   * convertHexCharacterToInt: int("0x" + s, 0), which skips trailing
   * whitespace after the hex digits; None where int() raises.
   */
  function HexCharacterToInt(s: string): Option<int>
  {
    var t := RStrip(s);
    if |t| == 0 then None else HexDigitsValue(t)
  }

  /** The corrected conversion round-trips through convertHexCharacterToInt. */
  lemma HexCharacterRoundTrip(n: int)
    ensures 0 <= n <= 15 ==> HexCharacterToInt(IntToHexCharacter(n).s) == Some(n)
    ensures (n < 0 || n > 15) ==> HexCharacterToInt(IntToHexCharacter(n).s) == None
  {
    if 0 <= n <= 15 {
      var s := [HexDigit(n)];
      assert IntToHexCharacter(n).s == s;
      HexDigitRoundTrip(n, s);
    } else {
      assert "-1"[..1] == "-";
      assert HexValue('-') == None;
    }
  }

  lemma HexDigitRoundTrip(n: int, s: string)
    requires 0 <= n <= 15 && s == [HexDigit(n)]
    ensures HexDigitsValue(s) == Some(n)
  {
    assert s[..0] == "";
    assert HexValue(s[0]) == Some(n);
  }
}
