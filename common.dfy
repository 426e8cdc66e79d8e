/**
 * Value types and string helpers shared by every part of the HEN model:
 * an Option type for Python's None, bytes, Python's str(n) and int(s) on
 * decimal strings, str.split / str.join on one separator, str.find,
 * str.count and ASCII str.upper.
 */
module Common {

  datatype Option<T> = None | Some(value: T)

  /** One octet, as stored in a Python array('B') or a byte string. */
  type byte = x: int | 0 <= x < 256

  predicate IsDigit(c: char) { '0' <= c <= '9' }

  predicate AllDigits(s: string) { forall i :: 0 <= i < |s| ==> IsDigit(s[i]) }

  function DigitChar(d: nat): (c: char)
    requires d < 10
    ensures IsDigit(c)
  {
    (('0' as int) + d) as char
  }

  function DigitValue(c: char): (d: nat)
    requires IsDigit(c)
    ensures d < 10
    ensures DigitChar(d) == c
  {
    (c as int) - ('0' as int)
  }

  /** Python's str(n) for n >= 0: decimal digits, no leading zero. */
  function NatToString(n: nat): (s: string)
    ensures 1 <= |s| && AllDigits(s)
    ensures |s| > 1 ==> s[0] != '0'
    decreases n
  {
    if n < 10 then [DigitChar(n)] else NatToString(n / 10) + [DigitChar(n % 10)]
  }

  /** Python's str(i) for any integer. */
  function IntToString(i: int): string
  {
    if i < 0 then "-" + NatToString(-i) else NatToString(i)
  }

  /** The value of a string of decimal digits (leading zeros allowed, as int() allows them). */
  function DigitsValue(s: string): nat
    requires AllDigits(s)
    decreases |s|
  {
    if |s| == 0 then 0 else 10 * DigitsValue(s[..|s| - 1]) + DigitValue(s[|s| - 1])
  }

  /**
   * Python's int(s): surrounding whitespace is skipped, then the text must be
   * an optional sign and decimal digits; None stands for the ValueError
   * int() raises on anything else.
   */
  function ParseInt(s: string): (r: Option<int>)
    ensures r.Some? ==> |s| > 0
  {
    // text that already parses has no whitespace to skip
    var r := ParseDecimal(s);
    if r.Some? then r else ParseDecimal(Strip(s))
  }

  /** int(s) is int() of s with its surrounding whitespace removed. */
  lemma ParseIntStrips(s: string)
    ensures ParseInt(s) == ParseDecimal(Strip(s))
  {
    if ParseDecimal(s).Some? {
      assert !IsSpace(s[0]) && !IsSpace(s[|s| - 1]);
      StripNoSpace(s);
    }
  }

  /** int() on text without surrounding whitespace: an optional sign, then decimal digits. */
  function ParseDecimal(s: string): (r: Option<int>)
    ensures r.Some? ==> |s| > 0
  {
    if |s| > 0 && AllDigits(s) then Some(DigitsValue(s))
    else if |s| > 1 && s[0] == '-' && AllDigits(s[1..]) then Some(-(DigitsValue(s[1..]) as int))
    else if |s| > 1 && s[0] == '+' && AllDigits(s[1..]) then Some(DigitsValue(s[1..]))
    else None
  }

  lemma {:induction false} DigitsValueOfNatToString(n: nat)
    ensures DigitsValue(NatToString(n)) == n
    decreases n
  {
    if n >= 10 {
      DigitsValueOfNatToString(n / 10);
      var s := NatToString(n);
      assert s[..|s| - 1] == NatToString(n / 10);
    }
  }

  /** Equal-length digit strings with the same value are equal. */
  lemma {:induction false} DigitsValueInjective(s: string, t: string)
    requires AllDigits(s) && AllDigits(t) && |s| == |t|
    requires DigitsValue(s) == DigitsValue(t)
    ensures s == t
    decreases |s|
  {
    if |s| > 0 {
      var n := |s| - 1;
      DigitsValueInjective(s[..n], t[..n]);
      assert s == s[..n] + [s[n]] && t == t[..n] + [t[n]];
      assert DigitChar(DigitValue(s[n])) == s[n];
    }
  }

  lemma ParseNatString(n: nat)
    ensures ParseInt(NatToString(n)) == Some(n)
  {
    var t := NatToString(n);
    DigitsValueOfNatToString(n);
  }

  /** int() reads "-" and the digits of n as -n. */
  lemma NegativeDecimal(n: nat, s: string)
    requires s == "-" + NatToString(n)
    ensures ParseDecimal(s) == Some(-(n as int))
  {
    var t := NatToString(n);
    DigitsValueOfNatToString(n);
    assert !IsDigit(s[0]);
    assert s[1..] == t;
  }

  /** int(str(i)) == i. */
  lemma ParseIntOfIntToString(i: int)
    ensures ParseInt(IntToString(i)) == Some(i)
  {
    var s := IntToString(i);
    if i < 0 {
      NegativeDecimal(-i, s);
    } else {
      ParseNatString(i);
    }
  }

  /** str is injective on integers. */
  lemma IntToStringInjective(a: int, b: int)
    ensures IntToString(a) == IntToString(b) ==> a == b
  {
    ParseIntOfIntToString(a);
    ParseIntOfIntToString(b);
  }

  // ---------------------------------------------------------------------
  // str.split(sep) and sep.join(parts) for a one-character separator.

  /** Python's s.split(sep) for a one-character separator. */
  function Split(s: string, sep: char): (parts: seq<string>)
    ensures |parts| >= 1
    decreases |s|
  {
    if |s| == 0 then [""]
    else
      var rest := Split(s[1..], sep);
      if s[0] == sep then [""] + rest else [[s[0]] + rest[0]] + rest[1..]
  }

  /** Python's sep.join(parts). */
  function JoinWith(parts: seq<string>, sep: string): string
    decreases |parts|
  {
    if |parts| == 0 then ""
    else if |parts| == 1 then parts[0]
    else parts[0] + sep + JoinWith(parts[1..], sep)
  }

  /** Joining one more part adds the separator and the part. */
  lemma {:induction false} JoinWithSnoc(xs: seq<string>, x: string, sep: string)
    requires |xs| > 0
    ensures JoinWith(xs + [x], sep) == JoinWith(xs, sep) + sep + x
    decreases |xs|
  {
    assert (xs + [x])[1..] == xs[1..] + [x];
    if |xs| > 1 {
      JoinWithSnoc(xs[1..], x, sep);
    }
  }

  /** Splitting at one separator splits the two sides independently. */
  lemma {:induction false} SplitAround(a: string, b: string, sep: char)
    ensures Split(a + [sep] + b, sep) == Split(a, sep) + Split(b, sep)
    decreases |a|
  {
    if |a| == 0 {
      assert a + [sep] + b == [sep] + b;
      assert ([sep] + b)[1..] == b;
    } else {
      assert (a + [sep] + b)[1..] == a[1..] + [sep] + b;
      SplitAround(a[1..], b, sep);
    }
  }

  /** A string without the separator splits into itself. */
  lemma {:induction false} SplitWhole(b: string, sep: char)
    requires sep !in b
    ensures Split(b, sep) == [b]
    decreases |b|
  {
    if |b| > 0 {
      assert b[0] in b;
      assert forall c :: c in b[1..] ==> c in b;
      SplitWhole(b[1..], sep);
      assert [b[0]] + b[1..] == b;
    }
  }

  /** No part of a split contains the separator. */
  lemma {:induction false} SplitPartsLackSep(s: string, sep: char)
    ensures forall i :: 0 <= i < |Split(s, sep)| ==> sep !in Split(s, sep)[i]
    decreases |s|
  {
    if |s| > 0 {
      SplitPartsLackSep(s[1..], sep);
    }
  }

  /** Joining the parts of a split with the separator gives the string back. */
  lemma {:induction false} JoinSplit(s: string, sep: char)
    ensures JoinWith(Split(s, sep), [sep]) == s
    decreases |s|
  {
    if |s| > 0 {
      JoinSplit(s[1..], sep);
      var rest := Split(s[1..], sep);
      if s[0] != sep && |rest| > 1 {
        assert JoinWith(rest, [sep]) == rest[0] + [sep] + JoinWith(rest[1..], [sep]);
      }
    }
  }

  /** Splitting a join of separator-free parts gives the parts back. */
  lemma {:induction false} SplitJoin(parts: seq<string>, sep: char)
    requires |parts| >= 1
    requires forall i :: 0 <= i < |parts| ==> sep !in parts[i]
    ensures Split(JoinWith(parts, [sep]), sep) == parts
    decreases |parts|, |parts[0]|
  {
    if |parts[0]| > 0 {
      var p0 := parts[0];
      var tail := [p0[1..]] + parts[1..];
      assert p0[0] in p0;
      assert forall i :: 0 <= i < |tail| ==> sep !in tail[i] by {
        assert forall c :: c in p0[1..] ==> c in p0;
      }
      SplitJoin(tail, sep);
      var s := JoinWith(parts, [sep]);
      assert s[1..] == JoinWith(tail, [sep]);
      assert s[0] == p0[0] != sep;
      assert [p0[0]] + p0[1..] == p0;
    } else if |parts| > 1 {
      SplitJoin(parts[1..], sep);
      assert JoinWith(parts, [sep])[1..] == JoinWith(parts[1..], [sep]);
    }
  }

  // ---------------------------------------------------------------------
  // Slicing and reversal.

  /** A Python slice bound: negative counts from the end, then clamped to 0..n. */
  function SliceBound(i: int, n: nat): (r: nat)
    ensures r <= n
    ensures 0 <= i <= n ==> r == i
  {
    var j := if i < 0 then n + i else i;
    if j < 0 then 0 else if j > n then n else j
  }

  /** Python's s[a:b]. */
  function Slice(s: string, a: int, b: int): (r: string)
    ensures 0 <= a <= b <= |s| ==> r == s[a..b]
    ensures |r| <= |s|
  {
    var lo := SliceBound(a, |s|);
    var hi := SliceBound(b, |s|);
    if lo < hi then s[lo..hi] else ""
  }

  function Reverse<T>(s: seq<T>): (r: seq<T>)
    ensures |r| == |s|
    decreases |s|
  {
    if |s| == 0 then [] else Reverse(s[1..]) + [s[0]]
  }

  lemma {:induction false} ReverseAppend<T>(s: seq<T>, x: T)
    ensures Reverse(s + [x]) == [x] + Reverse(s)
    decreases |s|
  {
    if |s| > 0 {
      assert (s + [x])[1..] == s[1..] + [x];
      ReverseAppend(s[1..], x);
    } else {
      assert s + [x] == [x];
    }
  }

  lemma {:induction false} ReverseReverse<T>(s: seq<T>)
    ensures Reverse(Reverse(s)) == s
    decreases |s|
  {
    if |s| > 0 {
      ReverseAppend(Reverse(s[1..]), s[0]);
      ReverseReverse(s[1..]);
      assert [s[0]] + s[1..] == s;
    }
  }

  lemma {:induction false} ReverseIndex<T>(s: seq<T>, i: int)
    requires 0 <= i < |s|
    ensures Reverse(s)[i] == s[|s| - 1 - i]
    decreases |s|
  {
    if i < |s| - 1 {
      ReverseIndex(s[1..], i);
    }
  }

  // ---------------------------------------------------------------------
  // str.find, `in` and str.count.

  predicate OccursAt(s: string, sub: string, i: int)
  {
    0 <= i && i + |sub| <= |s| && s[i..i + |sub|] == sub
  }

  /** Python's s.find(sub, start) for 0 <= start: the least i >= start where sub occurs, else -1. */
  function FindFrom(s: string, sub: string, start: nat): (r: int)
    ensures r == -1 || start <= r
    decreases |s| - start
  {
    if start + |sub| > |s| then -1
    else if s[start..start + |sub|] == sub then start
    else FindFrom(s, sub, start + 1)
  }

  /** find answers the first occurrence at or after start, or -1 when there is none. */
  lemma {:induction false} FindFromSpec(s: string, sub: string, start: nat)
    ensures FindFrom(s, sub, start) != -1 ==> OccursAt(s, sub, FindFrom(s, sub, start))
    ensures FindFrom(s, sub, start) == -1 ==> forall i :: start <= i ==> !OccursAt(s, sub, i)
    ensures forall i :: start <= i < FindFrom(s, sub, start) ==> !OccursAt(s, sub, i)
    decreases |s| - start
  {
    if start + |sub| <= |s| && s[start..start + |sub|] != sub {
      FindFromSpec(s, sub, start + 1);
    }
  }

  /** Python's s.find(sub). */
  function Find(s: string, sub: string): int
  {
    FindFrom(s, sub, 0)
  }

  /** Python's `sub in s`. */
  predicate Contains(s: string, sub: string)
  {
    exists i :: 0 <= i <= |s| && OccursAt(s, sub, i)
  }

  lemma FindIffContains(s: string, sub: string)
    ensures (Find(s, sub) != -1) == Contains(s, sub)
  {
    FindFromSpec(s, sub, 0);
    if Find(s, sub) != -1 {
      assert OccursAt(s, sub, Find(s, sub));
    }
  }

  /** Python's s.find(c, start) for a one-character string c and 0 <= start. */
  function FindChar(s: string, c: char, start: nat): (r: int)
    ensures r == -1 || (start <= r < |s| && s[r] == c)
    decreases |s| - start
  {
    if start >= |s| then -1
    else if s[start] == c then start
    else FindChar(s, c, start + 1)
  }

  /** FindChar answers the first c at or after start. */
  lemma {:induction false} FindCharFirst(s: string, c: char, start: nat)
    ensures FindChar(s, c, start) == -1 ==> forall i :: start <= i < |s| ==> s[i] != c
    ensures forall i :: start <= i < FindChar(s, c, start) ==> s[i] != c
    decreases |s| - start
  {
    if start < |s| && s[start] != c {
      FindCharFirst(s, c, start + 1);
    }
  }

  /** Python's s.rfind(c, 0, end) for one character: the greatest i < end with s[i] == c, else -1. */
  function RFind(s: string, c: char, end: nat): (r: int)
    requires end <= |s|
    ensures -1 <= r < end
    ensures r >= 0 ==> s[r] == c
    ensures forall i :: r < i < end ==> s[i] != c
    decreases end
  {
    if end == 0 then -1
    else if s[end - 1] == c then end - 1
    else RFind(s, c, end - 1)
  }

  /** Python's s.count(sub) for a non-empty sub: non-overlapping occurrences, scanning from the left. */
  function CountFrom(s: string, sub: string, start: nat): nat
    requires |sub| > 0
    decreases |s| - start
  {
    if start + |sub| > |s| then 0
    else if s[start..start + |sub|] == sub then 1 + CountFrom(s, sub, start + |sub|)
    else CountFrom(s, sub, start + 1)
  }

  function Count(s: string, sub: string): nat
    requires |sub| > 0
  {
    CountFrom(s, sub, 0)
  }

  // ---------------------------------------------------------------------
  // ASCII upper-casing (Python 2 str.upper, JavaScript toUpperCase on ASCII).

  function UpperChar(c: char): char
  {
    if 'a' <= c <= 'z' then (c as int - 32) as char else c
  }

  function Upper(s: string): (r: string)
    ensures |r| == |s|
    ensures forall i :: 0 <= i < |s| ==> r[i] == UpperChar(s[i])
  {
    seq(|s|, i requires 0 <= i < |s| => UpperChar(s[i]))
  }

  // ---------------------------------------------------------------------
  // Python's whitespace and str.lstrip() / str.strip().

  /** The ASCII whitespace of Python 2 str methods: space, \t, \n, \v, \f, \r. */
  predicate IsSpace(c: char)
  {
    c == ' ' || '\t' <= c <= '\r'
  }

  /** s.lstrip(): s without its leading whitespace. */
  function LStrip(s: string): (r: string)
    ensures |r| <= |s| && r == s[|s| - |r|..]
    ensures forall i :: 0 <= i < |s| - |r| ==> IsSpace(s[i])
    ensures |r| > 0 ==> !IsSpace(r[0])
  {
    if |s| > 0 && IsSpace(s[0]) then LStrip(s[1..]) else s
  }

  /** s.rstrip(): s without its trailing whitespace. */
  function RStrip(s: string): (r: string)
    ensures |r| <= |s| && r == s[..|r|]
    ensures |r| > 0 ==> !IsSpace(r[|r| - 1])
  {
    if |s| > 0 && IsSpace(s[|s| - 1]) then RStrip(s[..|s| - 1]) else s
  }

  /** s.strip(): s without its leading and trailing whitespace. */
  function Strip(s: string): (r: string)
    ensures |r| <= |s|
    ensures |r| > 0 ==> !IsSpace(r[0]) && !IsSpace(r[|r| - 1])
  {
    RStrip(LStrip(s))
  }

  /** What rstrip() removes starts with whitespace. */
  lemma {:induction false} RStripStopsAtSpace(s: string)
    ensures |RStrip(s)| < |s| ==> IsSpace(s[|RStrip(s)|])
    decreases |s|
  {
    if |s| > 0 && IsSpace(s[|s| - 1]) {
      var p := s[..|s| - 1];
      RStripStopsAtSpace(p);
      if |RStrip(p)| < |p| {
        assert s[|RStrip(s)|] == p[|RStrip(p)|];
      }
    }
  }

  /** Text with no whitespace at either end is left as it is by strip(). */
  lemma StripNoSpace(s: string)
    requires |s| > 0 && !IsSpace(s[0]) && !IsSpace(s[|s| - 1])
    ensures Strip(s) == s
  {
  }

  /** CountFrom is zero where the first character of sub does not occur. */
  lemma {:induction false} CountWithoutFirstChar(s: string, sub: string, start: nat)
    requires |sub| > 0
    requires forall i :: start <= i < |s| ==> s[i] != sub[0]
    ensures CountFrom(s, sub, start) == 0
    decreases |s| - start
  {
    if start + |sub| <= |s| {
      assert s[start..start + |sub|][0] == s[start];
      CountWithoutFirstChar(s, sub, start + 1);
    }
  }

  // ---------------------------------------------------------------------
  // list.sort() on integers.

  predicate SortedInts(s: seq<int>)
  {
    forall i, j :: 0 <= i < j < |s| ==> s[i] <= s[j]
  }

  function Insert(x: int, s: seq<int>): seq<int>
    decreases |s|
  {
    if |s| == 0 then [x] else if x <= s[0] then [x] + s else [s[0]] + Insert(x, s[1..])
  }

  /** The ascending order of a list of integers (the result of list.sort(), which is unique). */
  function SortInts(s: seq<int>): seq<int>
    decreases |s|
  {
    if |s| == 0 then [] else Insert(s[0], SortInts(s[1..]))
  }

  lemma {:induction false} InsertCount(x: int, s: seq<int>)
    ensures multiset(Insert(x, s)) == multiset(s) + multiset{x}
    decreases |s|
  {
    if |s| > 0 {
      assert s == [s[0]] + s[1..];
      if x > s[0] {
        InsertCount(x, s[1..]);
      }
    }
  }

  lemma {:induction false} InsertSorted(x: int, s: seq<int>)
    requires SortedInts(s)
    ensures SortedInts(Insert(x, s))
    decreases |s|
  {
    if |s| > 0 && x > s[0] {
      InsertSorted(x, s[1..]);
      InsertCount(x, s[1..]);
      var r := Insert(x, s[1..]);
      forall k | 0 <= k < |r|
        ensures s[0] <= r[k]
      {
        assert r[k] in multiset(r);
        assert r[k] == x || r[k] in multiset(s[1..]);
      }
    }
  }

  /** The sorted list is ascending and holds the same elements, as often each. */
  lemma {:induction false} SortIntsMeaning(s: seq<int>)
    ensures SortedInts(SortInts(s)) && multiset(SortInts(s)) == multiset(s)
    decreases |s|
  {
    if |s| > 0 {
      SortIntsMeaning(s[1..]);
      InsertSorted(s[0], SortInts(s[1..]));
      InsertCount(s[0], SortInts(s[1..]));
      assert s == [s[0]] + s[1..];
    }
  }
}
