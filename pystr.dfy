/**
 * The Python builtins the converter relies on, restricted to what the converter feeds
 * them: `str.replace(" ", "")`, `str.split`, `str.lower`, `str.strip`, `str.endswith`,
 * `int` on a token, `sorted` on a list of strings and `os.path.join` (POSIX).
 */
module PyStr {
  import opened Wrappers

  /** The characters of `s`, as a set. */
  function Chars(s: string): set<char> { set i | 0 <= i < |s| :: s[i] }

  // ---------------------------------------------------------------------------
  // s.replace(" ", "")

  /** `s.replace(" ", "")`: every space removed, every other character kept in order. */
  function RemoveSpaces(s: string): string
  {
    if s == [] then [] else (if s[0] == ' ' then [] else [s[0]]) + RemoveSpaces(s[1..])
  }

  /** No space is left, and a string without spaces is left as it is. */
  lemma {:induction false} RemoveSpacesFacts(s: string)
    ensures ' ' !in RemoveSpaces(s)
    ensures |RemoveSpaces(s)| <= |s|
    ensures ' ' !in s ==> RemoveSpaces(s) == s
  {
    if s != [] {
      RemoveSpacesFacts(s[1..]);
      assert s == [s[0]] + s[1..];
    }
  }

  /** Removing spaces distributes over concatenation. */
  lemma {:induction false} RemoveSpacesConcat(a: string, b: string)
    ensures RemoveSpaces(a + b) == RemoveSpaces(a) + RemoveSpaces(b)
  {
    if a == [] {
      assert a + b == b;
    } else {
      assert (a + b)[0] == a[0] && (a + b)[1..] == a[1..] + b;
      RemoveSpacesConcat(a[1..], b);
    }
  }

  /** A space inserted anywhere makes no difference once spaces are removed. */
  lemma ExtraSpaceIgnored(a: string, b: string)
    ensures RemoveSpaces(a + " " + b) == RemoveSpaces(a + b)
  {
    RemoveSpacesConcat(a + " ", b);
    RemoveSpacesConcat(a, " ");
    RemoveSpacesConcat(a, b);
  }

  // ---------------------------------------------------------------------------
  // s.split(c)

  /**
   * `s.split(c)` for a one-character separator: the pieces between the separators,
   * so there is always one more piece than there are separators (`"".split(",")` is `[""]`).
   */
  function Split(s: string, c: char): (r: seq<string>)
    ensures |r| >= 1
  {
    if s == [] then [[]]
    else
      var rest := Split(s[1..], c);
      if s[0] == c then [[]] + rest else [[s[0]] + rest[0]] + rest[1..]
  }

  /** `c.join(parts)`, the inverse of Split. */
  function Join(parts: seq<string>, c: char): string
  {
    if |parts| == 0 then [] else if |parts| == 1 then parts[0] else parts[0] + [c] + Join(parts[1..], c)
  }

  /** No piece of a split holds the separator. */
  lemma {:induction false} SplitPiecesLackSeparator(s: string, c: char, i: nat)
    requires i < |Split(s, c)|
    ensures c !in Split(s, c)[i]
  {
    if s != [] {
      var rest := Split(s[1..], c);
      if s[0] == c {
        if i > 0 { SplitPiecesLackSeparator(s[1..], c, i - 1); }
      } else {
        SplitPiecesLackSeparator(s[1..], c, i);
      }
    }
  }

  /** Joining the pieces of a split with the same separator gives back the string. */
  lemma {:induction false} JoinSplit(s: string, c: char)
    ensures Join(Split(s, c), c) == s
  {
    if s != [] {
      var rest := Split(s[1..], c);
      JoinSplit(s[1..], c);
      if s[0] != c {
        if |rest| == 1 {
        } else {
          assert ([[s[0]] + rest[0]] + rest[1..])[1..] == rest[1..];
        }
      }
    }
  }

  /** A string without the separator splits into itself alone. */
  lemma {:induction false} SplitWithoutSeparator(s: string, c: char)
    requires c !in s
    ensures Split(s, c) == [s]
  {
    if s != [] {
      SplitWithoutSeparator(s[1..], c);
      assert [s[0]] + s[1..] == s;
    }
  }

  /** Splitting `a + c + b` on `c` gives the pieces of `a` followed by the pieces of `b`. */
  lemma {:induction false} SplitConcat(a: string, b: string, c: char)
    ensures Split(a + [c] + b, c) == Split(a, c) + Split(b, c)
  {
    if a == [] {
      assert a + [c] + b == [c] + b;
      assert ([c] + b)[1..] == b;
    } else {
      var whole, tail := a + [c] + b, a[1..] + [c] + b;
      assert whole[0] == a[0] && whole[1..] == tail;
      SplitConcat(a[1..], b, c);
      var ra, rb := Split(a[1..], c), Split(b, c);
      var rest := Split(tail, c);
      assert rest == ra + rb;
      if a[0] == c {
        assert Split(whole, c) == [[]] + (ra + rb) && Split(a, c) == [[]] + ra;
        AppendAssoc([[]], ra, rb);
      } else {
        assert rest[0] == ra[0] && rest[1..] == ra[1..] + rb;
        var head := [[a[0]] + ra[0]];
        assert Split(whole, c) == head + (ra[1..] + rb) && Split(a, c) == head + ra[1..];
        AppendAssoc(head, ra[1..], rb);
      }
    }
  }

  lemma AppendAssoc<T>(x: seq<T>, y: seq<T>, z: seq<T>)
    ensures x + (y + z) == (x + y) + z
  {
  }

  // ---------------------------------------------------------------------------
  // s.lower() and s.strip()

  predicate IsUpper(ch: char) { 'A' <= ch <= 'Z' }

  function LowerChar(ch: char): char
  {
    if IsUpper(ch) then (ch as int + 32) as char else ch
  }

  /** `s.lower()` on ASCII letters. */
  function Lower(s: string): string
  {
    seq(|s|, i requires 0 <= i < |s| => LowerChar(s[i]))
  }

  /** No ASCII capital survives `lower()`. */
  lemma LowerHasNoUpper(s: string)
    ensures forall ch :: ch in Chars(Lower(s)) ==> !IsUpper(ch)
  {
    var r := Lower(s);
    assert forall i :: 0 <= i < |r| ==> r[i] == LowerChar(s[i]);
  }

  /** `lower()` maps each ASCII capital to its small letter. */
  lemma LowerAlphabet()
    ensures Lower("ABCDEFGHIJKLMNOPQRSTUVWXYZ") == "abcdefghijklmnopqrstuvwxyz"
  {
  }

  /** A string without ASCII capitals is its own `lower()`. */
  lemma LowerWithoutCapitals(s: string)
    requires forall i :: 0 <= i < |s| ==> !IsUpper(s[i])
    ensures Lower(s) == s
  {
    assert forall i :: 0 <= i < |s| ==> Lower(s)[i] == s[i];
  }

  /** The ASCII characters Python's `str.isspace` accepts. */
  predicate IsSpace(ch: char)
  {
    ch == ' ' || ('\t' <= ch <= '\r') || ('\U{1c}' <= ch <= '\U{1f}')
  }

  function StripLeft(s: string): string
  {
    if s != [] && IsSpace(s[0]) then StripLeft(s[1..]) else s
  }

  function StripRight(s: string): string
  {
    if s != [] && IsSpace(s[|s| - 1]) then StripRight(s[..|s| - 1]) else s
  }

  /** `s.strip()`: leading and trailing whitespace removed. */
  function Strip(s: string): string
  {
    StripRight(StripLeft(s))
  }

  lemma {:induction false} StripLeftIsSuffix(s: string)
    ensures |StripLeft(s)| <= |s| && StripLeft(s) == s[|s| - |StripLeft(s)|..]
    ensures StripLeft(s) == [] || !IsSpace(StripLeft(s)[0])
    ensures forall k :: 0 <= k < |s| - |StripLeft(s)| ==> IsSpace(s[k])
  {
    if s != [] && IsSpace(s[0]) {
      StripLeftIsSuffix(s[1..]);
      assert forall k :: 1 <= k < |s| - |StripLeft(s)| ==> s[k] == s[1..][k - 1];
    }
  }

  lemma {:induction false} StripRightIsPrefix(s: string)
    ensures |StripRight(s)| <= |s| && StripRight(s) == s[..|StripRight(s)|]
    ensures StripRight(s) == [] || !IsSpace(StripRight(s)[|StripRight(s)| - 1])
    ensures forall k :: |StripRight(s)| <= k < |s| ==> IsSpace(s[k])
  {
    if s != [] && IsSpace(s[|s| - 1]) {
      StripRightIsPrefix(s[..|s| - 1]);
      assert forall k :: |StripRight(s)| <= k < |s| - 1 ==> s[k] == s[..|s| - 1][k];
    }
  }

  /**
   * The stripped string is the slice of `s` left once its leading and its trailing
   * whitespace are cut off, and it neither starts nor ends in whitespace.
   */
  lemma StripTrimsBothEnds(s: string)
    ensures Strip(s) == [] || (!IsSpace(Strip(s)[0]) && !IsSpace(Strip(s)[|Strip(s)| - 1]))
    ensures exists i, j :: 0 <= i <= j <= |s| && Strip(s) == s[i..j] &&
                           (forall k :: 0 <= k < i ==> IsSpace(s[k])) && (forall k :: j <= k < |s| ==> IsSpace(s[k]))
  {
    var l := StripLeft(s);
    var r := StripRight(l);
    assert Strip(s) == r;
    StripRightIsPrefix(l);
    StripLeftIsSuffix(s);
    if r != [] {
      assert r[0] == l[0];
    }
    var i := |s| - |l|;
    var j := i + |r|;
    assert s[i..j] == r;
    assert forall k :: j <= k < |s| ==> s[k] == l[k - i];
  }

  /** Whitespace around a text that neither starts nor ends in whitespace is exactly what `strip()` removes. */
  lemma StripPadded(p: string, a: string, q: string)
    requires forall k :: 0 <= k < |p| ==> IsSpace(p[k])
    requires forall k :: 0 <= k < |q| ==> IsSpace(q[k])
    requires a == [] || (!IsSpace(a[0]) && !IsSpace(a[|a| - 1]))
    ensures Strip(p + a + q) == a
  {
    if a == [] {
      assert p + a + q == (p + q) + [];
      StripLeftPadding(p + q, []);
    } else {
      assert p + a + q == p + (a + q);
      StripLeftPadding(p, a + q);
      StripRightPadding(a, q);
    }
  }

  lemma {:induction false} StripLeftPadding(p: string, t: string)
    requires forall k :: 0 <= k < |p| ==> IsSpace(p[k])
    requires t == [] || !IsSpace(t[0])
    ensures StripLeft(p + t) == t
  {
    if p == [] {
      assert p + t == t;
    } else {
      assert (p + t)[1..] == p[1..] + t;
      StripLeftPadding(p[1..], t);
    }
  }

  lemma {:induction false} StripRightPadding(t: string, q: string)
    requires forall k :: 0 <= k < |q| ==> IsSpace(q[k])
    requires t == [] || !IsSpace(t[|t| - 1])
    ensures StripRight(t + q) == t
  {
    if q == [] {
      assert t + q == t;
    } else {
      assert (t + q)[..|t + q| - 1] == t + q[..|q| - 1];
      StripRightPadding(t, q[..|q| - 1]);
    }
  }

  /** Stripping keeps only characters of the original. */
  lemma StripIsSlice(s: string)
    ensures Chars(Strip(s)) <= Chars(s)
  {
    var l := StripLeft(s);
    var r := StripRight(l);
    assert Strip(s) == r;
    StripLeftIsSuffix(s);
    StripRightIsPrefix(l);
    CharsOfSuffix(s, |s| - |l|);
    CharsOfPrefix(l, |r|);
  }

  lemma CharsOfSuffix(s: string, k: nat)
    requires k <= |s|
    ensures Chars(s[k..]) <= Chars(s)
  {
    forall ch | ch in Chars(s[k..]) ensures ch in Chars(s) {
      var i :| 0 <= i < |s[k..]| && s[k..][i] == ch;
      assert s[k + i] == ch;
    }
  }

  lemma CharsOfPrefix(s: string, k: nat)
    requires k <= |s|
    ensures Chars(s[..k]) <= Chars(s)
  {
    forall ch | ch in Chars(s[..k]) ensures ch in Chars(s) {
      var i :| 0 <= i < k && s[..k][i] == ch;
      assert s[i] == ch;
    }
  }

  /** `s.endswith(suffix)`. */
  predicate EndsWith(s: string, suffix: string)
  {
    |suffix| <= |s| && s[|s| - |suffix|..] == suffix
  }

  // ---------------------------------------------------------------------------
  // int(token)

  predicate IsDigit(ch: char) { '0' <= ch <= '9' }

  predicate AllDigits(s: string) { forall i :: 0 <= i < |s| ==> IsDigit(s[i]) }

  /** The value of a string of decimal digits (leading zeros allowed, as `int` allows). */
  function DigitsValue(s: string): nat
    requires AllDigits(s)
  {
    if s == [] then 0 else DigitsValue(s[..|s| - 1]) * 10 + (s[|s| - 1] as int - '0' as int)
  }

  /**
   * `int(token)` for a token that holds no `-` and no whitespace: an optional `+`
   * followed by at least one ASCII digit; anything else is a `ValueError` (None).
   */
  function ParseNat(s: string): Option<nat>
  {
    var digits := if |s| > 0 && s[0] == '+' then s[1..] else s;
    if |digits| > 0 && AllDigits(digits) then Some(DigitsValue(digits)) else None
  }

  /** Decimal digits of `n`, without leading zeros (`str(n)`). */
  function Decimal(n: nat): (r: string)
    ensures |r| > 0 && AllDigits(r)
  {
    if n < 10 then [('0' as int + n) as char] else Decimal(n / 10) + [('0' as int + n % 10) as char]
  }

  /** `int(str(n)) == n`. */
  lemma ParseDecimal(n: nat)
    ensures ParseNat(Decimal(n)) == Some(n)
  {
    DecimalValue(n);
  }

  /** `int("+" + str(n)) == n`: a leading plus sign is allowed. */
  lemma ParseSigned(n: nat)
    ensures ParseNat("+" + Decimal(n)) == Some(n)
  {
    assert ("+" + Decimal(n))[1..] == Decimal(n);
    DecimalValue(n);
  }

  lemma {:induction false} DecimalValue(n: nat)
    ensures DigitsValue(Decimal(n)) == n
  {
    var d := Decimal(n);
    if n < 10 {
      assert d[..0] == [];
    } else {
      DecimalValue(n / 10);
      assert d[..|d| - 1] == Decimal(n / 10);
    }
  }

  // ---------------------------------------------------------------------------
  // sorted(list_of_str)

  /** Python's `a <= b` on strings: lexicographic by code point, a prefix first. */
  predicate LexLe(a: string, b: string)
  {
    a == [] || (b != [] && (a[0] < b[0] || (a[0] == b[0] && LexLe(a[1..], b[1..]))))
  }

  lemma {:induction false} LexLeTotal(a: string, b: string)
    ensures LexLe(a, b) || LexLe(b, a)
  {
    if a != [] && b != [] && a[0] == b[0] {
      LexLeTotal(a[1..], b[1..]);
    }
  }

  lemma {:induction false} LexLeTransitive(a: string, b: string, c: string)
    requires LexLe(a, b) && LexLe(b, c)
    ensures LexLe(a, c)
  {
    if a != [] && b != [] && c != [] && a[0] == b[0] == c[0] {
      LexLeTransitive(a[1..], b[1..], c[1..]);
    }
  }

  lemma {:induction false} LexLeAntisymmetric(a: string, b: string)
    requires LexLe(a, b) && LexLe(b, a)
    ensures a == b
  {
    if a != [] && b != [] {
      LexLeAntisymmetric(a[1..], b[1..]);
      assert a == [a[0]] + a[1..] && b == [b[0]] + b[1..];
    }
  }

  predicate SortedStrings(s: seq<string>)
  {
    forall i, j :: 0 <= i < j < |s| ==> LexLe(s[i], s[j])
  }

  /** Every element of `s` is at least `b`. */
  predicate AllAtLeast(b: string, s: seq<string>)
  {
    forall j :: 0 <= j < |s| ==> LexLe(b, s[j])
  }

  lemma ConsSorted(b: string, t: seq<string>)
    requires SortedStrings(t) && AllAtLeast(b, t)
    ensures SortedStrings([b] + t)
  {
    var r := [b] + t;
    forall i, j | 0 <= i < j < |r| ensures LexLe(r[i], r[j]) {
      if i > 0 { assert r[i] == t[i - 1] && r[j] == t[j - 1]; }
    }
  }

  /** The head of a sorted list is a lower bound for it, and so is anything below the head. */
  lemma HeadIsLeast(x: string, s: seq<string>)
    requires SortedStrings(s) && s != [] && LexLe(x, s[0])
    ensures AllAtLeast(x, s)
  {
    forall j | 0 <= j < |s| ensures LexLe(x, s[j]) {
      if j > 0 { LexLeTransitive(x, s[0], s[j]); }
    }
  }

  /** What is inserted behind the head of a sorted list stays at least the head. */
  lemma TailStaysAbove(x: string, s: seq<string>, t: seq<string>)
    requires SortedStrings(s) && s != [] && LexLe(s[0], x)
    requires multiset(t) == multiset(s[1..]) + multiset{x}
    ensures AllAtLeast(s[0], t)
  {
    forall j | 0 <= j < |t| ensures LexLe(s[0], t[j]) {
      assert t[j] in multiset(t);
      if t[j] != x {
        assert t[j] in multiset(s[1..]);
        var k :| 0 <= k < |s[1..]| && s[1..][k] == t[j];
        assert s[k + 1] == t[j];
      }
    }
  }

  function InsertString(x: string, s: seq<string>): (r: seq<string>)
    requires SortedStrings(s)
    ensures SortedStrings(r)
    ensures multiset(r) == multiset(s) + multiset{x}
  {
    if s == [] then [x]
    else if LexLe(x, s[0]) then
      HeadIsLeast(x, s);
      ConsSorted(x, s);
      [x] + s
    else
      assert SortedStrings(s[1..]) by {
        forall i, j | 0 <= i < j < |s[1..]| ensures LexLe(s[1..][i], s[1..][j]) {
          assert s[1..][i] == s[i + 1] && s[1..][j] == s[j + 1];
        }
      }
      var t := InsertString(x, s[1..]);
      LexLeTotal(x, s[0]);
      TailStaysAbove(x, s, t);
      ConsSorted(s[0], t);
      assert s == [s[0]] + s[1..];
      [s[0]] + t
  }

  /** `sorted(xs)` on strings: an ascending permutation of `xs`. */
  function SortStrings(xs: seq<string>): (r: seq<string>)
    ensures SortedStrings(r)
    ensures multiset(r) == multiset(xs)
  {
    if xs == [] then []
    else
      assert xs == xs[..|xs| - 1] + [xs[|xs| - 1]];
      InsertString(xs[|xs| - 1], SortStrings(xs[..|xs| - 1]))
  }

  // ---------------------------------------------------------------------------
  // os.path.join(a, b)

  /** POSIX `os.path.join(a, b)`. */
  function JoinPath(a: string, b: string): string
  {
    if |b| > 0 && b[0] == '/' then b
    else if a == [] || a[|a| - 1] == '/' then a + b
    else a + "/" + b
  }
}
