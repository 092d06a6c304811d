/** Text as the configuration reads it: the digit loop of util.c and the comparison of cstring.c.
    A character stands for one byte. */
module Text {

  type int32 = x: int | -0x8000_0000 <= x < 0x8000_0000

  // ----- str_atoi -----

  predicate IsDigit(c: char) {
    '0' <= c <= '9'
  }

  predicate AllDigits(s: string) {
    forall i | 0 <= i < |s| :: IsDigit(s[i])
  }

  /** The number that a string of digits denotes. */
  function Decimal(s: string): nat
    requires AllDigits(s)
  {
    if s == "" then 0 else 10 * Decimal(s[..|s| - 1]) + (s[|s| - 1] as int - '0' as int)
  }

  /** The digits in front of the first other character. */
  function DigitRun(s: string): (run: string)
    ensures run <= s && AllDigits(run)
    ensures run != s ==> !IsDigit(s[|run|])
  {
    if s == "" || !IsDigit(s[0]) then "" else
    var run := DigitRun(s[1..]);
    assert s == [s[0]] + s[1..];
    [s[0]] + run
  }

  /** Signed overflow has no defined meaning in the program: the digits must denote an int. */
  predicate Fits(s: string) {
    Decimal(DigitRun(s)) <= 0x7fff_ffff
  }

  /** What str_atoi returns: the number, or -1 for anything that is not one. */
  function Number(s: string): int
  {
    if s != "" && AllDigits(s) then Decimal(s) else -1
  }

  lemma {:induction false} DecimalGrows(s: string, i: nat)
    requires AllDigits(s) && i <= |s|
    ensures Decimal(s[..i]) <= Decimal(s)
  {
    if i == |s| {
      assert s[..i] == s;
    } else {
      DecimalGrows(s[..|s| - 1], i);
      assert s[..|s| - 1][..i] == s[..i];
    }
  }

  lemma {:induction false} RunIsPrefix(s: string, i: nat)
    requires i <= |s| && AllDigits(s[..i])
    ensures i <= |DigitRun(s)| && DigitRun(s)[..i] == s[..i]
    decreases i
  {
    if i > 0 {
      assert s[..i][0] == s[0];
      assert s[..i][1..] == s[1..][..i - 1];
      RunIsPrefix(s[1..], i - 1);
    }
  }

  /** How a number is written. */
  function Written(n: nat): (s: string)
    ensures s != ""
  {
    var digit := "0123456789"[n % 10];
    if n < 10 then [digit] else Written(n / 10) + [digit]
  }

  lemma DigitValue(d: nat)
    requires d < 10
    ensures var c := "0123456789"[d]; IsDigit(c) && c as int - '0' as int == d
  {
  }

  /** Reading a number back gives the number. */
  lemma {:induction false} ReadsBack(n: nat)
    ensures AllDigits(Written(n)) && Decimal(Written(n)) == n && Number(Written(n)) == n
  {
    DigitValue(n % 10);
    var s := Written(n);
    if n >= 10 {
      ReadsBack(n / 10);
      assert s[..|s| - 1] == Written(n / 10);
    } else {
      assert s[..|s| - 1] == "";
    }
  }

  const NOT_A_NUMBER: int32 := -1

  /** As long as the digits fit, no step of the loop leaves the range of an int. */
  method StrAtoi(line: string) returns (r: int32)
    requires Fits(line)
    ensures r as int == Number(line)
    ensures r == -1 <==> line == "" || exists i | 0 <= i < |line| :: line[i] < '0' || line[i] > '9'
  {
    if |line| == 0 {
      return NOT_A_NUMBER;
    }
    var value: int32 := 0;
    for i := 0 to |line|
      invariant AllDigits(line[..i]) && value as int == Decimal(line[..i])
    {
      if line[i] < '0' || line[i] > '9' {
        assert !IsDigit(line[i]);
        return NOT_A_NUMBER;
      }
      assert line[..i + 1][..i] == line[..i];
      RunIsPrefix(line, i + 1);
      DecimalGrows(DigitRun(line), i + 1);
      value := value * 10 + (line[i] as int - '0' as int);
    }
    assert line[..|line|] == line;
    if value < 0 {
      return NOT_A_NUMBER;
    }
    return value;
  }

  // ----- string_compare -----

  /** strncmp over the first n characters: it stops at the first difference, or where both end in NUL. */
  function Strncmp(s: string, t: string, n: nat): int
    requires n <= |s| && n <= |t|
    decreases n
  {
    if n == 0 then 0
    else if s[0] != t[0] then s[0] as int - t[0] as int
    else if s[0] == '\0' then 0
    else Strncmp(s[1..], t[1..], n - 1)
  }

  /** Shorter strings come first; strings of one length are compared character by character. */
  function StringCompare(s: string, t: string): int {
    if |s| != |t| then (if |s| > |t| then 1 else -1) else Strncmp(s, t, |s|)
  }

  predicate NoNul(s: string) {
    '\0' !in s
  }

  lemma {:induction false} StrncmpZero(s: string, t: string)
    requires |s| == |t| && NoNul(s)
    ensures Strncmp(s, t, |s|) == 0 <==> s == t
    decreases |s|
  {
    if s != "" {
      assert s[0] in s;
      assert s == [s[0]] + s[1..] && t == [t[0]] + t[1..];
      assert forall c :: c in s[1..] ==> c in s;
      StrncmpZero(s[1..], t[1..]);
    }
  }

  /** Comparing equal is being equal, if one of the two has no NUL in it. */
  lemma CompareZero(s: string, t: string)
    requires NoNul(s) || NoNul(t)
    ensures StringCompare(s, t) == 0 <==> s == t
  {
    if |s| == |t| {
      if NoNul(s) {
        StrncmpZero(s, t);
      } else {
        StrncmpZero(t, s);
        StrncmpFlip(s, t);
      }
    }
  }

  lemma {:induction false} StrncmpFlip(s: string, t: string)
    requires |s| == |t|
    ensures Strncmp(s, t, |s|) == -Strncmp(t, s, |t|)
    decreases |s|
  {
    if s != "" && s[0] == t[0] && s[0] != '\0' {
      StrncmpFlip(s[1..], t[1..]);
    }
  }

  /** Otherwise it may be fooled: what follows a NUL in both is never looked at. */
  lemma NulHides()
    ensures StringCompare("\0a", "\0b") == 0 && "\0a" != "\0b"
  {
    assert "\0a"[0] == '\0' && "\0b"[0] == '\0';
    assert "\0a"[1] != "\0b"[1];
  }

  lemma {:induction false} StrncmpTransitive(s: string, t: string, u: string)
    requires |s| == |t| == |u|
    requires Strncmp(s, t, |s|) <= 0 && Strncmp(t, u, |t|) <= 0
    ensures Strncmp(s, u, |s|) <= 0
    ensures Strncmp(s, u, |s|) == 0 ==> Strncmp(s, t, |s|) == 0
    decreases |s|
  {
    if s != "" && s[0] == t[0] && t[0] == u[0] && s[0] != '\0' {
      StrncmpTransitive(s[1..], t[1..], u[1..]);
    }
  }

  /** The order is transitive, and nothing different lies between strings that compare equal. */
  lemma CompareTransitive(s: string, t: string, u: string)
    requires StringCompare(s, t) <= 0 && StringCompare(t, u) <= 0
    ensures StringCompare(s, u) <= 0
    ensures StringCompare(s, u) == 0 ==> StringCompare(s, t) == 0
  {
    if |s| == |t| == |u| {
      StrncmpTransitive(s, t, u);
    }
  }

  // ----- which string comes first -----

  /** The shorter one, and of two of one length the one with the smaller character where they first differ. */
  ghost predicate Precedes(s: string, t: string) {
    |s| < |t| || (|s| == |t| && exists k | 0 <= k < |s| :: DifferAt(s, t, k) && s[k] < t[k])
  }

  predicate DifferAt(s: string, t: string, k: nat)
    requires k < |s| == |t|
  {
    s[..k] == t[..k] && s[k] != t[k]
  }

  /** Up to a NUL, the first difference decides. */
  lemma {:induction false} FirstDifferenceDecides(s: string, t: string, k: nat)
    requires k < |s| == |t| && DifferAt(s, t, k) && NoNul(s[..k])
    ensures Strncmp(s, t, |s|) == s[k] as int - t[k] as int
    decreases k
  {
    if k > 0 {
      assert s[0] == s[..k][0] && t[0] == t[..k][0];
      assert s[1..][..k - 1] == s[..k][1..] && t[1..][..k - 1] == t[..k][1..];
      FirstDifferenceDecides(s[1..], t[1..], k - 1);
    }
  }

  lemma {:induction false} FirstDifference(s: string, t: string) returns (k: nat)
    requires |s| == |t| && s != t
    ensures k < |s| && DifferAt(s, t, k)
    decreases |s|
  {
    if s[0] != t[0] {
      k := 0;
    } else {
      assert s == [s[0]] + s[1..] && t == [t[0]] + t[1..];
      k := FirstDifference(s[1..], t[1..]);
      k := k + 1;
      assert s[..k] == [s[0]] + s[1..][..k - 1] && t[..k] == [t[0]] + t[1..][..k - 1];
    }
  }

  /** Shorter strings come first, whatever is in them. */
  lemma ShorterFirst(s: string, t: string)
    requires |s| < |t|
    ensures StringCompare(s, t) < 0 < StringCompare(t, s)
  {
  }

  /** Without NUL in both, that is the order. */
  lemma CompareIsOrder(s: string, t: string)
    requires NoNul(s) || NoNul(t)
    ensures StringCompare(s, t) < 0 <==> Precedes(s, t)
  {
    if |s| == |t| {
      CompareZero(s, t);
      if s != t {
        var k := FirstDifference(s, t);
        assert NoNul(s[..k]) by {
          assert forall i | 0 <= i < k :: s[i] == s[..k][i] && t[i] == t[..k][i];
        }
        FirstDifferenceDecides(s, t, k);
        if j :| 0 <= j < |s| && DifferAt(s, t, j) {
          OneFirstDifference(s, t, j, k);
        }
      }
    }
  }

  lemma OneFirstDifference(s: string, t: string, j: nat, k: nat)
    requires j < |s| == |t| && k < |s| && DifferAt(s, t, j) && DifferAt(s, t, k)
    ensures j == k
  {
    if j < k {
      EqualBefore(s, t, k, j);
    } else if k < j {
      EqualBefore(s, t, j, k);
    }
  }

  lemma EqualBefore(s: string, t: string, k: nat, j: nat)
    requires j < k < |s| == |t| && DifferAt(s, t, k)
    ensures s[j] == t[j]
  {
    assert s[..k][j] == s[j] && t[..k][j] == t[j];
  }
}
