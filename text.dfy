/** Characters and strings as the scraper's Python code sees them: the
    whitespace of `str.isspace` (used by `\s` and `str.split()`), the
    lower-casing of `str.lower()` on the letters that occur in French titles,
    substring tests (`in`), and decimal digit strings. */
module Text {

  newtype byte = x: int | 0 <= x < 256

  datatype Option<T> = None | Some(value: T)

  /** Python's `str.isspace()`, which is also what `\s` matches in a `str`
      pattern and where `str.split()` cuts. */
  predicate IsSpace(c: char) {
    || ('\t' <= c <= '\r')
    || ('\U{1C}' <= c <= ' ')
    || c == '\U{85}' || c == '\U{A0}' || c == '\U{1680}'
    || ('\U{2000}' <= c <= '\U{200A}')
    || c == '\U{2028}' || c == '\U{2029}' || c == '\U{202F}' || c == '\U{205F}'
    || c == '\U{3000}'
  }

  predicate IsDigit(c: char) { '0' <= c <= '9' }

  predicate IsUpper(c: char) { 'A' <= c <= 'Z' }

  predicate AllDigits(s: string) { forall i :: 0 <= i < |s| ==> IsDigit(s[i]) }

  /** `str.lower()` on one character: ASCII capitals and the capitals of
      Latin-1 (À to Þ, except the multiplication sign). */
  function LowerChar(c: char): (r: char)
    ensures 'A' <= c <= 'Z' ==> r as int == c as int + 32
    ensures !('A' <= c <= 'Z') && !('\U{C0}' <= c <= '\U{DE}') ==> r == c
    ensures !('A' <= r <= 'Z') && !('\U{C0}' <= r <= '\U{DE}' && r != '\U{D7}')
  {
    if 'A' <= c <= 'Z' || ('\U{C0}' <= c <= '\U{DE}' && c != '\U{D7}') then
      (c as int + 32) as char
    else
      c
  }

  function Lower(s: string): (r: string)
    ensures |r| == |s|
    ensures forall i :: 0 <= i < |s| ==> r[i] == LowerChar(s[i])
  {
    seq(|s|, i requires 0 <= i < |s| => LowerChar(s[i]))
  }

  /** Lower-casing twice is lower-casing once. */
  lemma LowerIdempotent(s: string)
    ensures Lower(Lower(s)) == Lower(s)
  {
    var l := Lower(s);
    forall i | 0 <= i < |s|
      ensures Lower(l)[i] == l[i]
    {
      assert LowerChar(l[i]) == l[i];
    }
  }

  /** `k` occurs in `t` starting at index `i`. */
  predicate OccursAt(t: string, k: string, i: int) {
    0 <= i && i + |k| <= |t| && t[i..i + |k|] == k
  }

  /** Python's `k in t` for strings, scanning from the left. */
  function Contains(t: string, k: string): bool
    decreases |t|
  {
    |k| <= |t| && (t[..|k|] == k || (|t| > 0 && Contains(t[1..], k)))
  }

  /** An occurrence found anywhere is found by the left-to-right scan. */
  lemma {:induction false} OccursImpliesContains(t: string, k: string, i: int)
    requires OccursAt(t, k, i)
    ensures Contains(t, k)
    decreases i
  {
    if i > 0 {
      assert t[1..][i - 1..i - 1 + |k|] == t[i..i + |k|];
      OccursImpliesContains(t[1..], k, i - 1);
    }
  }

  /** The scan succeeds exactly when `k` occurs somewhere in `t`. */
  lemma {:induction false} ContainsIffOccurs(t: string, k: string)
    ensures Contains(t, k) <==> exists i :: OccursAt(t, k, i)
    decreases |t|
  {
    if |k| <= |t| && t[..|k|] == k {
      assert OccursAt(t, k, 0);
    } else if |k| <= |t| && |t| > 0 && Contains(t[1..], k) {
      ContainsIffOccurs(t[1..], k);
      var i :| OccursAt(t[1..], k, i);
      assert t[i + 1..i + 1 + |k|] == t[1..][i..i + |k|];
      assert OccursAt(t, k, i + 1);
    }
    if exists i :: OccursAt(t, k, i) {
      var i :| OccursAt(t, k, i);
      OccursImpliesContains(t, k, i);
    }
  }

  /** A substring of a substring is a substring: when `k1` occurs in `k2`,
      every text containing `k2` contains `k1`. */
  lemma ContainsTransitive(t: string, k2: string, k1: string)
    requires Contains(k2, k1) && Contains(t, k2)
    ensures Contains(t, k1)
  {
    ContainsIffOccurs(k2, k1);
    ContainsIffOccurs(t, k2);
    var i :| OccursAt(t, k2, i);
    var j :| OccursAt(k2, k1, j);
    forall m | 0 <= m < |k1|
      ensures t[i + j + m] == k1[m]
    {
      assert k2[j..j + |k1|][m] == k1[m];
      assert t[i..i + |k2|][j + m] == k2[j + m];
    }
    assert t[i + j..i + j + |k1|] == k1;
    assert OccursAt(t, k1, i + j);
    ContainsIffOccurs(t, k1);
  }

  /** The end of the longest run of blanks from index `i` (what a greedy
      `\s*` consumes). */
  function SpanSpaces(s: string, i: nat): (j: nat)
    requires i <= |s|
    ensures i <= j <= |s|
    ensures forall k :: i <= k < j ==> IsSpace(s[k])
    ensures j == |s| || !IsSpace(s[j])
    decreases |s| - i
  {
    if i < |s| && IsSpace(s[i]) then SpanSpaces(s, i + 1) else i
  }

  /** The end of the longest run of digits from index `i` (what a greedy
      `\d*` consumes). */
  function SpanDigits(s: string, i: nat): (j: nat)
    requires i <= |s|
    ensures i <= j <= |s|
    ensures forall k :: i <= k < j ==> IsDigit(s[k])
    ensures j == |s| || !IsDigit(s[j])
    decreases |s| - i
  {
    if i < |s| && IsDigit(s[i]) then SpanDigits(s, i + 1) else i
  }

  /** The value of a string of ASCII digits, as Python's `int()`. */
  function DecimalValue(d: string): (n: nat)
    requires AllDigits(d)
    decreases |d|
  {
    if d == [] then 0
    else DecimalValue(d[..|d| - 1]) * 10 + (d[|d| - 1] as int - '0' as int)
  }

  /** The decimal spelling of a natural number, as Python's `str()`. */
  function DecimalString(n: nat): (s: string)
    ensures s != [] && AllDigits(s)
    ensures |s| > 1 ==> s[0] != '0'
    decreases n
  {
    if n < 10 then ['0' + n as char]
    else DecimalString(n / 10) + ['0' + (n % 10) as char]
  }

  /** `int(str(n)) == n`. */
  lemma {:induction false} DecimalRoundTrip(n: nat)
    ensures DecimalValue(DecimalString(n)) == n
    decreases n
  {
    var s := DecimalString(n);
    if n >= 10 {
      DecimalRoundTrip(n / 10);
      assert s[..|s| - 1] == DecimalString(n / 10);
    }
  }
}
