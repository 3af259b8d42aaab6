/**
 * The few `java.lang.String` and `java.lang.Integer` operations the parsers rely on:
 * `trim`, ASCII case mapping, and decimal conversion of non-negative numbers.
 */
module JavaString {

  /** `trim` removes every leading and trailing character whose code is at most U+0020. */
  predicate IsTrimmable(c: char) {
    c <= ' '
  }

  /** Index of the first character at or after `i` that `trim` keeps (or `|s|`). */
  function TrimStart(s: string, i: nat := 0): (k: nat)
    requires i <= |s|
    ensures i <= k <= |s|
    ensures forall j :: i <= j < k ==> IsTrimmable(s[j])
    ensures k < |s| ==> !IsTrimmable(s[k])
    decreases |s| - i
  {
    if i < |s| && IsTrimmable(s[i]) then TrimStart(s, i + 1) else i
  }

  /** End (exclusive) of the part `trim` keeps, scanning back from `len` but not below `st`. */
  function TrimEnd(s: string, st: nat, len: nat): (k: nat)
    requires st <= len <= |s|
    ensures st <= k <= len
    ensures forall j :: k <= j < len ==> IsTrimmable(s[j])
    ensures st < k ==> !IsTrimmable(s[k - 1])
    decreases len
  {
    if st < len && IsTrimmable(s[len - 1]) then TrimEnd(s, st, len - 1) else len
  }

  /**
   * Java's `String.trim`: the longest infix of `s` beginning and ending with a kept
   * character, once all leading and trailing trimmable characters are gone.
   */
  function Trim(s: string): (r: string)
    ensures TrimStart(s) + |r| <= |s|
    ensures r == s[TrimStart(s)..TrimStart(s) + |r|]
    ensures forall j :: 0 <= j < TrimStart(s) ==> IsTrimmable(s[j])
    ensures forall j :: TrimStart(s) + |r| <= j < |s| ==> IsTrimmable(s[j])
    ensures |r| > 0 ==> !IsTrimmable(r[0]) && !IsTrimmable(r[|r| - 1])
    ensures r == [] <==> forall j :: 0 <= j < |s| ==> IsTrimmable(s[j])
  {
    var st := TrimStart(s);
    var len := TrimEnd(s, st, |s|);
    s[st..len]
  }

  /** A string that neither starts nor ends with a trimmable character is its own trim. */
  lemma TrimOfTrimmed(s: string)
    requires |s| > 0 ==> !IsTrimmable(s[0]) && !IsTrimmable(s[|s| - 1])
    ensures Trim(s) == s
  {
  }

  /** `trim` is idempotent. */
  lemma TrimIdempotent(s: string)
    ensures Trim(Trim(s)) == Trim(s)
  {
    TrimOfTrimmed(Trim(s));
  }

  /** Padding a trimmed string with trimmable characters on either side does not change its trim. */
  lemma {:induction false} TrimPadded(pre: string, s: string, post: string)
    requires forall j :: 0 <= j < |pre| ==> IsTrimmable(pre[j])
    requires forall j :: 0 <= j < |post| ==> IsTrimmable(post[j])
    requires |s| > 0 && !IsTrimmable(s[0]) && !IsTrimmable(s[|s| - 1])
    ensures Trim(pre + s + post) == s
  {
    var t := pre + s + post;
    TrimStartAt(t, |pre|);
    TrimEndAt(t, |pre|, |pre| + |s|);
    assert t[|pre|..|pre| + |s|] == s;
  }

  lemma {:induction false} TrimStartAt(t: string, k: nat)
    requires k < |t| && !IsTrimmable(t[k])
    requires forall j :: 0 <= j < k ==> IsTrimmable(t[j])
    ensures TrimStart(t) == k
  {
  }

  lemma {:induction false} TrimEndAt(t: string, st: nat, k: nat)
    requires st < k <= |t| && !IsTrimmable(t[k - 1])
    requires TrimStart(t) == st
    requires forall j :: k <= j < |t| ==> IsTrimmable(t[j])
    ensures TrimEnd(t, st, |t|) == k
  {
    EndIndexAt(t, st, |t|, k);
  }

  lemma {:induction false} EndIndexAt(t: string, st: nat, len: nat, k: nat)
    requires st < k <= len <= |t| && !IsTrimmable(t[k - 1])
    requires forall j :: k <= j < len ==> IsTrimmable(t[j])
    ensures TrimEnd(t, st, len) == k
    decreases len
  {
    if len > k {
      EndIndexAt(t, st, len - 1, k);
    }
  }

  /** ASCII upper-case letters map to lower case; every other character is kept. */
  function LowerChar(c: char): (d: char)
    ensures !('A' <= d <= 'Z')
    ensures 'a' <= d <= 'z' ==> d == c || d as int == c as int + 32
  {
    if 'A' <= c <= 'Z' then (c as int + 32) as char else c
  }

  /** ASCII lower-case letters map to upper case; every other character is kept. */
  function UpperChar(c: char): (d: char)
    ensures !('a' <= d <= 'z')
    ensures 'A' <= d <= 'Z' ==> d == c || d as int + 32 == c as int
  {
    if 'a' <= c <= 'z' then (c as int - 32) as char else c
  }

  /** `toLowerCase` restricted to ASCII letters. */
  function ToLower(s: string): (r: string)
    ensures |r| == |s|
    ensures forall i :: 0 <= i < |s| ==> r[i] == LowerChar(s[i])
  {
    seq(|s|, i requires 0 <= i < |s| => LowerChar(s[i]))
  }

  /** `toUpperCase` restricted to ASCII letters. */
  function ToUpper(s: string): (r: string)
    ensures |r| == |s|
    ensures forall i :: 0 <= i < |s| ==> r[i] == UpperChar(s[i])
  {
    seq(|s|, i requires 0 <= i < |s| => UpperChar(s[i]))
  }

  /** Lower-casing twice is lower-casing once. */
  lemma ToLowerIdempotent(s: string)
    ensures ToLower(ToLower(s)) == ToLower(s)
  {
    assert forall i :: 0 <= i < |s| ==> ToLower(ToLower(s))[i] == ToLower(s)[i];
  }

  /** Case mapping never moves a character across the trimmable/kept boundary. */
  lemma LowerCharKeepsTrimmable(c: char)
    ensures IsTrimmable(LowerChar(c)) <==> IsTrimmable(c)
  {
  }

  lemma {:induction false} TrimStartToLower(s: string, i: nat)
    requires i <= |s|
    ensures TrimStart(ToLower(s), i) == TrimStart(s, i)
    decreases |s| - i
  {
    if i < |s| {
      LowerCharKeepsTrimmable(s[i]);
      if IsTrimmable(s[i]) {
        TrimStartToLower(s, i + 1);
      }
    }
  }

  lemma {:induction false} TrimEndToLower(s: string, st: nat, len: nat)
    requires st <= len <= |s|
    ensures TrimEnd(ToLower(s), st, len) == TrimEnd(s, st, len)
    decreases len
  {
    if st < len {
      LowerCharKeepsTrimmable(s[len - 1]);
      if IsTrimmable(s[len - 1]) {
        TrimEndToLower(s, st, len - 1);
      }
    }
  }

  /** Trimming and lower-casing commute. */
  lemma TrimToLowerCommute(s: string)
    ensures Trim(ToLower(s)) == ToLower(Trim(s))
  {
    TrimStartToLower(s, 0);
    var st := TrimStart(s);
    TrimEndToLower(s, st, |s|);
    var len := TrimEnd(s, st, |s|);
    TrimIsSlice(s);
    TrimIsSlice(ToLower(s));
    SliceToLower(s, st, len);
  }

  /** `trim` keeps the characters between the two scan positions. */
  lemma TrimIsSlice(s: string)
    ensures TrimStart(s) <= TrimEnd(s, TrimStart(s), |s|)
    ensures Trim(s) == s[TrimStart(s)..TrimEnd(s, TrimStart(s), |s|)]
  {
  }

  /** Lower-casing commutes with taking a slice. */
  lemma SliceToLower(s: string, a: nat, b: nat)
    requires a <= b <= |s|
    ensures ToLower(s)[a..b] == ToLower(s[a..b])
  {
    assert forall i :: 0 <= i < b - a ==> ToLower(s)[a..b][i] == ToLower(s[a..b])[i];
  }

  /** A non-empty string of ASCII digits. */
  predicate IsDigits(s: string) {
    |s| > 0 && forall i :: 0 <= i < |s| ==> '0' <= s[i] <= '9'
  }

  /** The number a string of decimal digits denotes (leading zeros allowed, as `Integer.parseInt` does). */
  function DecimalValue(s: string): (n: nat)
    requires forall i :: 0 <= i < |s| ==> '0' <= s[i] <= '9'
    decreases |s|
  {
    if |s| == 0 then 0 else DecimalValue(s[..|s| - 1]) * 10 + (s[|s| - 1] as int - '0' as int)
  }

  function DigitChar(d: nat): (c: char)
    requires d < 10
    ensures '0' <= c <= '9' && c as int - '0' as int == d
  {
    ('0' as int + d) as char
  }

  /** `Integer.toString` of a non-negative number: its decimal digits, with no leading zero. */
  function DecimalString(n: nat): (s: string)
    ensures IsDigits(s)
    ensures s[0] == '0' ==> n == 0
    decreases n
  {
    if n < 10 then [DigitChar(n)] else DecimalString(n / 10) + [DigitChar(n % 10)]
  }

  /** Reading back the decimal form of `n` gives `n`. */
  lemma {:induction false} DecimalRoundTrip(n: nat)
    ensures DecimalValue(DecimalString(n)) == n
    decreases n
  {
    var s := DecimalString(n);
    if n >= 10 {
      DecimalRoundTrip(n / 10);
      assert s[..|s| - 1] == DecimalString(n / 10);
    }
  }
}
