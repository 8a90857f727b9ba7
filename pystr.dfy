/**
 * The Python string operations the client and the server rely on, restricted
 * to ASCII: str.isspace, str.strip, str.lower, str.isdigit, int() on a str and
 * str() on a non-negative int.
 */
module PyStr {
  import opened Wrappers

  /** str.isspace on ASCII: tab, line feed, vertical tab, form feed, carriage return, the separators 0x1C-0x1F and space. */
  predicate IsSpace(c: char) {
    9 <= c as int <= 13 || 28 <= c as int <= 32
  }

  predicate AllSpace(s: string) {
    forall i | 0 <= i < |s| :: IsSpace(s[i])
  }

  predicate IsDigit(c: char) {
    '0' <= c <= '9'
  }

  predicate AllDigits(s: string) {
    forall i | 0 <= i < |s| :: IsDigit(s[i])
  }

  /** str.isdigit on ASCII: at least one character, and every character a digit. */
  predicate IsDigits(s: string) {
    |s| > 0 && AllDigits(s)
  }

  /** The decimal value of a string of digits (leading zeros allowed); 0 for the empty string. */
  function DigitsValue(s: string): nat
    requires AllDigits(s)
    decreases |s|
  {
    if s == [] then 0
    else 10 * DigitsValue(s[..|s| - 1]) + (s[|s| - 1] as int - '0' as int)
  }

  function DigitChar(d: nat): (c: char)
    requires d < 10
    ensures IsDigit(c) && c as int - '0' as int == d
  {
    ('0' as int + d) as char
  }

  /** str(n) for n >= 0: the shortest decimal spelling of n. */
  function Str(n: nat): (s: string)
    ensures IsDigits(s)
    ensures n > 0 ==> s[0] != '0'
    decreases n
  {
    if n < 10 then [DigitChar(n)] else Str(n / 10) + [DigitChar(n % 10)]
  }

  /** Reading back what str produced gives the number again. */
  lemma {:induction false} StrRoundTrip(n: nat)
    ensures DigitsValue(Str(n)) == n
  {
    if n >= 10 {
      StrRoundTrip(n / 10);
      var s := Str(n);
      assert s[..|s| - 1] == Str(n / 10);
    }
  }

  /** A leading zero adds nothing to the value of a digit string. */
  lemma {:induction false} LeadingZero(s: string)
    requires AllDigits(s)
    ensures AllDigits("0" + s) && DigitsValue("0" + s) == DigitsValue(s)
    decreases |s|
  {
    if s != [] {
      var t := "0" + s;
      assert t[..|t| - 1] == "0" + s[..|s| - 1];
      LeadingZero(s[..|s| - 1]);
    }
  }

  /** Any number of leading zeros adds nothing to the value of a digit string. */
  lemma {:induction false} LeadingZeros(zeros: string, s: string)
    requires forall i | 0 <= i < |zeros| :: zeros[i] == '0'
    requires AllDigits(s)
    ensures AllDigits(zeros + s) && DigitsValue(zeros + s) == DigitsValue(s)
    decreases |zeros|
  {
    if zeros != [] {
      var rest := zeros[1..] + s;
      LeadingZeros(zeros[1..], s);
      LeadingZero(rest);
      assert zeros + s == "0" + rest;
      calc {
        DigitsValue(zeros + s);
        DigitsValue("0" + rest);
        DigitsValue(rest);
        DigitsValue(s);
      }
    } else {
      assert zeros + s == s;
    }
  }

  function LowerChar(c: char): char {
    if 'A' <= c <= 'Z' then (c as int + 32) as char else c
  }

  /** str.lower on ASCII. */
  function Lower(s: string): (r: string)
    ensures |r| == |s|
    ensures forall i | 0 <= i < |s| && 'A' <= s[i] <= 'Z' :: r[i] as int == s[i] as int + 32
    ensures forall i | 0 <= i < |s| && !('A' <= s[i] <= 'Z') :: r[i] == s[i]
  {
    seq(|s|, i requires 0 <= i < |s| => LowerChar(s[i]))
  }

  /** The number of whitespace characters at the front of s. */
  function LeadingSpaces(s: string): (k: nat)
    ensures k <= |s| && AllSpace(s[..k])
    ensures k < |s| ==> !IsSpace(s[k])
    decreases |s|
  {
    if s == [] || !IsSpace(s[0]) then 0 else 1 + LeadingSpaces(s[1..])
  }

  /** Where the whitespace at the back of s begins. */
  function TrailingSpacesStart(s: string): (j: nat)
    ensures j <= |s| && AllSpace(s[j..])
    ensures j > 0 ==> !IsSpace(s[j - 1])
    decreases |s|
  {
    if s == [] || !IsSpace(s[|s| - 1]) then |s| else TrailingSpacesStart(s[..|s| - 1])
  }

  /** str.strip(): s without its leading and trailing whitespace. */
  function Strip(s: string): (r: string)
    ensures |r| <= |s|
    ensures r == [] || (!IsSpace(r[0]) && !IsSpace(r[|r| - 1]))
  {
    var t := s[LeadingSpaces(s)..];
    t[..TrailingSpacesStart(t)]
  }

  /** A text that neither begins nor ends with whitespace is its own strip. */
  lemma StripUnpadded(m: string)
    requires m == [] || (!IsSpace(m[0]) && !IsSpace(m[|m| - 1]))
    ensures Strip(m) == m
  {
    if m != [] {
      assert LeadingSpaces(m) == 0 && m[0..] == m;
      assert TrailingSpacesStart(m) == |m|;
    }
  }

  /** One more whitespace character at the back extends the leading run only when s is all whitespace. */
  lemma {:induction false} LeadingSpacesAppend(s: string, c: char)
    requires IsSpace(c)
    ensures LeadingSpaces(s + [c]) == if LeadingSpaces(s) == |s| then |s| + 1 else LeadingSpaces(s)
    decreases |s|
  {
    var sc := s + [c];
    if s != [] && IsSpace(s[0]) {
      assert sc[1..] == s[1..] + [c];
      LeadingSpacesAppend(s[1..], c);
    }
  }

  /** One whitespace character in front changes nothing. */
  lemma StripSpaceBefore(c: char, s: string)
    requires IsSpace(c)
    ensures Strip([c] + s) == Strip(s)
  {
    var cs := [c] + s;
    assert cs[1..] == s;
    assert LeadingSpaces(cs) == 1 + LeadingSpaces(s);
    assert cs[LeadingSpaces(cs)..] == s[LeadingSpaces(s)..];
  }

  /** One whitespace character behind changes nothing. */
  lemma StripSpaceAfter(s: string, c: char)
    requires IsSpace(c)
    ensures Strip(s + [c]) == Strip(s)
  {
    var sc := s + [c];
    var k := LeadingSpaces(s);
    LeadingSpacesAppend(s, c);
    if k < |s| {
      var t, t' := s[k..], sc[k..];
      assert t' == t + [c] && t'[..|t'| - 1] == t;
      assert TrailingSpacesStart(t') == TrailingSpacesStart(t);
      assert t'[..TrailingSpacesStart(t)] == t[..TrailingSpacesStart(t)];
    }
  }

  /** Whitespace in front of a string does not change what Strip returns. */
  lemma {:induction false} StripIgnoresPrefix(pre: string, s: string)
    requires AllSpace(pre)
    ensures Strip(pre + s) == Strip(s)
    decreases |pre|
  {
    if pre != [] {
      StripIgnoresPrefix(pre[1..], s);
      assert pre + s == [pre[0]] + (pre[1..] + s);
      StripSpaceBefore(pre[0], pre[1..] + s);
    } else {
      assert pre + s == s;
    }
  }

  /** Whitespace behind a string does not change what Strip returns. */
  lemma {:induction false} StripIgnoresSuffix(s: string, post: string)
    requires AllSpace(post)
    ensures Strip(s + post) == Strip(s)
    decreases |post|
  {
    if post != [] {
      var last := |post| - 1;
      StripIgnoresSuffix(s, post[..last]);
      assert s + post == (s + post[..last]) + [post[last]];
      StripSpaceAfter(s + post[..last], post[last]);
    } else {
      assert s + post == s;
    }
  }

  /** Extra whitespace around a string does not change what Strip returns. */
  lemma StripIgnoresPadding(pre: string, s: string, post: string)
    requires AllSpace(pre) && AllSpace(post)
    ensures Strip(pre + s + post) == Strip(s)
  {
    StripIgnoresSuffix(pre + s, post);
    StripIgnoresPrefix(pre, s);
  }

  /** Strip removes exactly the whitespace padding around a text that neither begins nor ends with whitespace. */
  lemma StripPadded(pre: string, m: string, post: string)
    requires AllSpace(pre) && AllSpace(post)
    requires m == [] || (!IsSpace(m[0]) && !IsSpace(m[|m| - 1]))
    ensures Strip(pre + m + post) == m
  {
    StripIgnoresPadding(pre, m, post);
    StripUnpadded(m);
  }

  /** Stripping twice is stripping once. */
  lemma StripIdempotent(s: string)
    ensures Strip(Strip(s)) == Strip(s)
  {
    StripUnpadded(Strip(s));
  }

  /** The digits of a base-10 literal as Python's int() takes them: a digit at each end, and every underscore followed by a digit. */
  predicate IsDigitGroups(s: string) {
    |s| > 0 && IsDigit(s[0]) && IsDigit(s[|s| - 1]) &&
    forall i | 0 <= i < |s| :: IsDigit(s[i]) || (s[i] == '_' && i + 1 < |s| && IsDigit(s[i + 1]))
  }

  /** The digits of s, in order. */
  function DigitsOf(s: string): (r: string)
    ensures AllDigits(r) && |r| <= |s|
    ensures AllDigits(s) ==> r == s
    decreases |s|
  {
    if s == [] then []
    else (if IsDigit(s[0]) then [s[0]] else []) + DigitsOf(s[1..])
  }

  /** The value of an optionally signed digit-group string; None when it is not one. */
  function SignedValue(t: string): Option<int> {
    if |t| > 0 && (t[0] == '+' || t[0] == '-') then
      if IsDigitGroups(t[1..]) then
        var v: int := DigitsValue(DigitsOf(t[1..]));
        Some(if t[0] == '-' then -v else v)
      else None
    else if IsDigitGroups(t) then Some(DigitsValue(DigitsOf(t)))
    else None
  }

  /**
   * The whitespace int() skips around a number: C's isspace, that is tab,
   * line feed, vertical tab, form feed, carriage return and space. The
   * separators 0x1C-0x1F, which str.isspace also counts, are not skipped.
   */
  predicate IsIntSpace(c: char) {
    9 <= c as int <= 13 || c == ' '
  }

  predicate AllIntSpace(s: string) {
    forall i | 0 <= i < |s| :: IsIntSpace(s[i])
  }

  /** Everything Strip removes from the front and the back of s is whitespace that int() skips. */
  predicate PaddedForInt(s: string) {
    var k := LeadingSpaces(s);
    var t := s[k..];
    AllIntSpace(s[..k]) && AllIntSpace(t[TrailingSpacesStart(t)..])
  }

  /**
   * int(s) for a str s in base 10: whitespace around the number is skipped, a
   * sign may lead, and single underscores may separate digits. None stands for
   * the ValueError Python raises on anything else. int() stops skipping at a
   * separator 0x1C-0x1F, which can never be part of a number, so it raises
   * exactly when such a separator is among what Strip would remove.
   */
  function Int(s: string): (r: Option<int>)
    ensures AllSpace(s) ==> r == None
  {
    var t := Strip(s);
    assert AllSpace(s) ==> t == [] by {
      if AllSpace(s) {
        StripIgnoresPadding(s, [], []);
        assert s + [] + [] == s;
        StripUnpadded([]);
      }
    }
    if PaddedForInt(s) then SignedValue(t) else None
  }

  /** Whitespace in front adds its length to the leading run. */
  lemma {:induction false} LeadingSpacesAfter(pre: string, s: string)
    requires AllSpace(pre)
    ensures LeadingSpaces(pre + s) == |pre| + LeadingSpaces(s)
    decreases |pre|
  {
    if pre != [] {
      assert (pre + s)[0] == pre[0] && (pre + s)[1..] == pre[1..] + s;
      LeadingSpacesAfter(pre[1..], s);
    } else {
      assert pre + s == s;
    }
  }

  /** Whitespace behind does not move where the trailing run of s begins. */
  lemma {:induction false} TrailingSpacesBefore(s: string, post: string)
    requires AllSpace(post)
    ensures TrailingSpacesStart(s + post) == TrailingSpacesStart(s)
    decreases |post|
  {
    if post != [] {
      var last := |post| - 1;
      var sp := s + post;
      assert sp[|sp| - 1] == post[last] && sp[..|sp| - 1] == s + post[..last];
      TrailingSpacesBefore(s, post[..last]);
    } else {
      assert s + post == s;
    }
  }

  /** Around a text that neither begins nor ends with whitespace, Strip removes exactly pre and post. */
  lemma PaddingRuns(pre: string, m: string, post: string)
    requires AllSpace(pre) && AllSpace(post)
    requires m != [] && !IsSpace(m[0]) && !IsSpace(m[|m| - 1])
    ensures var s := pre + m + post; var k := LeadingSpaces(s); var t := s[k..];
      s[..k] == pre && t[TrailingSpacesStart(t)..] == post
  {
    var s := pre + m + post;
    assert s == pre + (m + post);
    LeadingSpacesAfter(pre, m + post);
    assert (m + post)[0] == m[0];
    assert s[..|pre|] == pre && s[|pre|..] == m + post;
    TrailingSpacesBefore(m, post);
    assert (m + post)[|m|..] == post;
  }

  /** With only whitespace int() skips around it, a text that neither begins nor ends with whitespace is read as it stands. */
  lemma IntOfPadded(pre: string, m: string, post: string)
    requires AllIntSpace(pre) && AllIntSpace(post)
    requires m != [] && !IsSpace(m[0]) && !IsSpace(m[|m| - 1])
    ensures Int(pre + m + post) == SignedValue(m)
  {
    assert AllSpace(pre) && AllSpace(post);
    StripPadded(pre, m, post);
    PaddingRuns(pre, m, post);
  }

  /** int() reads back the decimal spelling of n, whatever whitespace int() skips surrounds it. */
  lemma IntOfStr(pre: string, n: nat, post: string)
    requires AllIntSpace(pre) && AllIntSpace(post)
    ensures Int(pre + Str(n) + post) == Some(n)
  {
    var s := Str(n);
    IntOfPadded(pre, s, post);
    assert IsDigitGroups(s);
    StrRoundTrip(n);
  }

  /** A separator 0x1C-0x1F before or after the text makes int() raise. */
  lemma IntRefusesSeparator(c: char, s: string)
    requires IsSpace(c) && !IsIntSpace(c)
    ensures Int([c] + s) == None
    ensures Int(s + [c]) == None
  {
    var cs := [c] + s;
    assert cs[0] == c && cs[1..] == s;
    assert cs[..LeadingSpaces(cs)][0] == c;
    var sc := s + [c];
    var k := LeadingSpaces(sc);
    var t := sc[k..];
    if k == |sc| {
      assert sc[..k][|s|] == c;
    } else {
      assert t[|t| - 1] == c && t[..|t| - 1] == sc[k..|s|];
      var j := TrailingSpacesStart(t);
      assert t[j..][|t| - 1 - j] == c;
    }
  }

  /** A minus sign in front of a decimal spelling reads as the negated number. */
  lemma SignedValueOfNegated(n: nat)
    ensures SignedValue("-" + Str(n)) == Some(-(n as int))
  {
    var s := Str(n);
    assert ("-" + s)[0] == '-' && ("-" + s)[1..] == s;
    assert IsDigitGroups(s);
    StrRoundTrip(n);
  }

  /** int() accepts a leading minus sign. */
  lemma IntOfNegated(n: nat)
    ensures Int("-" + Str(n)) == Some(-(n as int))
  {
    var t := "-" + Str(n);
    IntOfPadded([], t, []);
    assert [] + t + [] == t;
    SignedValueOfNegated(n);
  }
}
