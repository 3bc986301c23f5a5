/** The handful of Python string operations the commands rely on, for the
    characters they meet: `str.lower()` on ASCII letters, the `in` substring
    test, `str.split()` with no separator, `str.isdigit()` on ASCII digits,
    `str(n)`, `int(s)`, `str.zfill(w)`, `str.lstrip("0")` and the `:04` format. */
module Text {
  import opened Common

  // ---------------------------------------------------------------- case

  function LowerChar(c: char): (d: char)
    ensures 'A' <= c <= 'Z' ==> d as int == c as int + 32
    ensures !('A' <= c <= 'Z') ==> d == c
  {
    if 'A' <= c <= 'Z' then (c as int + 32) as char else c
  }

  /** `s.lower()`, with ASCII case mapping. */
  function Lower(s: string): (r: string)
    ensures |r| == |s|
    ensures forall i :: 0 <= i < |s| ==> r[i] == LowerChar(s[i])
  {
    seq(|s|, i requires 0 <= i < |s| => LowerChar(s[i]))
  }

  // ----------------------------------------------------------- substring

  /** Python's `pat in s`. */
  predicate Contains(s: string, pat: string)
    decreases |s|
  {
    pat <= s || (s != [] && Contains(s[1..], pat))
  }

  lemma {:induction false} ContainsAt(s: string, pat: string, k: nat)
    requires k + |pat| <= |s| && s[k..k + |pat|] == pat
    ensures Contains(s, pat)
    decreases k
  {
    if k == 0 {
      assert s[..|pat|] == pat;
    } else {
      assert s[1..][k - 1..k - 1 + |pat|] == s[k..k + |pat|];
      ContainsAt(s[1..], pat, k - 1);
    }
  }

  // ---------------------------------------------------------- whitespace

  /** Python's `str.isspace()` for one character: the characters `str.split()` splits on. */
  predicate IsSpace(c: char)
  {
    var n := c as int;
    (9 <= n <= 13) || (28 <= n <= 32) || n == 0x85 || n == 0xA0 || n == 0x1680
    || (0x2000 <= n <= 0x200A) || n == 0x2028 || n == 0x2029 || n == 0x202F
    || n == 0x205F || n == 0x3000
  }

  predicate NoSpace(s: string)
  {
    forall i :: 0 <= i < |s| ==> !IsSpace(s[i])
  }

  /** Length of the run of non-space characters at the start of `s`. */
  function WordLength(s: string): (n: nat)
    ensures n <= |s|
    ensures NoSpace(s[..n])
    ensures n < |s| ==> IsSpace(s[n])
    ensures s != [] && !IsSpace(s[0]) ==> n >= 1
  {
    if s == [] || IsSpace(s[0]) then 0
    else
      var m := WordLength(s[1..]);
      assert s[..1 + m] == [s[0]] + s[1..][..m];
      1 + m
  }

  /** `s.split()`: the maximal runs of non-space characters, in order. */
  function Split(s: string): (words: seq<string>)
    ensures forall i :: 0 <= i < |words| ==> words[i] != [] && NoSpace(words[i])
    decreases |s|
  {
    if s == [] then []
    else if IsSpace(s[0]) then Split(s[1..])
    else
      var n := WordLength(s);
      [s[..n]] + Split(s[n..])
  }

  lemma {:induction false} WordLengthOfWord(w: string, rest: string)
    requires NoSpace(w)
    requires rest == [] || IsSpace(rest[0])
    ensures WordLength(w + rest) == |w|
  {
    if w != [] {
      assert (w + rest)[1..] == w[1..] + rest;
      WordLengthOfWord(w[1..], rest);
    }
  }

  /** A word followed by a space (or by nothing) is the first token. */
  lemma SplitLeadingWord(w: string, rest: string)
    requires w != [] && NoSpace(w)
    requires rest == [] || IsSpace(rest[0])
    ensures Split(w + rest) == [w] + Split(rest)
  {
    WordLengthOfWord(w, rest);
    assert (w + rest)[..|w|] == w;
    assert (w + rest)[|w|..] == rest;
  }

  /** Leading whitespace produces no token. */
  lemma SplitLeadingSpace(c: char, rest: string)
    requires IsSpace(c)
    ensures Split([c] + rest) == Split(rest)
  {
    assert ([c] + rest)[1..] == rest;
  }

  /** The three tokens of `"Incident Report " + d` for a space-free `d`. */
  lemma SplitIncidentReport(d: string)
    requires d != [] && NoSpace(d)
    ensures Split("Incident Report " + d) == ["Incident", "Report", d]
  {
    IncidentReportWords();
    SplitThreeWords("Incident", "Report", d);
    assert "Incident Report " + d == ("Incident" + [' '] + "Report" + [' ']) + d;
  }

  lemma IncidentReportWords()
    ensures "Incident Report " == "Incident" + [' '] + "Report" + [' ']
    ensures NoSpace("Incident") && NoSpace("Report")
  {
    LettersNoSpace("Incident");
    LettersNoSpace("Report");
  }

  /** Three space-free words separated by single spaces are three tokens. */
  lemma SplitThreeWords(w1: string, w2: string, w3: string)
    requires w1 != [] && NoSpace(w1)
    requires w2 != [] && NoSpace(w2)
    requires w3 != [] && NoSpace(w3)
    ensures Split((w1 + [' '] + w2 + [' ']) + w3) == [w1, w2, w3]
  {
    var tail := [' '] + (w2 + ([' '] + w3));
    assert Split(tail) == [w2, w3] by { SplitSpacedPair(w2, w3); }
    assert Split(w1 + tail) == [w1] + Split(tail) by { SplitLeadingWord(w1, tail); }
    assert (w1 + [' '] + w2 + [' ']) + w3 == w1 + tail by { SpacedAssoc(w1, w2, w3); }
  }

  lemma SpacedAssoc(w1: string, w2: string, w3: string)
    ensures (w1 + [' '] + w2 + [' ']) + w3 == w1 + ([' '] + (w2 + ([' '] + w3)))
  {
    var sp: string := [' '];
    assert (w1 + sp + w2 + sp) + w3 == (w1 + sp + w2) + (sp + w3);
    assert (w1 + sp + w2) + (sp + w3) == (w1 + sp) + (w2 + (sp + w3));
    assert (w1 + sp) + (w2 + (sp + w3)) == w1 + (sp + (w2 + (sp + w3)));
  }

  lemma SplitSpacedPair(w2: string, w3: string)
    requires w2 != [] && NoSpace(w2)
    requires w3 != [] && NoSpace(w3)
    ensures Split([' '] + (w2 + ([' '] + w3))) == [w2, w3]
  {
    var tail := [' '] + w3;
    assert Split(tail) == [w3] by {
      SplitLeadingSpace(' ', w3);
      SplitWord(w3);
    }
    assert Split(w2 + tail) == [w2] + Split(tail) by { SplitLeadingWord(w2, tail); }
    SplitLeadingSpace(' ', w2 + tail);
  }

  /** A word of ASCII letters has no whitespace. */
  lemma LettersNoSpace(w: string)
    requires forall i :: 0 <= i < |w| ==> 'A' <= w[i] <= 'Z' || 'a' <= w[i] <= 'z'
    ensures NoSpace(w)
  {
  }

  /** A word on its own is one token. */
  lemma SplitWord(w: string)
    requires w != [] && NoSpace(w)
    ensures Split(w) == [w]
  {
    SplitLeadingWord(w, []);
    assert w + [] == w;
  }

  // -------------------------------------------------------------- digits

  predicate IsDigit(c: char) { '0' <= c <= '9' }

  predicate AllDigits(s: string) { forall i :: 0 <= i < |s| ==> IsDigit(s[i]) }

  predicate AllZeros(s: string) { forall i :: 0 <= i < |s| ==> s[i] == '0' }

  function DigitValue(c: char): int { c as int - '0' as int }

  function DigitChar(d: int): (c: char)
    requires 0 <= d < 10
    ensures IsDigit(c) && DigitValue(c) == d
  {
    ('0' as int + d) as char
  }

  /** The number a string of decimal digits denotes (leading zeros allowed). */
  function Value(s: string): int
  {
    if s == [] then 0 else 10 * Value(s[..|s| - 1]) + DigitValue(s[|s| - 1])
  }

  /** `"".join(filter(str.isdigit, s))`. */
  function DigitsOnly(s: string): (r: string)
    ensures AllDigits(r) && |r| <= |s|
  {
    if s == [] then []
    else (if IsDigit(s[0]) then [s[0]] else []) + DigitsOnly(s[1..])
  }

  /** `s.lstrip("0")`. */
  function StripLeadingZeros(s: string): (r: string)
    ensures |r| <= |s| && s == Zeros(|s| - |r|) + r
    ensures r != [] ==> r[0] != '0'
  {
    if s != [] && s[0] == '0' then
      var r := StripLeadingZeros(s[1..]);
      assert Zeros(|s| - |r|) == ['0'] + Zeros(|s[1..]| - |r|);
      r
    else s
  }

  function Zeros(k: nat): (z: string)
    ensures |z| == k && AllZeros(z) && AllDigits(z)
  {
    if k == 0 then [] else ['0'] + Zeros(k - 1)
  }

  lemma {:induction false} ValueOfDigits(s: string)
    requires AllDigits(s)
    ensures Value(s) >= 0
    ensures Value(s) == 0 <==> AllZeros(s)
    decreases |s|
  {
    if s != [] {
      var init := s[..|s| - 1];
      ValueOfDigits(init);
      if AllZeros(s) {
        assert AllZeros(init);
      } else if AllZeros(init) {
        assert s == init + [s[|s| - 1]];
        assert s[|s| - 1] != '0';
      }
    }
  }

  lemma {:induction false} ValueAfterZeros(k: nat, s: string)
    ensures Value(Zeros(k) + s) == Value(s)
    decreases |s|
  {
    if s == [] {
      assert Zeros(k) + s == Zeros(k);
      ValueOfDigits(Zeros(k));
    } else {
      var init := s[..|s| - 1];
      assert (Zeros(k) + s)[..|Zeros(k) + s| - 1] == Zeros(k) + init;
      ValueAfterZeros(k, init);
    }
  }

  lemma {:induction false} DigitsOnlyAppend(a: string, b: string)
    ensures DigitsOnly(a + b) == DigitsOnly(a) + DigitsOnly(b)
    decreases |a|
  {
    if a == [] {
      assert a + b == b;
    } else {
      assert (a + b)[0] == a[0];
      assert (a + b)[1..] == a[1..] + b;
      DigitsOnlyAppend(a[1..], b);
    }
  }

  lemma {:induction false} DigitsOnlyOfDigits(s: string)
    requires AllDigits(s)
    ensures DigitsOnly(s) == s
    decreases |s|
  {
    if s != [] { DigitsOnlyOfDigits(s[1..]); }
  }

  /** Digits after text without digits are all that the filter keeps. */
  lemma DigitsAfterText(text: string, d: string)
    requires forall i :: 0 <= i < |text| ==> !IsDigit(text[i])
    requires AllDigits(d)
    ensures DigitsOnly(text + d) == d
  {
    DigitsOnlyAppend(text, d);
    DigitsOnlyOfNoDigits(text);
    DigitsOnlyOfDigits(d);
  }

  lemma IncidentReportNoDigits()
    ensures forall i :: 0 <= i < |"Incident Report "| ==> !IsDigit("Incident Report "[i])
  {
  }

  lemma {:induction false} DigitsOnlyOfNoDigits(s: string)
    requires forall i :: 0 <= i < |s| ==> !IsDigit(s[i])
    ensures DigitsOnly(s) == []
    decreases |s|
  {
    if s != [] { DigitsOnlyOfNoDigits(s[1..]); }
  }

  // ----------------------------------------------------- int <-> string

  /** `str(n)` for a natural number. */
  function NatToString(n: nat): (s: string)
    ensures s != [] && AllDigits(s)
    ensures n >= 1 ==> s[0] != '0'
  {
    if n < 10 then [DigitChar(n)] else NatToString(n / 10) + [DigitChar(n % 10)]
  }

  lemma {:induction false} ValueOfNatToString(n: nat)
    ensures Value(NatToString(n)) == n
  {
    if n >= 10 {
      var s := NatToString(n);
      assert s[..|s| - 1] == NatToString(n / 10);
      ValueOfNatToString(n / 10);
    }
  }

  /** `str(i)` for any integer. */
  function IntToString(i: int): (s: string)
    ensures s != [] && NoSpace(s)
  {
    if i < 0 then "-" + NatToString(-i) else NatToString(i)
  }

  /** `s.zfill(width)`: zeros after an optional sign, up to `width` characters. */
  function ZFill(s: string, width: nat): (r: string)
    ensures |r| == if |s| >= width then |s| else width
  {
    if |s| >= width then s
    else if s != [] && (s[0] == '-' || s[0] == '+') then [s[0]] + Zeros(width - |s|) + s[1..]
    else Zeros(width - |s|) + s
  }

  /** `str(i).zfill(4)`, which is also what the format `f"{i:04}"` gives. */
  function Pad4(i: int): (r: string)
    ensures r != [] && NoSpace(r)
  {
    ZFill(IntToString(i), 4)
  }

  /** Python's `int(s)` on a string without surrounding spaces: an optional
      sign and at least one decimal digit; anything else is a ValueError (None). */
  function ParseInt(s: string): (r: Option<int>)
    ensures r.Some? ==> s != []
  {
    if s != [] && (s[0] == '-' || s[0] == '+') then
      var body := s[1..];
      if body != [] && AllDigits(body) then
        Some(if s[0] == '-' then -Value(body) else Value(body))
      else None
    else if s != [] && AllDigits(s) then Some(Value(s))
    else None
  }

  lemma Pad4OfNonNegative(n: nat)
    ensures Pad4(n) == Zeros(|Pad4(n)| - |NatToString(n)|) + NatToString(n)
  {
    var d := NatToString(n);
    assert IntToString(n) == d;
    assert d[0] != '-' && d[0] != '+' by { assert IsDigit(d[0]); }
    if |d| >= 4 {
      assert Pad4(n) == d;
      assert Zeros(0) + d == d;
    } else {
      assert Pad4(n) == Zeros(4 - |d|) + d;
    }
  }

  lemma Pad4OfNegative(i: int)
    requires i < 0
    ensures Pad4(i) == "-" + (Zeros(|Pad4(i)| - 1 - |NatToString(-i)|) + NatToString(-i))
  {
    var d := NatToString(-i);
    var s := IntToString(i);
    assert s == "-" + d;
    assert s[0] == '-' && s[1..] == d;
  }

  /** Formatting then parsing gives back the integer, for every integer. */
  lemma Pad4RoundTrip(i: int)
    ensures ParseInt(Pad4(i)) == Some(i)
  {
    if i >= 0 {
      Pad4OfNat(i);
      var r := Pad4(i);
      assert r[0] != '-' && r[0] != '+' by { assert IsDigit(r[0]); }
    } else {
      Pad4RoundTripNegative(i);
    }
  }

  lemma Pad4RoundTripNegative(i: int)
    requires i < 0
    ensures ParseInt(Pad4(i)) == Some(i)
  {
    var d := NatToString(-i);
    var k := |Pad4(i)| - 1 - |d|;
    NegativePadded(i, k, d);
    ParseNegative(Pad4(i), Zeros(k) + d, -i);
  }

  lemma NegativePadded(i: int, k: int, d: string)
    requires i < 0 && d == NatToString(-i) && k == |Pad4(i)| - 1 - |d|
    ensures k >= 0
    ensures Pad4(i) == "-" + (Zeros(k) + d)
    ensures Zeros(k) + d != [] && AllDigits(Zeros(k) + d) && Value(Zeros(k) + d) == -i
  {
    Pad4OfNegative(i);
    PaddedDigits(k, d);
    ValueAfterZeros(k, d);
    ValueOfNatToString(-i);
  }

  /** Zeros in front of digits are still digits. */
  lemma PaddedDigits(k: nat, d: string)
    requires AllDigits(d)
    ensures AllDigits(Zeros(k) + d)
  {
    var s := Zeros(k) + d;
    forall j | 0 <= j < |s| ensures IsDigit(s[j]) {
      if j >= k { assert s[j] == d[j - k]; }
    }
  }

  lemma ParseNegative(s: string, body: string, v: int)
    requires s == "-" + body
    requires body != [] && AllDigits(body) && Value(body) == v
    ensures ParseInt(s) == Some(-v)
  {
    assert s[0] == '-' && s[1..] == body;
  }

  /** The zero-padded form of a non-negative number is all digits. */
  lemma Pad4OfNat(n: nat)
    ensures AllDigits(Pad4(n)) && Value(Pad4(n)) == n
    ensures StripLeadingZeros(Pad4(n)) == if n == 0 then [] else NatToString(n)
  {
    var d := NatToString(n);
    var r := Pad4(n);
    var k := |r| - |d|;
    assert r == Zeros(k) + d by { Pad4OfNonNegative(n); }
    assert AllDigits(r) by { PaddedDigits(k, d); }
    assert Value(r) == n by {
      ValueAfterZeros(k, d);
      ValueOfNatToString(n);
    }
    if n == 0 {
      assert r == Zeros(|r|) by {
        assert d == "0";
        assert Zeros(k) + "0" == Zeros(k + 1) by { ZerosAppend(k); }
      }
      StripZerosOfZeros(|r|);
    } else {
      StripZerosOfPadded(k, d);
    }
  }

  lemma {:induction false} ZerosAppend(k: nat)
    ensures Zeros(k) + "0" == Zeros(k + 1)
    decreases k
  {
    if k > 0 {
      ZerosAppend(k - 1);
      assert Zeros(k) + "0" == ['0'] + (Zeros(k - 1) + "0");
    }
  }

  lemma {:induction false} StripZerosOfPadded(k: nat, d: string)
    requires d != [] && d[0] != '0'
    ensures StripLeadingZeros(Zeros(k) + d) == d
    decreases k
  {
    if k > 0 {
      assert (Zeros(k) + d)[1..] == Zeros(k - 1) + d;
      StripZerosOfPadded(k - 1, d);
    } else {
      assert Zeros(k) + d == d;
    }
  }

  lemma {:induction false} StripZerosOfZeros(k: nat)
    ensures StripLeadingZeros(Zeros(k)) == []
    decreases k
  {
    if k > 0 {
      assert Zeros(k)[1..] == Zeros(k - 1);
      StripZerosOfZeros(k - 1);
    }
  }
}
