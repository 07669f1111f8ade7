/** Text primitives shared by the codecs: splitting and joining on a separator, as Python's
    str.split/str.join and Go's strings.Split/strings.Join do, and plain decimal numerals. */
module Text {

  /** Splits at every occurrence of d; the result is never empty, and Split("") is [""]. */
  function Split(s: string, d: char): (parts: seq<string>)
    ensures |parts| >= 1
    ensures forall p | p in parts :: d !in p
  {
    if s == "" then [""]
    else
      var rest := Split(s[1..], d);
      if s[0] == d then [""] + rest else [[s[0]] + rest[0]] + rest[1..]
  }

  function Join(parts: seq<string>, separator: string): string {
    if parts == [] then ""
    else if |parts| == 1 then parts[0]
    else parts[0] + separator + Join(parts[1..], separator)
  }

  ghost predicate NoneContains(parts: seq<string>, d: char) {
    forall p | p in parts :: d !in p
  }

  /** Splitting a d-free prefix followed by d peels off exactly that prefix. */
  lemma {:induction false} SplitPeels(prefix: string, rest: string, d: char)
    requires d !in prefix
    ensures Split(prefix + [d] + rest, d) == [prefix] + Split(rest, d)
  {
    var s := prefix + [d] + rest;
    if prefix == "" {
      assert s[1..] == rest;
    } else {
      SplitPeels(prefix[1..], rest, d);
      assert s[1..] == prefix[1..] + [d] + rest;
      assert [s[0]] + prefix[1..] == prefix;
    }
  }

  lemma {:induction false} SplitFree(s: string, d: char)
    requires d !in s
    ensures Split(s, d) == [s]
  {
    if s != "" {
      SplitFree(s[1..], d);
      assert [s[0]] + s[1..] == s;
    }
  }

  /** Splitting undoes joining exactly on the non-empty lists of separator-free parts. */
  lemma {:induction false} SplitUndoesJoin(parts: seq<string>, d: char)
    ensures Split(Join(parts, [d]), d) == parts <==> parts != [] && NoneContains(parts, d)
  {
    if parts != [] && NoneContains(parts, d) {
      SplitOfJoin(parts, d);
    } else if parts != [] {
      var p :| p in parts && d in p;
      assert Split(Join(parts, [d]), d) != parts;
    }
  }

  lemma {:induction false} SplitOfJoin(parts: seq<string>, d: char)
    requires parts != [] && NoneContains(parts, d)
    ensures Split(Join(parts, [d]), d) == parts
  {
    if |parts| == 1 {
      SplitFree(parts[0], d);
    } else {
      assert parts[0] in parts;
      SplitOfJoin(parts[1..], d);
      SplitPeels(parts[0], Join(parts[1..], [d]), d);
      assert [parts[0]] + parts[1..] == parts;
    }
  }

  lemma {:induction false} JoinOfSplit(s: string, d: char)
    ensures Join(Split(s, d), [d]) == s
  {
    if s != "" {
      JoinOfSplit(s[1..], d);
      var rest := Split(s[1..], d);
      if s[0] != d {
        assert Split(s, d)[1..] == rest[1..];
      } else {
        assert Split(s, d)[1..] == rest;
      }
    }
  }

  // ---------- stripping white space ----------

  predicate IsSpace(c: char) {
    c == ' ' || '\t' <= c <= '\r' || (28 <= c as int <= 31)
  }

  function StripLeft(s: string): (r: string)
    ensures r != "" ==> !IsSpace(r[0])
  {
    if s != "" && IsSpace(s[0]) then StripLeft(s[1..]) else s
  }

  function StripRight(s: string): (r: string)
    ensures r <= s
    ensures r != "" ==> !IsSpace(r[|r| - 1])
    ensures s != "" && !IsSpace(s[0]) ==> r != ""
  {
    if s != "" && IsSpace(s[|s| - 1]) then StripRight(s[..|s| - 1]) else s
  }

  function Strip(s: string): string {
    StripRight(StripLeft(s))
  }

  predicate Trimmed(s: string) {
    s == "" || (!IsSpace(s[0]) && !IsSpace(s[|s| - 1]))
  }

  /** Stripping yields a trimmed text and leaves exactly the trimmed texts as they are. */
  lemma StripTrims(s: string)
    ensures Trimmed(Strip(s))
    ensures Strip(s) == s <==> Trimmed(s)
  {
    var left := StripLeft(s);
    if left != "" {
      assert Strip(s)[0] == left[0];
    }
  }

  lemma {:induction false} StripLeftCut(s: string) returns (i: nat)
    ensures i <= |s| && StripLeft(s) == s[i..]
    ensures forall k | 0 <= k < i :: IsSpace(s[k])
  {
    i := 0;
    if s != "" && IsSpace(s[0]) {
      var i' := StripLeftCut(s[1..]);
      i := 1 + i';
      assert forall k | 1 <= k < i :: s[k] == s[1..][k - 1];
      assert s[1..][i'..] == s[i..];
    }
  }

  lemma {:induction false} StripRightCut(s: string)
    ensures forall k | |StripRight(s)| <= k < |s| :: IsSpace(s[k])
  {
    if s != "" && IsSpace(s[|s| - 1]) {
      StripRightCut(s[..|s| - 1]);
      assert forall k | 0 <= k < |s| - 1 :: s[k] == s[..|s| - 1][k];
    }
  }

  /** What stripping keeps is one stretch of the text, with nothing but white space around it. */
  lemma StripCutsOnlySpace(s: string) returns (i: nat, j: nat)
    ensures i <= j <= |s| && Strip(s) == s[i..j]
    ensures forall k | 0 <= k < |s| && !(i <= k < j) :: IsSpace(s[k])
  {
    i := StripLeftCut(s);
    var left := s[i..];
    j := i + |StripRight(left)|;
    StripRightCut(left);
    assert forall k | i <= k < |s| :: s[k] == left[k - i];
    assert left[..j - i] == s[i..j];
  }

  lemma {:induction false} LastCharSurvives(s: string)
    requires s != "" && !IsSpace(s[|s| - 1])
    ensures Strip(s) != ""
  {
    if IsSpace(s[0]) {
      assert s[1..][|s| - 2] == s[|s| - 1];
      LastCharSurvives(s[1..]);
    }
  }

  // ---------- decimal and hexadecimal numerals ----------

  type Base = b: nat | b == 10 || b == 16 witness 10

  const DIGITS: string := "0123456789abcdef"

  function DigitValue(c: char): (v: int)
    ensures -1 <= v < 16
    ensures v >= 0 ==> DIGITS[v] == c
  {
    if '0' <= c <= '9' then c as int - '0' as int
    else if 'a' <= c <= 'f' then c as int - 'a' as int + 10
    else -1
  }

  lemma DigitOfDigits(d: nat)
    requires d < 16
    ensures DigitValue(DIGITS[d]) == d
  {
  }

  /** The numeral of n without leading zeros; "0" for zero. */
  function Numeral(n: nat, base: Base): (s: string)
    ensures s != ""
  {
    if n < base then [DIGITS[n]] else Numeral(n / base, base) + [DIGITS[n % base]]
  }

  predicate IsNumeral(s: string, base: Base) {
    s != "" && forall c | c in s :: 0 <= DigitValue(c) < base
  }

  function ParseNumeral(s: string, base: Base): nat
    requires IsNumeral(s, base)
  {
    var last := |s| - 1;
    assert s[last] in s;
    if last == 0 then DigitValue(s[0])
    else
      assert forall c | c in s[..last] :: c in s;
      ParseNumeral(s[..last], base) * base + DigitValue(s[last])
  }

  /** Appending a digit to a numeral shifts its value by one place. */
  lemma ParseAppend(s: string, d: nat, base: Base)
    requires IsNumeral(s, base) && d < base
    ensures IsNumeral(s + [DIGITS[d]], base)
    ensures ParseNumeral(s + [DIGITS[d]], base) == ParseNumeral(s, base) * base + d
  {
    DigitOfDigits(d);
    var t := s + [DIGITS[d]];
    assert t[..|t| - 1] == s;
    assert forall c | c in t :: c in s || c == DIGITS[d];
  }

  lemma {:induction false} ParseOfNumeral(n: nat, base: Base)
    ensures IsNumeral(Numeral(n, base), base)
    ensures ParseNumeral(Numeral(n, base), base) == n
  {
    if n < base {
      DigitOfDigits(n);
    } else {
      ParseOfNumeral(n / base, base);
      ParseAppend(Numeral(n / base, base), n % base, base);
    }
  }

  /** A leading zero does not change the value read. */
  lemma {:induction false} ParseLeadingZero(s: string, base: Base)
    requires IsNumeral(s, base)
    ensures IsNumeral("0" + s, base)
    ensures ParseNumeral("0" + s, base) == ParseNumeral(s, base)
  {
    var z := "0" + s;
    var last := |s| - 1;
    assert forall c | c in z :: c == '0' || c in s;
    if last > 0 {
      assert forall c | c in s[..last] :: c in s;
      ParseLeadingZero(s[..last], base);
      assert z[..|z| - 1] == "0" + s[..last];
    } else {
      assert z[..1] == "0";
      assert ParseNumeral("0", base) == 0;
    }
  }
}
