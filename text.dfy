/** Character classes and small scanners on strings, shared by the line
    patterns, the value classifier and the writer. The classes are
    defined by recursion on the string, and the facts about joined and
    cut strings are lemmas, so that each proof uses exactly the facts it
    names. */
module IniText {

  datatype Option<T> = None | Some(value: T)

  /** The characters `\s` matches in the C locale. */
  predicate IsSpace(c: char) {
    c == ' ' || c == '\t' || c == '\n' || c == '\U{000B}' || c == '\U{000C}' || c == '\r'
  }

  predicate IsDigit(c: char) {
    '0' <= c <= '9'
  }

  /** Every character of `w` is whitespace (the language of `\s*`). */
  predicate Spaces(w: string) {
    w == [] || (IsSpace(w[0]) && Spaces(w[1..]))
  }

  /** Every character of `s` is an ASCII digit (the language of `[0-9]*`). */
  predicate Digits(s: string) {
    s == [] || (IsDigit(s[0]) && Digits(s[1..]))
  }

  /** The character `c` does not occur in `s`. */
  predicate Lacks(s: string, c: char) {
    s == [] || (s[0] != c && Lacks(s[1..], c))
  }

  lemma {:induction false} SpacesConcat(a: string, b: string)
    ensures Spaces(a + b) <==> Spaces(a) && Spaces(b)
  {
    if a != [] {
      assert (a + b)[1..] == a[1..] + b;
      SpacesConcat(a[1..], b);
    } else {
      assert a + b == b;
    }
  }

  lemma {:induction false} DigitsConcat(a: string, b: string)
    ensures Digits(a + b) <==> Digits(a) && Digits(b)
  {
    if a != [] {
      assert (a + b)[1..] == a[1..] + b;
      DigitsConcat(a[1..], b);
    } else {
      assert a + b == b;
    }
  }

  lemma {:induction false} LacksConcat(a: string, b: string, c: char)
    ensures Lacks(a + b, c) <==> Lacks(a, c) && Lacks(b, c)
  {
    if a != [] {
      assert (a + b)[1..] == a[1..] + b;
      LacksConcat(a[1..], b, c);
    } else {
      assert a + b == b;
    }
  }

  /** `Lacks` is the negation of membership. */
  lemma {:induction false} LacksIsNotIn(s: string, c: char)
    ensures Lacks(s, c) <==> c !in s
  {
    if s != [] {
      assert s == [s[0]] + s[1..];
      LacksIsNotIn(s[1..], c);
    }
  }

  lemma {:induction false} SpacesLack(w: string, c: char)
    requires Spaces(w) && !IsSpace(c)
    ensures Lacks(w, c)
  {
    if w != [] {
      SpacesLack(w[1..], c);
    }
  }

  lemma {:induction false} DigitsLack(s: string, c: char)
    requires Digits(s) && !IsDigit(c)
    ensures Lacks(s, c)
  {
    if s != [] {
      DigitsLack(s[1..], c);
    }
  }

  lemma {:induction false} SpacesAt(w: string, i: nat)
    requires Spaces(w) && i < |w|
    ensures IsSpace(w[i])
  {
    if i > 0 {
      SpacesAt(w[1..], i - 1);
    }
  }

  lemma {:induction false} DigitsAt(s: string, i: nat)
    requires Digits(s) && i < |s|
    ensures IsDigit(s[i])
  {
    if i > 0 {
      DigitsAt(s[1..], i - 1);
    }
  }

  lemma {:induction false} LacksAt(s: string, c: char, i: nat)
    requires Lacks(s, c) && i < |s|
    ensures s[i] != c
  {
    if i > 0 {
      LacksAt(s[1..], c, i - 1);
    }
  }

  lemma {:induction false} NotLacksAt(s: string, c: char, i: nat)
    requires i < |s| && s[i] == c
    ensures !Lacks(s, c)
  {
    if i > 0 {
      NotLacksAt(s[1..], c, i - 1);
    }
  }

  lemma LacksSlice(s: string, c: char, i: nat, j: nat)
    requires Lacks(s, c) && i <= j <= |s|
    ensures Lacks(s[i..j], c)
  {
    assert s == s[..i] + s[i..j] + s[j..];
    LacksConcat(s[..i] + s[i..j], s[j..], c);
    LacksConcat(s[..i], s[i..j], c);
  }

  lemma SpacesSlice(s: string, i: nat, j: nat)
    requires Spaces(s) && i <= j <= |s|
    ensures Spaces(s[i..j])
  {
    assert s == s[..i] + s[i..j] + s[j..];
    SpacesConcat(s[..i] + s[i..j], s[j..]);
    SpacesConcat(s[..i], s[i..j]);
  }

  lemma DigitsSlice(s: string, i: nat, j: nat)
    requires Digits(s) && i <= j <= |s|
    ensures Digits(s[i..j])
  {
    assert s == s[..i] + s[i..j] + s[j..];
    DigitsConcat(s[..i] + s[i..j], s[j..]);
    DigitsConcat(s[..i], s[i..j]);
  }

  /** Position of the first `c` in `s`, or `|s|` when there is none. */
  function IndexOf(s: string, c: char): (i: nat)
    ensures i <= |s|
    ensures i < |s| ==> s[i] == c
  {
    if s == [] then 0
    else if s[0] == c then 0
    else 1 + IndexOf(s[1..], c)
  }

  /** There is no `c` before the position `IndexOf` reports, and it
      reports the end exactly when there is no `c` at all. */
  lemma {:induction false} IndexOfFacts(s: string, c: char)
    ensures Lacks(s[..IndexOf(s, c)], c)
    ensures IndexOf(s, c) == |s| <==> Lacks(s, c)
  {
    if s != [] && s[0] != c {
      var i := IndexOf(s, c);
      IndexOfFacts(s[1..], c);
      assert s[..i][1..] == s[1..][..i - 1];
    }
  }

  /** No `c` comes before the one `IndexOf` finds. */
  lemma {:induction false} IndexOfFirst(s: string, c: char, i: nat)
    requires i < |s| && s[i] == c
    ensures IndexOf(s, c) <= i
  {
    if s[0] != c {
      IndexOfFirst(s[1..], c, i - 1);
    }
  }

  /** The first `c` of `a + [c] + b` is the one after `a` when `a` lacks `c`. */
  lemma {:induction false} IndexOfSplit(a: string, c: char, b: string)
    requires Lacks(a, c)
    ensures IndexOf(a + [c] + b, c) == |a|
  {
    if a != [] {
      assert (a + [c] + b)[1..] == a[1..] + [c] + b;
      IndexOfSplit(a[1..], c, b);
    }
  }

  /** Length of the longest all-whitespace prefix of `s`. */
  function LeadingSpaces(s: string): (n: nat)
    ensures n <= |s|
  {
    if s == [] || !IsSpace(s[0]) then 0
    else 1 + LeadingSpaces(s[1..])
  }

  /** The prefix `LeadingSpaces` measures is whitespace, and what follows it is not. */
  lemma {:induction false} LeadingSpacesFacts(s: string)
    ensures Spaces(s[..LeadingSpaces(s)])
    ensures LeadingSpaces(s) < |s| ==> !IsSpace(s[LeadingSpaces(s)])
  {
    if s != [] && IsSpace(s[0]) {
      var n := LeadingSpaces(s);
      LeadingSpacesFacts(s[1..]);
      assert s[..n][1..] == s[1..][..n - 1];
    }
  }

  lemma {:induction false} LeadingSpacesSplit(w: string, s: string)
    requires Spaces(w)
    requires s != [] && !IsSpace(s[0])
    ensures LeadingSpaces(w + s) == |w|
  {
    if w != [] {
      assert (w + s)[1..] == w[1..] + s;
      LeadingSpacesSplit(w[1..], s);
    } else {
      assert w + s == s;
    }
  }

  lemma {:induction false} AllSpacesLeading(s: string)
    requires Spaces(s)
    ensures LeadingSpaces(s) == |s|
  {
    if s != [] {
      AllSpacesLeading(s[1..]);
    }
  }

  /** What `\s*` followed by a greedy non-empty group captures from
      the non-empty text `a`: the leading whitespace is skipped, but when
      `a` is whitespace only, `\s*` gives back one character so that the
      group is not empty. */
  function SkipLeadingSpace(a: string): (r: string)
    requires a != []
    ensures 0 < |r| <= |a|
  {
    var n := LeadingSpaces(a);
    if n == |a| then a[|a| - 1..] else a[n..]
  }

  /** The capture is a suffix of `a` after whitespace only, and it starts
      with a non-whitespace character unless it is a single character. */
  lemma SkipLeadingSpaceFacts(a: string)
    requires a != []
    ensures var r := SkipLeadingSpace(a);
      && r == a[|a| - |r|..]
      && Spaces(a[..|a| - |r|])
      && (|r| == 1 || !IsSpace(r[0]))
  {
    var n := LeadingSpaces(a);
    LeadingSpacesFacts(a);
    if n == |a| {
      assert a[..n] == a[..|a| - 1] + [a[|a| - 1]];
      SpacesConcat(a[..|a| - 1], [a[|a| - 1]]);
    }
  }

  /** The capture is exactly the part after the whitespace `w`, whenever
      that part is a capture the greedy rule could produce. */
  lemma SkipLeadingSpaceSplit(w: string, r: string)
    requires Spaces(w)
    requires r != [] && (|r| == 1 || !IsSpace(r[0]))
    ensures SkipLeadingSpace(w + r) == r
  {
    var a := w + r;
    if !IsSpace(r[0]) {
      LeadingSpacesSplit(w, r);
      assert a[|w|..] == r;
    } else {
      assert Spaces(r);
      SpacesConcat(w, r);
      AllSpacesLeading(a);
      assert a[|a| - 1..] == r;
    }
  }

  /** The value of a decimal digit. */
  function DigitValue(c: char): (d: nat)
    requires IsDigit(c)
    ensures d < 10
  {
    (c as int - '0' as int) as nat
  }

  function DigitChar(d: nat): (c: char)
    requires d < 10
    ensures IsDigit(c) && DigitValue(c) == d
  {
    ('0' as int + d) as char
  }

  /** The number a string of decimal digits denotes (leading zeros allowed). */
  function DecimalValue(ds: string): nat
    requires Digits(ds)
  {
    if ds == [] then 0
    else
      assert Digits(ds[..|ds| - 1]) && IsDigit(ds[|ds| - 1]) by {
        assert ds == ds[..|ds| - 1] + [ds[|ds| - 1]];
        DigitsConcat(ds[..|ds| - 1], [ds[|ds| - 1]]);
      }
      DecimalValue(ds[..|ds| - 1]) * 10 + DigitValue(ds[|ds| - 1])
  }

  /** The shortest decimal spelling of `n`, as a stream writes it. */
  function DecimalDigits(n: nat): (ds: string)
    ensures ds != [] && Digits(ds)
    ensures IsDigit(ds[0])
    decreases n
  {
    if n < 10 then [DigitChar(n)]
    else
      var ds := DecimalDigits(n / 10) + [DigitChar(n % 10)];
      DigitsConcat(DecimalDigits(n / 10), [DigitChar(n % 10)]);
      ds
  }

  /** Reading back the digits written for `n` gives `n`. */
  lemma {:induction false} DecimalRoundTrip(n: nat)
    ensures DecimalValue(DecimalDigits(n)) == n
  {
    if n >= 10 {
      var ds := DecimalDigits(n);
      assert ds[..|ds| - 1] == DecimalDigits(n / 10);
      DecimalRoundTrip(n / 10);
    }
  }
}
