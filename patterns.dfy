/** The five regular expressions `Ini::open` uses, each given twice: as
    the language the pattern denotes under whole-string matching (a ghost
    predicate over a decomposition of the text), and as a hand-written
    scanner that computes the capture groups. A lemma ties each scanner
    to its pattern in both directions. */
module IniPatterns {
  import opened IniText

  /** `(;|$)` at the end of a whole-string match: nothing, or one `;`. */
  predicate IsTerminator(t: string) {
    t == "" || t == ";"
  }

  /** `[^\[\];]*`, the text of a section name. */
  predicate IsNameText(n: string) {
    Lacks(n, '[') && Lacks(n, ']') && Lacks(n, ';')
  }

  /** `[^=;]+`, the text of a key or of a raw value. */
  predicate IsFieldText(s: string) {
    s != [] && Lacks(s, '=') && Lacks(s, ';')
  }

  /** `(\+|-|)`. */
  predicate IsSign(s: string) {
    s == "" || s == "+" || s == "-"
  }

  /** The line without the one `;` that `(;|$)` may consume at its end. */
  function Body(line: string): (b: string)
    ensures |b| <= |line|
  {
    if line != [] && line[|line| - 1] == ';' then line[..|line| - 1] else line
  }

  /** What `Body` leaves out is a terminator. */
  lemma BodySplit(line: string)
    ensures line == Body(line) + line[|Body(line)|..]
    ensures IsTerminator(line[|Body(line)|..])
  {
    var b := Body(line);
    if line != b {
      assert line[|b|..] == ";";
      assert line == line[..|line| - 1] + ";";
    }
  }

  lemma BodyOf(x: string, t: string)
    requires IsTerminator(t)
    requires x != [] && x[|x| - 1] != ';'
    ensures Body(x + t) == x
  {
    if t == ";" {
      assert (x + t)[..|x + t| - 1] == x;
    }
  }

  /* ---------- Section header: ^\s*\[([^\[\];]*)\]\s*(;|$) ---------- */

  /** `line` is `w1 [ name ] w2 t`, one way the header pattern can match. */
  ghost predicate SectionShape(line: string, w1: string, name: string, w2: string, t: string) {
    && line == w1 + "[" + name + "]" + w2 + t
    && Spaces(w1) && Spaces(w2) && IsNameText(name) && IsTerminator(t)
  }

  /** The header pattern matches the whole of `line` with `name` as group 1. */
  ghost predicate SectionMatch(line: string, name: string) {
    exists w1, w2, t :: SectionShape(line, w1, name, w2, t)
  }

  /** Scanner for the header pattern: the captured name, if the line is a header. */
  function ParseSection(line: string): Option<string> {
    var b := Body(line);
    ParseBracketed(b[LeadingSpaces(b)..])
  }

  /** The header pattern after its leading `\s*`: `[`, the name up to the
      first `]`, and then whitespace only. */
  function ParseBracketed(s: string): Option<string> {
    if s != [] && s[0] == '[' then
      var j := IndexOf(s[1..], ']');
      if j < |s[1..]| && IsNameText(s[1..][..j]) && Spaces(s[1..][j + 1..]) then Some(s[1..][..j])
      else None
    else None
  }

  lemma BracketedParses(name: string, w2: string)
    requires IsNameText(name) && Spaces(w2)
    ensures ParseBracketed("[" + name + "]" + w2) == Some(name)
  {
    var s := "[" + name + "]" + w2;
    assert s[1..] == name + "]" + w2;
    IndexOfSplit(name, ']', w2);
    assert s[1..][..|name|] == name;
    assert s[1..][|name| + 1..] == w2;
  }

  lemma BracketedShape(s: string)
    requires ParseBracketed(s).Some?
    ensures |s| >= |ParseBracketed(s).value| + 2
    ensures s == "[" + ParseBracketed(s).value + "]" + s[|ParseBracketed(s).value| + 2..]
    ensures Spaces(s[|ParseBracketed(s).value| + 2..])
    ensures IsNameText(ParseBracketed(s).value)
  {
    var rest := s[1..];
    var j := IndexOf(rest, ']');
    var w2 := rest[j + 1..];
    assert rest == rest[..j] + [rest[j]] + w2;
    assert s == [s[0]] + rest;
    assert s == "[" + ParseBracketed(s).value + "]" + w2;
    assert w2 == s[j + 2..];
  }

  lemma SectionLastChar(name: string, w2: string)
    requires Spaces(w2)
    ensures var x := "]" + w2; x[|x| - 1] != ';'
  {
    var x := "]" + w2;
    if w2 != [] {
      assert x[|x| - 1] == w2[|w2| - 1];
      SpacesAt(w2, |w2| - 1);
    }
  }

  lemma SectionShapeParses(line: string, w1: string, name: string, w2: string, t: string)
    requires SectionShape(line, w1, name, w2, t)
    ensures ParseSection(line) == Some(name)
  {
    var s := "[" + name + "]" + w2;
    var x := w1 + s;
    assert Body(line) == x by {
      assert line == x + t;
      SectionLastChar(name, w2);
      assert x[|x| - 1] == ("]" + w2)[|"]" + w2| - 1];
      BodyOf(x, t);
    }
    assert x[LeadingSpaces(x)..] == s by {
      LeadingSpacesSplit(w1, s);
      assert x[|w1|..] == s;
    }
    BracketedParses(name, w2);
  }

  lemma ParsedSectionShape(line: string)
    requires ParseSection(line).Some?
    ensures SectionMatch(line, ParseSection(line).value)
  {
    var name := ParseSection(line).value;
    var w1, w2, t := ParsedSectionParts(line);
    assert SectionShape(line, w1, name, w2, t);
  }

  lemma ParsedSectionParts(line: string) returns (w1: string, w2: string, t: string)
    requires ParseSection(line).Some?
    ensures SectionShape(line, w1, ParseSection(line).value, w2, t)
  {
    BodySplit(line);
    var name := ParseSection(line).value;
    var b := Body(line);
    var p := LeadingSpaces(b);
    LeadingSpacesFacts(b);
    BracketedShape(b[p..]);
    w1, w2, t := b[..p], b[p..][|name| + 2..], line[|b|..];
    assert b == w1 + b[p..];
    AssembleSection(line, b, w1, b[p..], name, w2, t);
  }

  lemma AssembleSection(line: string, b: string, w1: string, s: string, name: string, w2: string, t: string)
    requires line == b + t && b == w1 + s && s == "[" + name + "]" + w2
    requires Spaces(w1) && Spaces(w2) && IsNameText(name) && IsTerminator(t)
    ensures SectionShape(line, w1, name, w2, t)
  {
    assert line == w1 + "[" + name + "]" + w2 + t;
  }

  /** The scanner reports exactly the name the header pattern captures, and
      reports no name for a line the pattern does not match. */
  lemma SectionParserIsPattern(line: string, name: string)
    ensures ParseSection(line) == Some(name) <==> SectionMatch(line, name)
  {
    if ParseSection(line) == Some(name) {
      ParsedSectionShape(line);
    }
    if SectionMatch(line, name) {
      var w1, w2, t :| SectionShape(line, w1, name, w2, t);
      SectionShapeParses(line, w1, name, w2, t);
    }
  }

  /* ---------- Key/value line: ^\s*([^=;]+)\s*=\s*([^=;]+)\s*(;|$) ---------- */

  /** `line` is `w1 key w2 = w3 value w4 t`, one way the key/value pattern can match. */
  ghost predicate KvShape(line: string, w1: string, key: string, w2: string,
                          w3: string, value: string, w4: string, t: string) {
    && line == w1 + key + w2 + "=" + w3 + value + w4 + t
    && Spaces(w1) && Spaces(w2) && Spaces(w3) && Spaces(w4)
    && IsFieldText(key) && IsFieldText(value) && IsTerminator(t)
  }

  /** The key/value pattern matches the whole of `line`. */
  ghost predicate KvMatch(line: string) {
    exists w1, key, w2, w3, value, w4, t :: KvShape(line, w1, key, w2, w3, value, w4, t)
  }

  /** The groups a backtracking matcher reports: of all matches it takes the
      one where each leading `\s*` is as long as it can be and each greedy
      group then runs on as far as it can, so the inner `\s*` are empty and
      the groups keep their trailing whitespace. */
  ghost predicate KvCaptures(line: string, key: string, value: string) {
    && (exists w1, w3, t :: KvShape(line, w1, key, "", w3, value, "", t))
    && (|key| == 1 || !IsSpace(key[0]))
    && (|value| == 1 || !IsSpace(value[0]))
  }

  /** Scanner for the key/value pattern: the captured key and value. */
  function ParseKv(line: string): Option<(string, string)> {
    ParseAssignment(Body(line))
  }

  /** The key/value pattern before its `(;|$)`: one `=` and no `;`. */
  function ParseAssignment(b: string): Option<(string, string)> {
    var e := IndexOf(b, '=');
    if !Lacks(b, ';') || e == |b| then None else CaptureSides(b[..e], b[e + 1..])
  }

  /** What `\s*([^=;]+)\s*` captures on each side of the `=`. */
  function CaptureSides(lhs: string, rhs: string): Option<(string, string)> {
    if lhs == [] || rhs == [] || !Lacks(rhs, '=') then None
    else Some((SkipLeadingSpace(lhs), SkipLeadingSpace(rhs)))
  }

  /** `=` separates two non-empty parts free of `=` and `;`; the scanner
      then captures from each part what `\s*([^=;]+)` captures. */
  lemma AssignmentParses(lhs: string, rhs: string, t: string)
    requires lhs != [] && Lacks(lhs, '=') && Lacks(lhs, ';')
    requires rhs != [] && Lacks(rhs, '=') && Lacks(rhs, ';')
    requires IsTerminator(t)
    ensures ParseKv(lhs + "=" + rhs + t) == Some((SkipLeadingSpace(lhs), SkipLeadingSpace(rhs)))
  {
    var x := lhs + "=" + rhs;
    assert x[|x| - 1] == rhs[|rhs| - 1];
    LacksAt(rhs, ';', |rhs| - 1);
    BodyOf(x, t);
    LacksConcat(lhs, "=", ';');
    LacksConcat(lhs + "=", rhs, ';');
    IndexOfSplit(lhs, '=', rhs);
    assert x[..|lhs|] == lhs;
    assert x[|lhs| + 1..] == rhs;
    assert ParseAssignment(x) == CaptureSides(lhs, rhs);
  }

  lemma FreeOfSeparators(w: string, f: string, w': string)
    requires Spaces(w) && IsFieldText(f) && Spaces(w')
    ensures w + f + w' != [] && Lacks(w + f + w', '=') && Lacks(w + f + w', ';')
  {
    SpacesLack(w, '=');
    SpacesLack(w, ';');
    SpacesLack(w', '=');
    SpacesLack(w', ';');
    LacksConcat(w, f, '=');
    LacksConcat(w + f, w', '=');
    LacksConcat(w, f, ';');
    LacksConcat(w + f, w', ';');
  }

  lemma KvShapeParses(line: string, w1: string, key: string, w2: string,
                      w3: string, value: string, w4: string, t: string)
    requires KvShape(line, w1, key, w2, w3, value, w4, t)
    ensures ParseKv(line) == Some((SkipLeadingSpace(w1 + key + w2), SkipLeadingSpace(w3 + value + w4)))
  {
    FreeOfSeparators(w1, key, w2);
    FreeOfSeparators(w3, value, w4);
    assert line == (w1 + key + w2) + "=" + (w3 + value + w4) + t;
    AssignmentParses(w1 + key + w2, w3 + value + w4, t);
  }

  /** The scanner accepts exactly the lines the key/value pattern matches. */
  lemma KvParserIsPattern(line: string)
    ensures ParseKv(line).Some? <==> KvMatch(line)
  {
    if ParseKv(line).Some? {
      var key, value := ParseKv(line).value.0, ParseKv(line).value.1;
      var w1, w3, t := ParsedKvParts(line);
      assert KvShape(line, w1, key, "", w3, value, "", t);
    }
    if KvMatch(line) {
      var w1, key, w2, w3, value, w4, t :| KvShape(line, w1, key, w2, w3, value, w4, t);
      KvShapeParses(line, w1, key, w2, w3, value, w4, t);
    }
  }

  /** The parts of a line the scanner accepts, around its two captures. */
  lemma ParsedKvParts(line: string) returns (w1: string, w3: string, t: string)
    requires ParseKv(line).Some?
    ensures KvShape(line, w1, ParseKv(line).value.0, "", w3, ParseKv(line).value.1, "", t)
    ensures var (key, value) := ParseKv(line).value;
      (|key| == 1 || !IsSpace(key[0])) && (|value| == 1 || !IsSpace(value[0]))
  {
    BodySplit(line);
    var b := Body(line);
    var lhs, rhs := AssignmentParts(b);
    w1 := SkippedSpace(lhs);
    w3 := SkippedSpace(rhs);
    CapturedField(w1, SkipLeadingSpace(lhs));
    CapturedField(w3, SkipLeadingSpace(rhs));
    t := line[|b|..];
    AssembleKv(line, b, w1, SkipLeadingSpace(lhs), w3, SkipLeadingSpace(rhs), t);
  }

  /** The two sides of the `=` in a body the scanner accepts. */
  lemma AssignmentParts(b: string) returns (lhs: string, rhs: string)
    requires ParseAssignment(b).Some?
    ensures b == lhs + "=" + rhs && lhs != [] && rhs != []
    ensures Lacks(lhs, '=') && Lacks(lhs, ';') && Lacks(rhs, '=') && Lacks(rhs, ';')
    ensures ParseAssignment(b).value == (SkipLeadingSpace(lhs), SkipLeadingSpace(rhs))
  {
    var e := IndexOf(b, '=');
    lhs, rhs := b[..e], b[e + 1..];
    assert b == lhs + [b[e]] + rhs;
    IndexOfFacts(b, '=');
    LacksConcat(lhs + [b[e]], rhs, ';');
    LacksConcat(lhs, [b[e]], ';');
  }

  /** What is left of a text free of `=` and `;` after some whitespace is
      dropped is a field text, if it is not empty. */
  lemma CapturedField(w: string, r: string)
    requires r != [] && Lacks(w + r, '=') && Lacks(w + r, ';')
    ensures IsFieldText(r)
  {
    LacksConcat(w, r, '=');
    LacksConcat(w, r, ';');
  }

  /** The whitespace `SkipLeadingSpace` drops. */
  lemma SkippedSpace(a: string) returns (w: string)
    requires a != []
    ensures a == w + SkipLeadingSpace(a) && Spaces(w)
    ensures |SkipLeadingSpace(a)| == 1 || !IsSpace(SkipLeadingSpace(a)[0])
  {
    var r := SkipLeadingSpace(a);
    SkipLeadingSpaceFacts(a);
    w := a[..|a| - |r|];
    assert a == w + a[|a| - |r|..];
  }

  lemma AssembleKv(line: string, b: string, w1: string, key: string, w3: string, value: string, t: string)
    requires line == b + t && b == (w1 + key) + "=" + (w3 + value)
    requires Spaces(w1) && Spaces(w3) && IsFieldText(key) && IsFieldText(value) && IsTerminator(t)
    ensures KvShape(line, w1, key, "", w3, value, "", t)
  {
    assert line == w1 + key + "" + "=" + w3 + value + "" + t;
  }

  /** The scanner reports exactly the groups the matcher captures. */
  lemma KvParserCaptures(line: string, key: string, value: string)
    ensures ParseKv(line) == Some((key, value)) <==> KvCaptures(line, key, value)
  {
    if ParseKv(line) == Some((key, value)) {
      var w1, w3, t := ParsedKvParts(line);
      assert KvShape(line, w1, key, "", w3, value, "", t);
    }
    if KvCaptures(line, key, value) {
      var w1, w3, t :| KvShape(line, w1, key, "", w3, value, "", t);
      KvShapeParses(line, w1, key, "", w3, value, "", t);
      assert w1 + key + "" == w1 + key;
      assert w3 + value + "" == w3 + value;
      SkipLeadingSpaceSplit(w1, key);
      SkipLeadingSpaceSplit(w3, value);
    }
  }

  /** A second `=` anywhere makes the key/value pattern fail. */
  lemma SecondEqualsRejected(line: string, i: nat, j: nat)
    requires i < j < |line| && line[i] == '=' && line[j] == '='
    ensures ParseKv(line) == None
  {
    var b := Body(line);
    assert j < |b| by {
      if line != b {
        assert line[|line| - 1] == ';';
      }
    }
    assert b[i] == '=' && b[j] == '=';
    SecondEqualsInBody(b, i, j);
  }

  lemma SecondEqualsInBody(b: string, i: nat, j: nat)
    requires i < j < |b| && b[i] == '=' && b[j] == '='
    ensures ParseAssignment(b) == None
  {
    var e := IndexOf(b, '=');
    IndexOfFirst(b, '=', i);
    assert b[e + 1..][j - e - 1] == '=';
    NotLacksAt(b[e + 1..], '=', j - e - 1);
  }

  /** Any character after a `;` makes both line patterns fail. */
  lemma TextAfterSemicolonRejected(line: string, i: nat)
    requires i + 1 < |line| && line[i] == ';'
    ensures ParseKv(line) == None
    ensures ParseSection(line) == None
  {
    var b := Body(line);
    assert b[i] == ';';
    NotLacksAt(b, ';', i);
    HeaderBodyHasNoSemicolon(line);
  }

  /** A header line has no `;` before the one its terminator may take. */
  lemma HeaderBodyHasNoSemicolon(line: string)
    ensures ParseSection(line).Some? ==> Lacks(Body(line), ';')
  {
    if ParseSection(line).Some? {
      var w1, w2, t := ParsedSectionParts(line);
      HeaderBody(line, w1, ParseSection(line).value, w2, t);
    }
  }

  lemma HeaderBody(line: string, w1: string, name: string, w2: string, t: string)
    requires SectionShape(line, w1, name, w2, t)
    ensures Body(line) == w1 + "[" + name + "]" + w2
    ensures Lacks(Body(line), ';')
  {
    var x := w1 + "[" + name + "]" + w2;
    assert line == x + t;
    SectionLastChar(name, w2);
    assert x[|x| - 1] == ("]" + w2)[|"]" + w2| - 1];
    BodyOf(x, t);
    SpacesLack(w1, ';');
    SpacesLack(w2, ';');
    LacksConcat(w1, "[", ';');
    LacksConcat(w1 + "[", name, ';');
    LacksConcat(w1 + "[" + name, "]", ';');
    LacksConcat(w1 + "[" + name + "]", w2, ';');
  }

  /** The body of a header line ends in `]` or in whitespace. */
  lemma HeaderLastChar(line: string)
    requires ParseSection(line).Some?
    ensures var b := Body(line); b != [] && (b[|b| - 1] == ']' || IsSpace(b[|b| - 1]))
  {
    var name := ParseSection(line).value;
    var w1, w2, t := ParsedSectionParts(line);
    HeaderBody(line, w1, name, w2, t);
    var b := Body(line);
    assert b == (w1 + "[" + name) + ("]" + w2);
    if w2 != [] {
      assert b[|b| - 1] == w2[|w2| - 1];
      SpacesAt(w2, |w2| - 1);
    }
  }

  /* ---------- Quoted string: ^"(.*)\"$ ---------- */

  /** `v` is `"inner"`; `.` matches anything but a line terminator. */
  ghost predicate QuotedShape(v: string, inner: string) {
    v == "\"" + inner + "\"" && Lacks(inner, '\n') && Lacks(inner, '\r')
  }

  /** Scanner for the quoted-string pattern: the text between the quotes. */
  function ParseQuoted(v: string): Option<string> {
    if |v| >= 2 && v[0] == '"' && v[|v| - 1] == '"' then
      var inner := v[1..|v| - 1];
      if Lacks(inner, '\n') && Lacks(inner, '\r') then Some(inner) else None
    else None
  }

  lemma QuotedParserIsPattern(v: string, inner: string)
    ensures ParseQuoted(v) == Some(inner) <==> QuotedShape(v, inner)
  {
    if QuotedShape(v, inner) {
      assert v[1..|v| - 1] == inner;
    }
  }

  /* ---------- Integer: ^(\+|-|)[0-9]+$ ---------- */

  /** `v` is an optional sign followed by one or more digits. */
  ghost predicate IntShape(v: string) {
    exists sign, ds :: IntParts(v, sign, ds)
  }

  ghost predicate IntParts(v: string, sign: string, ds: string) {
    v == sign + ds && IsSign(sign) && ds != [] && Digits(ds)
  }

  /** Length of the sign `(\+|-|)` takes at the start of `v`. */
  function SignLength(v: string): (n: nat)
    ensures n <= 1 && n <= |v|
  {
    if v != [] && (v[0] == '+' || v[0] == '-') then 1 else 0
  }

  /** Scanner for the integer pattern. */
  predicate IsIntText(v: string) {
    var n := SignLength(v);
    n < |v| && Digits(v[n..])
  }

  lemma IntRuleIsPattern(v: string)
    ensures IsIntText(v) <==> IntShape(v)
  {
    if IsIntText(v) {
      var n := SignLength(v);
      assert v == v[..n] + v[n..];
      assert IntParts(v, v[..n], v[n..]);
    }
    if IntShape(v) {
      var sign, ds :| IntParts(v, sign, ds);
      assert IsDigit(ds[0]);
      assert v[|sign|..] == ds;
    }
  }

  /** The number an integer text denotes, before any range limit. */
  function SignedValue(v: string): int
    requires IsIntText(v)
  {
    var n := SignLength(v);
    var magnitude: int := DecimalValue(v[n..]);
    if n == 1 && v[0] == '-' then -magnitude else magnitude
  }

  /* ---------- Float: ^(\+|-|)([0-9]*\.[0-9]+|[0-9]+\.[0-9]*|[0-9]+)(e(\+|-|)[0-9]+|)$ ---------- */

  ghost predicate DottedDigits(m: string, a: string, b: string) {
    m == a + "." + b && Digits(a) && Digits(b)
  }

  /** The three alternatives of the mantissa group, in the pattern's order. */
  ghost predicate MantissaShape(m: string) {
    || (exists a, b :: DottedDigits(m, a, b) && b != [])
    || (exists a, b :: DottedDigits(m, a, b) && a != [])
    || (m != [] && Digits(m))
  }

  /** The exponent group: `e`, a sign and digits, or nothing. */
  ghost predicate ExponentShape(x: string) {
    x == "" || (x[0] == 'e' && IntShape(x[1..]))
  }

  ghost predicate FloatParts(v: string, sign: string, m: string, x: string) {
    v == sign + m + x && IsSign(sign) && MantissaShape(m) && ExponentShape(x)
  }

  /** `v` matches the whole float pattern. */
  ghost predicate FloatShape(v: string) {
    exists sign, m, x :: FloatParts(v, sign, m, x)
  }

  /** Scanner for the mantissa: digits with at most one `.`, and at least one digit. */
  predicate IsMantissa(m: string) {
    var d := IndexOf(m, '.');
    Digits(m[..d]) && (if d == |m| then m != [] else Digits(m[d + 1..]) && |m| >= 2)
  }

  /** Scanner for the float pattern. */
  predicate IsFloatText(v: string) {
    IsUnsignedFloat(v[SignLength(v)..])
  }

  /** The float scanner after the sign: a mantissa up to the first `e`,
      then, if there is an `e`, an integer text. */
  predicate IsUnsignedFloat(mx: string) {
    var e := IndexOf(mx, 'e');
    IsMantissa(mx[..e]) && (e == |mx| || IsIntText(mx[e + 1..]))
  }

  lemma MantissaScannerIsPattern(m: string)
    ensures IsMantissa(m) <==> MantissaShape(m)
  {
    if IsMantissa(m) {
      var d := IndexOf(m, '.');
      if d < |m| {
        var a, b := m[..d], m[d + 1..];
        assert m == a + "." + b;
        assert DottedDigits(m, a, b);
      } else {
        assert m[..d] == m;
      }
    }
    if MantissaShape(m) {
      if a, b :| DottedDigits(m, a, b) && (a != [] || b != []) {
        MantissaDotted(m, a, b);
      } else {
        MantissaUndotted(m);
      }
    }
  }

  lemma MantissaDotted(m: string, a: string, b: string)
    requires DottedDigits(m, a, b) && (a != [] || b != [])
    ensures IsMantissa(m)
  {
    DigitsLack(a, '.');
    IndexOfSplit(a, '.', b);
    assert m[..|a|] == a && m[|a| + 1..] == b;
  }

  lemma MantissaUndotted(m: string)
    requires m != [] && Digits(m)
    ensures IsMantissa(m)
  {
    DigitsLack(m, '.');
    IndexOfFacts(m, '.');
    assert m[..|m|] == m;
  }

  /** A mantissa starts with a digit or a `.`, and has no `e` in it. */
  lemma MantissaFacts(m: string)
    requires MantissaShape(m)
    ensures m != [] && (m[0] == '.' || IsDigit(m[0]))
    ensures Lacks(m, 'e')
  {
    if a, b :| DottedDigits(m, a, b) && (a != [] || b != []) {
      DigitsLack(a, 'e');
      DigitsLack(b, 'e');
      LacksConcat(a, ".", 'e');
      LacksConcat(a + ".", b, 'e');
      if a != [] {
        assert m[0] == a[0];
      }
    } else {
      DigitsLack(m, 'e');
    }
  }

  /** The scanner's reading of a float text, as parts of the pattern. */
  lemma FloatTextParts(v: string) returns (sign: string, m: string, x: string)
    requires IsFloatText(v)
    ensures FloatParts(v, sign, m, x)
  {
    var n := SignLength(v);
    var mx := v[n..];
    sign := v[..n];
    m, x := ExponentParts(mx);
    assert v == sign + mx;
    assert IsSign(sign);
  }

  /** The mantissa and exponent parts the scanner finds after the sign. */
  lemma ExponentParts(mx: string) returns (m: string, x: string)
    requires IsUnsignedFloat(mx)
    ensures mx == m + x && MantissaShape(m) && ExponentShape(x)
  {
    var e := IndexOf(mx, 'e');
    m, x := mx[..e], mx[e..];
    assert mx == m + x;
    assert MantissaShape(m) by {
      MantissaScannerIsPattern(m);
    }
    assert ExponentShape(x) by {
      if e < |mx| {
        assert x[0] == 'e' && x[1..] == mx[e + 1..];
        IntRuleIsPattern(mx[e + 1..]);
      }
    }
  }

  /** The scanner accepts a text made of the pattern's parts. */
  lemma FloatPartsScan(v: string, sign: string, m: string, x: string)
    requires FloatParts(v, sign, m, x)
    ensures IsFloatText(v)
  {
    assert SignLength(v) == |sign| by {
      MantissaFacts(m);
      if sign == "" {
        assert v[0] == m[0];
      }
    }
    assert v[|sign|..] == m + x;
    ExponentScan(m, x);
  }

  lemma ExponentScan(m: string, x: string)
    requires MantissaShape(m) && ExponentShape(x)
    ensures IsUnsignedFloat(m + x)
  {
    MantissaFacts(m);
    MantissaScannerIsPattern(m);
    if x == "" {
      NoExponentScan(m);
      assert m + x == m;
    } else {
      IntRuleIsPattern(x[1..]);
      assert m + x == m + "e" + x[1..];
      ExponentPresentScan(m, x[1..]);
    }
  }

  lemma NoExponentScan(m: string)
    requires IsMantissa(m) && Lacks(m, 'e')
    ensures IsUnsignedFloat(m)
  {
    IndexOfFacts(m, 'e');
    assert m[..|m|] == m;
  }

  lemma ExponentPresentScan(m: string, y: string)
    requires IsMantissa(m) && Lacks(m, 'e') && IsIntText(y)
    ensures IsUnsignedFloat(m + "e" + y)
  {
    var mx := m + "e" + y;
    IndexOfSplit(m, 'e', y);
    assert mx[..|m|] == m;
    assert mx[|m| + 1..] == y;
  }

  lemma FloatRuleIsPattern(v: string)
    ensures IsFloatText(v) <==> FloatShape(v)
  {
    if IsFloatText(v) {
      var sign, m, x := FloatTextParts(v);
    }
    if FloatShape(v) {
      var sign, m, x :| FloatParts(v, sign, m, x);
      FloatPartsScan(v, sign, m, x);
    }
  }

  /** Every text the integer pattern accepts is accepted by the float pattern
      too (its third mantissa alternative with no exponent), so the order in
      which `Ini::open` tries them is what keeps integers out of Float. */
  lemma IntTextIsFloatText(v: string)
    requires IsIntText(v)
    ensures IsFloatText(v)
  {
    IntRuleIsPattern(v);
    var sign, ds :| IntParts(v, sign, ds);
    assert v == sign + ds + "";
    assert FloatParts(v, sign, ds, "");
    FloatPartsScan(v, sign, ds, "");
  }
}
