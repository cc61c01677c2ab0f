/** `Ini::open` as a function of the lines it reads. Each line is first
    read by the patterns (`Scan`: a header, an entry with its classified
    item, or nothing) and then applied to the state (`Apply`). The state
    between two lines is the content built so far and the name of the
    section the `current` pointer designates (sections are never erased,
    so the pointer always designates an entry of the content). Reading
    the lines is the left fold `Run` of the applications. */
module IniParser {
  import opened IniText
  import opened IniPatterns
  import opened IniItem

  type Section = map<string, Item>
  type Content = map<string, Section>

  /** `|a - b|`, the distance used to say which int64 is nearest. */
  function Dist(a: int, b: int): nat {
    if a < b then b - a else a - b
  }

  /** `ss >> tmp` into an `int64_t` on a text the integer pattern accepts:
      the value of the text when it fits, and the bound on the side it
      overflows otherwise (the stream saturates on overflow). */
  function ReadInt64(v: string): int64
    requires IsIntText(v)
  {
    var x := SignedValue(v);
    if x < Int64Min then Int64Min as int64
    else if x > Int64Max then Int64Max as int64
    else x as int64
  }

  /** The int64 read is the value of the text when that fits, and in any
      case the int64 nearest to it. */
  lemma ReadInt64Nearest(v: string)
    requires IsIntText(v)
    ensures Int64Min <= SignedValue(v) <= Int64Max ==> ReadInt64(v) as int == SignedValue(v)
    ensures forall m: int | Int64Min <= m <= Int64Max :: Dist(ReadInt64(v) as int, SignedValue(v)) <= Dist(m, SignedValue(v))
  {
  }

  /** The tag and payload `open` gives a captured value, trying the
      patterns in the source's order: a quoted string loses its quotes, an
      integer text is read as an int64, a float text is kept as a Float,
      and anything else is stored as it is. */
  function Classify(v: string): Item {
    match ParseQuoted(v)
    case Some(inner) => StrItem(inner)
    case None =>
      if IsIntText(v) then Int64Item(ReadInt64(v))
      else if IsFloatText(v) then FloatItem(v)
      else StrItem(v)
  }

  /** `unordered_map::insert`: adds the pair only when the key is absent. */
  function Insert<K, V>(m: map<K, V>, k: K, v: V): map<K, V> {
    if k in m then m else m[k := v]
  }

  /** The content and the section the `current` pointer designates. */
  datatype ParseState = ParseState(content: Content, current: string)

  predicate Valid(st: ParseState) {
    st.current in st.content
  }

  /** What a line means to `open`. */
  datatype Line = Header(name: string) | Entry(key: string, item: Item) | Ignored

  /** The line read by the patterns, the header pattern first. */
  function Scan(line: string): Line {
    match ParseSection(line)
    case Some(name) => Header(name)
    case None =>
      match ParseKv(line)
      case Some((k, v)) => Entry(k, Classify(v))
      case None => Ignored
  }

  lemma ScanEntry(line: string, key: string, value: string)
    requires ParseSection(line) == None && ParseKv(line) == Some((key, value))
    ensures Scan(line) == Entry(key, Classify(value))
  {
  }

  /** `f` applied to every element of `xs`. */
  function MapSeq<A, B>(f: A -> B, xs: seq<A>): (r: seq<B>)
    ensures |r| == |xs|
    decreases |xs|
  {
    if xs == [] then []
    else MapSeq(f, xs[..|xs| - 1]) + [f(xs[|xs| - 1])]
  }

  lemma {:induction false} MapSeqAt<A, B>(f: A -> B, xs: seq<A>, i: nat)
    requires i < |xs|
    ensures MapSeq(f, xs)[i] == f(xs[i])
    decreases |xs|
  {
    if i < |xs| - 1 {
      MapSeqAt(f, xs[..|xs| - 1], i);
    }
  }

  lemma {:induction false} MapSeqAppend<A, B>(f: A -> B, a: seq<A>, b: seq<A>)
    ensures MapSeq(f, a + b) == MapSeq(f, a) + MapSeq(f, b)
    decreases |b|
  {
    if b == [] {
      assert a + b == a;
    } else {
      var ab := a + b;
      assert ab[..|ab| - 1] == a + b[..|b| - 1];
      assert ab[|ab| - 1] == b[|b| - 1];
      MapSeqAppend(f, a, b[..|b| - 1]);
    }
  }

  /** Every line, scanned. */
  function ScanAll(lines: seq<string>): (r: seq<Line>) {
    MapSeq(Scan, lines)
  }

  /** The state after `content.clear()` and the insertion of the unnamed section. */
  function Initial(unnamed: string): (st: ParseState)
    ensures Valid(st)
  {
    ParseState(map[unnamed := map[]], unnamed)
  }

  /** One pass of the loop body of `open`: a header inserts its section
      and points `current` at it, an entry is inserted into the current
      section, and any other line is skipped. */
  function Apply(st: ParseState, l: Line): (r: ParseState)
    requires Valid(st)
    ensures Valid(r)
  {
    match l
    case Header(name) => ParseState(Insert(st.content, name, map[]), name)
    case Entry(k, item) =>
      ParseState(st.content[st.current := Insert(st.content[st.current], k, item)], st.current)
    case Ignored => st
  }

  /** The state after the loop has read the lines `ls` stand for. */
  function Run(st: ParseState, ls: seq<Line>): (r: ParseState)
    requires Valid(st)
    ensures Valid(r)
    decreases |ls|
  {
    if ls == [] then st
    else Apply(Run(st, ls[..|ls| - 1]), ls[|ls| - 1])
  }

  /** What `open` leaves behind for the lines of its stream. */
  function ParseLines(unnamed: string, lines: seq<string>): (r: ParseState)
    ensures Valid(r)
  {
    Run(Initial(unnamed), ScanAll(lines))
  }

  /* ---------- Classification ---------- */

  /** A quoted value is a Str without its quotes, numeric or not. */
  lemma ClassifyQuoted(v: string, inner: string)
    requires QuotedShape(v, inner)
    ensures Classify(v) == StrItem(inner)
  {
    QuotedParserIsPattern(v, inner);
  }

  /** A value the integer pattern matches is an Int64 holding its value,
      saturated to the int64 range. */
  lemma ClassifyInt(v: string)
    requires IntShape(v)
    ensures IsIntText(v)
    ensures Classify(v) == Int64Item(ReadInt64(v))
  {
    IntRuleIsPattern(v);
    IntTextUnquoted(v);
  }

  /** An integer or float text does not start with a quote. */
  lemma IntTextUnquoted(v: string)
    requires IsIntText(v) || IsFloatText(v)
    ensures ParseQuoted(v) == None
  {
    if IsFloatText(v) && !IsIntText(v) {
      var sign, m, x := FloatTextParts(v);
      MantissaFacts(m);
      if sign == "" {
        assert v[0] == m[0];
      }
    } else {
      DigitsAt(v[SignLength(v)..], 0);
    }
  }

  /** A value is a Float exactly when the float pattern matches it and the
      integer pattern does not; its payload is then the text itself. */
  lemma ClassifyFloat(v: string)
    ensures Classify(v).FloatItem? <==> FloatShape(v) && !IntShape(v)
    ensures Classify(v).FloatItem? ==> Classify(v).floatData == v
  {
    IntRuleIsPattern(v);
    FloatRuleIsPattern(v);
    if IsFloatText(v) {
      IntTextUnquoted(v);
    }
  }

  /** No text the integer pattern matches is ever tagged Float. */
  lemma NoIntegerIsFloat(v: string)
    requires IntShape(v)
    ensures FloatShape(v)
    ensures !Classify(v).FloatItem?
  {
    IntRuleIsPattern(v);
    IntTextIsFloatText(v);
    FloatRuleIsPattern(v);
    ClassifyInt(v);
  }

  /** A value no pattern matches is kept as a Str holding the raw text. */
  lemma ClassifyRaw(v: string)
    requires forall inner :: !QuotedShape(v, inner)
    requires !IntShape(v) && !FloatShape(v)
    ensures Classify(v) == StrItem(v)
  {
    IntRuleIsPattern(v);
    FloatRuleIsPattern(v);
    if ParseQuoted(v).Some? {
      QuotedParserIsPattern(v, ParseQuoted(v).value);
    }
  }

  /* ---------- One line ---------- */

  /** A header line makes its section current, and creates it, empty, only
      when it is absent: re-declaring a section keeps its entries. The
      header reading wins even when the line also reads as `key=value`. */
  lemma HeaderLine(st: ParseState, line: string, name: string)
    requires Valid(st) && SectionMatch(line, name)
    ensures Apply(st, Scan(line)).current == name
    ensures name in st.content ==> Apply(st, Scan(line)).content == st.content
    ensures name !in st.content ==> Apply(st, Scan(line)).content == st.content[name := map[]]
  {
    SectionParserIsPattern(line, name);
  }

  /** The header scanner finds nothing on a line the header pattern does not match. */
  lemma NotHeader(line: string)
    requires forall name :: !SectionMatch(line, name)
    ensures ParseSection(line) == None
  {
    match ParseSection(line)
    case None =>
    case Some(name) => SectionParserIsPattern(line, name);
  }

  /** A `key=value` line adds its entry to the current section unless the
      key is there already, in which case the earlier item stays (first
      write wins); no other section changes and the current one stays. */
  lemma KeyValueLine(st: ParseState, line: string, key: string, value: string)
    requires Valid(st)
    requires forall name :: !SectionMatch(line, name)
    requires KvCaptures(line, key, value)
    ensures Apply(st, Scan(line)).current == st.current
    ensures key in st.content[st.current] ==> Apply(st, Scan(line)) == st
    ensures key !in st.content[st.current] ==>
      Apply(st, Scan(line)).content == st.content[st.current := st.content[st.current][key := Classify(value)]]
  {
    NotHeader(line);
    assert Scan(line) == Entry(key, Classify(value)) by {
      KvParserCaptures(line, key, value);
    }
    ApplyEntry(st, key, Classify(value));
  }

  lemma ApplyEntry(st: ParseState, key: string, item: Item)
    requires Valid(st)
    ensures Apply(st, Entry(key, item)).current == st.current
    ensures key in st.content[st.current] ==> Apply(st, Entry(key, item)) == st
    ensures key !in st.content[st.current] ==>
      Apply(st, Entry(key, item)).content == st.content[st.current := st.content[st.current][key := item]]
  {
    if key in st.content[st.current] {
      assert st.content[st.current := st.content[st.current]] == st.content;
    }
  }

  /** A line that neither line pattern matches changes nothing. */
  lemma IgnoredLine(st: ParseState, line: string)
    requires Valid(st)
    requires forall name :: !SectionMatch(line, name)
    requires !KvMatch(line)
    ensures Apply(st, Scan(line)) == st
  {
    NotHeader(line);
    KvParserIsPattern(line);
  }

  /** A line with anything after a `;`, such as a trailing comment, is ignored. */
  lemma CommentedLineIgnored(st: ParseState, line: string, i: nat)
    requires Valid(st)
    requires i + 1 < |line| && line[i] == ';'
    ensures Apply(st, Scan(line)) == st
  {
    TextAfterSemicolonRejected(line, i);
  }

  /* ---------- Many lines ---------- */

  lemma {:induction false} RunAppend(st: ParseState, a: seq<Line>, b: seq<Line>)
    requires Valid(st)
    ensures Run(st, a + b) == Run(Run(st, a), b)
    decreases |b|
  {
    if b == [] {
      assert a + b == a;
    } else {
      var ab := a + b;
      assert ab[..|ab| - 1] == a + b[..|b| - 1];
      assert ab[|ab| - 1] == b[|b| - 1];
      RunAppend(st, a, b[..|b| - 1]);
    }
  }

  /** The names the header lines among `ls` carry. */
  function HeaderNames(ls: seq<Line>): set<string>
    decreases |ls|
  {
    if ls == [] then {}
    else
      HeaderNames(ls[..|ls| - 1]) +
        match ls[|ls| - 1]
        case Header(name) => {name}
        case _ => {}
  }

  /** Reading lines adds exactly the sections their headers name. */
  lemma {:induction false} RunSections(st: ParseState, ls: seq<Line>)
    requires Valid(st)
    ensures Run(st, ls).content.Keys == st.content.Keys + HeaderNames(ls)
    decreases |ls|
  {
    if ls != [] {
      RunSections(st, ls[..|ls| - 1]);
    }
  }

  /** `open` accepts every input, and leaves exactly the unnamed section and
      the sections that header lines name: nothing it held before survives. */
  lemma OpenSections(unnamed: string, lines: seq<string>)
    ensures ParseLines(unnamed, lines).content.Keys == {unnamed} + HeaderNames(ScanAll(lines))
  {
    RunSections(Initial(unnamed), ScanAll(lines));
  }

  /** Every section and every entry of `smaller` is in `bigger`, with the same item. */
  predicate Extends(bigger: Content, smaller: Content) {
    && (forall s | s in smaller :: s in bigger)
    && (forall s, k | s in smaller && k in smaller[s] :: s in bigger && k in bigger[s] && bigger[s][k] == smaller[s][k])
  }

  lemma ExtendsTrans(a: Content, b: Content, c: Content)
    requires Extends(a, b) && Extends(b, c)
    ensures Extends(a, c)
  {
  }

  /** Applying a line never removes a section or an entry, nor replaces an item. */
  lemma ApplyExtends(st: ParseState, l: Line)
    requires Valid(st)
    ensures Extends(Apply(st, l).content, st.content)
  {
  }

  /** First write wins over any number of lines: once an entry is in, no
      later line removes or replaces it. */
  lemma {:induction false} RunExtends(st: ParseState, ls: seq<Line>)
    requires Valid(st)
    ensures Extends(Run(st, ls).content, st.content)
    decreases |ls|
  {
    if ls != [] {
      var before := Run(st, ls[..|ls| - 1]);
      RunExtends(st, ls[..|ls| - 1]);
      ApplyExtends(before, ls[|ls| - 1]);
      ExtendsTrans(Run(st, ls).content, before.content, st.content);
    }
  }

  /** The entries the `key=value` lines among `ls` give, defined from the
      front: the earliest line with a key decides its item. */
  function Entries(ls: seq<Line>): Section
    decreases |ls|
  {
    if ls == [] then map[]
    else
      var rest := Entries(ls[1..]);
      match ls[0]
      case Entry(k, item) => rest[k := item]
      case _ => rest
  }

  lemma UpdateInsertCommute(m: Section, k0: string, c0: Item, k1: string, c1: Item)
    ensures Insert(m, k1, c1)[k0 := c0] == Insert(m[k0 := c0], k1, c1)
  {
  }

  lemma {:induction false} EntriesSnoc(ls: seq<Line>, l: Line)
    ensures Entries(ls + [l]) ==
      match l
      case Entry(k, item) => Insert(Entries(ls), k, item)
      case _ => Entries(ls)
    decreases |ls|
  {
    if ls != [] {
      assert (ls + [l])[1..] == ls[1..] + [l];
      EntriesSnoc(ls[1..], l);
      if ls[0].Entry? && l.Entry? {
        UpdateInsertCommute(Entries(ls[1..]), ls[0].key, ls[0].item, l.key, l.item);
      }
    }
  }

  lemma InsertUnion(e: Section, o: Section, k: string, c: Item)
    ensures Insert(e + o, k, c) == Insert(e, k, c) + o
  {
  }

  predicate NoHeaders(ls: seq<Line>) {
    forall i | 0 <= i < |ls| :: !ls[i].Header?
  }

  /** Lines without headers add their entries to the current section, the
      entries it already has taking precedence. */
  lemma {:induction false} RunWithoutHeaders(st: ParseState, ls: seq<Line>)
    requires Valid(st) && NoHeaders(ls)
    ensures Run(st, ls) ==
      ParseState(st.content[st.current := Entries(ls) + st.content[st.current]], st.current)
    decreases |ls|
  {
    var o := st.content[st.current];
    if ls == [] {
      assert map[] + o == o;
      assert st.content[st.current := o] == st.content;
    } else {
      var init, l := ls[..|ls| - 1], ls[|ls| - 1];
      assert NoHeaders(init) by {
        forall i | 0 <= i < |init| ensures !init[i].Header? {
          assert init[i] == ls[i];
        }
      }
      RunWithoutHeaders(st, init);
      assert ls == init + [l];
      EntriesSnoc(init, l);
      match l
      case Entry(k, c) => InsertUnion(Entries(init), o, k, c);
      case Ignored =>
    }
  }

  /** The key lines before the first header go to the unnamed section, and
      the first of them for each key decides its item for good. */
  lemma OpenPrefix(unnamed: string, lines: seq<string>, j: nat)
    requires j <= |lines|
    requires forall i | 0 <= i < j :: ParseSection(lines[i]) == None
    ensures var r := ParseLines(unnamed, lines).content;
      var e := Entries(ScanAll(lines[..j]));
      unnamed in r && forall k | k in e :: k in r[unnamed] && r[unnamed][k] == e[k]
  {
    var a, b := ScanAll(lines[..j]), ScanAll(lines[j..]);
    ScannedWithoutHeaders(lines[..j]);
    HeaderlessRun(unnamed, a);
    ParseSplit(unnamed, lines, j);
    RunExtends(Run(Initial(unnamed), a), b);
  }

  /** Lines without headers fill the unnamed section and nothing else. */
  lemma HeaderlessRun(unnamed: string, ls: seq<Line>)
    requires NoHeaders(ls)
    ensures Run(Initial(unnamed), ls).content == map[unnamed := Entries(ls)]
  {
    RunWithoutHeaders(Initial(unnamed), ls);
    assert Entries(ls) + map[] == Entries(ls);
  }

  /** Reading lines is reading a prefix of them and then the rest. */
  lemma ParseSplit(unnamed: string, lines: seq<string>, j: nat)
    requires j <= |lines|
    ensures ParseLines(unnamed, lines) == Run(ParseLines(unnamed, lines[..j]), ScanAll(lines[j..]))
  {
    assert lines == lines[..j] + lines[j..];
    MapSeqAppend(Scan, lines[..j], lines[j..]);
    RunAppend(Initial(unnamed), ScanAll(lines[..j]), ScanAll(lines[j..]));
  }

  lemma ScannedWithoutHeaders(lines: seq<string>)
    requires forall i | 0 <= i < |lines| :: ParseSection(lines[i]) == None
    ensures NoHeaders(ScanAll(lines))
  {
    forall i | 0 <= i < |lines| ensures !ScanAll(lines)[i].Header? {
      MapSeqAt(Scan, lines, i);
      ScanNotHeader(lines[i]);
    }
  }

  lemma ScanNotHeader(line: string)
    requires ParseSection(line) == None
    ensures !Scan(line).Header?
  {
  }

  /** Reading one more line applies it to the state the earlier lines left. */
  lemma ParseStep(unnamed: string, lines: seq<string>, i: nat)
    requires i < |lines|
    ensures Run(Initial(unnamed), ScanAll(lines[..i + 1])) ==
      Apply(Run(Initial(unnamed), ScanAll(lines[..i])), Scan(lines[i]))
  {
    assert lines[..i + 1][..i] == lines[..i];
  }
}
