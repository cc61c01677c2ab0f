/** The two `operator<<` overloads: an item is written as its decimal
    value, its double or its quoted string, and a document as one block per
    section (`[name]`, one `key=value` line per entry, an empty line), each
    line ended by `std::endl`. The order in which `unordered_map` visits
    sections and keys is not fixed by the source, so it is a parameter: a
    list of the section names and, for each section, a list of its keys. */
module IniWriter {
  import opened IniText
  import opened IniPatterns
  import opened IniItem
  import opened IniParser

  /** `stream << n` for an `int64_t`: a `-` for negative values, then the
      decimal digits of the magnitude. */
  function DecimalText(n: int64): string {
    if n < 0 then "-" + DecimalDigits(-(n as int)) else DecimalDigits(n as int)
  }

  /** `stream << item`. Doubles are printed by `formatFloat`, which stands
      for the stream's formatting of the double read from a literal. */
  function ItemText(item: Item, formatFloat: string -> string): string {
    match item
    case Int64Item(n) => DecimalText(n)
    case FloatItem(f) => formatFloat(f)
    case StrItem(s) => "\"" + s + "\""
  }

  function HeaderText(name: string): string {
    "[" + name + "]"
  }

  function EntryText(key: string, item: Item, formatFloat: string -> string): string {
    key + "=" + ItemText(item, formatFloat)
  }

  /** The entry lines of a section, its keys taken in the order `keys`. */
  function EntryLines(section: Section, keys: seq<string>, formatFloat: string -> string): (r: seq<string>)
    requires forall k | k in keys :: k in section
    ensures |r| == |keys|
    decreases |keys|
  {
    if keys == [] then []
    else
      var k := keys[|keys| - 1];
      EntryLines(section, keys[..|keys| - 1], formatFloat) + [EntryText(k, section[k], formatFloat)]
  }

  /** The block one section is written as. */
  function SectionLines(name: string, section: Section, keys: seq<string>, formatFloat: string -> string): seq<string>
    requires forall k | k in keys :: k in section
  {
    [HeaderText(name)] + EntryLines(section, keys, formatFloat) + [""]
  }

  /** Every name in `order` is a section, and `keyOrder` lists keys of it. */
  predicate Listed(content: Content, order: seq<string>, keyOrder: map<string, seq<string>>) {
    forall s | s in order :: s in content && s in keyOrder && forall k | k in keyOrder[s] :: k in content[s]
  }

  /** The lines the document is written as, its sections in the order `order`. */
  function DocumentLines(content: Content, order: seq<string>, keyOrder: map<string, seq<string>>,
                         formatFloat: string -> string): seq<string>
    requires Listed(content, order, keyOrder)
    decreases |order|
  {
    if order == [] then []
    else
      var s := order[|order| - 1];
      DocumentLines(content, order[..|order| - 1], keyOrder, formatFloat) +
        SectionLines(s, content[s], keyOrder[s], formatFloat)
  }

  /** `keys` lists every element of `set` once. */
  predicate IsOrderOf(keys: seq<string>, set_: set<string>) {
    && (forall i, j | 0 <= i < j < |keys| :: keys[i] != keys[j])
    && (forall k | k in keys :: k in set_)
    && (forall k | k in set_ :: k in keys)
  }

  /** The orders are iteration orders of the content's maps. */
  predicate IsIterationOrder(content: Content, order: seq<string>, keyOrder: map<string, seq<string>>) {
    && IsOrderOf(order, content.Keys)
    && (forall s | s in content :: s in keyOrder && IsOrderOf(keyOrder[s], content[s].Keys))
  }

  lemma IterationOrderListed(content: Content, order: seq<string>, keyOrder: map<string, seq<string>>)
    requires IsIterationOrder(content, order, keyOrder)
    ensures Listed(content, order, keyOrder)
  {
  }

  /** The text of the lines, each ended by a newline. */
  function Join(lines: seq<string>): string
    decreases |lines|
  {
    if lines == [] then "" else Join(lines[..|lines| - 1]) + lines[|lines| - 1] + "\n"
  }

  /** The lines the `getline` loop of `open` reads from a text: the pieces
      between newlines, the last one being what follows the last newline
      (empty when the text ends with one). */
  function Lines(text: string): (r: seq<string>)
    ensures |r| >= 1
    decreases |text|
  {
    var i := IndexOf(text, '\n');
    if i == |text| then [text] else [text[..i]] + Lines(text[i + 1..])
  }

  /* ---------- Text and lines ---------- */

  lemma {:induction false} JoinAppend(a: seq<string>, b: seq<string>)
    ensures Join(a + b) == Join(a) + Join(b)
    decreases |b|
  {
    if b == [] {
      assert a + b == a;
    } else {
      var ab := a + b;
      assert ab[..|ab| - 1] == a + b[..|b| - 1];
      assert ab[|ab| - 1] == b[|b| - 1];
      JoinAppend(a, b[..|b| - 1]);
    }
  }

  lemma JoinOne(lines: seq<string>, line: string)
    ensures Join(lines + [line]) == Join(lines) + line + "\n"
  {
    assert (lines + [line])[..|lines|] == lines;
  }

  /** One more key adds its entry line. */
  lemma EntryLinesStep(section: Section, keys: seq<string>, j: nat, formatFloat: string -> string)
    requires forall k | k in keys :: k in section
    requires j < |keys|
    ensures EntryLines(section, keys[..j + 1], formatFloat) ==
      EntryLines(section, keys[..j], formatFloat) + [EntryText(keys[j], section[keys[j]], formatFloat)]
  {
    assert keys[..j + 1][..j] == keys[..j];
  }

  /** One more section adds its block. */
  lemma DocumentStep(content: Content, order: seq<string>, keyOrder: map<string, seq<string>>,
                     i: nat, formatFloat: string -> string)
    requires Listed(content, order, keyOrder)
    requires i < |order|
    ensures Listed(content, order[..i + 1], keyOrder)
    ensures var s := order[i];
      DocumentLines(content, order[..i + 1], keyOrder, formatFloat) ==
        DocumentLines(content, order[..i], keyOrder, formatFloat) + SectionLines(s, content[s], keyOrder[s], formatFloat)
  {
    assert order[..i + 1][..i] == order[..i];
  }

  /** The text before a section's entries: the earlier blocks and the header line. */
  lemma WriteHeaderStep(done: seq<string>, name: string, section: Section, keys: seq<string>,
                        formatFloat: string -> string)
    requires forall k | k in keys :: k in section
    ensures Join(done) + HeaderText(name) + "\n" ==
      Join(done + [HeaderText(name)] + EntryLines(section, keys[..0], formatFloat))
  {
    assert keys[..0] == [];
    assert done + [HeaderText(name)] + [] == done + [HeaderText(name)];
    JoinOne(done, HeaderText(name));
  }

  /** Writing one more entry line. */
  lemma WriteEntryStep(prefix: seq<string>, section: Section, keys: seq<string>, j: nat,
                       formatFloat: string -> string)
    requires forall k | k in keys :: k in section
    requires j < |keys|
    ensures Join(prefix + EntryLines(section, keys[..j], formatFloat)) +
        EntryText(keys[j], section[keys[j]], formatFloat) + "\n" ==
      Join(prefix + EntryLines(section, keys[..j + 1], formatFloat))
  {
    var entry := EntryText(keys[j], section[keys[j]], formatFloat);
    EntryLinesStep(section, keys, j, formatFloat);
    JoinOne(prefix + EntryLines(section, keys[..j], formatFloat), entry);
    assert prefix + EntryLines(section, keys[..j], formatFloat) + [entry] ==
      prefix + EntryLines(section, keys[..j + 1], formatFloat);
  }

  /** The empty line that ends a section's block completes the text of one more section. */
  lemma WriteSectionEnd(content: Content, order: seq<string>, keyOrder: map<string, seq<string>>,
                        i: nat, formatFloat: string -> string)
    requires Listed(content, order, keyOrder)
    requires i < |order|
    ensures Listed(content, order[..i + 1], keyOrder)
    ensures var s := order[i];
      var done := DocumentLines(content, order[..i], keyOrder, formatFloat);
      Join(done + [HeaderText(s)] + EntryLines(content[s], keyOrder[s], formatFloat)) + "\n" ==
        Join(DocumentLines(content, order[..i + 1], keyOrder, formatFloat))
  {
    var s := order[i];
    var done := DocumentLines(content, order[..i], keyOrder, formatFloat);
    DocumentStep(content, order, keyOrder, i, formatFloat);
    BlockEnd(done, s, content[s], keyOrder[s], formatFloat);
  }

  lemma BlockEnd(done: seq<string>, name: string, section: Section, keys: seq<string>,
                 formatFloat: string -> string)
    requires forall k | k in keys :: k in section
    ensures Join(done + [HeaderText(name)] + EntryLines(section, keys, formatFloat)) + "\n" ==
      Join(done + SectionLines(name, section, keys, formatFloat))
  {
    JoinEnd(done, SectionLines(name, section, keys, formatFloat), HeaderText(name), EntryLines(section, keys, formatFloat));
  }

  lemma JoinEnd(done: seq<string>, block: seq<string>, header: string, entries: seq<string>)
    requires block == [header] + entries + [""]
    ensures Join(done + [header] + entries) + "\n" == Join(done + block)
  {
    JoinOne(done + [header] + entries, "");
    assert done + [header] + entries + [""] == done + block;
  }

  lemma LinesCons(line: string, rest: string)
    requires Lacks(line, '\n')
    ensures Lines(line + "\n" + rest) == [line] + Lines(rest)
  {
    var t := line + "\n" + rest;
    IndexOfSplit(line, '\n', rest);
    assert t[..|line|] == line;
    assert t[|line| + 1..] == rest;
  }

  /** Reading back the text of newline-free lines gives those lines and
      then the empty line of the final `getline`, which hits the end. */
  lemma {:induction false} LinesOfJoin(lines: seq<string>)
    requires forall i | 0 <= i < |lines| :: Lacks(lines[i], '\n')
    ensures Lines(Join(lines)) == lines + [""]
    decreases |lines|
  {
    if lines == [] {
      assert Lines("") == [""];
    } else {
      var rest := lines[1..];
      assert lines == [lines[0]] + rest;
      JoinAppend([lines[0]], rest);
      assert Join([lines[0]]) == lines[0] + "\n" by {
        assert [lines[0]][..0] == [];
      }
      assert Join(lines) == lines[0] + "\n" + Join(rest);
      LinesCons(lines[0], Join(rest));
      LinesOfJoin(rest);
    }
  }

  /* ---------- One line ---------- */

  /** A section name that a header line carries unchanged, and that
      survives the split into lines. */
  predicate WritableName(name: string) {
    IsNameText(name) && Lacks(name, '\n')
  }

  /** A key that the key/value pattern captures unchanged from a written
      entry line: no leading whitespace (one whitespace character alone is
      kept), no `=`, `;` or newline. */
  predicate WritableKey(key: string) {
    IsFieldText(key) && Lacks(key, '\n') && (|key| == 1 || !IsSpace(key[0]))
  }

  /** An item whose written text reads back as the same item: an Int64, or
      a Str whose text has no `=`, `;` or line break. */
  predicate WritableItem(item: Item) {
    match item
    case Int64Item(_) => true
    case FloatItem(_) => false
    case StrItem(s) => Lacks(s, '=') && Lacks(s, ';') && Lacks(s, '\n') && Lacks(s, '\r')
  }

  /** The keys and items of a section are all written so as to read back. */
  predicate WritableSection(section: Section) {
    forall k | k in section :: WritableKey(k) && WritableItem(section[k])
  }

  /** Every section name, key and item is written so as to read back. */
  predicate Writable(content: Content) {
    forall s | s in content :: WritableName(s) && WritableSection(content[s])
  }

  /** A written header line reads back as the header of the same section. */
  lemma HeaderRoundTrip(name: string)
    requires IsNameText(name)
    ensures Scan(HeaderText(name)) == Header(name)
  {
    assert HeaderText(name) == "" + "[" + name + "]" + "" + "";
    assert SectionShape(HeaderText(name), "", name, "", "");
    SectionShapeParses(HeaderText(name), "", name, "", "");
  }

  lemma EmptyLineIgnored()
    ensures Scan("") == Ignored
  {
    assert ParseSection("") == None;
    assert ParseKv("") == None;
  }

  /** A value text that the key/value pattern captures whole and that ends
      in a character no header line ends in. */
  predicate PlainValueText(v: string) {
    && IsFieldText(v) && Lacks(v, '\n') && !IsSpace(v[0])
    && (v[|v| - 1] == '"' || IsDigit(v[|v| - 1]))
  }

  lemma DecimalTextFacts(n: int64)
    ensures PlainValueText(DecimalText(n))
    ensures IsIntText(DecimalText(n)) && ReadInt64(DecimalText(n)) == n
  {
    var t := DecimalText(n);
    var m := if n < 0 then -(n as int) else n as int;
    var ds := DecimalDigits(m);
    DecimalRoundTrip(m);
    DigitsLack(ds, '=');
    DigitsLack(ds, ';');
    DigitsLack(ds, '\n');
    DigitsAt(ds, |ds| - 1);
    if n < 0 {
      assert t == "-" + ds && t[1..] == ds;
      LacksConcat("-", ds, '=');
      LacksConcat("-", ds, ';');
      LacksConcat("-", ds, '\n');
      assert t[|t| - 1] == ds[|ds| - 1];
    } else {
      assert t == ds && t[0..] == ds;
    }
  }

  /** The text of a writable item is a plain value text, and it is
      classified back into the same item. */
  lemma ItemTextFacts(item: Item, formatFloat: string -> string)
    requires WritableItem(item)
    ensures PlainValueText(ItemText(item, formatFloat))
    ensures Classify(ItemText(item, formatFloat)) == item
  {
    match item
    case Int64Item(n) =>
      DecimalTextFacts(n);
      IntTextUnquoted(DecimalText(n));
    case StrItem(s) =>
      var t := "\"" + s + "\"";
      assert ItemText(item, formatFloat) == t;
      QuotedText(s);
      assert QuotedShape(t, s);
      ClassifyQuoted(t, s);
  }

  lemma QuotedText(s: string)
    requires Lacks(s, '=') && Lacks(s, ';') && Lacks(s, '\n')
    ensures PlainValueText("\"" + s + "\"")
  {
    var t := "\"" + s + "\"";
    LacksConcat("\"", s, '=');
    LacksConcat("\"" + s, "\"", '=');
    LacksConcat("\"", s, ';');
    LacksConcat("\"" + s, "\"", ';');
    LacksConcat("\"", s, '\n');
    LacksConcat("\"" + s, "\"", '\n');
  }

  /** A line ending in a quote or a digit is not a header. */
  lemma PlainEndNotHeader(line: string)
    requires line != [] && (line[|line| - 1] == '"' || IsDigit(line[|line| - 1]))
    ensures ParseSection(line) == None
  {
    if ParseSection(line).Some? {
      HeaderLastChar(line);
    }
  }

  /** An entry line is read back as an entry for the same key, whose value
      is the written text. */
  lemma EntryLineScan(key: string, v: string)
    requires WritableKey(key) && PlainValueText(v)
    ensures Scan(key + "=" + v) == Entry(key, Classify(v))
  {
    EntryLineNotHeader(key, v);
    EntryLineParses(key, v);
    ScanEntry(key + "=" + v, key, v);
  }

  lemma EntryLineNewlineFree(key: string, v: string)
    requires Lacks(key, '\n') && Lacks(v, '\n')
    ensures Lacks(key + "=" + v, '\n')
  {
    LacksConcat(key, "=", '\n');
    LacksConcat(key + "=", v, '\n');
  }

  lemma EntryLineNotHeader(key: string, v: string)
    requires PlainValueText(v)
    ensures ParseSection(key + "=" + v) == None
  {
    var line := key + "=" + v;
    assert line[|line| - 1] == v[|v| - 1];
    PlainEndNotHeader(line);
  }

  lemma EntryLineParses(key: string, v: string)
    requires WritableKey(key) && PlainValueText(v)
    ensures ParseKv(key + "=" + v) == Some((key, v))
  {
    var line := key + "=" + v;
    AssignmentParses(key, v, "");
    assert line + "" == line;
    NothingToSkip(key);
    NothingToSkip(v);
  }

  lemma NothingToSkip(r: string)
    requires r != [] && (|r| == 1 || !IsSpace(r[0]))
    ensures SkipLeadingSpace(r) == r
  {
    assert "" + r == r;
    SkipLeadingSpaceSplit("", r);
  }

  /** A written `key=value` line reads back as the same key and the same
      tagged value. */
  lemma EntryRoundTrip(key: string, item: Item, formatFloat: string -> string)
    requires WritableKey(key) && WritableItem(item)
    ensures Scan(EntryText(key, item, formatFloat)) == Entry(key, item)
    ensures Lacks(EntryText(key, item, formatFloat), '\n')
  {
    ItemTextFacts(item, formatFloat);
    EntryLineScan(key, ItemText(item, formatFloat));
    EntryLineNewlineFree(key, ItemText(item, formatFloat));
  }

  /* ---------- A whole document ---------- */

  /** Every line is free of newlines, so splitting the text gives them back. */
  predicate NewlineFree(lines: seq<string>) {
    forall i | 0 <= i < |lines| :: Lacks(lines[i], '\n')
  }

  lemma NewlineFreeAppend(a: seq<string>, b: seq<string>)
    requires NewlineFree(a) && NewlineFree(b)
    ensures NewlineFree(a + b)
  {
    forall i | 0 <= i < |a + b| ensures Lacks((a + b)[i], '\n') {
      if i >= |a| {
        assert (a + b)[i] == b[i - |a|];
      }
    }
  }

  lemma ScanOne(line: string)
    ensures ScanAll([line]) == [Scan(line)]
  {
    assert [line][..0] == [];
  }

  lemma ScanAllAppend(a: seq<string>, b: seq<string>)
    ensures ScanAll(a + b) == ScanAll(a) + ScanAll(b)
  {
    MapSeqAppend(Scan, a, b);
  }

  /** What the entry lines of a section mean to `open`. */
  function EntryScans(section: Section, keys: seq<string>): (r: seq<Line>)
    requires forall k | k in keys :: k in section
    ensures |r| == |keys|
    decreases |keys|
  {
    if keys == [] then []
    else
      var k := keys[|keys| - 1];
      EntryScans(section, keys[..|keys| - 1]) + [Entry(k, section[k])]
  }

  /** What the block of a section means to `open`. */
  function SectionScan(name: string, section: Section, keys: seq<string>): seq<Line>
    requires forall k | k in keys :: k in section
  {
    [Header(name)] + EntryScans(section, keys) + [Ignored]
  }

  /** What the lines of a document mean to `open`. */
  function DocumentScan(content: Content, order: seq<string>, keyOrder: map<string, seq<string>>): seq<Line>
    requires Listed(content, order, keyOrder)
    decreases |order|
  {
    if order == [] then []
    else
      var s := order[|order| - 1];
      DocumentScan(content, order[..|order| - 1], keyOrder) + SectionScan(s, content[s], keyOrder[s])
  }

  /** The entry lines of a writable section read back as its entries, in order. */
  lemma {:induction false} EntryLinesScan(section: Section, keys: seq<string>, formatFloat: string -> string)
    requires forall k | k in keys :: k in section
    requires WritableSection(section)
    ensures ScanAll(EntryLines(section, keys, formatFloat)) == EntryScans(section, keys)
    ensures NewlineFree(EntryLines(section, keys, formatFloat))
    decreases |keys|
  {
    if keys != [] {
      var init, k := keys[..|keys| - 1], keys[|keys| - 1];
      var text := EntryText(k, section[k], formatFloat);
      EntryLinesScan(section, init, formatFloat);
      EntryRoundTrip(k, section[k], formatFloat);
      ScanAllAppend(EntryLines(section, init, formatFloat), [text]);
      ScanOne(text);
      NewlineFreeAppend(EntryLines(section, init, formatFloat), [text]);
    }
  }

  lemma HeaderLineScan(name: string)
    requires WritableName(name)
    ensures ScanAll([HeaderText(name)]) == [Header(name)]
    ensures NewlineFree([HeaderText(name)])
  {
    HeaderRoundTrip(name);
    ScanOne(HeaderText(name));
    LacksConcat("[", name, '\n');
    LacksConcat("[" + name, "]", '\n');
  }

  lemma EmptyLineScan()
    ensures ScanAll([""]) == [Ignored]
    ensures NewlineFree([""])
  {
    EmptyLineIgnored();
    ScanOne("");
  }

  /** A written section block reads back as its header, its entries and
      an ignored empty line. */
  lemma SectionLinesScan(name: string, section: Section, keys: seq<string>, formatFloat: string -> string)
    requires forall k | k in keys :: k in section
    requires WritableName(name) && WritableSection(section)
    ensures ScanAll(SectionLines(name, section, keys, formatFloat)) == SectionScan(name, section, keys)
    ensures NewlineFree(SectionLines(name, section, keys, formatFloat))
  {
    var h, es := [HeaderText(name)], EntryLines(section, keys, formatFloat);
    ScanAllAppend(h + es, [""]);
    ScanAllAppend(h, es);
    HeaderLineScan(name);
    EntryLinesScan(section, keys, formatFloat);
    EmptyLineScan();
    NewlineFreeAppend(h, es);
    NewlineFreeAppend(h + es, [""]);
  }

  /** A written document reads back, line by line, as its sections' blocks. */
  lemma {:induction false} DocumentLinesScan(content: Content, order: seq<string>,
                                             keyOrder: map<string, seq<string>>, formatFloat: string -> string)
    requires Writable(content) && Listed(content, order, keyOrder)
    ensures ScanAll(DocumentLines(content, order, keyOrder, formatFloat)) == DocumentScan(content, order, keyOrder)
    ensures NewlineFree(DocumentLines(content, order, keyOrder, formatFloat))
    decreases |order|
  {
    if order != [] {
      var init, s := order[..|order| - 1], order[|order| - 1];
      var before := DocumentLines(content, init, keyOrder, formatFloat);
      var block := SectionLines(s, content[s], keyOrder[s], formatFloat);
      DocumentLinesScan(content, init, keyOrder, formatFloat);
      SectionLinesScan(s, content[s], keyOrder[s], formatFloat);
      ScanAllAppend(before, block);
      NewlineFreeAppend(before, block);
    }
  }

  lemma EntryScansHaveNoHeaders(section: Section, keys: seq<string>)
    requires forall k | k in keys :: k in section
    ensures NoHeaders(EntryScans(section, keys))
  {
    forall i | 0 <= i < |keys| ensures !EntryScans(section, keys)[i].Header? {
      EntryScanAt(section, keys, i);
    }
  }

  lemma {:induction false} EntryScanAt(section: Section, keys: seq<string>, i: nat)
    requires forall k | k in keys :: k in section
    requires i < |keys|
    ensures EntryScans(section, keys)[i] == Entry(keys[i], section[keys[i]])
    decreases |keys|
  {
    if i < |keys| - 1 {
      EntryScanAt(section, keys[..|keys| - 1], i);
    }
  }

  /** The entries of the lines for `keys` are the section restricted to `keys`. */
  lemma {:induction false} EntriesOfScans(section: Section, keys: seq<string>)
    requires forall k | k in keys :: k in section
    ensures forall k :: k in Entries(EntryScans(section, keys)) <==> k in keys
    ensures forall k | k in keys :: Entries(EntryScans(section, keys))[k] == section[k]
    decreases |keys|
  {
    if keys != [] {
      var init, k := keys[..|keys| - 1], keys[|keys| - 1];
      EntriesOfScans(section, init);
      EntriesSnoc(EntryScans(section, init), Entry(k, section[k]));
      assert keys == init + [k];
    }
  }

  /** A header line for a section that is absent or empty leaves it empty and current. */
  lemma RunHeader(st: ParseState, name: string)
    requires Valid(st)
    requires name !in st.content || st.content[name] == map[]
    ensures Run(st, [Header(name)]) == ParseState(st.content[name := map[]], name)
  {
    assert [Header(name)][..0] == [];
    assert Run(st, [Header(name)]) == Apply(st, Header(name));
    if name in st.content {
      assert st.content[name := map[]] == st.content;
    }
  }

  /** Reading a section block into a state where that section is absent or
      empty fills it with the section, whatever the other sections hold. */
  lemma RunSection(st: ParseState, name: string, section: Section, keys: seq<string>)
    requires Valid(st)
    requires name !in st.content || st.content[name] == map[]
    requires IsOrderOf(keys, section.Keys)
    ensures Run(st, SectionScan(name, section, keys)).content == st.content[name := section]
  {
    var es := EntryScans(section, keys);
    var h := Run(st, [Header(name)]);
    RunHeader(st, name);
    SectionEntries(h, section, keys);
    RunThree(st, [Header(name)], es, [Ignored]);
    RunIgnored(Run(h, es));
    assert st.content[name := map[]][name := section] == st.content[name := section];
  }

  /** The entry lines of a section, read into that section while it is
      current and empty, fill it with the section. */
  lemma SectionEntries(h: ParseState, section: Section, keys: seq<string>)
    requires Valid(h) && h.content[h.current] == map[]
    requires IsOrderOf(keys, section.Keys)
    ensures Run(h, EntryScans(section, keys)).content == h.content[h.current := section]
  {
    EntryScansHaveNoHeaders(section, keys);
    RunWithoutHeaders(h, EntryScans(section, keys));
    EntriesOfSection(section, keys);
    assert section + map[] == section;
  }

  lemma EntriesOfSection(section: Section, keys: seq<string>)
    requires IsOrderOf(keys, section.Keys)
    ensures Entries(EntryScans(section, keys)) == section
  {
    EntriesOfScans(section, keys);
  }

  lemma RunThree(st: ParseState, a: seq<Line>, b: seq<Line>, c: seq<Line>)
    requires Valid(st)
    ensures Run(st, a + b + c) == Run(Run(Run(st, a), b), c)
  {
    RunAppend(st, a, b);
    RunAppend(st, a + b, c);
  }

  lemma RunIgnored(st: ParseState)
    requires Valid(st)
    ensures Run(st, [Ignored]) == st
  {
    assert [Ignored][..0] == [];
  }

  /** The sections of `content` named in `names`. */
  function Restrict(content: Content, names: seq<string>): (r: Content)
    ensures forall s | s in r :: s in names && s in content && r[s] == content[s]
    ensures forall s | s in names && s in content :: s in r
  {
    map s | s in names && s in content :: content[s]
  }

  /** `order` names distinct sections of `content`, and `keyOrder` gives
      for each an order of its keys. */
  predicate SectionsOrdered(content: Content, order: seq<string>, keyOrder: map<string, seq<string>>) {
    && (forall i, j | 0 <= i < j < |order| :: order[i] != order[j])
    && (forall s | s in order :: s in content && s in keyOrder && IsOrderOf(keyOrder[s], content[s].Keys))
  }

  /** Without its last name, an ordered list of sections is still ordered
      and does not hold that name. */
  lemma SectionsOrderedInit(content: Content, order: seq<string>, keyOrder: map<string, seq<string>>)
    requires order != [] && SectionsOrdered(content, order, keyOrder)
    ensures var init, s := order[..|order| - 1], order[|order| - 1];
      && SectionsOrdered(content, init, keyOrder)
      && s !in init && s in content && s in keyOrder && IsOrderOf(keyOrder[s], content[s].Keys)
      && order == init + [s]
  {
    var init, s := order[..|order| - 1], order[|order| - 1];
    assert order == init + [s];
  }

  lemma SectionsOrderedListed(content: Content, order: seq<string>, keyOrder: map<string, seq<string>>)
    requires SectionsOrdered(content, order, keyOrder)
    ensures Listed(content, order, keyOrder)
  {
  }

  /** The state after reading the blocks of the sections in `order`, each
      named once: the unnamed section, then each section as it is in `content`. */
  lemma {:induction false} RunDocument(unnamed: string, content: Content, order: seq<string>,
                                       keyOrder: map<string, seq<string>>)
    requires SectionsOrdered(content, order, keyOrder)
    ensures Listed(content, order, keyOrder)
    ensures Run(Initial(unnamed), DocumentScan(content, order, keyOrder)).content ==
      map[unnamed := map[]] + Restrict(content, order)
    decreases |order|
  {
    SectionsOrderedListed(content, order, keyOrder);
    if order == [] {
      assert Restrict(content, order) == map[];
    } else {
      var init, s := order[..|order| - 1], order[|order| - 1];
      SectionsOrderedInit(content, order, keyOrder);
      RunDocument(unnamed, content, init, keyOrder);
      var a, b := DocumentScan(content, init, keyOrder), SectionScan(s, content[s], keyOrder[s]);
      var prev := Run(Initial(unnamed), a);
      RunAppend(Initial(unnamed), a, b);
      AddSection(unnamed, content, init, s, prev.content);
      RunSection(prev, s, content[s], keyOrder[s]);
    }
  }

  /** The content after one more section: the new name was not read
      before, so it is absent, or it is the unnamed section and empty. */
  lemma AddSection(unnamed: string, content: Content, init: seq<string>, s: string, c: Content)
    requires c == map[unnamed := map[]] + Restrict(content, init)
    requires s in content && s !in init
    ensures s !in c || c[s] == map[]
    ensures c[s := content[s]] == map[unnamed := map[]] + Restrict(content, init + [s])
  {
  }

  /** The text a document is written as reads back into the same document:
      every section with every item, plus the unnamed section that `open`
      always creates (empty, unless the document has a section of that name).
      This holds for every iteration order of the maps. */
  lemma RoundTrip(unnamed: string, content: Content, order: seq<string>,
                  keyOrder: map<string, seq<string>>, formatFloat: string -> string)
    requires Writable(content)
    requires IsIterationOrder(content, order, keyOrder)
    ensures Listed(content, order, keyOrder)
    ensures ParseLines(unnamed, Lines(Join(DocumentLines(content, order, keyOrder, formatFloat)))).content ==
      map[unnamed := map[]] + content
  {
    var doc := DocumentLines(content, order, keyOrder, formatFloat);
    DocumentRead(unnamed, content, order, keyOrder, formatFloat);
    LinesOfJoin(doc);
    TrailingEmptyLine(unnamed, doc);
  }

  /** The written lines of a document read back into the same document. */
  lemma DocumentRead(unnamed: string, content: Content, order: seq<string>,
                     keyOrder: map<string, seq<string>>, formatFloat: string -> string)
    requires Writable(content)
    requires IsIterationOrder(content, order, keyOrder)
    ensures Listed(content, order, keyOrder)
    ensures ParseLines(unnamed, DocumentLines(content, order, keyOrder, formatFloat)).content ==
      map[unnamed := map[]] + content
    ensures NewlineFree(DocumentLines(content, order, keyOrder, formatFloat))
  {
    assert SectionsOrdered(content, order, keyOrder);
    RunDocument(unnamed, content, order, keyOrder);
    DocumentLinesScan(content, order, keyOrder, formatFloat);
    assert Restrict(content, order) == content;
  }

  /** The empty line the last `getline` reads changes nothing. */
  lemma TrailingEmptyLine(unnamed: string, lines: seq<string>)
    ensures ParseLines(unnamed, lines + [""]) == ParseLines(unnamed, lines)
  {
    ScanAllAppend(lines, [""]);
    EmptyLineScan();
    RunAppend(Initial(unnamed), ScanAll(lines), [Ignored]);
    RunIgnored(ParseLines(unnamed, lines));
  }
}
