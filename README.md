# inipp in Dafny

A model of the header-only C++ INI library `inipp` (`include/inipp/inipp.hpp`).
The library parses INI text into an in-memory document of sections and tagged
values (`Ini::open`), looks sections up (`find`, `operator[]`), and writes a
document back out (`operator<<`). The model follows the header as written,
and proves what each part does.

Modules, one per file:

- `IniText` (`text.dfy`): character classes (`\s`, digits) and small
  scanners on strings. `SkipLeadingSpace` is what a `\s*` followed by a greedy
  group captures. `DecimalDigits` and `DecimalValue` write and read decimal
  numbers.
- `IniPatterns` (`patterns.dfy`): the five regular expressions of `open`.
  Each one has two forms. One is a ghost predicate for the language the
  pattern denotes under whole-string `regex_match`. The other is an executable
  scanner that computes the capture groups. An if-and-only-if lemma ties them
  together.
- `IniItem` (`item.dfy`): `Ini::Item`.
  - `Item` is the value an item holds: the tag and the payload.
  - `ItemObject` is the C++ object, a tag beside one payload slot per tag.
    Its `setData` overloads, constructors, accessors and copy assignment
    update or read its fields.
- `IniParser` (`parser.dfy`): `open` as a function of its input lines.
  - `Scan` reads a line through the patterns and gives a header, an entry
    with its classified item, or nothing.
  - `Apply` performs one pass of the loop body.
  - `Run` / `ParseLines` fold `Apply` over the lines.
  - The file also holds the lemmas about classification, single lines and
    whole inputs.
- `IniWriter` (`writer.dfy`): the two `operator<<` overloads as functions
  that build the written lines and text. It also holds the proofs that
  written lines, and whole written documents, read back into what was
  written.
- `IniDocument` (`document.dfy`): the class `Ini` with its `content` map and
  its `unnamed` name.
  - `Open` is the imperative `while` loop of `open`, proved equal to
    `ParseLines`. `operator>>` only calls `open`, so `Open` models it too.
  - `Find` models `find`, and `Index` and `Lookup` model the inserting
    `operator[]`.
  - `Write` models the nested loops of `operator<<`, proved equal to the
    writer's text.

Where descriptions of the library and the header disagree, the model follows
the header:

- The header never overwrites an entry, because a later line with the same
  key is ignored (`unordered_map::insert`). Last-write-wins is not what it
  does.
- `(;|$)` under whole-line matching allows a single `;` and only as the last
  character. Any comment text after a `;` makes the line match nothing.
- Only double quotes delimit strings. A `;` can never occur in a value.
- Leading whitespace of key and value is dropped, but trailing whitespace is
  kept: the greedy `[^=;]+` takes it.
- The typed accessors do not check the tag.
- There are no array accessors.

## Model

| member | source | states |
|---|---|---|
| IniPatterns.SectionParserIsPattern | include/inipp/inipp.hpp:134 | the header scanner returns `name` exactly when the header pattern matches the whole line with `name` as group 1 |
| IniPatterns.HeaderBodyHasNoSemicolon | include/inipp/inipp.hpp:134 | a header line holds no `;` except the one final character the terminator may take |
| IniPatterns.HeaderLastChar | include/inipp/inipp.hpp:134 | the text of a header line before its terminator ends in `]` or in whitespace |
| IniPatterns.KvParserIsPattern | include/inipp/inipp.hpp:135 | the key/value scanner accepts exactly the lines the key/value pattern matches as a whole |
| IniPatterns.ParsedKvParts | include/inipp/inipp.hpp:135 | an accepted line is whitespace, key, `=`, whitespace, value and an optional final `;`; key and value are non-empty and free of `=` and `;`, and each starts with a non-space character unless it is one character long |
| IniPatterns.KvParserCaptures | include/inipp/inipp.hpp:135 | the key and value the scanner reports are exactly the groups the backtracking matcher captures: leading whitespace is dropped (leaving one character when a side is all whitespace) and trailing whitespace is kept, in both directions |
| IniText.SkipLeadingSpaceSplit | include/inipp/inipp.hpp:135 | after whitespace `w`, a side whose text starts with a non-space character, or is one character long, is captured whole |
| IniPatterns.SecondEqualsRejected | include/inipp/inipp.hpp:135 | a line with two `=` is not a key/value line |
| IniPatterns.TextAfterSemicolonRejected | include/inipp/inipp.hpp:134-135 | a line with any character after a `;` matches neither line pattern |
| IniPatterns.QuotedParserIsPattern | include/inipp/inipp.hpp:136 | the quote scanner returns `inner` exactly when the value is `"inner"` and `inner` has no line terminator (what `.` excludes) |
| IniPatterns.IntRuleIsPattern | include/inipp/inipp.hpp:137 | the integer scanner accepts exactly an optional sign followed by one or more digits |
| IniPatterns.MantissaScannerIsPattern | include/inipp/inipp.hpp:138 | the mantissa scanner accepts exactly the three alternatives `[0-9]*\.[0-9]+`, `[0-9]+\.[0-9]*` and `[0-9]+` |
| IniPatterns.FloatRuleIsPattern | include/inipp/inipp.hpp:138 | the float scanner accepts exactly sign, mantissa and optional exponent as the float pattern has them |
| IniPatterns.IntTextIsFloatText | include/inipp/inipp.hpp:137-138 | every text the integer pattern accepts is accepted by the float pattern too |
| IniText.DecimalRoundTrip | include/inipp/inipp.hpp:160-162 | reading back the decimal digits written for `n` gives `n` |
| IniParser.ReadInt64Nearest | include/inipp/inipp.hpp:158-164 | `ss >> int64_t` gives the value of the integer text when it fits, and in every case the int64 nearest to it (saturation) |
| IniParser.ClassifyQuoted | include/inipp/inipp.hpp:153-157 | a quoted value becomes a Str without its quotes, even when the inner text is numeric |
| IniParser.ClassifyInt | include/inipp/inipp.hpp:158-164 | an unquoted value the integer pattern matches becomes an Int64 holding the value read |
| IniParser.ClassifyFloat | include/inipp/inipp.hpp:165-171 | a value becomes a Float exactly when the float pattern matches and the integer pattern does not; its payload is the text |
| IniParser.NoIntegerIsFloat | include/inipp/inipp.hpp:158-171 | an integer-looking value also matches the float pattern, yet is never tagged Float |
| IniParser.ClassifyRaw | include/inipp/inipp.hpp:172-175 | a value no pattern matches becomes a Str holding the raw text |
| IniParser.Apply | include/inipp/inipp.hpp:144-176 | one pass of the loop keeps the `current` pointer on a section of the content |
| IniParser.HeaderLine | include/inipp/inipp.hpp:144-148 | a header line wins over the key/value reading; it creates its section empty only when absent (re-declaring keeps the entries) and makes it current |
| IniParser.KeyValueLine | include/inipp/inipp.hpp:149-176 | a key/value line adds its classified item to the current section only when the key is absent; otherwise nothing changes (first write wins); the current section stays |
| IniParser.IgnoredLine | include/inipp/inipp.hpp:140-177 | a line matching neither pattern changes neither the content nor the current section |
| IniParser.CommentedLineIgnored | include/inipp/inipp.hpp:134-135 | a line with text after a `;` changes nothing |
| IniParser.OpenSections | include/inipp/inipp.hpp:127-130 | after `open` the sections are exactly the unnamed one and those header lines name; earlier content is gone |
| IniParser.OpenPrefix | include/inipp/inipp.hpp:127-130 | key lines before the first header land in the unnamed section, the first line for each key deciding its item |
| IniParser.RunExtends | include/inipp/inipp.hpp:149-176 | once an entry is in, no later line removes or replaces it |
| IniParser.RunWithoutHeaders | include/inipp/inipp.hpp:149-176 | lines without headers add their entries to the current section, the entries already there taking precedence |
| IniItem.Item.Type | include/inipp/inipp.hpp:107 | the tag is Int64, Float or Str exactly when the payload is of that kind |
| IniItem.DefaultItem | include/inipp/inipp.hpp:39-42 | the default item is a Str holding the fixed sentinel text |
| IniItem.ItemObject.Value | include/inipp/inipp.hpp:22-29 | the value an object holds is the payload its tag selects |
| IniItem.ItemObject.Type | include/inipp/inipp.hpp:107 | `type()` is the tag of the value held |
| IniItem.ItemObject.AsInt64 | include/inipp/inipp.hpp:104 | callable only when the tag is Int64 (no check in the source); returns the payload of the value held |
| IniItem.ItemObject.AsFloat | include/inipp/inipp.hpp:105 | callable only when the tag is Float; returns the payload of the value held |
| IniItem.ItemObject.AsStr | include/inipp/inipp.hpp:106 | callable only when the tag is Str; returns the payload of the value held |
| IniItem.ItemObject.SetInt64 | include/inipp/inipp.hpp:31 | sets the Int64 slot and the tag, leaving the other slots; the value held is the new Int64 |
| IniItem.ItemObject.SetFloat | include/inipp/inipp.hpp:32 | the same for Float |
| IniItem.ItemObject.SetStr | include/inipp/inipp.hpp:33 | the same for Str |
| IniItem.ItemObject.FromInt64 | include/inipp/inipp.hpp:36 | a new object holds the Int64 given |
| IniItem.ItemObject.FromFloat | include/inipp/inipp.hpp:37 | a new object holds the Float given |
| IniItem.ItemObject.FromStr | include/inipp/inipp.hpp:38 | a new object holds the Str given |
| IniItem.ItemObject.constructor | include/inipp/inipp.hpp:39-42 | a default-constructed object holds the sentinel Str |
| IniItem.ItemObject.Assign | include/inipp/inipp.hpp:59-77 | copy assignment takes both tag and value of the other object and leaves that object unchanged |
| IniItem.ItemObject.Copy | include/inipp/inipp.hpp:101 | the copy constructor gives an object holding the same tag and value |
| IniWriter.DecimalTextFacts | include/inipp/inipp.hpp:195 | an Int64 is written in decimal, and the integer pattern reads it back as the same int64 |
| IniWriter.ItemTextFacts | include/inipp/inipp.hpp:190-205 | the written text of an Int64 or of a Str without `=`, `;` or a line break is classified back into the same item |
| IniWriter.HeaderRoundTrip | include/inipp/inipp.hpp:211 | a written `[name]` line reads back as the header of the same section |
| IniWriter.EntryRoundTrip | include/inipp/inipp.hpp:214 | a written `key=value` line reads back as the same key and the same tagged item, and has no newline |
| IniWriter.EmptyLineIgnored | include/inipp/inipp.hpp:216 | the empty line after a section is ignored |
| IniWriter.SectionLinesScan | include/inipp/inipp.hpp:211-216 | a section's written block reads back as its header, its entries in order and an ignored line |
| IniWriter.DocumentLinesScan | include/inipp/inipp.hpp:209-217 | a written document reads back, line by line, as its sections' blocks, and no written line holds a newline |
| IniWriter.LinesOfJoin | include/inipp/inipp.hpp:140-142 | splitting the written text at newlines, as the `getline` loop does, gives the written lines plus the final empty line |
| IniWriter.TrailingEmptyLine | include/inipp/inipp.hpp:140-142 | the empty line the last `getline` reads changes nothing |
| IniWriter.RunDocument | include/inipp/inipp.hpp:144-176 | reading the blocks of distinct sections gives the unnamed section plus each section exactly as it was written |
| IniWriter.DocumentRead | include/inipp/inipp.hpp:207-219 | the written lines of a document read back into the same document plus the unnamed section |
| IniWriter.RoundTrip | include/inipp/inipp.hpp:207-219 | for every iteration order of the maps, `open` on the text `operator<<` writes gives back every section and every item, plus the unnamed section (empty unless written) |
| IniDocument.Ini.constructor | include/inipp/inipp.hpp:119 | a default document has no sections and the unnamed name `unnamed` |
| IniDocument.Ini.FromLines | include/inipp/inipp.hpp:120-123 | the stream constructor sets the unnamed name and then opens the lines |
| IniDocument.Ini.Open | include/inipp/inipp.hpp:125-178 | the `while` loop leaves exactly the content `ParseLines` describes, and keeps the unnamed name |
| IniDocument.Ini.Find | include/inipp/inipp.hpp:180-181 | `find` reports the section of that name exactly when there is one, and reads the content without changing it |
| IniDocument.Ini.Index | include/inipp/inipp.hpp:182 | `operator[]` returns the section, inserting it empty when missing; no other section changes |
| IniDocument.Ini.Lookup | include/inipp/inipp.hpp:182 | `ini[name][key]` returns the item, inserting an empty section and the sentinel Str when missing; nothing else changes |
| IniDocument.Ini.Write | include/inipp/inipp.hpp:207-219 | the nested loops produce the text of the written lines, for the given iteration order |

## Left out

- `example/main.cpp` is a driver that does file and console I/O. It is not part of this model.
- Streams are not modelled. `open` takes the sequence of lines that its
  `getline` loop reads. `IniWriter.Lines` gives that sequence for a text, split
  at each `\n`: an empty text gives one empty line, and a final newline gives
  one more empty line. Stream errors other than end of file are not modelled.
- Classify: a Float keeps the literal text it was read from. The `double`
  that `ss >> double` computes is not modelled, because floating point is out
  of scope.
- IniWriter.ItemText: a Float is written with the `formatFloat` parameter,
  which stands for the stream's formatting of the double.
- IniWriter.RoundTrip holds only for documents whose items carry no Float, and
  whose names, keys and strings survive the patterns:
  - a name has no `[`, `]`, `;` or newline;
  - a key has no `=`, `;` or newline, and starts with a non-space character
    unless it is one character long;
  - a Str has no `=`, `;`, newline or carriage return.
- IniWriter.EntryRoundTrip: same restriction, for one entry line.
- The `new`/`delete` lifetime of the payload is not modelled: the union
  pointers, the null initial pointer and the destructor. An `ItemObject` has
  one field per payload slot instead.
- The move constructor and the move assignment are not modelled. The move
  constructor copies, because `o` is an lvalue inside it. The move assignment
  never sets the tag.
- IniItem.ItemObject.Assign requires two distinct objects. In the source,
  self-assignment destroys the payload before reading it, which is undefined
  behaviour.
- The content maps hold `Item` values rather than `ItemObject`s. A copy into
  a map is modelled as a copy of the value.
- `operator[]` returns a reference into the map. `Index` returns the section's
  value, so writing through the reference is not modelled.
- `unordered_map` iteration order, and the `begin`/`end` iterators, are
  modelled as parameters. The section order and the per-section key orders
  are given explicitly, and `IsIterationOrder` says they list each name once.
- The `const` overload of `find` behaves like the other overload, and is
  modelled by the same `Find`.
