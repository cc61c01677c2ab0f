/** The `Ini` class: the document's content, the name of its unnamed
    section, and the operations on them. `open` reads the lines of a
    stream into the content, `find` and `operator[]` look a section up,
    and `operator<<` writes the document out. */
module IniDocument {
  import opened IniText
  import opened IniPatterns
  import opened IniItem
  import opened IniParser
  import opened IniWriter

  class Ini {
    var content: Content
    var unnamed: string

    /** `Ini() = default`: no sections, and the unnamed section is called `unnamed`. */
    constructor ()
      ensures content == map[] && unnamed == "unnamed"
    {
      content := map[];
      unnamed := "unnamed";
    }

    /** `Ini(stream, unnamed)`: sets the name of the unnamed section, then opens the stream. */
    constructor FromLines(lines: seq<string>, unnamed: string)
      ensures this.unnamed == unnamed
      ensures content == ParseLines(unnamed, lines).content
    {
      this.unnamed := unnamed;
      content := map[];
      new;
      Open(lines);
    }

    /** `open` (and `operator>>`, which calls it): clears the content,
        inserts the unnamed section and reads the lines one by one. The
        `current` pointer is the name of the section it designates. */
    method Open(lines: seq<string>)
      modifies this
      ensures unnamed == old(unnamed)
      ensures content == ParseLines(unnamed, lines).content
    {
      content := map[];
      content := Insert(content, unnamed, map[]);
      var current := unnamed;
      var i := 0;
      while i < |lines|
        invariant 0 <= i <= |lines|
        invariant unnamed == old(unnamed)
        invariant ParseState(content, current) == Run(Initial(unnamed), ScanAll(lines[..i]))
      {
        var line := lines[i];
        ParseStep(unnamed, lines, i);
        var header := ParseSection(line);
        if header.Some? {
          content := Insert(content, header.value, map[]);
          current := header.value;
        } else {
          var kv := ParseKv(line);
          if kv.Some? {
            var (k, v) := kv.value;
            content := content[current := Insert(content[current], k, Classify(v))];
          }
        }
        i := i + 1;
      }
      assert lines[..i] == lines;
    }

    /** `find`: the section of that name, if there is one. */
    function Find(name: string): (r: Option<Section>)
      reads this
      ensures r.Some? <==> name in content
      ensures r.Some? ==> r.value == content[name]
    {
      if name in content then Some(content[name]) else None
    }

    /** `operator[]` on the document: the section of that name, inserted
        empty when it is missing; no other section changes. */
    method Index(name: string) returns (section: Section)
      modifies this
      ensures unnamed == old(unnamed)
      ensures name in old(content) ==> content == old(content)
      ensures name !in old(content) ==> content == old(content)[name := map[]]
      ensures section == content[name]
    {
      if name !in content {
        content := content[name := map[]];
      }
      section := content[name];
    }

    /** `ini[name][key]`: the item under that key, where both lookups
        insert what is missing, the section empty and the item as the
        default sentinel Str. */
    method Lookup(name: string, key: string) returns (item: Item)
      modifies this
      ensures unnamed == old(unnamed)
      ensures old(Find(name)).Some? && key in old(content)[name] ==>
        content == old(content) && item == content[name][key]
      ensures !(old(Find(name)).Some? && key in old(content)[name]) ==>
        item == DefaultItem() &&
        content == old(content)[name := (if name in old(content) then old(content)[name] else map[])[key := DefaultItem()]]
    {
      var section := Index(name);
      if key !in section {
        section := section[key := DefaultItem()];
        content := content[name := section];
      }
      item := section[key];
    }

    /** `stream << ini`: for each section in `order`, its `[name]` line, its
        entries in the order `keyOrder` gives, and an empty line, each line
        ended by a newline. */
    method Write(order: seq<string>, keyOrder: map<string, seq<string>>, formatFloat: string -> string)
      returns (text: string)
      requires Listed(content, order, keyOrder)
      ensures text == Join(DocumentLines(content, order, keyOrder, formatFloat))
    {
      text := "";
      for i := 0 to |order|
        invariant Listed(content, order[..i], keyOrder)
        invariant text == Join(DocumentLines(content, order[..i], keyOrder, formatFloat))
      {
        var name := order[i];
        var section, keys := content[name], keyOrder[name];
        var done := DocumentLines(content, order[..i], keyOrder, formatFloat);
        WriteHeaderStep(done, name, section, keys, formatFloat);
        text := text + HeaderText(name) + "\n";
        for j := 0 to |keys|
          invariant text == Join(done + [HeaderText(name)] + EntryLines(section, keys[..j], formatFloat))
        {
          var entry := EntryText(keys[j], section[keys[j]], formatFloat);
          WriteEntryStep(done + [HeaderText(name)], section, keys, j, formatFloat);
          text := text + entry + "\n";
        }
        assert keys[..|keys|] == keys;
        WriteSectionEnd(content, order, keyOrder, i, formatFloat);
        text := text + "\n";
      }
      assert order[..|order|] == order;
    }
  }
}
