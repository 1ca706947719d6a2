/** Reading what the printer writes gives the value back, and takes exactly its lines. */
module YamlRoundTrip {
  import opened YamlText
  import opened YamlParser
  import opened YamlPrinter

  // ---- single lines ----

  lemma QuotedText(numeric: string -> bool, s: string)
    ensures Scalar(numeric, Quoted(s)) == Str(s)
    ensures SafeText(Quoted(s))
  {
    var t := Quoted(s);
    assert t[1..|t| - 1] == s;
  }

  /** Text that reads back as itself in every position the printer uses it. */
  predicate SafeText(t: string) {
    t != "" && Trimmed(t) && !IsDash(t) && (':' !in t || IsQuoted(t))
  }

  lemma KeywordsAreSafe()
    ensures SafeText("null") && SafeText("true") && SafeText("false") && SafeText("{}") && SafeText("[]")
  {
  }

  lemma PlainIsSafe(t: string)
    requires PlainText(t)
    ensures SafeText(t)
  {
  }

  lemma TextOfLeaf(numeric: string -> bool, style: Style, v: Value)
    requires StyleOk(numeric, style) && Leaf(v) && Printable(numeric, style, v)
    ensures SafeText(Text(style, v)) && Scalar(numeric, Text(style, v)) == v
  {
    hide Scalar, Trimmed, IsDash, IsQuoted, Quoted;
    KeywordsAreSafe();
    ScalarKeywords(numeric);
    if v.Str? {
      QuotedText(numeric, v.text);
      if style.plain(v.text) { PlainIsSafe(v.text); }
    } else if v.Num? {
      PlainIsSafe(v.literal);
    }
  }

  lemma SplitAtColon(t: string, inline: string)
    requires Trimmed(t) && ':' !in t && (inline == "" || Trimmed(inline))
    ensures var content := t + ":" + if inline == "" then "" else " " + inline;
            Colon(content) == |t| && |t| < |content| && content[|t|] == ':'
            && Strip(content[..|t|]) == t && Strip(content[|t| + 1..]) == inline
  {
    var after := if inline == "" then "" else " " + inline;
    hide Trimmed, Strip;
    ColonAfterKey(t, after);
    StripTrimmed(t);
    if inline != "" { StripTrimmed(inline); } else { StripNothing(); }
  }

  lemma StripNothing()
    ensures Strip("") == ""
  {
  }

  lemma KeyLineShape(t: string, inline: string)
    requires SafeText(t) && ':' !in t && (inline == "" || Trimmed(inline))
    ensures var content := t + ":" + if inline == "" then "" else " " + inline;
            ':' in content && Trimmed(content) && !IsDash(content)
  {
    var content := t + ":" + if inline == "" then "" else " " + inline;
    hide IsSpace;
    assert !IsSpace(':') by { ColonIsNoSpace(); }
    assert content[|t|] == ':';
    assert content[0] == t[0] && (|t| > 1 ==> content[1] == t[1]);
    assert content[|content| - 1] == if inline == "" then ':' else inline[|inline| - 1];
  }

  lemma ColonIsNoSpace()
    ensures !IsSpace(':')
  {
  }

  /** A printed entry line splits back into its key and its inline text. */
  lemma KeyLine(numeric: string -> bool, style: Style, key: Value, inline: string)
    requires StyleOk(numeric, style) && KeyOk(numeric, style, key)
    requires inline == "" || Trimmed(inline)
    ensures var content := KeyContent(style, key, inline);
            var c := Colon(content);
            && c < |content| && ':' in content && Trimmed(content) && !IsDash(content)
            && Scalar(numeric, Strip(content[..c])) == key
            && Strip(content[c + 1..]) == inline
  {
    hide Trimmed, Strip, Colon, Scalar, Text, StyleOk, IsDash, IsQuoted;
    TextOfLeaf(numeric, style, key);
    SplitAtColon(Text(style, key), inline);
    KeyLineShape(Text(style, key), inline);
  }

  lemma DashLine(text: string)
    requires Trimmed(text)
    ensures IsDash("- " + text) && Item("- " + text) == text
  {
    assert ("- " + text)[1..] == " " + text;
    StripTrimmed(text);
  }

  lemma BareDash()
    ensures IsDash("-") && Item("-") == ""
  {
    assert "-"[1..] == "";
  }

  lemma PutNew(entries: seq<(Value, Value)>, key: Value, value: Value)
    requires NoKey(key, entries)
    ensures Put(entries, key, value) == entries + [(key, value)]
  {
    PutMeaning(entries, key, value, |entries|);
  }

  /** The first line of a printed block: a dash exactly for a list. */
  lemma FirstLine(numeric: string -> bool, style: Style, v: Value, indent: nat)
    requires StyleOk(numeric, style) && Printable(numeric, style, v) && !Leaf(v)
    ensures var lines := Lines(style, v, indent);
            && lines != [] && lines[0].indent == indent
            && (IsDash(lines[0].content) <==> v.List?)
            && (v.Map? ==> ':' in lines[0].content && Trimmed(lines[0].content))
  {
    if v.Map? {
      FirstOfMap(numeric, style, v.entries, indent);
    } else {
      FirstOfItem(numeric, style, v.items[0], indent);
    }
  }

  lemma FirstOfMap(numeric: string -> bool, style: Style, entries: seq<(Value, Value)>, indent: nat)
    requires StyleOk(numeric, style) && PrintableEntries(numeric, style, entries) && entries != []
    ensures var first := MapLines(style, entries, indent)[0].content;
            ':' in first && Trimmed(first) && !IsDash(first)
  {
    hide Scalar, Trimmed, Strip, Colon, IsDash, IsQuoted, Text, KeyContent, Lines, StyleOk;
    var (key, value) := entries[0];
    if Leaf(value) { TextOfLeaf(numeric, style, value); }
    KeyLine(numeric, style, key, if Leaf(value) then Text(style, value) else "");
  }

  lemma FirstOfItem(numeric: string -> bool, style: Style, item: Value, indent: nat)
    requires StyleOk(numeric, style) && Printable(numeric, style, item)
    ensures IsDash(ItemLines(style, item, indent)[0].content)
  {
    if Leaf(item) { TextOfLeaf(numeric, style, item); }
  }

  // ---- what may follow ----

  /** A list also ends at a line of its own level that is no dash, like the next key. */
  predicate EndsList(rest: seq<Line>, indent: nat) {
    rest == [] || rest[0].indent < indent || (rest[0].indent == indent && !IsDash(rest[0].content))
  }

  // ---- the round trip ----

  lemma FirstEntryFirst(numeric: string -> bool, style: Style, entries: seq<(Value, Value)>, indent: nat, rest: seq<Line>)
    requires StyleOk(numeric, style) && PrintableEntries(numeric, style, entries) && EndsBlock(rest, indent)
    requires entries != []
    ensures MapLines(style, entries, indent) + rest
            == EntryLines(style, entries[0], indent) + (MapLines(style, entries[1..], indent) + rest)
    ensures EndsList(MapLines(style, entries[1..], indent) + rest, indent)
  {
    hide EntryLines, Scalar, PrintableEntry, StyleOk, Trimmed, IsDash;
    if entries[1..] != [] { FirstOfMap(numeric, style, entries[1..], indent); }
  }

  lemma {:induction false} MapRoundTrip(numeric: string -> bool, style: Style, entries: seq<(Value, Value)>,
                                        indent: nat, out: seq<(Value, Value)>, rest: seq<Line>)
    requires StyleOk(numeric, style) && PrintableEntries(numeric, style, entries) && EndsBlock(rest, indent)
    requires forall i :: 0 <= i < |entries| ==> NoKey(entries[i].0, out)
    ensures ParseMap(numeric, MapLines(style, entries, indent) + rest, indent, out) == Done(Map(out + entries), rest)
    decreases entries, 3
  {
    hide ParseMap, EntryLines, Scalar, PrintableEntry, StyleOk, Put, AllFrom, IsDash;
    if entries == [] {
      assert MapLines(style, entries, indent) + rest == rest;
      assert out + entries == out;
      MapEnds(numeric, rest, indent, out);
    } else {
      var entry, others := entries[0], entries[1..];
      var after := MapLines(style, others, indent) + rest;
      FirstEntryFirst(numeric, style, entries, indent, rest);
      EntryRoundTrip(numeric, style, entry, indent, out, after);
      assert NoKey(entry.0, out);
      PutNew(out, entry.0, entry.1);
      StillNew(entries, out);
      assert (entry.0, entry.1) == entry;
      MapRoundTrip(numeric, style, others, indent, out + [entry], rest);
      assert out + [entry] + others == out + entries;
    }
  }

  lemma StillNew(entries: seq<(Value, Value)>, out: seq<(Value, Value)>)
    requires entries != [] && NoKey(entries[0].0, entries[1..])
    requires forall i :: 0 <= i < |entries| ==> NoKey(entries[i].0, out)
    ensures forall i :: 0 <= i < |entries[1..]| ==> NoKey(entries[1..][i].0, out + [entries[0]])
  {
    forall i | 0 <= i < |entries[1..]| ensures NoKey(entries[1..][i].0, out + [entries[0]]) {
      assert NoKey(entries[i + 1].0, out);
    }
  }

  lemma {:induction false} EntryRoundTrip(numeric: string -> bool, style: Style, entry: (Value, Value),
                                          indent: nat, out: seq<(Value, Value)>, after: seq<Line>)
    requires StyleOk(numeric, style) && PrintableEntry(numeric, style, entry)
    requires EndsList(after, indent)
    ensures ParseMap(numeric, EntryLines(style, entry, indent) + after, indent, out) ==
            ParseMap(numeric, after, indent, Put(out, entry.0, entry.1))
    decreases entry, 2
  {
    hide ParseMap, ParseBlock, ParseList, Scalar, Put, Lines, KeyContent, Printable, StyleOk, Trimmed, Strip, Colon,
         IsDash, IsQuoted, Text, AllFrom, IsSuffix;
    var (key, value) := entry;
    var inline := if Leaf(value) then Text(style, value) else "";
    if Leaf(value) {
      TextOfLeaf(numeric, style, value);
    } else {
      NestedRoundTrip(numeric, style, value, indent, after);
    }
    KeyLine(numeric, style, key, inline);
    var lines := EntryLines(style, entry, indent) + after;
    assert lines[1..] == (if Leaf(value) then [] else Lines(style, value, Inner(style, value, indent))) + after;
    assert Leaf(value) ==> lines[1..] == after;
    MapTurn(numeric, lines, indent, out);
  }

  lemma {:induction false} NestedRoundTrip(numeric: string -> bool, style: Style, value: Value, indent: nat, after: seq<Line>)
    requires StyleOk(numeric, style) && Printable(numeric, style, value) && !Leaf(value)
    requires EndsList(after, indent)
    ensures EntryValue(numeric, "", Lines(style, value, Inner(style, value, indent)) + after, indent) == Done(value, after)
    decreases value, 1
  {
    hide ParseMap, ParseBlock, ParseList, Scalar;
    var deep := Inner(style, value, indent);
    FirstLine(numeric, style, value, deep);
    if deep == indent {
      ListRoundTrip(numeric, style, value.items, indent, [], after);
    } else {
      BlockRoundTrip(numeric, style, value, deep, after);
    }
  }

  lemma {:induction false} BlockRoundTrip(numeric: string -> bool, style: Style, v: Value, indent: nat, rest: seq<Line>)
    requires StyleOk(numeric, style) && Printable(numeric, style, v) && !Leaf(v) && EndsBlock(rest, indent)
    ensures ParseBlock(numeric, Lines(style, v, indent) + rest, indent) == Done(v, rest)
    decreases v, 0
  {
    hide ParseMap, ParseList, Scalar;
    FirstLine(numeric, style, v, indent);
    if v.Map? {
      MapRoundTrip(numeric, style, v.entries, indent, [], rest);
      assert [] + v.entries == v.entries;
    } else {
      ListRoundTrip(numeric, style, v.items, indent, [], rest);
    }
  }

  lemma FirstItemFirst(style: Style, items: seq<Value>, indent: nat, rest: seq<Line>)
    requires items != [] && EndsList(rest, indent)
    ensures ListLines(style, items, indent) + rest
            == ItemLines(style, items[0], indent) + (ListLines(style, items[1..], indent) + rest)
    ensures var after := ListLines(style, items[1..], indent) + rest;
            after == [] || after[0].indent <= indent
  {
    hide ItemLines, AllFrom;
    var first, others := ItemLines(style, items[0], indent), ListLines(style, items[1..], indent);
    assert ListLines(style, items, indent) == first + others;
    hide ListLines;
    assert (first + others) + rest == first + (others + rest);
  }

  lemma {:induction false} ListRoundTrip(numeric: string -> bool, style: Style, items: seq<Value>,
                                         indent: nat, out: seq<Value>, rest: seq<Line>)
    requires StyleOk(numeric, style) && PrintableItems(numeric, style, items) && EndsList(rest, indent)
    ensures ParseList(numeric, ListLines(style, items, indent) + rest, indent, out) == Done(List(out + items), rest)
    decreases items, 3
  {
    hide ParseList, ItemValue, ItemLines, Scalar, IsDash, StyleOk, Printable, AllFrom;
    if items == [] {
      assert ListLines(style, items, indent) + rest == rest;
      assert out + items == out;
      ListEnds(numeric, rest, indent, out);
    } else {
      var item, others := items[0], items[1..];
      var after := ListLines(style, others, indent) + rest;
      var lines := ItemLines(style, item, indent) + after;
      FirstItemFirst(style, items, indent, rest);
      FirstOfItem(numeric, style, item, indent);
      ItemRoundTrip(numeric, style, item, indent, after);
      ListTurn(numeric, lines, indent, out);
      ListRoundTrip(numeric, style, others, indent, out + [item], rest);
      assert out + [item] + others == out + items;
    }
  }

  lemma {:induction false} ItemRoundTrip(numeric: string -> bool, style: Style, item: Value, indent: nat, after: seq<Line>)
    requires StyleOk(numeric, style) && Printable(numeric, style, item)
    requires after == [] || after[0].indent <= indent
    ensures var lines := ItemLines(style, item, indent) + after;
            lines[0].content != "" && ItemValue(numeric, lines, indent) == Done(item, after)
    decreases item, 2
  {
    if Leaf(item) {
      LeafItem(numeric, style, item, indent, after);
    } else if item.Map? && !IsQuoted(Lines(style, item, indent + 2)[0].content) {
      MapOnDash(numeric, style, item, indent);
      DashMapItem(numeric, style, item, indent, after);
    } else {
      BlockRoundTrip(numeric, style, item, indent + 2, after);
      BareDashItem(numeric, style, item, indent, after);
    }
  }

  lemma LeafItem(numeric: string -> bool, style: Style, item: Value, indent: nat, after: seq<Line>)
    requires StyleOk(numeric, style) && Printable(numeric, style, item) && Leaf(item)
    ensures var lines := ItemLines(style, item, indent) + after;
            lines[0].content != "" && ItemValue(numeric, lines, indent) == Done(item, after)
  {
    TextOfLeaf(numeric, style, item);
    hide ItemValue, Scalar, Text, Item, Trimmed, IsQuoted, StyleOk, Printable;
    var lines := ItemLines(style, item, indent) + after;
    DashLine(Text(style, item));
    assert lines[1..] == after;
    ItemTurn(numeric, lines, indent, Text(style, item), after);
  }

  lemma DashMapItem(numeric: string -> bool, style: Style, item: Value, indent: nat, after: seq<Line>)
    requires StyleOk(numeric, style) && Printable(numeric, style, item) && item.Map? && !Leaf(item)
    requires after == [] || after[0].indent <= indent
    requires !IsQuoted(Lines(style, item, indent + 2)[0].content)
    requires ParseMap(numeric, Lines(style, item, indent + 2), indent + 2, []) == Done(item, [])
    ensures var lines := ItemLines(style, item, indent) + after;
            lines[0].content != "" && ItemValue(numeric, lines, indent) == Done(item, after)
  {
    hide ItemValue, ParseMap, Scalar, Lines, Item, Trimmed, IsQuoted, IsDash, StyleOk, Printable, Refed, Beyond, Deeper, AllFrom;
    FirstLine(numeric, style, item, indent + 2);
    var inner := Lines(style, item, indent + 2);
    DashLine(inner[0].content);
    RefedGivesBack(inner, after, indent);
    ItemTurn(numeric, [Line(indent, "- " + inner[0].content)] + inner[1..] + after, indent, inner[0].content, inner[1..] + after);
  }

  lemma BareDashItem(numeric: string -> bool, style: Style, item: Value, indent: nat, after: seq<Line>)
    requires StyleOk(numeric, style) && Printable(numeric, style, item) && !Leaf(item)
    requires !item.Map? || IsQuoted(Lines(style, item, indent + 2)[0].content)
    requires ParseBlock(numeric, Lines(style, item, indent + 2) + after, indent + 2) == Done(item, after)
    ensures var lines := ItemLines(style, item, indent) + after;
            lines[0].content != "" && ItemValue(numeric, lines, indent) == Done(item, after)
  {
    hide ItemValue, ParseBlock, Scalar, Lines, Item, Trimmed, IsQuoted, IsDash, StyleOk, Printable, AllFrom;
    FirstLine(numeric, style, item, indent + 2);
    BareDash();
    var lines := ItemLines(style, item, indent) + after;
    assert lines[1..] == Lines(style, item, indent + 2) + after;
    ItemTurn(numeric, lines, indent, "", Lines(style, item, indent + 2) + after);
  }

  lemma MapOnDash(numeric: string -> bool, style: Style, item: Value, indent: nat)
    requires StyleOk(numeric, style) && Printable(numeric, style, item) && item.Map?
    ensures ParseMap(numeric, Lines(style, item, indent + 2), indent + 2, []) == Done(item, [])
    decreases item, 1
  {
    MapRoundTrip(numeric, style, item.entries, indent + 2, [], []);
    var inner := Lines(style, item, indent + 2);
    assert inner + [] == inner;
    assert [] + item.entries == item.entries;
  }

  /** Gathering takes back exactly the lines of the mapping. */
  lemma RefedGivesBack(inner: seq<Line>, after: seq<Line>, indent: nat)
    requires inner != [] && inner[0].indent == indent + 2 && AllFrom(inner, indent + 2)
    requires after == [] || after[0].indent <= indent
    ensures var lines := [Line(indent, "- " + inner[0].content)] + inner[1..] + after;
            && lines[1..] == inner[1..] + after
            && Deeper(lines[1..], indent) == |inner| - 1
            && Refed(inner[0].content, lines, indent) == inner
            && Beyond(lines[1..], indent) == after
  {
    var lines := [Line(indent, "- " + inner[0].content)] + inner[1..] + after;
    var tail := inner[1..] + after;
    assert lines[1..] == tail;
    var n := Deeper(tail, indent);
    assert forall i :: 0 <= i < |inner| - 1 ==> tail[i] == inner[i + 1];
    assert after != [] ==> tail[|inner| - 1] == after[0];
    assert tail[..n] == inner[1..];
    assert tail[n..] == after;
  }
}
