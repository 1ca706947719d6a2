/** The round trip through text, and the exact limits of what can be written down. */
module YamlDocumentRoundTrip {
  import opened Wrappers
  import opened YamlText
  import opened YamlParser
  import opened YamlPrinter
  import opened YamlRoundTrip
  import opened YamlDocument

  // ---- printed lines are trimmed and never document markers ----

  predicate ShapedLine(line: Line) {
    Trimmed(line.content) && !IsMarker(line.content)
  }

  ghost predicate Shaped(lines: seq<Line>) {
    forall i :: 0 <= i < |lines| ==> ShapedLine(lines[i])
  }

  lemma {:induction false} LinesShaped(numeric: string -> bool, style: Style, v: Value, indent: nat)
    requires StyleOk(numeric, style) && Printable(numeric, style, v)
    ensures Shaped(Lines(style, v, indent))
    decreases v, 1
  {
    hide ShapedLine, StyleOk;
    match v
    case Map(entries) => MapShaped(numeric, style, entries, indent);
    case List(items) => ListShaped(numeric, style, items, indent);
    case _ =>
  }

  lemma {:induction false} MapShaped(numeric: string -> bool, style: Style, entries: seq<(Value, Value)>, indent: nat)
    requires StyleOk(numeric, style) && PrintableEntries(numeric, style, entries)
    ensures Shaped(MapLines(style, entries, indent))
    decreases entries, 0
  {
    hide ShapedLine, StyleOk, EntryLines, PrintableEntry;
    if entries != [] {
      EntryShaped(numeric, style, entries[0], indent);
      MapShaped(numeric, style, entries[1..], indent);
    }
  }

  lemma {:induction false} EntryShaped(numeric: string -> bool, style: Style, entry: (Value, Value), indent: nat)
    requires StyleOk(numeric, style) && PrintableEntry(numeric, style, entry)
    ensures Shaped(EntryLines(style, entry, indent))
    decreases entry, 2
  {
    hide Trimmed, Scalar, Strip, Colon, Text, KeyContent, Lines, Printable, StyleOk, IsDash, IsQuoted;
    var (key, value) := entry;
    if Leaf(value) {
      TextOfLeaf(numeric, style, value);
      KeyLine(numeric, style, key, Text(style, value));
    } else {
      KeyLine(numeric, style, key, "");
      LinesShaped(numeric, style, value, Inner(style, value, indent));
    }
    KeyIsNoMarker();
  }

  lemma KeyIsNoMarker()
    ensures forall s :: IsMarker(s) ==> ':' !in s
  {
  }

  lemma {:induction false} ListShaped(numeric: string -> bool, style: Style, items: seq<Value>, indent: nat)
    requires StyleOk(numeric, style) && PrintableItems(numeric, style, items)
    ensures Shaped(ListLines(style, items, indent))
    decreases items, 0
  {
    hide ShapedLine, StyleOk, ItemLines, Printable;
    if items != [] {
      ItemShaped(numeric, style, items[0], indent);
      ListShaped(numeric, style, items[1..], indent);
    }
  }

  lemma {:induction false} ItemShaped(numeric: string -> bool, style: Style, item: Value, indent: nat)
    requires StyleOk(numeric, style) && Printable(numeric, style, item)
    ensures Shaped(ItemLines(style, item, indent))
    decreases item, 2
  {
    hide Trimmed, Scalar, Text, Lines, Printable, StyleOk, IsDash, IsQuoted, IsMarker;
    if Leaf(item) {
      TextOfLeaf(numeric, style, item);
      DashShaped(Text(style, item));
    } else {
      var inner := Lines(style, item, indent + 2);
      LinesShaped(numeric, style, item, indent + 2);
      FirstLine(numeric, style, item, indent + 2);
      assert ShapedLine(inner[0]);
      DashShaped(inner[0].content);
    }
  }

  lemma DashShaped(text: string)
    requires Trimmed(text)
    ensures Trimmed("- " + text) && !IsMarker("- " + text)
    ensures Trimmed("-") && !IsMarker("-")
  {
    var t := "- " + text;
    assert t[1] == ' ' && t[|t| - 1] == text[|text| - 1];
  }

  // ---- lines to text and back ----

  lemma {:induction false} NoMoreLinesThanText(word: char -> bool, raws: seq<string>)
    ensures Significant(word, raws).Ok? ==> |Significant(word, raws).value| <= |raws|
  {
    hide Meaning;
    if raws != [] {
      NoMoreLinesThanText(word, raws[..|raws| - 1]);
    }
  }

  lemma SignificantSnoc(word: char -> bool, raws: seq<string>, raw: string)
    ensures var before := Significant(word, raws);
            Significant(word, raws + [raw]) ==
            if before.Err? then before
            else if Meaning(word, raw).Err? then Err(Meaning(word, raw).error)
            else if Meaning(word, raw).value.None? then before
            else Ok(before.value + [Meaning(word, raw).value.value])
  {
    hide Meaning;
    assert (raws + [raw])[..|raws|] == raws;
  }

  lemma {:induction false} RawsLength(lines: seq<Line>)
    ensures |Raws(lines)| == |lines|
  {
    hide Raw;
    if lines != [] {
      RawsLength(lines[..|lines| - 1]);
    }
  }

  /** The text of some lines is read back as those lines exactly when every one of them survives. */
  lemma {:induction false} LinesReadBackIff(word: char -> bool, lines: seq<Line>)
    requires Shaped(lines)
    ensures Significant(word, Raws(lines)) == Ok(lines)
            <==> forall i :: 0 <= i < |lines| ==> Survives(word, lines[i])
  {
    hide Survives, Meaning, Raw, Trimmed, IsMarker, Significant;
    if lines == [] {
      NoLines(word);
    } else {
      var p, last := lines[..|lines| - 1], lines[|lines| - 1];
      assert lines == p + [last];
      assert ShapedLine(last);
      LinesReadBackIff(word, p);
      NoMoreLinesThanText(word, Raws(p));
      RawsLength(p);
      SurvivesIff(word, last);
      SignificantSnoc(word, Raws(p), Raw(last));
      OneLineMore(Significant(word, Raws(p)), Meaning(word, Raw(last)), Significant(word, Raws(lines)), p, last);
      assert (forall i :: 0 <= i < |lines| ==> Survives(word, lines[i]))
        <==> (forall i :: 0 <= i < |p| ==> Survives(word, p[i])) && Survives(word, last) by {
        assert forall i :: 0 <= i < |p| ==> p[i] == lines[i];
        assert lines[|p|] == last;
      }
    }
  }

  lemma NoLines(word: char -> bool)
    ensures Significant(word, []) == Ok([])
  {
  }

  lemma OneLineMore(before: Result<seq<Line>, YamlError>, meaning: Result<Option<Line>, YamlError>,
                    after: Result<seq<Line>, YamlError>, p: seq<Line>, last: Line)
    requires before.Ok? ==> |before.value| <= |p|
    requires after ==
             if before.Err? then before
             else if meaning.Err? then Err(meaning.error)
             else if meaning.value.None? then before
             else Ok(before.value + [meaning.value.value])
    ensures after == Ok(p + [last]) <==> before == Ok(p) && meaning == Ok(Some(last))
  {
    if after == Ok(p + [last]) {
      assert meaning.value.Some?;
      assert (before.value + [meaning.value.value])[|before.value|] == meaning.value.value;
      assert before.value == (p + [last])[..|before.value|];
    }
  }

  /**
   * A printed document, as text, is read back as its lines exactly when every line survives, and then it loads as
   * the value it was printed from.
   */
  lemma DocumentRoundTrip(numeric: string -> bool, word: char -> bool, style: Style, v: Value, indent: nat)
    requires StyleOk(numeric, style) && Printable(numeric, style, v) && !Leaf(v)
    ensures var lines := Lines(style, v, indent);
            && (Significant(word, Raws(lines)) == Ok(lines) <==> forall i :: 0 <= i < |lines| ==> Survives(word, lines[i]))
            && ((forall i :: 0 <= i < |lines| ==> Survives(word, lines[i])) ==> Load(numeric, word, Raws(lines)) == Ok(v))
  {
    hide StyleOk, Printable, Lines, Survives, Significant, ParseBlock, IsDash, Trimmed;
    var lines := Lines(style, v, indent);
    LinesShaped(numeric, style, v, indent);
    LinesReadBackIff(word, lines);
    FirstLine(numeric, style, v, indent);
    BlockRoundTrip(numeric, style, v, indent, []);
    assert lines + [] == lines;
  }

  /** A document that is a single scalar does not load. */
  lemma ScalarDocumentRefused(numeric: string -> bool, word: char -> bool, line: Line)
    requires ShapedLine(line) && Survives(word, line) && ':' !in line.content && !IsDash(line.content)
    ensures Load(numeric, word, [Raw(line)]) == Err(ExpectedKeyValue)
  {
    hide Survives, Trimmed, IsMarker, Raw, Significant, ParseMap, ParseList, IsDash, Colon;
    LinesReadBackIff(word, [line]);
    OneRaw(line);
    NoColonFound(line.content);
    MapEnds(numeric, [line], line.indent, []);
  }

  lemma OneRaw(line: Line)
    ensures Raws([line]) == [Raw(line)]
  {
    hide Raw;
    assert [line][..0] == [];
  }

  lemma NoColonFound(s: string)
    requires ':' !in s
    ensures Colon(s) == |s|
  {
  }

  // ---- which texts survive ----

  const SPECIAL: string := "#&*<|>"

  /** Without the characters of comments and unsupported features a printed line always survives. */
  lemma QuietLineSurvives(word: char -> bool, line: Line)
    requires ShapedLine(line) && forall c :: c in line.content ==> c !in SPECIAL
    ensures Survives(word, line)
  {
    var raw := Raw(line);
    hide Trimmed, IsMarker;
    forall i | 0 <= i < |raw| ensures raw[i] !in SPECIAL {
      if i >= line.indent { assert raw[i] == line.content[i - line.indent]; }
    }
    NoHashNoComment(raw);
    forall i, j | 0 <= i < j <= |raw| ensures !UnsupportedToken(word, raw[i..j]) {
      assert raw[i..j][0] == raw[i];
      TokenStartsSpecial(word, raw[i..j]);
    }
  }

  lemma NoHashNoComment(s: string)
    requires forall i :: 0 <= i < |s| ==> s[i] != '#'
    ensures CommentStart(s, 0) == |s|
  {
  }

  lemma TokenStartsSpecial(word: char -> bool, t: string)
    requires t != ""
    ensures UnsupportedToken(word, t) ==> t[0] in SPECIAL
  {
    assert "<<:"[0] == '<' && "|"[0] == '|' && ">"[0] == '>';
  }

  /** Inside quotes a '#' is text: a quoted string at the end of a line keeps every one of its characters. */
  lemma QuotedHashIsText(before: string, s: string)
    requires forall i :: 0 <= i < |before| ==> !IsQuote(before[i]) && before[i] != '#'
    requires Quote(s) !in s
    ensures CommentStart(before + Quoted(s), 0) == |before + Quoted(s)|
  {
    var line := before + Quoted(s);
    forall i | 0 <= i < |line| ensures !StartsComment(line, i) {
      if line[i] == '#' {
        assert |before| < i < |line| - 1;
        assert line[..i] == before + [Quote(s)] + s[..i - |before| - 1];
        StillOpen(before, Quote(s), s[..i - |before| - 1]);
      }
    }
  }

  lemma {:induction false} StillOpen(before: string, q: char, s: string)
    requires forall i :: 0 <= i < |before| ==> !IsQuote(before[i])
    requires IsQuote(q) && q !in s
    ensures OpenQuote(before) == None && OpenQuote(before + [q] + s) == Some(q)
    decreases |before| + |s|
  {
    if s != "" {
      StillOpen(before, q, s[..|s| - 1]);
      assert (before + [q] + s)[..|before + [q] + s| - 1] == before + [q] + s[..|s| - 1];
    } else {
      assert before + [q] + s == before + [q];
      assert (before + [q])[..|before|] == before;
      if before != "" {
        StillOpen(before[..|before| - 1], q, "");
      }
    }
  }

  // ---- one line ----

  /** A one-line mapping, given how its line splits. */
  lemma OneEntry(numeric: string -> bool, line: Line, key: Value, inline: string)
    requires var c := Colon(line.content);
             && c < |line.content| && Scalar(numeric, Strip(line.content[..c])) == key
             && Strip(line.content[c + 1..]) == inline
    requires inline != "" && Hashable(key)
    ensures ParseMap(numeric, [line], line.indent, []) == Done(Map([(key, Scalar(numeric, inline))]), [])
  {
    hide ParseMap, ParseBlock, ParseList, Scalar, Strip, Colon;
    MapTurn(numeric, [line], line.indent, []);
    assert [line][1..] == [];
    MapEnds(numeric, [], line.indent, [(key, Scalar(numeric, inline))]);
  }

  // ---- keys ----

  /** Nothing is read out of a text that was not in it. */
  lemma ScalarKeepsColonsOut(numeric: string -> bool, t: string)
    requires ':' !in t
    ensures Scalar(numeric, t).Str? ==> ':' !in Scalar(numeric, t).text
    ensures Scalar(numeric, t).Num? ==> ':' !in Scalar(numeric, t).literal
  {
  }

  /** The key of a printed line is read back exactly when there is no colon in its text: quoting does not help. */
  lemma KeyReadsBackIff(numeric: string -> bool, style: Style, key: Value, inline: string)
    requires StyleOk(numeric, style) && Leaf(key) && Printable(numeric, style, key) && (inline == "" || Trimmed(inline))
    ensures var content := KeyContent(style, key, inline);
            Scalar(numeric, Strip(content[..Colon(content)])) == key <==> ':' !in Text(style, key)
  {
    var content := KeyContent(style, key, inline);
    TextOfLeaf(numeric, style, key);
    if ':' !in Text(style, key) {
      hide Trimmed, Strip, Colon, Scalar, Text;
      SplitAtColon(Text(style, key), inline);
    } else {
      ColonInText(style, key);
      KeyCut(Text(style, key), content);
      hide Scalar, Colon;
      ScalarKeepsColonsOut(numeric, Strip(content[..Colon(content)]));
    }
  }

  lemma ColonInText(style: Style, key: Value)
    requires ':' in Text(style, key)
    ensures (key.Str? && ':' in key.text) || (key.Num? && ':' in key.literal)
  {
    if key.Str? && !style.plain(key.text) {
      var q := Quote(key.text);
      assert q != ':';
      assert forall c :: c in Quoted(key.text) ==> c == q || c in key.text;
    }
  }

  lemma KeyCut(t: string, content: string)
    requires |t| <= |content| && t == content[..|t|] && ':' in t
    ensures ':' !in Strip(content[..Colon(content)])
  {
    var cut := content[..Colon(content)];
    assert forall c :: c in Strip(cut) ==> c in cut by { StripIsWithin(cut); }
  }

  lemma StripIsWithin(s: string)
    ensures forall c :: c in Strip(s) ==> c in s
  {
    var l := LStrip(s);
    assert forall c :: c in l ==> c in s;
    assert forall c :: c in RStrip(l) ==> c in l;
  }
}
