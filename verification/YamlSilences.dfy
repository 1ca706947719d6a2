/** Inputs outside the subset that the loader takes in without an error, and exactly what it makes of them. */
module YamlSilences {
  import opened Wrappers
  import opened YamlText
  import opened YamlParser
  import opened YamlPrinter
  import opened YamlRoundTrip
  import opened YamlDocument
  import opened YamlDocumentRoundTrip

  // ---- flow mappings with content ----

  lemma BracesAreTrimmed(x: string)
    ensures Trimmed("{" + x + "}")
  {
  }

  /** Under a key, a flow mapping with content is loaded as its text, whatever it says. */
  lemma FlowMappingUnderKey(numeric: string -> bool, style: Style, key: Value, x: string, indent: nat)
    requires StyleOk(numeric, style) && KeyOk(numeric, style, key)
    requires x != "" && !numeric("{" + x + "}")
    ensures ParseMap(numeric, [Line(indent, KeyContent(style, key, "{" + x + "}"))], indent, [])
            == Done(Map([(key, Str("{" + x + "}"))]), [])
  {
    hide ParseMap, Scalar, Strip, Colon, Trimmed, KeyContent, StyleOk, IsQuoted, IsDash;
    var text := "{" + x + "}";
    BracesAreTrimmed(x);
    FlowMappingIsText(numeric, x);
    KeyLine(numeric, style, key, text);
    OneEntry(numeric, Line(indent, KeyContent(style, key, text)), key, text);
  }

  /** Behind a dash, the braces go to the first key and the last value. */
  lemma FlowMappingOnDash(numeric: string -> bool, k: string, v: string, indent: nat)
    requires Trimmed(k) && ':' !in k && Trimmed(v) && Hashable(Scalar(numeric, "{" + k))
    ensures ItemValue(numeric, [Line(indent, "- " + ("{" + k + ": " + v + "}"))], indent)
            == Done(Map([(Scalar(numeric, "{" + k), Scalar(numeric, v + "}"))]), [])
  {
    var key, value := "{" + k, v + "}";
    var item := "{" + k + ": " + v + "}";
    hide ParseMap, ItemValue, Scalar, Strip, Colon, Trimmed, Item, IsQuoted, Refed, Beyond;
    ExtendTrimmed(k, v);
    BracesSplit(k, v);
    DashLine(item);
    AloneOnDash(numeric, item, indent);
    OneEntry(numeric, Line(indent + 2, item), Scalar(numeric, key), value);
  }

  lemma BracesSplit(k: string, v: string)
    requires Trimmed(k) && ':' !in k && Trimmed(v)
    ensures var item, key, value := "{" + k + ": " + v + "}", "{" + k, v + "}";
            && ':' in item && !IsQuoted(item) && item != "" && value != ""
            && Colon(item) == |key| && |key| < |item| && Strip(item[..|key|]) == key && Strip(item[|key| + 1..]) == value
  {
    ExtendTrimmed(k, v);
    hide Trimmed, Strip, Colon, IsQuoted;
    BracesAssoc(k, v);
    SplitAtColon("{" + k, v + "}");
    BracesAreNoQuotes(k, v);
  }

  lemma BracesAssoc(k: string, v: string)
    requires v != ""
    ensures "{" + k + ": " + v + "}" == ("{" + k) + ":" + (" " + (v + "}"))
  {
  }

  lemma BracesAreNoQuotes(k: string, v: string)
    ensures var item := "{" + k + ": " + v + "}"; item != "" && ':' in item && !IsQuoted(item)
  {
    var item := "{" + k + ": " + v + "}";
    assert item[0] == '{' && item[1 + |k|] == ':';
  }

  lemma AloneOnDash(numeric: string -> bool, item: string, indent: nat)
    requires ':' in item && !IsQuoted(item) && Item("- " + item) == item
    ensures ItemValue(numeric, [Line(indent, "- " + item)], indent)
            == (var p := ParseMap(numeric, [Line(indent + 2, item)], indent + 2, []);
                if p.Failed? then p else Done(p.value, []))
  {
    hide ParseMap, ItemValue, Scalar, Item, IsQuoted;
    var lines := [Line(indent, "- " + item)];
    assert lines[1..] == [];
    ItemTurn(numeric, lines, indent, item, []);
    assert Refed(item, lines, indent) == [Line(indent + 2, item)];
    assert Beyond([], indent) == [];
  }

  lemma ExtendTrimmed(k: string, v: string)
    requires Trimmed(k) && ':' !in k && Trimmed(v)
    ensures Trimmed("{" + k) && ':' !in "{" + k && Trimmed(v + "}") && Trimmed("{" + k + ": " + v + "}")
  {
    var key := "{" + k;
    assert key[|key| - 1] == k[|k| - 1];
    assert forall c :: c in key ==> c == '{' || c in k;
  }

  // ---- dash lines that look like one quoted string ----

  /** A mapping loop only ever gives a mapping. */
  lemma {:induction false} MapGivesMap(numeric: string -> bool, lines: seq<Line>, indent: nat, out: seq<(Value, Value)>)
    ensures var p := ParseMap(numeric, lines, indent, out); p.Done? ==> p.value.Map?
    decreases Size(lines)
  {
    hide ParseMap, EntryValue, Scalar, Strip, Put;
    MapEnds(numeric, lines, indent, out);
    if lines != [] && lines[0].indent == indent && Colon(lines[0].content) < |lines[0].content| {
      var content := lines[0].content;
      var c := Colon(content);
      MapTurn(numeric, lines, indent, out);
      var entry := EntryValue(numeric, Strip(content[c + 1..]), lines[1..], indent);
      if entry.Done? {
        SuffixSize(entry.rest, lines[1..]);
        MapGivesMap(numeric, entry.rest, indent, Put(out, Scalar(numeric, Strip(content[..c])), entry.value));
      }
    }
  }

  /**
   * A dash line with a colon in its text is silently one string exactly when the text begins and ends with the same
   * quote; otherwise it is a mapping or an error.
   */
  lemma QuotedPairIsTextIff(numeric: string -> bool, lines: seq<Line>, indent: nat)
    requires lines != [] && lines[0].content != "" && ':' in Item(lines[0].content)
    ensures var item, p := Item(lines[0].content), ItemValue(numeric, lines, indent);
            && (IsQuoted(item) <==> p.Done? && p.value.Str?)
            && (IsQuoted(item) ==> p == Done(Str(item[1..|item| - 1]), lines[1..]))
            && (!IsQuoted(item) && p.Done? ==> p.value.Map?)
  {
    var item := Item(lines[0].content);
    hide ItemValue, ParseMap, Item, Refed, Beyond;
    ItemTurn(numeric, lines, indent, item, lines[1..]);
    MapGivesMap(numeric, Refed(item, lines, indent), indent + 2, []);
    if IsQuoted(item) { QuotedScalar(numeric, item); }
    hide Scalar;
  }

  lemma QuotedScalar(numeric: string -> bool, text: string)
    requires IsQuoted(text)
    ensures Scalar(numeric, text) == Str(text[1..|text| - 1])
  {
  }

  /** Which printed entries look that way: a quoted key and a value that ends in the same quote. */
  lemma PairLooksQuotedIff(style: Style, key: Value, inline: string)
    requires Text(style, key) != "" && inline != ""
    ensures var first, last := Text(style, key)[0], inline[|inline| - 1];
            IsQuoted(KeyContent(style, key, inline)) <==> first == last && IsQuote(first)
  {
    hide Text;
    var content := KeyContent(style, key, inline);
    assert content[0] == Text(style, key)[0] && content[|content| - 1] == inline[|inline| - 1];
  }

  // ---- multiple documents ----

  lemma MarkerIsNoise(word: char -> bool)
    ensures Meaning(word, "---") == Ok(None) && Meaning(word, "...") == Ok(None)
  {
    NoHashNoComment("---");
    NoHashNoComment("...");
    hide CommentStart, Unsupported;
    TrimmedMarkers();
    StripTrimmed("---");
    StripTrimmed("...");
    hide Strip;
    assert "---"[..3] == "---" && "..."[..3] == "...";
  }

  lemma TrimmedMarkers()
    ensures LStrip("---") == "---" && LStrip("...") == "..." && Trimmed("---") && Trimmed("...")
  {
  }

  /** A second document is not refused: a stream loads, or fails, exactly as the same lines without the marker. */
  lemma DocumentsMerge(numeric: string -> bool, word: char -> bool, a: seq<string>, b: seq<string>, marker: string)
    requires IsMarker(marker)
    ensures Load(numeric, word, a + [marker] + b) == Load(numeric, word, a + b)
  {
    MarkerIsNoise(word);
    hide Significant, ParseBlock, Meaning;
    NoiseIsIgnored(word, a, marker, b);
  }

  lemma {:induction false} RawsOfBoth(a: seq<Line>, b: seq<Line>)
    ensures Raws(a + b) == Raws(a) + Raws(b)
    decreases |b|
  {
    hide Raw;
    if b == [] {
      assert a + b == a && Raws(a) + [] == Raws(a);
    } else {
      var p := b[..|b| - 1];
      assert (a + b)[..|a + b| - 1] == a + p;
      RawsOfBoth(a, p);
      assert Raws(a) + Raws(b) == (Raws(a) + Raws(p)) + [Raw(b[|b| - 1])];
    }
  }

  lemma {:induction false} MapLinesOfBoth(style: Style, a: seq<(Value, Value)>, b: seq<(Value, Value)>, indent: nat)
    ensures MapLines(style, a + b, indent) == MapLines(style, a, indent) + MapLines(style, b, indent)
  {
    hide EntryLines, AllFrom;
    if a == [] {
      assert a + b == b && [] + MapLines(style, b, indent) == MapLines(style, b, indent);
    } else {
      assert (a + b)[1..] == a[1..] + b;
      MapLinesOfBoth(style, a[1..], b, indent);
      var first := EntryLines(style, a[0], indent);
      assert first + (MapLines(style, a[1..], indent) + MapLines(style, b, indent))
          == (first + MapLines(style, a[1..], indent)) + MapLines(style, b, indent);
    }
  }

  /** Two documents, each a mapping with keys of its own, load as one mapping with all of them. */
  lemma TwoDocumentsLoadAsOne(numeric: string -> bool, word: char -> bool, style: Style, a: seq<(Value, Value)>,
                              b: seq<(Value, Value)>, marker: string)
    requires StyleOk(numeric, style) && PrintableEntries(numeric, style, a + b) && a + b != [] && IsMarker(marker)
    requires var lines := MapLines(style, a + b, 0); forall i :: 0 <= i < |lines| ==> Survives(word, lines[i])
    ensures Load(numeric, word, Raws(MapLines(style, a, 0)) + [marker] + Raws(MapLines(style, b, 0))) == Ok(Map(a + b))
  {
    hide StyleOk, PrintableEntries, MapLines, Survives, Raws, Load, IsMarker;
    DocumentsMerge(numeric, word, Raws(MapLines(style, a, 0)), Raws(MapLines(style, b, 0)), marker);
    RawsOfBoth(MapLines(style, a, 0), MapLines(style, b, 0));
    MapLinesOfBoth(style, a, b, 0);
    DocumentRoundTrip(numeric, word, style, Map(a + b), 0);
  }
}
