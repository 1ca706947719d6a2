/** One entry and one line: words in any case, repeated keys, and the lines the loader does refuse. */
module YamlEntries {
  import opened Wrappers
  import opened YamlText
  import opened YamlParser
  import opened YamlPrinter
  import opened YamlRoundTrip
  import opened YamlDocument
  import opened YamlDocumentRoundTrip

  // ---- words ----

  lemma OneEntryDocument(numeric: string -> bool, word: char -> bool, line: Line, key: Value, inline: string)
    requires ShapedLine(line) && Survives(word, line) && !IsDash(line.content)
    requires var c := Colon(line.content);
             && c < |line.content| && Scalar(numeric, Strip(line.content[..c])) == key
             && Strip(line.content[c + 1..]) == inline
    requires inline != "" && Hashable(key)
    ensures Load(numeric, word, [Raw(line)]) == Ok(Map([(key, Scalar(numeric, inline))]))
  {
    hide Survives, Trimmed, IsMarker, Raw, Significant, ParseMap, ParseList, IsDash, Colon, Scalar, Strip;
    LinesReadBackIff(word, [line]);
    OneRaw(line);
    OneEntry(numeric, line, key, inline);
  }

  /** A document of one line with a word behind a key: the word counts in any mixture of cases, and only the word. */
  lemma WordUnderKey(numeric: string -> bool, word: char -> bool, style: Style, key: Value, text: string, indent: nat)
    requires StyleOk(numeric, style) && KeyOk(numeric, style, key) && Trimmed(text)
    requires Survives(word, Line(indent, KeyContent(style, key, text)))
    ensures var loaded := Load(numeric, word, [Raw(Line(indent, KeyContent(style, key, text)))]);
            && (loaded == Ok(Map([(key, Bool(true))])) <==> IsTrueWord(text))
            && (loaded == Ok(Map([(key, Bool(false))])) <==> IsFalseWord(text))
            && (loaded == Ok(Map([(key, Null)])) <==> IsNullWord(text))
  {
    assert text != "";
    hide Load, Scalar, Strip, Colon, Trimmed, KeyContent, StyleOk, IsQuoted, IsDash, Survives, IsMarker, Raw;
    KeyLine(numeric, style, key, text);
    KeyIsNoMarker();
    var line := Line(indent, KeyContent(style, key, text));
    OneEntryDocument(numeric, word, line, key, text);
    WordsReadIff(numeric, text);
    var loaded, value := Load(numeric, word, [Raw(line)]), Scalar(numeric, text);
    assert loaded == Ok(Map([(key, value)]));
    forall v: Value ensures loaded == Ok(Map([(key, v)])) <==> v == value {
      if loaded == Ok(Map([(key, v)])) {
        assert [(key, v)][0] == [(key, value)][0];
      }
    }
  }

  // ---- repeated keys ----

  /** A key met again, wherever in a mapping: it keeps its place, takes the last value and nothing else changes. */
  lemma RepeatedKey(numeric: string -> bool, lines: seq<Line>, indent: nat, out: seq<(Value, Value)>, key: Value,
                    inline: string, at: nat)
    requires lines != [] && lines[0].indent == indent && Colon(lines[0].content) < |lines[0].content|
    requires var content := lines[0].content;
             && Scalar(numeric, Strip(content[..Colon(content)])) == key
             && Strip(content[Colon(content) + 1..]) == inline && inline != "" && Hashable(key)
    requires at < |out| && out[at].0 == key && forall i :: 0 <= i < at ==> out[i].0 != key
    ensures ParseMap(numeric, lines, indent, out)
            == ParseMap(numeric, lines[1..], indent, out[at := (key, Scalar(numeric, inline))])
  {
    hide ParseMap, ParseBlock, ParseList, Scalar, Strip, Colon, Put;
    MapTurn(numeric, lines, indent, out);
    PutMeaning(out, key, Scalar(numeric, inline), at);
  }

  // ---- a dash is not enough ----

  /** A line starts a list item exactly when it is a dash alone or a dash and a blank. */
  lemma DashIff(numeric: string -> bool, lines: seq<Line>, indent: nat)
    requires lines != [] && lines[0].content != "" && lines[0].content[0] == '-'
    ensures var content := lines[0].content;
            ParseBlock(numeric, lines, indent) ==
            if |content| == 1 || content[1] == ' ' then ParseList(numeric, lines, indent, [])
            else ParseMap(numeric, lines, indent, [])
  {
    hide ParseList, ParseMap;
    var content := lines[0].content;
    assert |content| == 1 ==> content == "-";
  }

  /** A key without a value, followed at its own level by a word that begins with a dash, gets an empty list. */
  lemma DashWordGivesEmptyList(numeric: string -> bool, rest: seq<Line>, indent: nat)
    requires rest != [] && rest[0].indent == indent
    requires |rest[0].content| >= 2 && rest[0].content[0] == '-' && rest[0].content[1] != ' '
    ensures EntryValue(numeric, "", rest, indent) == Done(List([]), rest)
  {
    hide ParseBlock, ParseMap;
    ListEnds(numeric, rest, indent, []);
    hide ParseList;
  }

  // ---- what is refused ----

  /** One bad line refuses the whole document. */
  lemma ErrorRefusesDocument(numeric: string -> bool, word: char -> bool, raws: seq<string>, i: nat)
    requires i < |raws| && Meaning(word, raws[i]).Err?
    ensures Load(numeric, word, raws).Err?
  {
    hide Meaning, ParseBlock;
    assert raws[..i + 1][..i] == raws[..i];
    FirstErrorStands(word, raws, i + 1);
  }

  /** A tab with nothing but white space before it. */
  predicate TabLed(raw: string) {
    exists i :: 0 <= i < |raw| && raw[i] == '\t' && forall j :: 0 <= j < i ==> IsSpace(raw[j])
  }

  lemma {:induction false} LeadIsSpace(s: string)
    ensures forall j :: 0 <= j < |s| - |LStrip(s)| ==> IsSpace(s[j])
  {
    LStripTurn(s);
    hide IsSpace, LStrip;
    if s != "" && IsSpace(s[0]) {
      LeadIsSpace(s[1..]);
      assert forall j :: 1 <= j < |s| ==> s[j] == s[1..][j - 1];
    }
  }

  /** A tab in the indentation is an error on every line, and that error means nothing else. */
  lemma TabRefusedIff(word: char -> bool, raw: string)
    ensures Meaning(word, raw) == Err(TabIndentation) <==> TabLed(raw)
  {
    hide Uncommented, CommentStart, LStrip;
    LeadIsSpace(raw);
    var lead := |raw| - |LStrip(raw)|;
    if TabLed(raw) {
      var i :| 0 <= i < |raw| && raw[i] == '\t' && forall j :: 0 <= j < i ==> IsSpace(raw[j]);
      assert IsSpace('\t');
      hide IsSpace;
      assert i < lead;
      assert raw[..lead][i] == '\t';
    }
    if '\t' in raw[..lead] {
      var i :| 0 <= i < lead && raw[..lead][i] == '\t';
      assert raw[i] == '\t';
    }
    NoTabError(word, raw);
  }

  lemma NoTabError(word: char -> bool, raw: string)
    ensures Uncommented(word, raw[..CommentStart(raw, 0)]) != Err(TabIndentation)
  {
    hide Unsupported, Strip, LStrip;
  }

  /** An anchor or an alias with its name, a merge key, or a block scalar mark. */
  ghost predicate IsFeature(word: char -> bool, t: string) {
    || t in {"<<:", "|", ">"}
    || (exists name :: name != "" && t in {"&" + name, "*" + name} && forall c :: c in name ==> word(c))
  }

  ghost predicate Splits(word: char -> bool, s: string, a: string, t: string, b: string) {
    && s == a + t + b && IsFeature(word, t)
    && (a == "" || IsSpace(a[|a| - 1])) && (b == "" || IsSpace(b[0]))
  }

  lemma FeatureIff(word: char -> bool, t: string)
    ensures UnsupportedToken(word, t) <==> IsFeature(word, t)
  {
    if |t| >= 2 && t[0] in {'&', '*'} {
      var name := t[1..];
      assert t == [t[0]] + name;
      if forall k :: 1 <= k < |t| ==> word(t[k]) {
        assert forall c :: c in name ==> word(c);
        assert name != "" && t in {"&" + name, "*" + name};
      }
    }
    if name :| name != "" && t in {"&" + name, "*" + name} && forall c :: c in name ==> word(c) {
      assert forall k :: 1 <= k < |t| ==> t[k] == name[k - 1];
    }
  }

  lemma UnsupportedIff(word: char -> bool, s: string)
    ensures Unsupported(word, s) <==> exists a, t, b :: Splits(word, s, a, t, b)
  {
    hide UnsupportedToken, IsFeature, IsSpace;
    if i, j :| 0 <= i < j <= |s| && TokenAt(word, s, i, j) {
      FeatureIff(word, s[i..j]);
      assert s == s[..i] + s[i..j] + s[j..];
      assert Splits(word, s, s[..i], s[i..j], s[j..]);
    }
    if a, t, b :| Splits(word, s, a, t, b) {
      FeatureIff(word, t);
      FeatureNotEmpty(word, t);
      var i, j := |a|, |a| + |t|;
      assert s[i..j] == t;
      assert i > 0 ==> s[i - 1] == a[|a| - 1];
      assert j < |s| ==> s[j] == b[0];
      assert TokenAt(word, s, i, j);
    }
  }

  lemma FeatureNotEmpty(word: char -> bool, t: string)
    requires IsFeature(word, t)
    ensures t != "" && t[0] in SPECIAL && !IsSpace(t[0]) && t[0] != '-' && t[0] != '.'
  {
    FeatureIff(word, t);
    assert "<<:"[0] == '<' && "|"[0] == '|' && ">"[0] == '>';
    if |t| >= 2 && (t[0] == '&' || t[0] == '*') {
      assert SPECIAL[1] == '&' && SPECIAL[2] == '*';
    }
  }

  lemma {:induction false} StripKeeps(s: string, i: nat)
    requires i < |s| && !IsSpace(s[i])
    ensures s[i] in Strip(s)
  {
    hide IsSpace;
    LeadIsSpace(s);
    var l := LStrip(s);
    var k := i - (|s| - |l|);
    assert l[k] == s[i];
    RStripKeeps(l, k);
  }

  lemma {:induction false} RStripKeeps(s: string, i: nat)
    requires i < |s| && !IsSpace(s[i])
    ensures i < |RStrip(s)| && RStrip(s)[i] == s[i]
  {
    hide IsSpace;
    if IsSpace(s[|s| - 1]) {
      RStripKeeps(s[..|s| - 1], i);
    }
  }

  lemma UncommentedRefusesIff(word: char -> bool, s: string)
    ensures Uncommented(word, s) == Err(UnsupportedFeature) <==> exists a, t, b :: Splits(word, s, a, t, b)
  {
    hide Unsupported, Strip, LStrip, Splits, IsFeature, IsSpace;
    UnsupportedIff(word, s);
    if a, t, b :| Splits(word, s, a, t, b) {
      FeatureStands(word, s, a, t, b);
    }
  }

  lemma FeatureStands(word: char -> bool, s: string, a: string, t: string, b: string)
    requires Splits(word, s, a, t, b)
    ensures Strip(s) != "" && !IsMarker(Strip(s))
  {
    hide Strip, IsFeature, IsSpace;
    FeatureNotEmpty(word, t);
    assert s[|a|] == t[0];
    StripKeeps(s, |a|);
  }

  lemma PastTheTab(word: char -> bool, raw: string)
    requires Meaning(word, raw) != Err(TabIndentation)
    ensures Meaning(word, raw) == Uncommented(word, raw[..CommentStart(raw, 0)])
  {
    hide Uncommented, LStrip, CommentStart;
  }

  /** A line is refused for a feature exactly when one stands in it, outside its comment, with white space around it. */
  lemma FeatureRefusedIff(word: char -> bool, raw: string)
    ensures Meaning(word, raw) == Err(UnsupportedFeature)
            <==> !TabLed(raw) && exists a, t, b :: Splits(word, raw[..CommentStart(raw, 0)], a, t, b)
  {
    TabRefusedIff(word, raw);
    UncommentedRefusesIff(word, raw[..CommentStart(raw, 0)]);
    hide Meaning, Uncommented, CommentStart, TabLed, Splits;
    if Meaning(word, raw) != Err(TabIndentation) {
      PastTheTab(word, raw);
    }
  }

  /** What is left after the first block refuses the document: a line shallower than its first line. */
  lemma LeftoverRefused(numeric: string -> bool, word: char -> bool, style: Style, v: Value, indent: nat, rest: seq<Line>)
    requires StyleOk(numeric, style) && Printable(numeric, style, v) && !Leaf(v)
    requires rest != [] && rest[0].indent < indent && Shaped(rest)
    requires forall i :: 0 <= i < |Lines(style, v, indent) + rest| ==> Survives(word, (Lines(style, v, indent) + rest)[i])
    ensures Load(numeric, word, Raws(Lines(style, v, indent) + rest)) == Err(UnexpectedIndentation)
  {
    hide StyleOk, Printable, Lines, Survives, Significant, ParseBlock, IsDash, Trimmed, ShapedLine, Raws;
    var lines := Lines(style, v, indent);
    LinesShaped(numeric, style, v, indent);
    LinesReadBackIff(word, lines + rest);
    FirstLine(numeric, style, v, indent);
    BlockRoundTrip(numeric, style, v, indent, rest);
  }

  /** A mapping or a list is no key. */
  lemma CollectionKeyRefused(numeric: string -> bool, lines: seq<Line>, indent: nat, out: seq<(Value, Value)>)
    requires lines != [] && lines[0].indent == indent && Colon(lines[0].content) < |lines[0].content|
    requires var key := Scalar(numeric, Strip(lines[0].content[..Colon(lines[0].content)])); key.Map? || key.List?
    ensures ParseMap(numeric, lines, indent, out).Failed?
  {
    hide ParseMap, EntryValue, Scalar, Strip, Colon, Put;
    MapTurn(numeric, lines, indent, out);
  }

  // ---- comments outside quotes ----

  /** Without quotes, a '#' starts the comment exactly when nothing or a blank stands before it. */
  lemma UnquotedComment(line: string)
    requires forall i :: 0 <= i < |line| ==> !IsQuote(line[i])
    ensures var cut := CommentStart(line, 0);
            && (cut < |line| ==> line[cut] == '#' && (cut == 0 || line[cut - 1] in {' ', '\t'}))
            && (forall i :: 0 <= i < cut && line[i] == '#' ==> i > 0 && line[i - 1] !in {' ', '\t'})
  {
    forall i: nat | i < |line| ensures OpenQuote(line[..i]) == None {
      NoQuoteNoneOpen(line[..i]);
    }
    hide CommentStart, OpenQuote;
    var cut := CommentStart(line, 0);
    forall i | 0 <= i < cut && line[i] == '#' ensures i > 0 && line[i - 1] !in {' ', '\t'} {
      assert !StartsComment(line, i);
    }
  }

  lemma {:induction false} NoQuoteNoneOpen(s: string)
    requires forall i :: 0 <= i < |s| ==> !IsQuote(s[i])
    ensures OpenQuote(s) == None
  {
    if s != "" {
      NoQuoteNoneOpen(s[..|s| - 1]);
    }
  }
}
