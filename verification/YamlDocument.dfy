/** From raw lines of text to significant lines and a value: comments, markers and unsupported features. */
module YamlDocument {
  import opened Wrappers
  import opened YamlText
  import opened YamlParser
  import opened YamlPrinter
  import opened YamlRoundTrip

  // ---- comments ----

  predicate IsBlank(c: char) {
    c == ' ' || c == '\t'
  }

  /** The quote still open after reading `s`. */
  function OpenQuote(s: string): Option<char> {
    if s == "" then None
    else
      var before, c := OpenQuote(s[..|s| - 1]), s[|s| - 1];
      match before
      case Some(q) => if c == q then None else before
      case None => if IsQuote(c) then Some(c) else None
  }

  /** A '#' at the start or after a blank, outside quotes. */
  predicate StartsComment(line: string, i: nat)
    requires i < |line|
  {
    line[i] == '#' && (i == 0 || IsBlank(line[i - 1])) && OpenQuote(line[..i]) == None
  }

  /** Where the comment of a line starts: its length if it has none. */
  function CommentStart(line: string, i: nat): (cut: nat)
    requires i <= |line|
    ensures i <= cut <= |line|
    ensures cut < |line| ==> StartsComment(line, cut)
    ensures forall j :: i <= j < cut ==> !StartsComment(line, j)
    decreases |line| - i
  {
    if i == |line| || StartsComment(line, i) then i else CommentStart(line, i + 1)
  }

  method StripComment(line: string) returns (stripped: string)
    ensures stripped == line[..CommentStart(line, 0)]
  {
    var quote: Option<char> := None;
    for i := 0 to |line|
      invariant quote == OpenQuote(line[..i])
      invariant CommentStart(line, 0) == CommentStart(line, i)
    {
      assert line[..i + 1][..i] == line[..i];
      var c := line[i];
      if quote.Some? {
        if c == quote.value {
          quote := None;
        }
      } else if c == '"' || c == '\'' {
        quote := Some(c);
      } else if c == '#' && (i == 0 || line[i - 1] == ' ' || line[i - 1] == '\t') {
        return line[..i];
      }
    }
    return line;
  }

  // ---- significant lines ----

  /** An anchor, an alias, a merge key or a block scalar marker. `word` says which characters are word characters. */
  predicate UnsupportedToken(word: char -> bool, t: string) {
    || (|t| >= 2 && (t[0] == '&' || t[0] == '*') && forall k :: 1 <= k < |t| ==> word(t[k]))
    || t == "<<:" || t == "|" || t == ">"
  }

  /** A token of the unsupported pattern at [i..j), delimited on both sides. */
  predicate TokenAt(word: char -> bool, s: string, i: nat, j: nat)
    requires i < j <= |s|
  {
    UnsupportedToken(word, s[i..j]) && (i == 0 || IsSpace(s[i - 1])) && (j == |s| || IsSpace(s[j]))
  }

  predicate Unsupported(word: char -> bool, s: string) {
    exists i, j :: 0 <= i < j <= |s| && TokenAt(word, s, i, j)
  }

  predicate IsMarker(content: string) {
    content == "---" || content == "..."
  }

  /** What one raw line means: an error, nothing, or a significant line. */
  function Meaning(word: char -> bool, raw: string): Result<Option<Line>, YamlError> {
    if '\t' in raw[..|raw| - |LStrip(raw)|] then Err(TabIndentation)
    else Uncommented(word, raw[..CommentStart(raw, 0)])
  }

  function Uncommented(word: char -> bool, stripped: string): Result<Option<Line>, YamlError> {
    if Strip(stripped) == "" || IsMarker(Strip(stripped)) then Ok(None)
    else if Unsupported(word, stripped) then Err(UnsupportedFeature)
    else Ok(Some(Line(|stripped| - |LStrip(stripped)|, Strip(stripped))))
  }

  method MeaningOf(word: char -> bool, raw: string) returns (r: Result<Option<Line>, YamlError>)
    ensures r == Meaning(word, raw)
  {
    hide Unsupported, LStrip, Strip;
    if '\t' in raw[..|raw| - |LStrip(raw)|] {
      return Err(TabIndentation);
    }
    var stripped := StripComment(raw);
    if Strip(stripped) == "" || Strip(stripped) == "---" || Strip(stripped) == "..." {
      return Ok(None);
    }
    if Unsupported(word, stripped) {
      return Err(UnsupportedFeature);
    }
    return Ok(Some(Line(|stripped| - |LStrip(stripped)|, Strip(stripped))));
  }

  /** The significant lines in order, or the first error. */
  function Significant(word: char -> bool, raws: seq<string>): Result<seq<Line>, YamlError> {
    if raws == [] then Ok([])
    else
      var before := Significant(word, raws[..|raws| - 1]);
      if before.Err? then before
      else
        match Meaning(word, raws[|raws| - 1])
        case Err(e) => Err(e)
        case Ok(None) => before
        case Ok(Some(line)) => Ok(before.value + [line])
  }

  method SignificantLines(word: char -> bool, raws: seq<string>) returns (r: Result<seq<Line>, YamlError>)
    ensures r == Significant(word, raws)
  {
    hide Meaning;
    var out: seq<Line> := [];
    for n := 0 to |raws|
      invariant Significant(word, raws[..n]) == Ok(out)
    {
      FirstErrorStands(word, raws, n + 1);
      assert raws[..n + 1][..n] == raws[..n];
      var meaning := MeaningOf(word, raws[n]);
      if meaning.Err? {
        return Err(meaning.error);
      }
      if meaning.value.Some? {
        out := out + [meaning.value.value];
      }
    }
    assert raws[..|raws|] == raws;
    return Ok(out);
  }

  lemma {:induction false} FirstErrorStands(word: char -> bool, raws: seq<string>, n: nat)
    requires n <= |raws|
    ensures Significant(word, raws[..n]).Err? ==> Significant(word, raws) == Significant(word, raws[..n])
    decreases |raws|
  {
    hide Meaning;
    if n < |raws| {
      var p := raws[..|raws| - 1];
      assert p[..n] == raws[..n];
      FirstErrorStands(word, p, n);
    } else {
      assert raws[..n] == raws;
    }
  }

  /** A document's value: nothing left over is allowed. */
  function Load(numeric: string -> bool, word: char -> bool, raws: seq<string>): Result<Value, YamlError> {
    match Significant(word, raws)
    case Err(e) => Err(e)
    case Ok(lines) =>
      if lines == [] then Ok(Null)
      else
        match ParseBlock(numeric, lines, lines[0].indent)
        case Failed(e) => Err(e)
        case Done(value, rest) => if rest != [] then Err(UnexpectedIndentation) else Ok(value)
  }

  method SafeLoad(numeric: string -> bool, word: char -> bool, raws: seq<string>) returns (r: Result<Value, YamlError>)
    ensures r == Load(numeric, word, raws)
  {
    var significant := SignificantLines(word, raws);
    if significant.Err? {
      return Err(significant.error);
    }
    var lines := significant.value;
    if lines == [] {
      return Ok(Null);
    }
    hide ParseBlock;
    assert lines[0..] == lines;
    var block := Block(numeric, lines, 0, lines[0].indent);
    if block.Err? {
      return Err(block.error);
    }
    return if block.value.1 != |lines| then Err(UnexpectedIndentation) else Ok(block.value.0);
  }

  // ---- lines that carry no meaning ----

  /** Blank lines, comment lines and document markers can stand anywhere. */
  lemma {:induction false} NoiseIsIgnored(word: char -> bool, a: seq<string>, noise: string, b: seq<string>)
    requires Meaning(word, noise) == Ok(None)
    ensures Significant(word, a + [noise] + b) == Significant(word, a + b)
  {
    hide Meaning;
    if b == [] {
      assert (a + [noise] + b)[..|a|] == a && a + b == a;
    } else {
      var p := b[..|b| - 1];
      assert (a + [noise] + b)[..|a + [noise] + b| - 1] == a + [noise] + p;
      assert (a + b)[..|a + b| - 1] == a + p;
      NoiseIsIgnored(word, a, noise, p);
    }
  }

  lemma LStripTurn(s: string)
    ensures LStrip(s) == if s == "" then "" else if IsSpace(s[0]) then LStrip(s[1..]) else s
  {
    hide IsSpace;
  }

  lemma {:induction false} LStripBoth(s: string, t: string)
    requires LStrip(s) != ""
    ensures LStrip(s + t) == LStrip(s) + t
  {
    hide IsSpace, LStrip;
    LStripTurn(s);
    LStripTurn(s + t);
    assert (s + t)[0] == s[0] && (s + t)[1..] == s[1..] + t;
    if IsSpace(s[0]) {
      LStripBoth(s[1..], t);
    }
  }

  /** How a line and its extension by a blank and a comment split. */
  lemma LeadOfLonger(raw: string, comment: string)
    requires LStrip(raw) != ""
    ensures var longer := raw + " #" + comment;
            && longer[..|raw| + 1] == raw + " "
            && |longer| - |LStrip(longer)| == |raw| - |LStrip(raw)| >= 0
            && longer[..|raw| - |LStrip(raw)|] == raw[..|raw| - |LStrip(raw)|]
  {
    hide LStrip;
    LStripBoth(raw, " #" + comment);
    assert raw + (" #" + comment) == raw + " #" + comment;
  }

  /** A blank and a comment after a line with no quote left open change nothing. */
  lemma TrailingComment(word: char -> bool, raw: string, comment: string)
    requires CommentStart(raw, 0) == |raw| && OpenQuote(raw) == None && LStrip(raw) != "" && !word(' ')
    ensures Meaning(word, raw + " #" + comment) == Meaning(word, raw)
  {
    hide LStrip, OpenQuote, CommentStart, Uncommented;
    LeadOfLonger(raw, comment);
    CommentAfter(raw, comment);
    assert raw[..|raw|] == raw;
    BlankChangesNothing(word, raw);
  }

  lemma BlankChangesNothing(word: char -> bool, raw: string)
    requires LStrip(raw) != "" && !word(' ')
    ensures Uncommented(word, raw + " ") == Uncommented(word, raw)
  {
    hide LStrip, Strip, Unsupported, IsMarker;
    LStripBoth(raw, " ");
    StripBefore(raw);
    BlankAddsNoToken(word, raw);
  }

  lemma StripBefore(raw: string)
    requires LStrip(raw) != ""
    ensures Strip(raw + " ") == Strip(raw)
  {
    LStripBoth(raw, " ");
    var t := LStrip(raw);
    assert (t + " ")[..|t|] == t;
  }

  lemma CommentAfter(raw: string, comment: string)
    requires CommentStart(raw, 0) == |raw| && OpenQuote(raw) == None
    ensures CommentStart(raw + " #" + comment, 0) == |raw| + 1
  {
    var longer := raw + " #" + comment;
    assert longer[..|raw| + 1] == raw + " ";
    assert (raw + " ")[..|raw|] == raw;
    assert OpenQuote(raw + " ") == None;
    assert StartsComment(longer, |raw| + 1);
    forall j | 0 <= j < |raw| + 1
      ensures !StartsComment(longer, j)
    {
      if j < |raw| {
        assert longer[..j] == raw[..j] && !StartsComment(raw, j);
      }
    }
  }

  lemma TokenBeforeBlank(word: char -> bool, raw: string, i: nat, j: nat)
    requires i < j <= |raw| + 1 && !word(' ')
    ensures TokenAt(word, raw + " ", i, j) <==> j <= |raw| && TokenAt(word, raw, i, j)
  {
    BlankIsSpace();
    hide IsSpace;
    var longer := raw + " ";
    if j <= |raw| {
      assert longer[i..j] == raw[i..j];
    } else {
      assert longer[i..j][j - i - 1] == ' ';
      if UnsupportedToken(word, longer[i..j]) {
        LastOfToken(word, longer[i..j]);
      }
    }
  }

  lemma BlankAddsNoToken(word: char -> bool, raw: string)
    requires !word(' ')
    ensures Unsupported(word, raw + " ") <==> Unsupported(word, raw)
  {
    var longer := raw + " ";
    hide TokenAt, UnsupportedToken, IsSpace;
    if i, j :| 0 <= i < j <= |raw| && TokenAt(word, raw, i, j) {
      TokenBeforeBlank(word, raw, i, j);
      assert TokenAt(word, longer, i, j);
    }
    if i, j :| 0 <= i < j <= |longer| && TokenAt(word, longer, i, j) {
      TokenBeforeBlank(word, raw, i, j);
    }
  }

  lemma LastOfToken(word: char -> bool, t: string)
    requires UnsupportedToken(word, t) && !word(' ')
    ensures t != "" && t[|t| - 1] != ' '
  {
  }

  lemma BlankIsSpace()
    ensures IsSpace(' ')
  {
  }

  // ---- what the printer writes, as text ----

  function Spaces(n: nat): string {
    seq(n, _ => ' ')
  }

  function Raw(line: Line): string {
    Spaces(line.indent) + line.content
  }

  function Raws(lines: seq<Line>): seq<string> {
    if lines == [] then [] else Raws(lines[..|lines| - 1]) + [Raw(lines[|lines| - 1])]
  }

  /** The line is not cut by a comment, is no marker and holds nothing that looks like an unsupported feature. */
  predicate Survives(word: char -> bool, line: Line) {
    CommentStart(Raw(line), 0) == |Raw(line)| && !IsMarker(line.content) && !Unsupported(word, Raw(line))
  }

  lemma {:induction false} LStripSpaces(n: nat, content: string)
    requires content == "" || !IsSpace(content[0])
    ensures LStrip(Spaces(n) + content) == content
  {
    hide IsSpace;
    var s := Spaces(n) + content;
    if n == 0 {
      assert s == content;
    } else {
      assert IsSpace(' ') by { BlankIsSpace(); }
      assert s[0] == ' ';
      assert s[1..] == Spaces(n - 1) + content;
      LStripSpaces(n - 1, content);
    }
  }

  lemma StripNoLonger(s: string)
    ensures |Strip(s)| <= |LStrip(s)|
  {
  }

  /** Cut short, a printed line strips to something shorter than its content. */
  lemma CutIsShorter(n: nat, content: string, cut: nat)
    requires Trimmed(content) && cut < n + |content|
    ensures |Strip((Spaces(n) + content)[..cut])| < |content|
  {
    hide IsSpace, Strip, LStrip;
    var raw := Spaces(n) + content;
    StripNoLonger(raw[..cut]);
    if cut <= n {
      LStripSpaces(cut, "");
      assert raw[..cut] == Spaces(cut) + "";
    } else {
      LStripSpaces(n, content[..cut - n]);
      assert raw[..cut] == Spaces(n) + content[..cut - n];
    }
  }

  /** A printed line is read back exactly when it survives. */
  lemma SurvivesIff(word: char -> bool, line: Line)
    requires Trimmed(line.content)
    ensures Meaning(word, Raw(line)) == Ok(Some(line)) <==> Survives(word, line)
  {
    hide Trimmed, LStrip, Unsupported, IsMarker, CommentStart, Uncommented, Raw;
    var raw, cut := Raw(line), CommentStart(Raw(line), 0);
    LStripPrinted(line);
    assert raw[..|raw|] == raw;
    if cut < |raw| {
      CutIsLost(word, line, cut);
    } else {
      UncutIsKept(word, line);
    }
  }

  lemma CutIsLost(word: char -> bool, line: Line, cut: nat)
    requires Trimmed(line.content) && cut < |Raw(line)|
    ensures Uncommented(word, Raw(line)[..cut]) != Ok(Some(line))
  {
    hide Trimmed, LStrip, Unsupported, IsMarker, Strip;
    CutIsShorter(line.indent, line.content, cut);
  }

  lemma UncutIsKept(word: char -> bool, line: Line)
    requires Trimmed(line.content)
    ensures Uncommented(word, Raw(line)) == Ok(Some(line)) <==> !IsMarker(line.content) && !Unsupported(word, Raw(line))
  {
    hide LStrip, Unsupported, IsMarker, Strip, IsSpace, Raw;
    LStripPrinted(line);
    TrimmedStrip(Raw(line), line.content);
  }

  lemma LStripPrinted(line: Line)
    requires Trimmed(line.content)
    ensures LStrip(Raw(line)) == line.content
    ensures |Raw(line)| == line.indent + |line.content| && '\t' !in Raw(line)[..line.indent]
  {
    hide IsSpace, LStrip;
    LStripSpaces(line.indent, line.content);
  }

  lemma TrimmedStrip(raw: string, content: string)
    requires Trimmed(content) && LStrip(raw) == content
    ensures Strip(raw) == content && content != ""
  {
  }
}
