/** The text level of the YAML subset: stripping, comments, scalars and significant lines. */
module YamlText {
  import opened Wrappers

  datatype Value =
    | Null
    | Bool(b: bool)
    | Num(literal: string)
    | Str(text: string)
    | Map(entries: seq<(Value, Value)>)
    | List(items: seq<Value>)

  /** One meaningful line: its indentation and its stripped content. */
  datatype Line = Line(indent: nat, content: string)

  datatype YamlError =
    | UnexpectedIndentation
    | ExpectedKeyValue
    | UnhashableKey
    | TabIndentation
    | UnsupportedFeature

  // ---- white space ----

  /** The characters Python's `str.strip` removes. */
  predicate IsSpace(c: char) {
    || '\t' <= c <= '\r'
    || '\U{1c}' <= c <= ' '
    || c == '\U{85}' || c == '\U{a0}' || c == '\U{1680}'
    || '\U{2000}' <= c <= '\U{200a}'
    || c == '\U{2028}' || c == '\U{2029}' || c == '\U{202f}' || c == '\U{205f}' || c == '\U{3000}'
  }

  /** They are the 29 white-space characters of Unicode and of ASCII's separators, and no others. */
  lemma SpacesAre(c: char)
    ensures IsSpace(c) <==>
            c in {'\t', '\n', '\U{b}', '\U{c}', '\r', '\U{1c}', '\U{1d}', '\U{1e}', '\U{1f}', ' ', '\U{85}', '\U{a0}',
                  '\U{1680}', '\U{2000}', '\U{2001}', '\U{2002}', '\U{2003}', '\U{2004}', '\U{2005}', '\U{2006}',
                  '\U{2007}', '\U{2008}', '\U{2009}', '\U{200a}', '\U{2028}', '\U{2029}', '\U{202f}', '\U{205f}',
                  '\U{3000}'}
  {
  }

  function LStrip(s: string): (r: string)
    ensures |r| <= |s|
    ensures r == s[|s| - |r|..]
    ensures r != "" ==> !IsSpace(r[0])
  {
    if s == "" || !IsSpace(s[0]) then s else LStrip(s[1..])
  }

  function RStrip(s: string): (r: string)
    ensures |r| <= |s|
    ensures r == s[..|r|]
    ensures r != "" ==> !IsSpace(r[|r| - 1])
  {
    if s == "" || !IsSpace(s[|s| - 1]) then s else RStrip(s[..|s| - 1])
  }

  function Strip(s: string): (r: string)
    ensures |r| <= |s|
  {
    RStrip(LStrip(s))
  }

  /** No white space at either end. */
  predicate Trimmed(s: string) {
    s != "" && !IsSpace(s[0]) && !IsSpace(s[|s| - 1])
  }

  lemma StripTrimmed(s: string)
    requires Trimmed(s)
    ensures Strip(s) == s && Strip(" " + s) == s
  {
    assert (" " + s)[1..] == s;
    assert LStrip(" " + s) == LStrip(s);
  }

  // ---- the first colon ----

  /** Position of the first ':' or the length. */
  function Colon(s: string): (i: nat)
    ensures i <= |s|
    ensures i < |s| ==> s[i] == ':'
    ensures forall j :: 0 <= j < i ==> s[j] != ':'
  {
    if s == "" then 0 else if s[0] == ':' then 0 else 1 + Colon(s[1..])
  }

  lemma ColonAfterKey(key: string, rest: string)
    requires ':' !in key
    ensures Colon(key + ":" + rest) == |key|
    ensures (key + ":" + rest)[..|key|] == key
    ensures (key + ":" + rest)[|key| + 1..] == rest
  {
    var s := key + ":" + rest;
    assert s[|key|] == ':';
    assert forall j :: 0 <= j < |key| ==> s[j] == key[j] && key[j] in key;
  }

  // ---- scalars ----

  predicate IsQuote(c: char) {
    c == '"' || c == '\''
  }

  predicate IsQuoted(s: string) {
    |s| >= 2 && s[0] == s[|s| - 1] && IsQuote(s[0])
  }

  function LowerChar(c: char): char {
    if 'A' <= c <= 'Z' then (c as int + 32) as char else c
  }

  function Lower(s: string): (r: string)
    ensures |r| == |s|
    ensures forall i :: 0 <= i < |s| ==> r[i] == LowerChar(s[i])
  {
    if s == "" then "" else [LowerChar(s[0])] + Lower(s[1..])
  }

  function Comma(s: string): (i: nat)
    ensures i <= |s|
  {
    if s == "" || s[0] == ',' then 0 else 1 + Comma(s[1..])
  }

  /** `numeric` says which words Python reads as an int or a float; their values are left as written. */
  function Scalar(numeric: string -> bool, text: string): Value
    decreases |text|, 0
  {
    var lowered := Lower(text);
    if IsQuoted(text) then Str(text[1..|text| - 1])
    else if lowered == "null" || lowered == "~" || lowered == "" then Null
    else if lowered == "true" then Bool(true)
    else if lowered == "false" then Bool(false)
    else if text == "{}" then Map([])
    else if text == "[]" then List([])
    else if |text| >= 2 && text[0] == '[' && text[|text| - 1] == ']' then
      var inner := Strip(text[1..|text| - 1]);
      List(if inner == "" then [] else ScalarParts(numeric, inner))
    else if numeric(text) then Num(text)
    else Str(text)
  }

  function ScalarParts(numeric: string -> bool, s: string): seq<Value>
    decreases |s|, 1
  {
    var i := Comma(s);
    [Scalar(numeric, Strip(s[..i]))] + if i == |s| then [] else ScalarParts(numeric, s[i + 1..])
  }

  lemma LowerWords()
    ensures Lower("null") == "null" && Lower("true") == "true" && Lower("false") == "false"
  {
  }

  lemma ScalarWords(numeric: string -> bool)
    ensures Scalar(numeric, "null") == Null
    ensures Scalar(numeric, "true") == Bool(true) && Scalar(numeric, "false") == Bool(false)
  {
    LowerWords();
    assert "true"[0] == 't' && "false"[0] == 'f' && "null"[0] == 'n' && "~" != "null";
    hide Lower;
  }

  lemma ScalarEmpties(numeric: string -> bool)
    ensures Scalar(numeric, "{}") == Map([]) && Scalar(numeric, "[]") == List([])
  {
    assert Lower("{}")[0] == '{' && Lower("[]")[0] == '[';
    assert "{}"[0] == '{' && "[]"[0] == '[';
    hide Lower;
  }

  lemma ScalarKeywords(numeric: string -> bool)
    ensures Scalar(numeric, "null") == Null
    ensures Scalar(numeric, "true") == Bool(true) && Scalar(numeric, "false") == Bool(false)
    ensures Scalar(numeric, "{}") == Map([]) && Scalar(numeric, "[]") == List([])
  {
    ScalarWords(numeric);
    ScalarEmpties(numeric);
    hide Scalar;
  }

  // ---- which texts are words ----

  predicate IsTrueWord(t: string) {
    |t| == 4 && t[0] in {'t', 'T'} && t[1] in {'r', 'R'} && t[2] in {'u', 'U'} && t[3] in {'e', 'E'}
  }

  predicate IsFalseWord(t: string) {
    && |t| == 5 && t[0] in {'f', 'F'} && t[1] in {'a', 'A'} && t[2] in {'l', 'L'} && t[3] in {'s', 'S'}
    && t[4] in {'e', 'E'}
  }

  predicate IsNullWord(t: string) {
    || t == "" || t == "~"
    || (|t| == 4 && t[0] in {'n', 'N'} && t[1] in {'u', 'U'} && t[2] in {'l', 'L'} && t[3] in {'l', 'L'})
  }

  lemma LowersToWord(t: string)
    ensures Lower(t) == "true" <==> IsTrueWord(t)
    ensures Lower(t) == "false" <==> IsFalseWord(t)
    ensures Lower(t) == "null" || Lower(t) == "~" || Lower(t) == "" <==> IsNullWord(t)
  {
    var l := Lower(t);
    hide Lower;
    assert "true" == ['t', 'r', 'u', 'e'] && "false" == ['f', 'a', 'l', 's', 'e'] && "null" == ['n', 'u', 'l', 'l'];
    if |t| == 4 {
      assert l == [l[0], l[1], l[2], l[3]];
    }
    if |t| == 5 {
      assert l == [l[0], l[1], l[2], l[3], l[4]];
    }
    if |t| == 1 {
      assert l == [l[0]] && t == [t[0]];
    }
  }

  /**
   * Of all texts, exactly the four letters of "true" in any mixture of cases read as true, those of "false" as
   * false, and those of "null", a tilde and the empty text as null.
   */
  lemma WordsReadIff(numeric: string -> bool, t: string)
    ensures Scalar(numeric, t) == Bool(true) <==> IsTrueWord(t)
    ensures Scalar(numeric, t) == Bool(false) <==> IsFalseWord(t)
    ensures Scalar(numeric, t) == Null <==> IsNullWord(t)
  {
    LowersToWord(t);
    hide Lower, Strip, ScalarParts;
  }

  /** Exactly a pair of braces reads as an empty mapping, and exactly brackets around nothing but white space as an empty list. */
  lemma EmptiesReadIff(numeric: string -> bool, t: string)
    ensures Scalar(numeric, t) == Map([]) <==> t == "{}"
    ensures Scalar(numeric, t) == List([]) <==>
            |t| >= 2 && t[0] == '[' && t[|t| - 1] == ']' && Strip(t[1..|t| - 1]) == ""
  {
    LowersToWord(t);
    assert "{}"[0] == '{' && "[]" == ['[', ']'];
    if t == "[]" {
      assert t[1..1] == "";
    }
    hide Lower;
  }

  // ---- inline lists ----

  function Commas(s: string): nat {
    if s == "" then 0 else (if s[0] == ',' then 1 else 0) + Commas(s[1..])
  }

  lemma {:induction false} CommasOfBoth(a: string, b: string)
    ensures Commas(a + b) == Commas(a) + Commas(b)
  {
    if a == "" {
      assert a + b == b;
    } else {
      assert (a + b)[1..] == a[1..] + b;
      CommasOfBoth(a[1..], b);
    }
  }

  lemma {:induction false} CommaMeaning(s: string)
    ensures Commas(s[..Comma(s)]) == 0
    ensures Comma(s) < |s| ==> s[Comma(s)] == ',' && Commas(s) == 1 + Commas(s[Comma(s) + 1..])
    ensures Comma(s) == |s| <==> Commas(s) == 0
  {
    if s != "" && s[0] != ',' {
      CommaMeaning(s[1..]);
      assert s[..Comma(s)][1..] == s[1..][..Comma(s[1..])];
      if Comma(s) < |s| {
        assert s[1..][Comma(s[1..]) + 1..] == s[Comma(s) + 1..];
      }
    }
  }

  /** An inline list is split at every comma, with no regard for quotes. */
  lemma {:induction false} InlineListIgnoresQuotes(numeric: string -> bool, s: string)
    ensures |ScalarParts(numeric, s)| == 1 + Commas(s)
    decreases |s|
  {
    hide Scalar, Strip, Commas, Comma;
    CommaMeaning(s);
    if Comma(s) < |s| {
      InlineListIgnoresQuotes(numeric, s[Comma(s) + 1..]);
    }
  }

  function Join(texts: seq<string>): string
    requires texts != []
  {
    if |texts| == 1 then texts[0] else texts[0] + ", " + Join(texts[1..])
  }

  function Scalars(numeric: string -> bool, texts: seq<string>): (r: seq<Value>)
    ensures |r| == |texts|
  {
    if texts == [] then [] else [Scalar(numeric, texts[0])] + Scalars(numeric, texts[1..])
  }

  predicate AllTrimmed(texts: seq<string>) {
    forall i :: 0 <= i < |texts| ==> Trimmed(texts[i])
  }

  predicate NoComma(texts: seq<string>) {
    forall i :: 0 <= i < |texts| ==> Commas(texts[i]) == 0
  }

  lemma {:induction false} JoinIsTrimmed(texts: seq<string>)
    requires texts != [] && AllTrimmed(texts)
    ensures Trimmed(Join(texts))
  {
    hide IsSpace;
    assert Trimmed(texts[0]);
    if |texts| > 1 {
      JoinIsTrimmed(texts[1..]);
      var t := Join(texts);
      assert t[|t| - 1] == Join(texts[1..])[|Join(texts[1..])| - 1];
    }
  }

  /** Every item but the last adds its separator; commas of the items come on top. */
  lemma {:induction false} CommasOfJoin(texts: seq<string>)
    requires texts != []
    ensures Commas(Join(texts)) >= |texts| - 1
    ensures Commas(Join(texts)) == |texts| - 1 <==> NoComma(texts)
  {
    if |texts| > 1 {
      CommasOfJoin(texts[1..]);
      CommasOfBoth(texts[0] + ", ", Join(texts[1..]));
      CommasOfBoth(texts[0], ", ");
      SeparatorHasOne();
      hide Commas;
      assert NoComma(texts) <==> Commas(texts[0]) == 0 && NoComma(texts[1..]) by {
        assert forall i :: 1 <= i < |texts| ==> texts[i] == texts[1..][i - 1];
      }
    }
  }

  lemma SeparatorHasOne()
    ensures Commas(", ") == 1
  {
    assert ", "[1..] == " " && " "[1..] == "";
  }

  lemma {:induction false} FirstComma(a: string, b: string)
    requires Commas(a) == 0
    ensures Comma(a + b) == |a| + Comma(b)
  {
    if a == "" {
      assert a + b == b;
    } else {
      assert (a + b)[1..] == a[1..] + b;
      FirstComma(a[1..], b);
    }
  }

  lemma PartsTurn(numeric: string -> bool, s: string, first: string)
    requires Comma(s) == |first| && first <= s
    ensures |first| == |s| ==> ScalarParts(numeric, s) == [Scalar(numeric, Strip(first))]
    ensures |first| < |s| ==>
              ScalarParts(numeric, s) == [Scalar(numeric, Strip(first))] + ScalarParts(numeric, s[|first| + 1..])
  {
    hide Scalar, Strip, Comma;
    assert s[..|first|] == first;
  }

  lemma FirstAndRest(texts: seq<string>)
    requires texts != [] && AllTrimmed(texts) && NoComma(texts)
    ensures Trimmed(texts[0]) && Commas(texts[0]) == 0 && AllTrimmed(texts[1..]) && NoComma(texts[1..])
  {
    hide Trimmed, Commas;
    assert forall i :: 1 <= i < |texts| ==> texts[i] == texts[1..][i - 1];
  }

  lemma AfterSeparator(first: string, rest: string)
    ensures var s := first + (", " + rest); first <= s && |first| < |s| && s[|first| + 1..] == " " + rest
  {
  }

  lemma JoinSplits(texts: seq<string>, lead: string)
    requires |texts| > 1
    ensures lead + Join(texts) == (lead + texts[0]) + (", " + Join(texts[1..]))
  {
  }

  lemma FirstPart(numeric: string -> bool, text: string, lead: string)
    requires Trimmed(text) && Commas(text) == 0 && lead in {"", " "}
    ensures Strip(lead + text) == text && Commas(lead + text) == 0
  {
    LeadIsStripped(text, lead);
    LeadHasNoComma(lead);
    CommasOfBoth(lead, text);
    hide Strip, Commas, Trimmed;
  }

  lemma {:induction false} PartsOfJoin(numeric: string -> bool, texts: seq<string>, lead: string)
    requires texts != [] && AllTrimmed(texts) && NoComma(texts) && lead in {"", " "}
    ensures ScalarParts(numeric, lead + Join(texts)) == Scalars(numeric, texts)
    decreases |texts|
  {
    hide Scalar, ScalarParts, Strip, Commas, Comma, Trimmed, AllTrimmed, NoComma, Join;
    var s, first := lead + Join(texts), lead + texts[0];
    FirstAndRest(texts);
    FirstPart(numeric, texts[0], lead);
    if |texts| == 1 {
      OneText(numeric, texts);
      CommaAtEnd(first);
      PartsTurn(numeric, first, first);
    } else {
      var rest := Join(texts[1..]);
      JoinSplits(texts, lead);
      AfterSeparator(first, rest);
      CommaBefore(first, rest);
      PartsTurn(numeric, s, first);
      PartsOfJoin(numeric, texts[1..], " ");
    }
  }

  lemma OneText(numeric: string -> bool, texts: seq<string>)
    requires |texts| == 1
    ensures Scalars(numeric, texts) == [Scalar(numeric, texts[0])] && Join(texts) == texts[0]
  {
    hide Scalar;
    assert texts[1..] == [];
  }

  lemma CommaAtEnd(a: string)
    requires Commas(a) == 0
    ensures Comma(a) == |a|
  {
    CommaMeaning(a);
  }

  lemma CommaBefore(a: string, b: string)
    requires Commas(a) == 0
    ensures Comma(a + (", " + b)) == |a|
  {
    FirstComma(a, ", " + b);
  }

  lemma LeadHasNoComma(lead: string)
    requires lead in {"", " "}
    ensures Commas(lead) == 0
  {
    assert " "[1..] == "";
  }

  lemma LeadIsStripped(text: string, lead: string)
    requires Trimmed(text) && lead in {"", " "}
    ensures Strip(lead + text) == text
  {
    StripTrimmed(text);
    assert "" + text == text;
    hide Strip, Trimmed;
  }

  lemma BracketIsNoKeyword(t: string)
    requires t != "" && (t[0] == '[' || t[0] == '{')
    ensures Lower(t) != "null" && Lower(t) != "~" && Lower(t) != "" && Lower(t) != "true" && Lower(t) != "false"
  {
    assert Lower(t)[0] == t[0];
  }

  lemma BracketShape(inner: string)
    requires inner != ""
    ensures var t := "[" + inner + "]";
            && |t| > 2 && t[0] == '[' && t[|t| - 1] == ']' && t[1..|t| - 1] == inner
            && !IsQuoted(t) && t != "{}" && t != "[]"
  {
    var t := "[" + inner + "]";
    assert t[1..|t| - 1] == inner;
  }

  lemma BracketsAreAList(numeric: string -> bool, inner: string)
    requires Trimmed(inner)
    ensures Scalar(numeric, "[" + inner + "]") == List(ScalarParts(numeric, inner))
  {
    StripTrimmed(inner);
    hide Strip, Lower, ScalarParts, Trimmed, IsQuoted;
    BracketShape(inner);
    BracketIsNoKeyword("[" + inner + "]");
  }

  /** An inline list of texts is read back item by item exactly when no text has a comma, quoted or not. */
  lemma InlineListReadsBackIff(numeric: string -> bool, texts: seq<string>)
    requires texts != [] && AllTrimmed(texts)
    ensures Scalar(numeric, "[" + Join(texts) + "]") == List(Scalars(numeric, texts)) <==> NoComma(texts)
  {
    JoinIsTrimmed(texts);
    BracketsAreAList(numeric, Join(texts));
    CommasOfJoin(texts);
    InlineListIgnoresQuotes(numeric, Join(texts));
    hide Scalar, ScalarParts, Commas, Trimmed, Scalars, Join;
    if NoComma(texts) {
      PartsOfJoin(numeric, texts, "");
      assert "" + Join(texts) == Join(texts);
    }
  }

  // ---- flow mappings ----

  /** A flow mapping with content is neither refused nor a mapping: it is the text as it stands. */
  lemma FlowMappingIsText(numeric: string -> bool, x: string)
    ensures var t := "{" + x + "}";
            Scalar(numeric, t) == if x == "" then Map([]) else if numeric(t) then Num(t) else Str(t)
  {
    var t := "{" + x + "}";
    BracketIsNoKeyword(t);
    hide Lower, ScalarParts, Strip;
    assert t[0] == '{' && (x == "" ==> t == "{}") && (x != "" ==> |t| > 2);
    assert !IsQuoted(t);
  }
}
