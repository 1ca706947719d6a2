/** The indentation parser: mutually recursive blocks, mappings and lists over significant lines. */
module YamlParser {
  import opened Wrappers
  import opened YamlText

  datatype Parsed = Done(value: Value, rest: seq<Line>) | Failed(error: YamlError)

  predicate IsDash(content: string) {
    content == "-" || (|content| >= 2 && content[0] == '-' && content[1] == ' ')
  }

  predicate StartsWithDash(content: string) {
    content != "" && content[0] == '-'
  }

  /** Dictionary assignment: replace in place, or append. */
  function Put(entries: seq<(Value, Value)>, key: Value, value: Value): seq<(Value, Value)> {
    if entries == [] then [(key, value)]
    else if entries[0].0 == key then [(key, value)] + entries[1..]
    else [entries[0]] + Put(entries[1..], key, value)
  }

  /** A key already there keeps its place and takes the new value, and no other entry changes; a new key goes last. */
  lemma {:induction false} PutMeaning(entries: seq<(Value, Value)>, key: Value, value: Value, at: nat)
    requires at <= |entries| && forall i :: 0 <= i < at ==> entries[i].0 != key
    requires at < |entries| ==> entries[at].0 == key
    ensures Put(entries, key, value) == if at < |entries| then entries[at := (key, value)] else entries + [(key, value)]
  {
    if at > 0 {
      var first, rest := entries[0], entries[1..];
      assert entries == [first] + rest;
      assert forall i :: 0 <= i < at - 1 ==> rest[i] == entries[i + 1];
      PutMeaning(rest, key, value, at - 1);
      assert at < |entries| ==> [first] + rest[at - 1 := (key, value)] == entries[at := (key, value)];
      assert at == |entries| ==> [first] + (rest + [(key, value)]) == entries + [(key, value)];
    } else if entries != [] {
      assert [(key, value)] + entries[1..] == entries[0 := (key, value)];
    }
  }

  predicate Hashable(key: Value) {
    !key.Map? && !key.List?
  }

  /** The leading lines deeper than `indent`. */
  function Deeper(lines: seq<Line>, indent: nat): (n: nat)
    ensures n <= |lines|
    ensures forall i :: 0 <= i < n ==> lines[i].indent > indent
    ensures n < |lines| ==> lines[n].indent <= indent
  {
    if lines == [] || lines[0].indent <= indent then 0 else 1 + Deeper(lines[1..], indent)
  }

  ghost predicate AllFrom(lines: seq<Line>, indent: nat) {
    forall i :: 0 <= i < |lines| ==> lines[i].indent >= indent
  }

  /** What may follow a block: nothing, or a shallower line. */
  predicate EndsBlock(rest: seq<Line>, indent: nat) {
    rest == [] || rest[0].indent < indent
  }

  /** Lines and characters still to be read: what every recursive call decreases. */
  function Size(lines: seq<Line>): nat {
    if lines == [] then 0 else |lines[0].content| + 1 + Size(lines[1..])
  }

  lemma {:induction false} SizeSplit(a: seq<Line>, b: seq<Line>)
    ensures Size(a + b) == Size(a) + Size(b)
  {
    if a == [] {
      assert a + b == b;
    } else {
      assert (a + b)[1..] == a[1..] + b;
      SizeSplit(a[1..], b);
    }
  }

  predicate IsSuffix(rest: seq<Line>, lines: seq<Line>) {
    |rest| <= |lines| && rest == lines[|lines| - |rest|..]
  }

  lemma SuffixSize(rest: seq<Line>, lines: seq<Line>)
    requires IsSuffix(rest, lines)
    ensures Size(rest) <= Size(lines)
  {
    assert lines == lines[..|lines| - |rest|] + rest;
    SizeSplit(lines[..|lines| - |rest|], rest);
  }

  lemma SuffixChain(a: seq<Line>, b: seq<Line>, lines: seq<Line>)
    requires lines != [] && IsSuffix(a, b) && IsSuffix(b, lines[1..])
    ensures IsSuffix(a, lines)
  {
    assert b[|b| - |a|..] == lines[|lines| - |a|..];
  }

  /** What is left after the leading lines deeper than `indent`. */
  function Beyond(lines: seq<Line>, indent: nat): (rest: seq<Line>)
    ensures IsSuffix(rest, lines)
  {
    lines[Deeper(lines, indent)..]
  }

  /** The lines gathered behind a dash line: everything deeper than the dash. */
  function Gathered(lines: seq<Line>, indent: nat): seq<Line>
    requires lines != []
  {
    lines[1..][..Deeper(lines[1..], indent)]
  }

  /** The mapping that starts on a dash line, with the lines that continue it. */
  function Refed(item: string, lines: seq<Line>, indent: nat): seq<Line>
    requires lines != []
  {
    [Line(indent + 2, item)] + Gathered(lines, indent)
  }

  function Item(content: string): (item: string)
    requires content != ""
    ensures |item| < |content|
  {
    Strip(content[1..])
  }

  lemma RefedIsSmaller(item: string, lines: seq<Line>, indent: nat)
    requires lines != [] && |item| < |lines[0].content|
    ensures Size(Refed(item, lines, indent)) < Size(lines)
  {
    hide Deeper;
    var n := Deeper(lines[1..], indent);
    assert lines[1..] == lines[1..][..n] + lines[1..][n..];
    SizeSplit(lines[1..][..n], lines[1..][n..]);
    assert Refed(item, lines, indent)[1..] == lines[1..][..n];
  }

  function ParseBlock(numeric: string -> bool, lines: seq<Line>, indent: nat): (p: Parsed)
    ensures p.Done? ==> IsSuffix(p.rest, lines)
    decreases Size(lines), 2
  {
    if lines == [] then Done(Null, [])
    else if IsDash(lines[0].content) then ParseList(numeric, lines, indent, [])
    else ParseMap(numeric, lines, indent, [])
  }

  /** The value of a key: inline, a deeper block, a list level with its key, or nothing. */
  function EntryValue(numeric: string -> bool, inline: string, rest: seq<Line>, indent: nat): (p: Parsed)
    ensures p.Done? ==> IsSuffix(p.rest, rest)
    decreases Size(rest), 3
  {
    if inline != "" then Done(Scalar(numeric, inline), rest)
    else if rest != [] && rest[0].indent > indent then ParseBlock(numeric, rest, rest[0].indent)
    else if rest != [] && rest[0].indent == indent && StartsWithDash(rest[0].content) then
      ParseList(numeric, rest, indent, [])
    else Done(Null, rest)
  }

  function ParseMap(numeric: string -> bool, lines: seq<Line>, indent: nat, out: seq<(Value, Value)>): (p: Parsed)
    ensures p.Done? ==> IsSuffix(p.rest, lines)
    decreases Size(lines), 1
  {
    if lines == [] || lines[0].indent < indent then Done(Map(out), lines)
    else if lines[0].indent > indent then Failed(UnexpectedIndentation)
    else
      var content, rest := lines[0].content, lines[1..];
      var c := Colon(content);
      if c == |content| then Failed(ExpectedKeyValue)
      else
        var key := Scalar(numeric, Strip(content[..c]));
        var entry := EntryValue(numeric, Strip(content[c + 1..]), rest, indent);
        if entry.Failed? then entry
        else if !Hashable(key) then Failed(UnhashableKey)
        else
          SuffixSize(entry.rest, rest);
          var p := ParseMap(numeric, entry.rest, indent, Put(out, key, entry.value));
          assert p.Done? ==> IsSuffix(p.rest, lines) by {
            if p.Done? { SuffixChain(p.rest, entry.rest, lines); }
          }
          p
  }

  /** The value of one dash line: a deeper block, a mapping started on the line, or a scalar. */
  function ItemValue(numeric: string -> bool, lines: seq<Line>, indent: nat): (p: Parsed)
    requires lines != [] && lines[0].content != ""
    ensures p.Done? ==> IsSuffix(p.rest, lines[1..])
    decreases Size(lines), 0
  {
    var item, rest := Item(lines[0].content), lines[1..];
    if item == "" then
      if rest != [] && rest[0].indent > indent then ParseBlock(numeric, rest, rest[0].indent) else Done(Null, rest)
    else if ':' in item && !IsQuoted(item) then
      RefedIsSmaller(item, lines, indent);
      var mapping := ParseMap(numeric, Refed(item, lines, indent), indent + 2, []);
      if mapping.Failed? then mapping else Done(mapping.value, Beyond(rest, indent))
    else Done(Scalar(numeric, item), rest)
  }

  function ParseList(numeric: string -> bool, lines: seq<Line>, indent: nat, out: seq<Value>): (p: Parsed)
    ensures p.Done? ==> IsSuffix(p.rest, lines)
    decreases Size(lines), 1
  {
    if lines == [] || lines[0].indent < indent || !IsDash(lines[0].content) then Done(List(out), lines)
    else if lines[0].indent > indent then Failed(UnexpectedIndentation)
    else
      var item := ItemValue(numeric, lines, indent);
      if item.Failed? then item
      else
        SuffixSize(item.rest, lines[1..]);
        var p := ParseList(numeric, item.rest, indent, out + [item.value]);
        assert p.Done? ==> IsSuffix(p.rest, lines) by {
          if p.Done? { SuffixChain(p.rest, item.rest, lines); }
        }
        p
  }

  /** One turn of the mapping loop. */
  lemma MapTurn(numeric: string -> bool, lines: seq<Line>, indent: nat, out: seq<(Value, Value)>)
    requires lines != [] && lines[0].indent == indent && Colon(lines[0].content) < |lines[0].content|
    ensures var content := lines[0].content;
            var c := Colon(content);
            var key := Scalar(numeric, Strip(content[..c]));
            var entry := EntryValue(numeric, Strip(content[c + 1..]), lines[1..], indent);
            ParseMap(numeric, lines, indent, out) ==
            if entry.Failed? then entry
            else if !Hashable(key) then Failed(UnhashableKey)
            else ParseMap(numeric, entry.rest, indent, Put(out, key, entry.value))
  {
    hide EntryValue, Put, Scalar, Strip, Colon, Size;
  }

  /** One turn of the list loop. */
  lemma ListTurn(numeric: string -> bool, lines: seq<Line>, indent: nat, out: seq<Value>)
    requires lines != [] && lines[0].indent == indent && IsDash(lines[0].content)
    ensures var item := ItemValue(numeric, lines, indent);
            ParseList(numeric, lines, indent, out) ==
            if item.Failed? then item else ParseList(numeric, item.rest, indent, out + [item.value])
  {
    hide ItemValue, IsDash, Size;
  }

  /** The three kinds of dash line. */
  lemma ItemTurn(numeric: string -> bool, lines: seq<Line>, indent: nat, item: string, rest: seq<Line>)
    requires lines != [] && lines[0].content != "" && Item(lines[0].content) == item && lines[1..] == rest
    ensures item == "" && rest != [] && rest[0].indent > indent ==>
              ItemValue(numeric, lines, indent) == ParseBlock(numeric, rest, rest[0].indent)
    ensures item == "" && !(rest != [] && rest[0].indent > indent) ==> ItemValue(numeric, lines, indent) == Done(Null, rest)
    ensures item != "" && ':' in item && !IsQuoted(item) ==>
              var mapping := ParseMap(numeric, Refed(item, lines, indent), indent + 2, []);
              ItemValue(numeric, lines, indent) == if mapping.Failed? then mapping else Done(mapping.value, Beyond(rest, indent))
    ensures item != "" && !(':' in item && !IsQuoted(item)) ==> ItemValue(numeric, lines, indent) == Done(Scalar(numeric, item), rest)
  {
    hide ParseMap, ParseBlock, Refed, Beyond, Item, IsQuoted, Scalar, Size;
  }

  lemma MapEnds(numeric: string -> bool, lines: seq<Line>, indent: nat, out: seq<(Value, Value)>)
    ensures lines == [] || lines[0].indent < indent ==> ParseMap(numeric, lines, indent, out) == Done(Map(out), lines)
    ensures lines != [] && lines[0].indent > indent ==> ParseMap(numeric, lines, indent, out) == Failed(UnexpectedIndentation)
    ensures lines != [] && lines[0].indent == indent && Colon(lines[0].content) == |lines[0].content| ==>
              ParseMap(numeric, lines, indent, out) == Failed(ExpectedKeyValue)
  {
  }

  lemma ListEnds(numeric: string -> bool, lines: seq<Line>, indent: nat, out: seq<Value>)
    ensures lines == [] || lines[0].indent < indent || !IsDash(lines[0].content) ==>
              ParseList(numeric, lines, indent, out) == Done(List(out), lines)
    ensures lines != [] && lines[0].indent > indent && IsDash(lines[0].content) ==>
              ParseList(numeric, lines, indent, out) == Failed(UnexpectedIndentation)
  {
  }

  // ---- the loops, over an index ----

  /** The index form and the remaining-lines form of a result. */
  ghost predicate Agrees(r: Result<(Value, nat), YamlError>, p: Parsed, lines: seq<Line>) {
    match r
    case Ok(pair) => p.Done? && p.value == pair.0 && pair.1 <= |lines| && p.rest == lines[pair.1..]
    case Err(e) => p == Failed(e)
  }

  lemma {:induction false} SizeDrop(lines: seq<Line>, i: nat, j: nat)
    requires i < j <= |lines|
    ensures Size(lines[j..]) < Size(lines[i..])
    decreases j - i
  {
    assert lines[i..][1..] == lines[i + 1..];
    if j > i + 1 {
      SizeDrop(lines, i + 1, j);
    }
  }

  lemma SuffixIndex(rest: seq<Line>, lines: seq<Line>, index: nat) returns (next: nat)
    requires index <= |lines| && IsSuffix(rest, lines[index..])
    ensures index <= next <= |lines| && rest == lines[next..]
  {
    next := |lines| - |rest|;
    assert lines[index..][|lines| - index - |rest|..] == lines[next..];
  }

  method Block(numeric: string -> bool, lines: seq<Line>, index: nat, indent: nat) returns (r: Result<(Value, nat), YamlError>)
    requires index <= |lines|
    ensures Agrees(r, ParseBlock(numeric, lines[index..], indent), lines)
    decreases Size(lines[index..]), 2
  {
    if index >= |lines| {
      return Ok((Null, index));
    }
    if IsDash(lines[index].content) {
      r := ListAt(numeric, lines, index, indent);
    } else {
      r := MapAt(numeric, lines, index, indent);
    }
  }

  method EntryAt(numeric: string -> bool, inline: string, lines: seq<Line>, index: nat, indent: nat)
    returns (r: Result<(Value, nat), YamlError>)
    requires index <= |lines|
    ensures Agrees(r, EntryValue(numeric, inline, lines[index..], indent), lines)
    decreases Size(lines[index..]), 3
  {
    if inline != "" {
      return Ok((Scalar(numeric, inline), index));
    }
    if index < |lines| && lines[index].indent > indent {
      r := Block(numeric, lines, index, lines[index].indent);
    } else if index < |lines| && lines[index].indent == indent && StartsWithDash(lines[index].content) {
      r := ListAt(numeric, lines, index, indent);
    } else {
      r := Ok((Null, index));
    }
  }

  method MapAt(numeric: string -> bool, lines: seq<Line>, start: nat, indent: nat) returns (r: Result<(Value, nat), YamlError>)
    requires start <= |lines|
    ensures Agrees(r, ParseMap(numeric, lines[start..], indent, []), lines)
    decreases Size(lines[start..]), 1
  {
    var out: seq<(Value, Value)>, index := [], start;
    hide EntryValue, ParseMap, Scalar, Colon, Put, Strip, Size;
    while index < |lines|
      invariant start <= index <= |lines|
      invariant ParseMap(numeric, lines[start..], indent, []) == ParseMap(numeric, lines[index..], indent, out)
    {
      var line := lines[index];
      MapEnds(numeric, lines[index..], indent, out);
      if line.indent < indent {
        break;
      }
      if line.indent > indent {
        return Err(UnexpectedIndentation);
      }
      var c := Colon(line.content);
      if c == |line.content| {
        return Err(ExpectedKeyValue);
      }
      var key := Scalar(numeric, Strip(line.content[..c]));
      assert lines[index..][1..] == lines[index + 1..];
      SizeDrop(lines, start, index + 1);
      MapTurn(numeric, lines[index..], indent, out);
      var entry := EntryAt(numeric, Strip(line.content[c + 1..]), lines, index + 1, indent);
      if entry.Err? {
        return entry;
      }
      if !Hashable(key) {
        return Err(UnhashableKey);
      }
      ghost var next := SuffixIndex(lines[entry.value.1..], lines, index + 1);
      out := Put(out, key, entry.value.0);
      index := entry.value.1;
    }
    MapEnds(numeric, lines[index..], indent, out);
    return Ok((Map(out), index));
  }

  method ItemAt(numeric: string -> bool, lines: seq<Line>, start: nat, indent: nat) returns (r: Result<(Value, nat), YamlError>)
    requires start < |lines| && lines[start].content != "" && lines[start].indent == indent
    ensures Agrees(r, ItemValue(numeric, lines[start..], indent), lines)
    decreases Size(lines[start..]), 0
  {
    hide ParseMap, ParseBlock, Scalar, Strip, Size, Deeper, Refed;
    var item, index := Strip(lines[start].content[1..]), start + 1;
    ghost var here := lines[start..];
    assert here[1..] == lines[index..];
    SizeDrop(lines, start, index);
    if item == "" {
      if index < |lines| && lines[index].indent > indent {
        r := Block(numeric, lines, index, lines[index].indent);
        return;
      }
      return Ok((Null, index));
    }
    if !(':' in item && !IsQuoted(item)) {
      return Ok((Scalar(numeric, item), index));
    }
    var synthetic, next := Gather(item, lines, start, indent);
    RefedIsSmaller(item, here, indent);
    assert synthetic[0..] == synthetic;
    var mapping := MapAt(numeric, synthetic, 0, indent + 2);
    assert lines[start + 1..][next - (start + 1)..] == lines[next..];
    // the index reached inside the re-fed lines is not looked at
    return if mapping.Err? then mapping else Ok((mapping.value.0, next));
  }

  /** One turn of the gathering loop: the line at `i` is deeper, so the count goes on after it. */
  lemma DeeperTurn(lines: seq<Line>, i: nat, indent: nat)
    requires i < |lines|
    ensures Deeper(lines[i..], indent) == if lines[i].indent > indent then 1 + Deeper(lines[i + 1..], indent) else 0
  {
    assert lines[i..][1..] == lines[i + 1..];
  }

  lemma RefedSlice(item: string, lines: seq<Line>, start: nat, indent: nat, index: nat)
    requires start < index <= |lines| && index - (start + 1) == Deeper(lines[start + 1..], indent)
    ensures Refed(item, lines[start..], indent) == [Line(indent + 2, item)] + lines[start + 1..index]
  {
    assert lines[start..][1..] == lines[start + 1..];
    assert lines[start + 1..][..index - (start + 1)] == lines[start + 1..index];
  }

  /** The lines of a mapping that starts on the dash line at `start`, and the index after them. */
  method Gather(item: string, lines: seq<Line>, start: nat, indent: nat) returns (synthetic: seq<Line>, index: nat)
    requires start < |lines|
    ensures synthetic == Refed(item, lines[start..], indent)
    ensures start < index <= |lines| && index == start + 1 + Deeper(lines[start + 1..], indent)
  {
    hide Deeper, Refed;
    synthetic, index := [Line(indent + 2, item)], start + 1;
    while index < |lines| && lines[index].indent > indent
      invariant start < index <= |lines|
      invariant Deeper(lines[start + 1..], indent) == index - (start + 1) + Deeper(lines[index..], indent)
      invariant synthetic == [Line(indent + 2, item)] + lines[start + 1..index]
    {
      DeeperTurn(lines, index, indent);
      synthetic := synthetic + [lines[index]];
      index := index + 1;
    }
    if index < |lines| { DeeperTurn(lines, index, indent); }
    RefedSlice(item, lines, start, indent, index);
  }

  method ListAt(numeric: string -> bool, lines: seq<Line>, start: nat, indent: nat) returns (r: Result<(Value, nat), YamlError>)
    requires start <= |lines|
    ensures Agrees(r, ParseList(numeric, lines[start..], indent, []), lines)
    decreases Size(lines[start..]), 1
  {
    var out: seq<Value>, index := [], start;
    hide ItemValue, ParseList, Size;
    while index < |lines|
      invariant start <= index <= |lines|
      invariant ParseList(numeric, lines[start..], indent, []) == ParseList(numeric, lines[index..], indent, out)
    {
      var line := lines[index];
      ListEnds(numeric, lines[index..], indent, out);
      if line.indent < indent || !IsDash(line.content) {
        break;
      }
      if line.indent > indent {
        return Err(UnexpectedIndentation);
      }
      if index > start { SizeDrop(lines, start, index); }
      ListTurn(numeric, lines[index..], indent, out);
      var item := ItemAt(numeric, lines, index, indent);
      if item.Err? {
        return item;
      }
      assert lines[index..][1..] == lines[index + 1..];
      ghost var next := SuffixIndex(lines[item.value.1..], lines, index + 1);
      out := out + [item.value.0];
      index := item.value.1;
    }
    ListEnds(numeric, lines[index..], indent, out);
    return Ok((List(out), index));
  }
}
