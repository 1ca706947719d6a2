/** What the parser looks at: the lines of a block, and the lines of a re-fed mapping it never reads. */
module YamlLoss {
  import opened YamlText
  import opened YamlParser
  import opened YamlPrinter
  import opened YamlRoundTrip

  // ---- a block is read without looking past its first shallower line ----

  /** The same outcome, with more lines left over. */
  function Extend(p: Parsed, more: seq<Line>): Parsed {
    match p
    case Done(value, rest) => Done(value, rest + more)
    case Failed(error) => Failed(error)
  }

  lemma {:induction false} DeeperOfBoth(a: seq<Line>, b: seq<Line>, indent: nat)
    requires b == [] || b[0].indent <= indent
    ensures Deeper(a + b, indent) == Deeper(a, indent)
  {
    if a == [] {
      assert a + b == b;
    } else {
      assert (a + b)[1..] == a[1..] + b;
      DeeperOfBoth(a[1..], b, indent);
    }
  }

  lemma DeeperIsLocal(a: seq<Line>, b: seq<Line>, indent: nat)
    requires b == [] || b[0].indent <= indent
    ensures Deeper(a + b, indent) == Deeper(a, indent)
    ensures Beyond(a + b, indent) == Beyond(a, indent) + b
    ensures (a + b)[..Deeper(a + b, indent)] == a[..Deeper(a, indent)]
  {
    DeeperOfBoth(a, b, indent);
    hide Deeper;
  }

  lemma TailFrom(lines: seq<Line>, floor: nat)
    requires lines != [] && AllFrom(lines, floor)
    ensures AllFrom(lines[1..], floor)
  {
  }

  lemma SuffixFrom(rest: seq<Line>, lines: seq<Line>, floor: nat)
    requires IsSuffix(rest, lines) && AllFrom(lines, floor)
    ensures AllFrom(rest, floor)
  {
    forall i | 0 <= i < |rest| ensures rest[i].indent >= floor {
      assert rest[i] == lines[|lines| - |rest| + i];
    }
  }

  lemma {:induction false} BlockIsLocal(numeric: string -> bool, a: seq<Line>, b: seq<Line>, floor: nat, indent: nat)
    requires a != [] && AllFrom(a, floor) && EndsBlock(b, floor) && floor <= indent
    ensures ParseBlock(numeric, a + b, indent) == Extend(ParseBlock(numeric, a, indent), b)
    decreases Size(a), 2
  {
    hide ParseMap, ParseList, IsDash, Extend, Size;
    assert (a + b)[0] == a[0];
    if IsDash(a[0].content) {
      ListIsLocal(numeric, a, b, floor, indent, []);
    } else {
      MapIsLocal(numeric, a, b, floor, indent, []);
    }
  }

  lemma {:induction false} EntryIsLocal(numeric: string -> bool, inline: string, a: seq<Line>, b: seq<Line>,
                                        floor: nat, indent: nat)
    requires AllFrom(a, floor) && EndsBlock(b, floor) && floor <= indent
    ensures EntryValue(numeric, inline, a + b, indent) == Extend(EntryValue(numeric, inline, a, indent), b)
    decreases Size(a), 3
  {
    hide ParseBlock, ParseList, Scalar, StartsWithDash, Size;
    if a == [] {
      assert a + b == b;
    } else {
      assert (a + b)[0] == a[0];
      if inline == "" && a[0].indent > indent {
        BlockIsLocal(numeric, a, b, floor, a[0].indent);
      } else if inline == "" && a[0].indent == indent && StartsWithDash(a[0].content) {
        ListIsLocal(numeric, a, b, floor, indent, []);
      }
    }
  }

  lemma {:induction false} MapIsLocal(numeric: string -> bool, a: seq<Line>, b: seq<Line>, floor: nat, indent: nat,
                                      out: seq<(Value, Value)>)
    requires AllFrom(a, floor) && EndsBlock(b, floor) && floor <= indent
    ensures ParseMap(numeric, a + b, indent, out) == Extend(ParseMap(numeric, a, indent, out), b)
    decreases Size(a), 1
  {
    hide ParseMap, EntryValue, Scalar, Strip, Put;
    MapEnds(numeric, a + b, indent, out);
    MapEnds(numeric, a, indent, out);
    if a == [] {
      assert a + b == b;
    } else {
      assert (a + b)[0] == a[0];
      var content := a[0].content;
      var c := Colon(content);
      if a[0].indent == indent && c < |content| {
        var inline := Strip(content[c + 1..]);
        assert (a + b)[1..] == a[1..] + b;
        TailFrom(a, floor);
        EntryIsLocal(numeric, inline, a[1..], b, floor, indent);
        MapTurn(numeric, a, indent, out);
        MapTurn(numeric, a + b, indent, out);
        var entry := EntryValue(numeric, inline, a[1..], indent);
        if entry.Done? {
          SuffixSize(entry.rest, a[1..]);
          SuffixFrom(entry.rest, a[1..], floor);
          MapIsLocal(numeric, entry.rest, b, floor, indent, Put(out, Scalar(numeric, Strip(content[..c])), entry.value));
        }
      }
    }
  }

  lemma RefedIsLocal(item: string, a: seq<Line>, b: seq<Line>, indent: nat)
    requires a != [] && (b == [] || b[0].indent <= indent)
    ensures (a + b)[0] == a[0] && (a + b)[1..] == a[1..] + b
    ensures Refed(item, a + b, indent) == Refed(item, a, indent)
    ensures Beyond(a[1..] + b, indent) == Beyond(a[1..], indent) + b
  {
    assert (a + b)[1..] == a[1..] + b;
    DeeperIsLocal(a[1..], b, indent);
    hide Deeper;
  }

  lemma {:induction false} ItemIsLocal(numeric: string -> bool, a: seq<Line>, b: seq<Line>, floor: nat, indent: nat)
    requires a != [] && a[0].content != "" && AllFrom(a, floor) && EndsBlock(b, floor) && floor <= indent
    ensures ItemValue(numeric, a + b, indent) == Extend(ItemValue(numeric, a, indent), b)
    decreases Size(a), 0
  {
    hide ItemValue, ParseBlock, ParseMap, Scalar, Item, IsQuoted, Beyond, Refed;
    var item, rest := Item(a[0].content), a[1..];
    RefedIsLocal(item, a, b, indent);
    ItemTurn(numeric, a, indent, item, rest);
    ItemTurn(numeric, a + b, indent, item, rest + b);
    if item == "" {
      if rest == [] {
        assert rest + b == b;
      } else if rest[0].indent > indent {
        TailFrom(a, floor);
        BlockIsLocal(numeric, rest, b, floor, rest[0].indent);
      }
    }
  }

  lemma {:induction false} ListIsLocal(numeric: string -> bool, a: seq<Line>, b: seq<Line>, floor: nat, indent: nat,
                                       out: seq<Value>)
    requires AllFrom(a, floor) && EndsBlock(b, floor) && floor <= indent
    ensures ParseList(numeric, a + b, indent, out) == Extend(ParseList(numeric, a, indent, out), b)
    decreases Size(a), 1
  {
    hide ParseList, ItemValue, IsDash;
    ListEnds(numeric, a + b, indent, out);
    ListEnds(numeric, a, indent, out);
    if a == [] {
      assert a + b == b;
    } else {
      assert (a + b)[0] == a[0];
      if a[0].indent == indent && IsDash(a[0].content) {
        DashNotEmpty(a[0].content);
        ItemIsLocal(numeric, a, b, floor, indent);
        ListTurn(numeric, a, indent, out);
        ListTurn(numeric, a + b, indent, out);
        var item := ItemValue(numeric, a, indent);
        if item.Done? {
          TailFrom(a, floor);
          SuffixSize(item.rest, a[1..]);
          SuffixFrom(item.rest, a[1..], floor);
          ListIsLocal(numeric, item.rest, b, floor, indent, out + [item.value]);
        }
      }
    }
  }

  lemma DashNotEmpty(content: string)
    requires IsDash(content)
    ensures content != ""
  {
  }

  // ---- the lines of a re-fed mapping that are never read ----

  /** Of the gathered lines, the ones the mapping gets to see: up to the first line only one column deeper than the dash. */
  function Kept(lines: seq<Line>, indent: nat): seq<Line>
    requires lines != []
  {
    Gathered(lines, indent)[..Deeper(Gathered(lines, indent), indent + 1)]
  }

  function Ignored(lines: seq<Line>, indent: nat): seq<Line>
    requires lines != []
  {
    Beyond(Gathered(lines, indent), indent + 1)
  }

  /** The same lines with the ignored ones deleted. */
  function Shortened(lines: seq<Line>, indent: nat): (r: seq<Line>)
    requires lines != []
    ensures r != [] && r[0] == lines[0]
  {
    [lines[0]] + Kept(lines, indent) + Beyond(lines[1..], indent)
  }

  ghost predicate SomeOneColumnDeeper(lines: seq<Line>, indent: nat) {
    exists i :: 0 <= i < |lines| && lines[i].indent == indent + 1
  }

  predicate StartsMapping(content: string) {
    content != "" && Item(content) != "" && ':' in Item(content) && !IsQuoted(Item(content))
  }

  /** A mapping is read until a shallower line. */
  lemma {:induction false} MapStopsBelow(numeric: string -> bool, lines: seq<Line>, indent: nat, out: seq<(Value, Value)>)
    ensures var p := ParseMap(numeric, lines, indent, out); p.Done? ==> EndsBlock(p.rest, indent)
    decreases Size(lines)
  {
    hide ParseMap, EntryValue, Scalar, Strip, Put;
    MapEnds(numeric, lines, indent, out);
    if lines != [] && lines[0].indent == indent && Colon(lines[0].content) < |lines[0].content| {
      var content := lines[0].content;
      var c := Colon(content);
      MapTurn(numeric, lines, indent, out);
      var entry := EntryValue(numeric, Strip(content[c + 1..]), lines[1..], indent);
      if entry.Done? {
        SuffixSize(entry.rest, lines[1..]);
        MapStopsBelow(numeric, entry.rest, indent, Put(out, Scalar(numeric, Strip(content[..c])), entry.value));
      }
    }
  }

  /** A mapping whose lines are all deep enough is read to its end. */
  lemma MapReadsAll(numeric: string -> bool, lines: seq<Line>, indent: nat)
    requires AllFrom(lines, indent)
    ensures var p := ParseMap(numeric, lines, indent, []); p.Done? ==> p.rest == []
  {
    var p := ParseMap(numeric, lines, indent, []);
    MapStopsBelow(numeric, lines, indent, []);
    hide ParseMap;
    if p.Done? { SuffixFrom(p.rest, lines, indent); }
  }

  lemma SplitAt(lines: seq<Line>, indent: nat)
    ensures lines == lines[..Deeper(lines, indent)] + Beyond(lines, indent)
    ensures AllFrom(lines[..Deeper(lines, indent)], indent + 1)
    ensures EndsBlock(Beyond(lines, indent), indent + 1)
  {
    hide Deeper;
  }

  lemma IgnoredIff(g: seq<Line>, indent: nat)
    requires AllFrom(g, indent + 1)
    ensures Beyond(g, indent + 1) != [] <==> SomeOneColumnDeeper(g, indent)
  {
    hide Deeper;
    var n := Deeper(g, indent + 1);
    if n < |g| {
      assert g[n].indent == indent + 1;
    }
  }

  lemma Split(lines: seq<Line>, indent: nat)
    requires lines != []
    ensures lines == [lines[0]] + Gathered(lines, indent) + Beyond(lines[1..], indent)
    ensures Gathered(lines, indent) == Kept(lines, indent) + Ignored(lines, indent)
    ensures AllFrom(Gathered(lines, indent), indent + 1)
    ensures AllFrom(Kept(lines, indent), indent + 2)
    ensures EndsBlock(Ignored(lines, indent), indent + 2)
    ensures Ignored(lines, indent) != [] <==> SomeOneColumnDeeper(Gathered(lines, indent), indent)
  {
    hide Deeper, Beyond, AllFrom, EndsBlock, SomeOneColumnDeeper;
    SplitAt(lines[1..], indent);
    SplitAt(Gathered(lines, indent), indent + 1);
    IgnoredIff(Gathered(lines, indent), indent);
    assert lines == [lines[0]] + lines[1..];
  }

  /**
   * A continuation line one column deeper than the dash ends what is read of the mapping: that line and every
   * later gathered one are skipped, with no error, and the list item is what it would be with them deleted.
   * Nothing is skipped exactly when no gathered line is at that column.
   */
  lemma SilentLoss(numeric: string -> bool, lines: seq<Line>, indent: nat)
    requires lines != [] && StartsMapping(lines[0].content)
    ensures ItemValue(numeric, lines, indent) == ItemValue(numeric, Shortened(lines, indent), indent)
    ensures var p := ParseMap(numeric, Refed(Item(lines[0].content), lines, indent), indent + 2, []);
            p.Done? ==> p.rest == Ignored(lines, indent)
    ensures Ignored(lines, indent) != [] <==> SomeOneColumnDeeper(Gathered(lines, indent), indent)
  {
    hide ItemValue, ParseMap, Item, IsQuoted, Gathered, Kept, Ignored, Deeper, Refed, AllFrom, Beyond, IsSuffix, Shortened, EndsBlock,
         SomeOneColumnDeeper;
    Split(lines, indent);
    var item := Item(lines[0].content);
    RefedSplit(item, lines, indent);
    ReadsKept(numeric, [Line(indent + 2, item)] + Kept(lines, indent), Ignored(lines, indent), indent + 2);
    ShorterItem(numeric, lines, indent);
  }

  /** Of lines deep enough and then a shallower one, a mapping reads exactly the first. */
  lemma ReadsKept(numeric: string -> bool, read: seq<Line>, ignored: seq<Line>, indent: nat)
    requires AllFrom(read, indent) && EndsBlock(ignored, indent)
    ensures ParseMap(numeric, read + ignored, indent, []) == Extend(ParseMap(numeric, read, indent, []), ignored)
    ensures var p := ParseMap(numeric, read + ignored, indent, []); p.Done? ==> p.rest == ignored
  {
    MapIsLocal(numeric, read, ignored, indent, indent, []);
    MapReadsAll(numeric, read, indent);
    hide ParseMap;
    assert [] + ignored == ignored;
  }

  lemma RefedSplit(item: string, lines: seq<Line>, indent: nat)
    requires lines != []
    ensures Refed(item, lines, indent) == [Line(indent + 2, item)] + Kept(lines, indent) + Ignored(lines, indent)
    ensures AllFrom([Line(indent + 2, item)] + Kept(lines, indent), indent + 2)
  {
    Split(lines, indent);
    hide Deeper, Kept, Ignored;
  }

  lemma ShorterItem(numeric: string -> bool, lines: seq<Line>, indent: nat)
    requires lines != [] && StartsMapping(lines[0].content)
    requires var item := Item(lines[0].content);
             var p := ParseMap(numeric, [Line(indent + 2, item)] + Kept(lines, indent), indent + 2, []);
             ParseMap(numeric, Refed(item, lines, indent), indent + 2, []) == Extend(p, Ignored(lines, indent))
    ensures ItemValue(numeric, lines, indent) == ItemValue(numeric, Shortened(lines, indent), indent)
  {
    var item := Item(lines[0].content);
    RefedShorter(item, lines, indent);
    hide ItemValue, ParseMap, Item, IsQuoted, Kept, Ignored, Beyond, Deeper, Refed, Shortened;
    ItemTurn(numeric, lines, indent, item, lines[1..]);
    ItemTurn(numeric, Shortened(lines, indent), indent, item, Kept(lines, indent) + Beyond(lines[1..], indent));
  }

  lemma RefedShorter(item: string, lines: seq<Line>, indent: nat)
    requires lines != []
    ensures var kept, beyond := Kept(lines, indent), Beyond(lines[1..], indent);
            && Shortened(lines, indent)[1..] == kept + beyond
            && Refed(item, Shortened(lines, indent), indent) == [Line(indent + 2, item)] + kept
            && Beyond(kept + beyond, indent) == beyond
  {
    var kept, beyond := Kept(lines, indent), Beyond(lines[1..], indent);
    KeptThenBeyond(lines, indent);
    hide Kept, Deeper, Gathered, Beyond;
    assert Shortened(lines, indent)[1..] == kept + beyond;
    GatheredIs(Shortened(lines, indent), kept, beyond, indent);
  }

  lemma KeptThenBeyond(lines: seq<Line>, indent: nat)
    requires lines != []
    ensures Deeper(Kept(lines, indent) + Beyond(lines[1..], indent), indent) == |Kept(lines, indent)|
  {
    Split(lines, indent);
    var kept, beyond := Kept(lines, indent), Beyond(lines[1..], indent);
    assert EndsBlock(beyond, indent + 1);
    hide Kept, Deeper, Gathered;
    AllKeptAreDeeper(kept, indent);
    DeeperIsLocal(kept, beyond, indent);
  }

  lemma {:induction false} AllKeptAreDeeper(kept: seq<Line>, indent: nat)
    requires AllFrom(kept, indent + 1)
    ensures Deeper(kept, indent) == |kept|
  {
    if kept != [] {
      TailFrom(kept, indent + 1);
      AllKeptAreDeeper(kept[1..], indent);
    }
  }

  /**
    * Whatever is written one column short behind a mapping printed on its dash line, and everything
    * deeper than the dash after it, vanishes: the item reads as if nothing had been added.
    */
  lemma JunkVanishes(numeric: string -> bool, style: Style, item: Value, indent: nat, junk: seq<Line>, after: seq<Line>)
    requires StyleOk(numeric, style) && Printable(numeric, style, item) && item.Map? && !Leaf(item)
    requires !IsQuoted(Lines(style, item, indent + 2)[0].content)
    requires junk != [] && junk[0].indent == indent + 1 && AllFrom(junk, indent + 1)
    requires after == [] || after[0].indent <= indent
    ensures var lines := ItemLines(style, item, indent) + junk + after;
            lines[0].content != "" && ItemValue(numeric, lines, indent) == Done(item, after)
  {
    hide ItemValue, Lines, Printable, StyleOk, IsQuoted, Item, Gathered, Kept, Trimmed, Beyond;
    var inner := Lines(style, item, indent + 2);
    FirstLine(numeric, style, item, indent + 2);
    DashLine(inner[0].content);
    var printed := ItemLines(style, item, indent);
    var lines := printed + junk + after;
    assert lines[0] == printed[0] && lines[1..] == inner[1..] + junk + after;
    KeptOfJunk(lines, inner[1..], junk, after, indent);
    ItemRoundTrip(numeric, style, item, indent, after);
    assert [lines[0]] + inner[1..] + after == printed + after;
    SilentLoss(numeric, lines, indent);
  }

  lemma GatheredIs(lines: seq<Line>, deeper: seq<Line>, after: seq<Line>, indent: nat)
    requires lines != [] && lines[1..] == deeper + after && Deeper(lines[1..], indent) == |deeper|
    ensures Gathered(lines, indent) == deeper && Beyond(lines[1..], indent) == after
  {
    hide Deeper;
  }

  lemma KeptOfJunk(lines: seq<Line>, inner: seq<Line>, junk: seq<Line>, after: seq<Line>, indent: nat)
    requires lines != [] && lines[1..] == inner + junk + after
    requires AllFrom(inner, indent + 2)
    requires junk != [] && junk[0].indent == indent + 1 && AllFrom(junk, indent + 1)
    requires after == [] || after[0].indent <= indent
    ensures Kept(lines, indent) == inner && Beyond(lines[1..], indent) == after
  {
    AllKeptAreDeeper(inner + junk, indent);
    DeeperIsLocal(inner + junk, after, indent);
    AllKeptAreDeeper(inner, indent + 1);
    DeeperIsLocal(inner, junk, indent + 1);
    hide Deeper;
    GatheredIs(lines, inner + junk, after, indent);
    hide Gathered, Beyond;
  }
}
