/** A canonical printer for the subset: the specification device of the round trip. */
module YamlPrinter {
  import opened YamlText
  import opened YamlParser

  /**
    * What a writer may choose: which strings stay unquoted, and whether a list under a key sits at
    * the key's own indentation. Everything else is fixed: two spaces a level, a mapping inside a
    * list starts on its dash line.
    */
  datatype Style = Style(plain: string -> bool, flush: bool)

  /** Printed on one line. */
  predicate Leaf(v: Value) {
    !(v.Map? && v.entries != []) && !(v.List? && v.items != [])
  }

  /** Text that reads the same with or without a key before it or a dash in front of it. */
  predicate PlainText(s: string) {
    Trimmed(s) && ':' !in s && !IsDash(s)
  }

  function Quote(s: string): char {
    if '"' in s && '\'' !in s then '\'' else '"'
  }

  function Quoted(s: string): string {
    [Quote(s)] + s + [Quote(s)]
  }

  function Text(style: Style, v: Value): string {
    match v
    case Null => "null"
    case Bool(b) => if b then "true" else "false"
    case Num(literal) => literal
    case Str(s) => if style.plain(s) then s else Quoted(s)
    case Map(_) => "{}"
    case List(_) => "[]"
  }

  function Lines(style: Style, v: Value, indent: nat): (r: seq<Line>)
    ensures AllFrom(r, indent)
    decreases v, 1
  {
    match v
    case Map(entries) => MapLines(style, entries, indent)
    case List(items) => ListLines(style, items, indent)
    case _ => []
  }

  function MapLines(style: Style, entries: seq<(Value, Value)>, indent: nat): (r: seq<Line>)
    ensures AllFrom(r, indent)
    ensures entries != [] ==> r != [] && r[0].indent == indent
    decreases entries, 0
  {
    if entries == [] then [] else EntryLines(style, entries[0], indent) + MapLines(style, entries[1..], indent)
  }

  function KeyContent(style: Style, key: Value, inline: string): string {
    Text(style, key) + ":" + if inline == "" then "" else " " + inline
  }

  /** A list under a key may sit at the indentation of the key. */
  function Inner(style: Style, value: Value, indent: nat): nat {
    if value.List? && style.flush then indent else indent + 2
  }

  function EntryLines(style: Style, entry: (Value, Value), indent: nat): (r: seq<Line>)
    ensures r != [] && r[0].indent == indent && AllFrom(r, indent)
    decreases entry, 2
  {
    var (key, value) := entry;
    if Leaf(value) then [Line(indent, KeyContent(style, key, Text(style, value)))]
    else [Line(indent, KeyContent(style, key, ""))] + Lines(style, value, Inner(style, value, indent))
  }

  function ListLines(style: Style, items: seq<Value>, indent: nat): (r: seq<Line>)
    ensures AllFrom(r, indent)
    ensures items != [] ==> r != [] && r[0].indent == indent
    decreases items, 0
  {
    if items == [] then [] else ItemLines(style, items[0], indent) + ListLines(style, items[1..], indent)
  }

  function ItemLines(style: Style, item: Value, indent: nat): (r: seq<Line>)
    ensures r != [] && r[0].indent == indent && AllFrom(r, indent)
    decreases item, 2
  {
    if Leaf(item) then [Line(indent, "- " + Text(style, item))]
    else OnDash(item.Map?, Lines(style, item, indent + 2), indent)
  }

  /** A mapping starts on the dash line unless that line would read as one quoted string. */
  function OnDash(mapping: bool, inner: seq<Line>, indent: nat): (r: seq<Line>)
    ensures r != [] && r[0].indent == indent
    ensures AllFrom(inner, indent) ==> AllFrom(r, indent)
  {
    if mapping && inner != [] && !IsQuoted(inner[0].content) then
      [Line(indent, "- " + inner[0].content)] + inner[1..]
    else [Line(indent, "-")] + inner
  }

  // ---- which values the subset can hold ----

  ghost predicate StyleOk(numeric: string -> bool, style: Style) {
    forall s :: style.plain(s) ==> PlainText(s) && Scalar(numeric, s) == Str(s)
  }

  predicate ScalarOk(numeric: string -> bool, v: Value) {
    v.Num? ==> PlainText(v.literal) && Scalar(numeric, v.literal) == v
  }

  /** The first colon of a line ends the key, so no key has a colon in its text. */
  predicate KeyOk(numeric: string -> bool, style: Style, key: Value) {
    Hashable(key) && ScalarOk(numeric, key) && ':' !in Text(style, key)
  }

  predicate NoKey(key: Value, entries: seq<(Value, Value)>) {
    forall i :: 0 <= i < |entries| ==> entries[i].0 != key
  }

  /** Nested mappings with distinct colon-free keys, lists and scalars, to any depth. */
  predicate Printable(numeric: string -> bool, style: Style, v: Value)
    decreases v, 1
  {
    match v
    case Map(entries) => PrintableEntries(numeric, style, entries)
    case List(items) => PrintableItems(numeric, style, items)
    case _ => ScalarOk(numeric, v)
  }

  predicate PrintableEntries(numeric: string -> bool, style: Style, entries: seq<(Value, Value)>)
    decreases entries, 0
  {
    entries == [] ||
    (PrintableEntry(numeric, style, entries[0]) && NoKey(entries[0].0, entries[1..]) &&
     PrintableEntries(numeric, style, entries[1..]))
  }

  predicate PrintableEntry(numeric: string -> bool, style: Style, entry: (Value, Value))
    decreases entry, 2
  {
    KeyOk(numeric, style, entry.0) && Printable(numeric, style, entry.1)
  }

  predicate PrintableItems(numeric: string -> bool, style: Style, items: seq<Value>)
    decreases items, 0
  {
    items == [] || (Printable(numeric, style, items[0]) && PrintableItems(numeric, style, items[1..]))
  }
}
