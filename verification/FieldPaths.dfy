/** What a reported field path means: it names exactly one place in the request.

A position is the chain of names from the root, each with the list index taken below it,
if any. */
module FieldPaths {
  import opened Text
  import opened FieldErrors
  import opened FieldIdentifiers

  datatype Segment = Name(name: string) | Indexed(name: string, index: nat)

  datatype Leaf = Leaf(position: seq<Segment>, failure: Failure)

  function Print(position: seq<Segment>): string {
    if position == [] then ""
    else PrintSegment(Print(position[..|position| - 1]), position[|position| - 1])
  }

  function PrintSegment(prefix: string, s: Segment): string {
    var path := Path(prefix, s.name);
    if s.Name? then path else ItemPath(path, s.index)
  }

  predicate NamesAreIdentifiers(position: seq<Segment>) {
    forall i :: 0 <= i < |position| ==> Identifier(position[i].name)
  }

  /** Every leaf of the tree with its position, in the order of the walk. */
  function Leaves(above: seq<Segment>, fields: seq<Entry>): seq<Leaf>
    decreases fields
  {
    if fields == [] then []
    else KindLeaves(above, fields[0].name, fields[0].kind) + Leaves(above, fields[1..])
  }

  function KindLeaves(above: seq<Segment>, name: string, kind: Kind): seq<Leaf>
    decreases kind
  {
    match kind
    case Field(failures) =>
      seq(|failures|, i requires 0 <= i < |failures| => Leaf(above + [Name(name)], failures[i]))
    case Struct(fields) => Leaves(above + [Name(name)], fields)
    case List(items) => ItemLeaves(above, name, items)
  }

  function ItemLeaves(above: seq<Segment>, name: string, items: seq<Item>): seq<Leaf>
    decreases items
  {
    if items == [] then []
    else Leaves(above + [Indexed(name, items[0].index)], items[0].fields) + ItemLeaves(above, name, items[1..])
  }

  function RenderAll(leaves: seq<Leaf>): seq<FieldError> {
    seq(|leaves|, i requires 0 <= i < |leaves| => Render(Print(leaves[i].position), leaves[i].failure))
  }

  lemma RenderAllConcat(a: seq<Leaf>, b: seq<Leaf>)
    ensures RenderAll(a + b) == RenderAll(a) + RenderAll(b)
  {
  }

  lemma PrintExtend(above: seq<Segment>, s: Segment)
    ensures Print(above + [s]) == PrintSegment(Print(above), s)
  {
  }

  /** The walk reports each leaf exactly once, under the printed form of its position. */
  lemma {:induction false} WalkReportsLeaves(above: seq<Segment>, fields: seq<Entry>)
    ensures FlattenFields(Print(above), fields) == RenderAll(Leaves(above, fields))
    decreases fields
  {
    if fields != [] {
      KindReportsLeaves(above, fields[0].name, fields[0].kind);
      WalkReportsLeaves(above, fields[1..]);
      RenderAllConcat(KindLeaves(above, fields[0].name, fields[0].kind), Leaves(above, fields[1..]));
    }
  }

  lemma {:induction false} KindReportsLeaves(above: seq<Segment>, name: string, kind: Kind)
    ensures FlattenKind(Path(Print(above), name), kind) == RenderAll(KindLeaves(above, name, kind))
    decreases kind
  {
    PrintExtend(above, Name(name));
    match kind
    case Field(_) =>
    case Struct(fields) => WalkReportsLeaves(above + [Name(name)], fields);
    case List(items) => ItemsReportLeaves(above, name, items);
  }

  lemma {:induction false} ItemsReportLeaves(above: seq<Segment>, name: string, items: seq<Item>)
    ensures FlattenItems(Path(Print(above), name), items) == RenderAll(ItemLeaves(above, name, items))
    decreases items
  {
    if items != [] {
      var here := Indexed(name, items[0].index);
      PrintExtend(above, here);
      WalkReportsLeaves(above + [here], items[0].fields);
      ItemsReportLeaves(above, name, items[1..]);
      RenderAllConcat(Leaves(above + [here], items[0].fields), ItemLeaves(above, name, items[1..]));
    }
  }

  // --- reading a path back ---

  lemma PrintEmpty(position: seq<Segment>)
    requires NamesAreIdentifiers(position)
    ensures Print(position) == "" <==> position == []
  {
  }

  lemma PathInjective(p: string, g: string, q: string, h: string)
    requires Identifier(g) && Identifier(h)
    ensures Path(p, g) == Path(q, h) <==> p == q && g == h
  {
    if p != "" && q != "" {
      SplitAtLast(p, g, q, h, '.');
    } else if p != "" {
      assert Path(p, g)[|p|] == '.';
    } else if q != "" {
      assert Path(q, h)[|q|] == '.';
    }
  }

  lemma ItemPathInjective(p: string, i: nat, q: string, j: nat)
    ensures ItemPath(p, i) == ItemPath(q, j) <==> p == q && i == j
  {
    var x, y := Natural(i) + "]", Natural(j) + "]";
    assert ItemPath(p, i) == p + ['['] + x && ItemPath(q, j) == q + ['['] + y;
    SplitAtLast(p, x, q, y, '[');
    assert x[..|x| - 1] == Natural(i) && y[..|y| - 1] == Natural(j);
    NaturalInjective(i, j);
  }

  lemma PathLastChar(p: string, g: string)
    requires Identifier(g)
    ensures Path(p, g) != "" && Path(p, g)[|Path(p, g)| - 1] == g[|g| - 1] != ']'
  {
  }

  lemma SegmentInjective(p: string, s: Segment, q: string, t: Segment)
    requires Identifier(s.name) && Identifier(t.name)
    ensures PrintSegment(p, s) == PrintSegment(q, t) <==> p == q && s == t
  {
    PathInjective(p, s.name, q, t.name);
    PathLastChar(p, s.name);
    PathLastChar(q, t.name);
    if s.Indexed? && t.Indexed? {
      ItemPathInjective(Path(p, s.name), s.index, Path(q, t.name), t.index);
    }
  }

  lemma AppendInjective(a: seq<Segment>, s: Segment, b: seq<Segment>, t: Segment)
    ensures a + [s] == b + [t] <==> a == b && s == t
  {
    assert (a + [s])[..|a|] == a && (b + [t])[..|b|] == b;
    assert (a + [s])[|a|] == s && (b + [t])[|b|] == t;
  }

  /** Two positions print alike only if they are the same position. */
  lemma {:induction false} PrintInjective(a: seq<Segment>, b: seq<Segment>)
    requires NamesAreIdentifiers(a) && NamesAreIdentifiers(b)
    ensures Print(a) == Print(b) <==> a == b
  {
    if a == [] || b == [] {
      PrintEmpty(a);
      PrintEmpty(b);
    } else {
      var a', b' := a[..|a| - 1], b[..|b| - 1];
      var s, t := a[|a| - 1], b[|b| - 1];
      assert a == a' + [s] && b == b' + [t];
      PrintInjective(a', b');
      SegmentInjective(Print(a'), s, Print(b'), t);
      AppendInjective(a', s, b', t);
    }
  }
}
