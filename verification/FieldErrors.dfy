/** Flattening a tree of validation errors into a sorted list of field paths.

A node lists its fields in the order the hash map happened to yield them; list items
come from a B-tree and are always in index order.
 */
module FieldErrors {
  import opened Text

  datatype Message = Unset | Given(text: string)

  datatype Failure = Failure(code: string, message: Message)

  datatype Entry = Entry(name: string, kind: Kind)

  datatype Item = Item(index: nat, fields: seq<Entry>)

  datatype Kind =
    | Field(failures: seq<Failure>)
    | Struct(fields: seq<Entry>)
    | List(items: seq<Item>)

  datatype FieldError = FieldError(field: string, code: string, message: string)

  // --- the walk ---

  function Path(prefix: string, name: string): string {
    if prefix == "" then name else prefix + "." + name
  }

  function ItemPath(path: string, index: nat): string {
    path + "[" + Natural(index) + "]"
  }

  function Render(path: string, f: Failure): FieldError {
    FieldError(path, f.code, match f.message
                             case Given(t) => t
                             case Unset => "failed the '" + f.code + "' rule")
  }

  function FlattenFields(prefix: string, fields: seq<Entry>): seq<FieldError>
    decreases fields
  {
    if fields == [] then []
    else FlattenKind(Path(prefix, fields[0].name), fields[0].kind) + FlattenFields(prefix, fields[1..])
  }

  function FlattenKind(path: string, kind: Kind): seq<FieldError>
    decreases kind
  {
    match kind
    case Field(failures) => seq(|failures|, i requires 0 <= i < |failures| => Render(path, failures[i]))
    case Struct(fields) => FlattenFields(path, fields)
    case List(items) => FlattenItems(path, items)
  }

  function FlattenItems(path: string, items: seq<Item>): seq<FieldError>
    decreases items
  {
    if items == [] then []
    else FlattenFields(ItemPath(path, items[0].index), items[0].fields) + FlattenItems(path, items[1..])
  }

  /** A rule without a message is reported by its code, and by nothing else. */
  lemma FallbackNamesRule(path: string, code: string, other: string)
    ensures Render(path, Failure(code, Unset)).message == Render(path, Failure(other, Unset)).message <==> code == other
    ensures Render(path, Failure("email", Unset)) == FieldError(path, "email", "failed the 'email' rule")
    ensures Render(path, Failure(code, Given(other))) == FieldError(path, code, other)
  {
    var m, m' := Render(path, Failure(code, Unset)).message, Render(path, Failure(other, Unset)).message;
    assert m[12..|m| - 6] == code && m'[12..|m'| - 6] == other;
  }

  // --- the walk as written: one shared output vector ---

  class Output {
    var items: seq<FieldError>

    constructor ()
      ensures items == []
    {
      items := [];
    }
  }

  lemma FieldsFrom(prefix: string, fields: seq<Entry>, i: nat)
    requires i < |fields|
    ensures FlattenFields(prefix, fields[i..]) ==
            FlattenKind(Path(prefix, fields[i].name), fields[i].kind) + FlattenFields(prefix, fields[i + 1..])
  {
  }

  lemma ItemsFrom(path: string, items: seq<Item>, i: nat)
    requires i < |items|
    ensures FlattenItems(path, items[i..]) ==
            FlattenFields(ItemPath(path, items[i].index), items[i].fields) + FlattenItems(path, items[i + 1..])
  {
  }

  lemma Regroup(a: seq<FieldError>, b: seq<FieldError>, c: seq<FieldError>)
    ensures a + b + c == a + (b + c)
  {
  }

  method FlattenInto(prefix: string, fields: seq<Entry>, out: Output)
    modifies out
    ensures out.items == old(out.items) + FlattenFields(prefix, fields)
    decreases fields
  {
    var i := 0;
    while i < |fields|
      invariant 0 <= i <= |fields|
      invariant out.items + FlattenFields(prefix, fields[i..]) == old(out.items) + FlattenFields(prefix, fields)
    {
      var path := if prefix == "" then fields[i].name else prefix + "." + fields[i].name;
      FieldsFrom(prefix, fields, i);
      ghost var before := out.items;
      FlattenKindInto(path, fields[i].kind, out);
      Regroup(before, FlattenKind(path, fields[i].kind), FlattenFields(prefix, fields[i + 1..]));
      i := i + 1;
    }
  }

  method FlattenKindInto(path: string, kind: Kind, out: Output)
    modifies out
    ensures out.items == old(out.items) + FlattenKind(path, kind)
    decreases kind
  {
    match kind {
      case Field(failures) => PushFailures(path, failures, out);
      case Struct(nested) => FlattenInto(path, nested, out);
      case List(items) => FlattenItemsInto(path, items, out);
    }
  }

  method PushFailures(path: string, failures: seq<Failure>, out: Output)
    modifies out
    ensures out.items == old(out.items) + FlattenKind(path, Field(failures))
  {
    var i := 0;
    while i < |failures|
      invariant 0 <= i <= |failures|
      invariant out.items == old(out.items) + FlattenKind(path, Field(failures))[..i]
    {
      var f := failures[i];
      var message := if f.message.Given? then f.message.text else "failed the '" + f.code + "' rule";
      out.items := out.items + [FieldError(path, f.code, message)];
      i := i + 1;
    }
  }

  method FlattenItemsInto(path: string, items: seq<Item>, out: Output)
    modifies out
    ensures out.items == old(out.items) + FlattenItems(path, items)
    decreases items
  {
    var i := 0;
    while i < |items|
      invariant 0 <= i <= |items|
      invariant out.items + FlattenItems(path, items[i..]) == old(out.items) + FlattenItems(path, items)
    {
      ItemsFrom(path, items, i);
      ghost var before, here := out.items, ItemPath(path, items[i].index);
      FlattenInto(ItemPath(path, items[i].index), items[i].fields, out);
      Regroup(before, FlattenFields(here, items[i].fields), FlattenItems(path, items[i + 1..]));
      i := i + 1;
    }
  }
}
