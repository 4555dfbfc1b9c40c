/** Field names that are identifiers never collide, so the response does not depend on the
walk; a separator inside a name can make it do so. */
module FieldIdentifiers {
  import opened FieldErrors
  import opened FieldErrorSort
  import opened FieldErrorOrder

  predicate Identifier(name: string) {
    name != "" && '.' !in name && '[' !in name && ']' !in name
  }

  predicate WellNamed(fields: seq<Entry>)
    decreases fields
  {
    forall i :: 0 <= i < |fields| ==> Identifier(fields[i].name) && KindWellNamed(fields[i].kind)
  }

  predicate KindWellNamed(kind: Kind)
    decreases kind
  {
    match kind
    case Field(_) => true
    case Struct(fields) => WellNamed(fields)
    case List(items) => forall i :: 0 <= i < |items| ==> WellNamed(items[i].fields)
  }

  /** `field` is `path` itself or lies below it. */
  predicate Under(path: string, field: string) {
    path <= field && (|field| == |path| || field[|path|] == '.' || field[|path|] == '[')
  }

  predicate AllUnder(path: string, errors: seq<FieldError>) {
    forall i :: 0 <= i < |errors| ==> Under(path, errors[i].field)
  }

  lemma UnderTransitive(path: string, mid: string, errors: seq<FieldError>)
    requires Under(path, mid) && AllUnder(mid, errors)
    ensures AllUnder(path, errors)
  {
  }

  lemma {:induction false} FieldsUnder(prefix: string, fields: seq<Entry>)
    requires prefix != "" && WellNamed(fields)
    ensures AllUnder(prefix, FlattenFields(prefix, fields))
    decreases fields
  {
    if fields != [] {
      var path := Path(prefix, fields[0].name);
      KindUnder(path, fields[0].kind);
      UnderTransitive(prefix, path, FlattenKind(path, fields[0].kind));
      FieldsUnder(prefix, fields[1..]);
    }
  }

  lemma {:induction false} KindUnder(path: string, kind: Kind)
    requires path != "" && KindWellNamed(kind)
    ensures AllUnder(path, FlattenKind(path, kind))
    decreases kind
  {
    match kind
    case Field(_) =>
    case Struct(fields) => FieldsUnder(path, fields);
    case List(items) => ItemsUnder(path, items);
  }

  lemma {:induction false} ItemsUnder(path: string, items: seq<Item>)
    requires path != "" && KindWellNamed(List(items))
    ensures AllUnder(path, FlattenItems(path, items))
    decreases items
  {
    if items != [] {
      var p := ItemPath(path, items[0].index);
      FieldsUnder(p, items[0].fields);
      UnderTransitive(path, p, FlattenFields(p, items[0].fields));
      ItemsUnder(path, items[1..]);
    }
  }

  /** The name at the front of a path. */
  function Leading(s: string): string {
    if s == "" || s[0] == '.' || s[0] == '[' then "" else [s[0]] + Leading(s[1..])
  }

  lemma {:induction false} LeadingName(name: string, rest: string)
    requires '.' !in name && '[' !in name && (rest == "" || rest[0] == '.' || rest[0] == '[')
    ensures Leading(name + rest) == name
  {
    if name == "" {
      assert name + rest == rest;
    } else {
      assert (name + rest)[1..] == name[1..] + rest;
      LeadingName(name[1..], rest);
    }
  }

  /** Nothing lies below two different siblings. */
  lemma SiblingsApart(prefix: string, g: string, h: string, field: string)
    requires Identifier(g) && Identifier(h) && Under(Path(prefix, g), field) && Under(Path(prefix, h), field)
    ensures g == h
  {
    var p, q := Path(prefix, g), Path(prefix, h);
    var base := |p| - |g|;
    assert field[base..] == g + field[|p|..] && field[base..] == h + field[|q|..];
    LeadingName(g, field[|p|..]);
    LeadingName(h, field[|q|..]);
  }

  lemma OutsideContributesNothing(prefix: string, e: Entry, field: string, code: string)
    requires Identifier(e.name) && KindWellNamed(e.kind) && !Under(Path(prefix, e.name), field)
    ensures Contribution(prefix, e, field, code) == []
  {
    var path := Path(prefix, e.name);
    KindUnder(path, e.kind);
    GroupEmpty(FlattenKind(path, e.kind), field, code);
  }

  lemma SiblingsCommute(prefix: string, e: Entry, e': Entry)
    requires Identifier(e.name) && KindWellNamed(e.kind) && Identifier(e'.name) && KindWellNamed(e'.kind)
    requires e.name != e'.name
    ensures Commute(prefix, e, e')
  {
    forall field, code
      ensures Swappable(prefix, e, e', field, code)
    {
      if !Under(Path(prefix, e.name), field) {
        OutsideContributesNothing(prefix, e, field, code);
      } else if !Under(Path(prefix, e'.name), field) {
        OutsideContributesNothing(prefix, e', field, code);
      } else {
        SiblingsApart(prefix, e.name, e'.name, field);
      }
    }
  }

  lemma {:induction false} IdentifiersUnambiguous(prefix: string, fields: seq<Entry>)
    requires MapShaped(fields) && WellNamed(fields)
    ensures Unambiguous(prefix, fields)
    decreases fields
  {
    forall i, j | 0 <= i < j < |fields|
      ensures Commute(prefix, fields[i], fields[j])
    {
      SiblingsCommute(prefix, fields[i], fields[j]);
    }
    forall i | 0 <= i < |fields|
      ensures KindUnambiguous(Path(prefix, fields[i].name), fields[i].kind)
    {
      KindIdentifiersUnambiguous(Path(prefix, fields[i].name), fields[i].kind);
    }
  }

  lemma {:induction false} KindIdentifiersUnambiguous(path: string, kind: Kind)
    requires KindMapShaped(kind) && KindWellNamed(kind)
    ensures KindUnambiguous(path, kind)
    decreases kind
  {
    match kind
    case Field(_) =>
    case Struct(fields) => IdentifiersUnambiguous(path, fields);
    case List(items) =>
      forall i | 0 <= i < |items|
        ensures Unambiguous(ItemPath(path, items[i].index), items[i].fields)
      {
        IdentifiersUnambiguous(ItemPath(path, items[i].index), items[i].fields);
      }
  }

  /** For field names that are identifiers, as those of Rust structs are, the response is the
      same for every hash-map order at every node. */
  lemma IdentifiersOrderIndependent(fields: seq<Entry>)
    requires MapShaped(fields) && WellNamed(fields)
    ensures OrderIndependent(fields)
  {
    IdentifiersUnambiguous("", fields);
    OrderIndependentIff(fields);
  }

  // --- and without them ---

  /** `g.h` as one field name. */
  function Flat(g: string, h: string, code: string, message: string): Entry {
    Entry(g + "." + h, Field([Failure(code, Given(message))]))
  }

  /** `g` as a struct with a field `h`. */
  function Nested(g: string, h: string, code: string, message: string): Entry {
    Entry(g, Struct([Entry(h, Field([Failure(code, Given(message))]))]))
  }

  lemma SingletonGroup(x: FieldError)
    ensures Group([x], x.field, x.code) == [x]
  {
  }

  lemma FlatContribution(g: string, h: string, code: string, m: string)
    ensures Contribution("", Flat(g, h, code, m), g + "." + h, code) == [FieldError(g + "." + h, code, m)]
  {
    var x := FieldError(g + "." + h, code, m);
    assert FlattenKind(g + "." + h, Flat(g, h, code, m).kind) == [x];
    SingletonGroup(x);
  }

  lemma NestedContribution(g: string, h: string, code: string, m: string)
    requires g != ""
    ensures Contribution("", Nested(g, h, code, m), g + "." + h, code) == [FieldError(g + "." + h, code, m)]
  {
    var x := FieldError(g + "." + h, code, m);
    var leaf := Entry(h, Field([Failure(code, Given(m))]));
    assert FlattenKind(g + "." + h, leaf.kind) == [x] && [leaf][1..] == [];
    assert FlattenFields(g, [leaf]) == [x];
    SingletonGroup(x);
  }

  lemma CollidingMapShaped(g: string, h: string, code: string, m: string, m': string)
    ensures MapShaped([Flat(g, h, code, m), Nested(g, h, code, m')])
  {
    var flat, nested := Flat(g, h, code, m), Nested(g, h, code, m');
    assert |flat.name| > |g|;
    assert KindMapShaped(flat.kind) && MapShaped(nested.kind.fields) && KindMapShaped(nested.kind);
  }

  /** A name with a separator in it next to the struct it collides with: the response depends
      on the order whenever the messages differ. */
  lemma SeparatorInNameBreaksOrder(g: string, h: string, code: string, m: string, m': string)
    requires g != "" && m != m'
    ensures !OrderIndependent([Flat(g, h, code, m), Nested(g, h, code, m')])
  {
    var flat, nested := Flat(g, h, code, m), Nested(g, h, code, m');
    var fields := [flat, nested];
    CollidingMapShaped(g, h, code, m, m');
    FlatContribution(g, h, code, m);
    NestedContribution(g, h, code, m');
    var x, y := FieldError(g + "." + h, code, m), FieldError(g + "." + h, code, m');
    assert ([x] + [y])[0] != ([y] + [x])[0];
    assert !Swappable("", fields[0], fields[1], g + "." + h, code);
    assert !Commute("", fields[0], fields[1]);
    OrderIndependentIff(fields);
  }
}
