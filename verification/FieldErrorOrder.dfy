/** When the sorted response does not depend on the order in which the hash maps were
walked: exactly when, at every node, what two fields contribute under one path and code can
be swapped. */
module FieldErrorOrder {
  import opened FieldErrors
  import opened FieldErrorSort

  // --- walks of the same tree ---

  predicate DistinctNames(fields: seq<Entry>) {
    forall i, j :: 0 <= i < j < |fields| ==> fields[i].name != fields[j].name
  }

  /** No node lists a name twice: the fields of a node are the keys of a map. */
  predicate MapShaped(fields: seq<Entry>)
    decreases fields
  {
    DistinctNames(fields) && forall i :: 0 <= i < |fields| ==> KindMapShaped(fields[i].kind)
  }

  predicate KindMapShaped(kind: Kind)
    decreases kind
  {
    match kind
    case Field(_) => true
    case Struct(fields) => MapShaped(fields)
    case List(items) => forall i :: 0 <= i < |items| ==> MapShaped(items[i].fields)
  }

  function Names(fields: seq<Entry>): set<string> {
    set i | 0 <= i < |fields| :: fields[i].name
  }

  /** The same tree met in two hash-map orders: every node lists the same names with the
      same contents, in any order. */
  ghost predicate SameTree(fields: seq<Entry>, fields': seq<Entry>)
    decreases fields
  {
    && Names(fields) == Names(fields')
    && (forall i, j :: 0 <= i < |fields| && 0 <= j < |fields'| && fields[i].name == fields'[j].name ==>
          SameKind(fields[i].kind, fields'[j].kind))
  }

  ghost predicate SameKind(kind: Kind, kind': Kind)
    decreases kind
  {
    match kind
    case Field(failures) => kind' == kind
    case Struct(fields) => kind'.Struct? && SameTree(fields, kind'.fields)
    case List(items) =>
      && kind'.List? && |items| == |kind'.items|
      && forall i :: 0 <= i < |items| ==>
           items[i].index == kind'.items[i].index && SameTree(items[i].fields, kind'.items[i].fields)
  }

  lemma {:induction false} SameTreeReflexive(fields: seq<Entry>)
    requires MapShaped(fields)
    ensures SameTree(fields, fields)
    decreases fields
  {
    forall i, j | 0 <= i < |fields| && 0 <= j < |fields| && fields[i].name == fields[j].name
      ensures SameKind(fields[i].kind, fields[j].kind)
    {
      assert i == j;
      SameKindReflexive(fields[i].kind);
    }
  }

  lemma {:induction false} SameKindReflexive(kind: Kind)
    requires KindMapShaped(kind)
    ensures SameKind(kind, kind)
    decreases kind
  {
    match kind
    case Field(_) =>
    case Struct(fields) => SameTreeReflexive(fields);
    case List(items) =>
      forall i | 0 <= i < |items|
        ensures SameTree(items[i].fields, items[i].fields)
      {
        SameTreeReflexive(items[i].fields);
      }
  }

  // --- what each field contributes to one path and code ---

  function Contribution(prefix: string, e: Entry, field: string, code: string): seq<FieldError> {
    Group(FlattenKind(Path(prefix, e.name), e.kind), field, code)
  }

  function Contributions(prefix: string, fields: seq<Entry>, field: string, code: string): seq<FieldError> {
    if fields == [] then []
    else Contribution(prefix, fields[0], field, code) + Contributions(prefix, fields[1..], field, code)
  }

  lemma {:induction false} GroupOfFields(prefix: string, fields: seq<Entry>, field: string, code: string)
    ensures Group(FlattenFields(prefix, fields), field, code) == Contributions(prefix, fields, field, code)
  {
    if fields != [] {
      GroupOfFields(prefix, fields[1..], field, code);
      GroupConcat(FlattenKind(Path(prefix, fields[0].name), fields[0].kind), FlattenFields(prefix, fields[1..]), field, code);
    }
  }

  lemma {:induction false} ContributionsConcat(prefix: string, a: seq<Entry>, b: seq<Entry>, field: string, code: string)
    ensures Contributions(prefix, a + b, field, code) ==
            Contributions(prefix, a, field, code) + Contributions(prefix, b, field, code)
  {
    if a == [] {
      assert a + b == b;
    } else {
      assert (a + b)[1..] == a[1..] + b;
      ContributionsConcat(prefix, a[1..], b, field, code);
    }
  }

  /** Splitting a node's fields around one of them. */
  lemma ContributionsAround(prefix: string, fields: seq<Entry>, i: nat, field: string, code: string)
    requires i < |fields|
    ensures Contributions(prefix, fields, field, code) ==
            Contributions(prefix, fields[..i], field, code) + Contribution(prefix, fields[i], field, code) +
            Contributions(prefix, fields[i + 1..], field, code)
  {
    assert fields == fields[..i] + fields[i..];
    assert fields[i..][1..] == fields[i + 1..];
    ContributionsConcat(prefix, fields[..i], fields[i..], field, code);
  }

  predicate Swappable(prefix: string, e: Entry, e': Entry, field: string, code: string) {
    var x, y := Contribution(prefix, e, field, code), Contribution(prefix, e', field, code);
    x + y == y + x
  }

  ghost predicate Commute(prefix: string, e: Entry, e': Entry) {
    forall field, code :: Swappable(prefix, e, e', field, code)
  }

  /** At every node, the contributions of any two fields commute. */
  ghost predicate Unambiguous(prefix: string, fields: seq<Entry>)
    decreases fields
  {
    && (forall i, j :: 0 <= i < j < |fields| ==> Commute(prefix, fields[i], fields[j]))
    && (forall i :: 0 <= i < |fields| ==> KindUnambiguous(Path(prefix, fields[i].name), fields[i].kind))
  }

  ghost predicate KindUnambiguous(path: string, kind: Kind)
    decreases kind
  {
    match kind
    case Field(_) => true
    case Struct(fields) => Unambiguous(path, fields)
    case List(items) => forall i :: 0 <= i < |items| ==> Unambiguous(ItemPath(path, items[i].index), items[i].fields)
  }

  // --- sufficiency: commuting contributions make the order irrelevant ---

  lemma {:induction false} PastAll(prefix: string, before: seq<Entry>, e: Entry, field: string, code: string)
    requires forall i :: 0 <= i < |before| ==> Swappable(prefix, before[i], e, field, code)
    ensures Contributions(prefix, before, field, code) + Contribution(prefix, e, field, code) ==
            Contribution(prefix, e, field, code) + Contributions(prefix, before, field, code)
  {
    if before != [] {
      var x, y := Contribution(prefix, before[0], field, code), Contribution(prefix, e, field, code);
      var rest := Contributions(prefix, before[1..], field, code);
      PastAll(prefix, before[1..], e, field, code);
      assert Swappable(prefix, before[0], e, field, code);
      Regroup(x, rest, y);
      Regroup(x, y, rest);
      Regroup(y, x, rest);
    }
  }

  lemma NamesEmpty(fields: seq<Entry>)
    ensures Names(fields) == {} <==> fields == []
  {
    if fields != [] {
      assert fields[0].name in Names(fields);
    }
  }

  lemma Partner(fields: seq<Entry>, fields': seq<Entry>, i: nat) returns (j: nat)
    requires Names(fields) == Names(fields') && i < |fields|
    ensures j < |fields'| && fields[i].name == fields'[j].name
  {
    assert fields[i].name in Names(fields');
    var k :| 0 <= k < |fields'| && fields'[k].name == fields[i].name;
    j := k;
  }

  function Without(fields: seq<Entry>, i: nat): seq<Entry>
    requires i < |fields|
  {
    fields[..i] + fields[i + 1..]
  }

  lemma NamesWithout(fields: seq<Entry>, i: nat)
    requires DistinctNames(fields) && i < |fields|
    ensures DistinctNames(Without(fields, i)) && Names(Without(fields, i)) == Names(fields) - {fields[i].name}
    ensures forall a :: 0 <= a < |fields| - 1 ==> Without(fields, i)[a] == fields[if a < i then a else a + 1]
  {
    var w := Without(fields, i);
    forall n | n in Names(fields) - {fields[i].name}
      ensures n in Names(w)
    {
      var k :| 0 <= k < |fields| && fields[k].name == n;
      assert w[if k < i then k else k - 1] == fields[k];
    }
  }

  /** The fields of a node pairwise swap, and match another listing field by field. */
  predicate Shuffles(prefix: string, fields: seq<Entry>, fields': seq<Entry>, field: string, code: string) {
    && DistinctNames(fields) && DistinctNames(fields') && Names(fields) == Names(fields')
    && (forall i, j :: 0 <= i < j < |fields| ==> Swappable(prefix, fields[i], fields[j], field, code))
    && (forall i, j :: 0 <= i < |fields| && 0 <= j < |fields'| && fields[i].name == fields'[j].name ==>
          Contribution(prefix, fields[i], field, code) == Contribution(prefix, fields'[j], field, code))
  }

  lemma ShufflesWithout(prefix: string, fields: seq<Entry>, fields': seq<Entry>, i: nat, field: string, code: string)
    requires Shuffles(prefix, fields, fields', field, code) && fields' != [] && i < |fields|
    requires fields[i].name == fields'[0].name
    ensures Shuffles(prefix, Without(fields, i), fields'[1..], field, code)
  {
    NamesWithout(fields, i);
    NamesWithout(fields', 0);
    assert Without(fields', 0) == fields'[1..];
  }

  lemma {:induction false} ShuffledContributions(prefix: string, fields: seq<Entry>, fields': seq<Entry>, field: string, code: string)
    requires Shuffles(prefix, fields, fields', field, code)
    ensures Contributions(prefix, fields, field, code) == Contributions(prefix, fields', field, code)
    decreases |fields'|
  {
    NamesEmpty(fields);
    NamesEmpty(fields');
    if fields' != [] {
      var i := Partner(fields', fields, 0);
      var e := Contribution(prefix, fields[i], field, code);
      ShufflesWithout(prefix, fields, fields', i, field, code);
      ShuffledContributions(prefix, Without(fields, i), fields'[1..], field, code);
      ContributionsAround(prefix, fields, i, field, code);
      ContributionsConcat(prefix, fields[..i], fields[i + 1..], field, code);
      PastAll(prefix, fields[..i], fields[i], field, code);
      Regroup(e, Contributions(prefix, fields[..i], field, code), Contributions(prefix, fields[i + 1..], field, code));
    }
  }

  lemma {:induction false} SameTreeSameGroups(prefix: string, fields: seq<Entry>, fields': seq<Entry>, field: string, code: string)
    requires MapShaped(fields) && MapShaped(fields') && SameTree(fields, fields') && Unambiguous(prefix, fields)
    ensures Group(FlattenFields(prefix, fields), field, code) == Group(FlattenFields(prefix, fields'), field, code)
    decreases fields
  {
    forall i, j | 0 <= i < |fields| && 0 <= j < |fields'| && fields[i].name == fields'[j].name
      ensures Contribution(prefix, fields[i], field, code) == Contribution(prefix, fields'[j], field, code)
    {
      SameKindSameGroups(Path(prefix, fields[i].name), fields[i].kind, fields'[j].kind, field, code);
    }
    assert forall i, j :: 0 <= i < j < |fields| ==> Commute(prefix, fields[i], fields[j]);
    ShuffledContributions(prefix, fields, fields', field, code);
    GroupOfFields(prefix, fields, field, code);
    GroupOfFields(prefix, fields', field, code);
  }

  lemma {:induction false} SameKindSameGroups(path: string, kind: Kind, kind': Kind, field: string, code: string)
    requires KindMapShaped(kind) && KindMapShaped(kind') && SameKind(kind, kind') && KindUnambiguous(path, kind)
    ensures Group(FlattenKind(path, kind), field, code) == Group(FlattenKind(path, kind'), field, code)
    decreases kind
  {
    match kind
    case Field(_) =>
    case Struct(fields) => SameTreeSameGroups(path, fields, kind'.fields, field, code);
    case List(items) => SameItemsSameGroups(path, items, kind'.items, field, code);
  }

  lemma {:induction false} SameItemsSameGroups(path: string, items: seq<Item>, items': seq<Item>, field: string, code: string)
    requires KindMapShaped(List(items)) && KindMapShaped(List(items')) && SameKind(List(items), List(items'))
    requires KindUnambiguous(path, List(items))
    ensures Group(FlattenItems(path, items), field, code) == Group(FlattenItems(path, items'), field, code)
    decreases items
  {
    if items != [] {
      var p := ItemPath(path, items[0].index);
      SameTreeSameGroups(p, items[0].fields, items'[0].fields, field, code);
      SameItemsSameGroups(path, items[1..], items'[1..], field, code);
      GroupConcat(FlattenFields(p, items[0].fields), FlattenItems(path, items[1..]), field, code);
      GroupConcat(FlattenFields(p, items'[0].fields), FlattenItems(path, items'[1..]), field, code);
    }
  }

  // --- necessity: an ambiguous tree has a walk that answers differently ---

  /** Listing the entries of a node in another order is another walk of the same node. */
  lemma Reordered(fields: seq<Entry>, fields': seq<Entry>)
    requires MapShaped(fields) && DistinctNames(fields') && Names(fields) == Names(fields')
    requires forall j :: 0 <= j < |fields'| ==> fields'[j] in fields
    ensures SameTree(fields, fields') && MapShaped(fields')
  {
    forall i, j | 0 <= i < |fields| && 0 <= j < |fields'| && fields[i].name == fields'[j].name
      ensures SameKind(fields[i].kind, fields'[j].kind)
    {
      var k :| 0 <= k < |fields| && fields[k] == fields'[j];
      assert k == i;
      SameKindReflexive(fields[i].kind);
    }
  }

  /** Entry `i` of a node brought to the front of its listing. */
  function ToFront(fields: seq<Entry>, i: nat): seq<Entry>
    requires i < |fields|
  {
    [fields[i]] + Without(fields, i)
  }

  lemma ToFrontAt(fields: seq<Entry>, i: nat)
    requires i < |fields|
    ensures var t := ToFront(fields, i);
            |t| == |fields| && forall a :: 0 <= a < |t| ==> t[a] == fields[if a == 0 then i else if a <= i then a - 1 else a]
  {
  }

  lemma ToFrontReorders(fields: seq<Entry>, i: nat)
    requires DistinctNames(fields) && i < |fields|
    ensures DistinctNames(ToFront(fields, i)) && Names(ToFront(fields, i)) == Names(fields)
    ensures forall e :: e in ToFront(fields, i) ==> e in fields
  {
    ToFrontAt(fields, i);
    ToFrontNames(fields, i);
  }

  lemma ToFrontNames(fields: seq<Entry>, i: nat)
    requires i < |fields|
    ensures Names(ToFront(fields, i)) == Names(fields)
  {
    ToFrontAt(fields, i);
    var t := ToFront(fields, i);
    forall n | n in Names(fields)
      ensures n in Names(t)
    {
      var k :| 0 <= k < |fields| && fields[k].name == n;
      assert t[if k == i then 0 else if k < i then k + 1 else k].name == n;
    }
    forall n | n in Names(t)
      ensures n in Names(fields)
    {
      var a :| 0 <= a < |t| && t[a].name == n;
      assert fields[if a == 0 then i else if a <= i then a - 1 else a].name == n;
    }
  }

  /** Bringing first one and then the other of two entries to the front gives both orders of
      the pair, followed by the same rest. */
  lemma BothOrders(fields: seq<Entry>, i: nat, j: nat)
    requires i < j < |fields|
    ensures var rest := Without(Without(fields, j), i);
            && ToFront(ToFront(fields, j), i + 1) == [fields[i], fields[j]] + rest
            && ToFront(ToFront(fields, i), j) == [fields[j], fields[i]] + rest
  {
  }

  lemma ContributionsOfPair(prefix: string, e: Entry, e': Entry, rest: seq<Entry>, field: string, code: string)
    ensures Contributions(prefix, [e, e'] + rest, field, code) ==
            Contribution(prefix, e, field, code) + Contribution(prefix, e', field, code) + Contributions(prefix, rest, field, code)
  {
    var all := [e, e'] + rest;
    assert all[1..] == [e'] + rest && all[1..][1..] == rest;
    Regroup(Contribution(prefix, e, field, code), Contribution(prefix, e', field, code), Contributions(prefix, rest, field, code));
  }

  lemma CancelRight(a: seq<FieldError>, b: seq<FieldError>, c: seq<FieldError>)
    requires a != b && |a| == |b|
    ensures a + c != b + c
  {
    assert (a + c)[..|a|] == a && (b + c)[..|b|] == b;
  }

  lemma SwapTwice(fields: seq<Entry>, i: nat, j: nat) returns (x: seq<Entry>, y: seq<Entry>)
    requires MapShaped(fields) && i < j < |fields|
    ensures SameTree(fields, x) && MapShaped(x) && SameTree(fields, y) && MapShaped(y)
    ensures var rest := Without(Without(fields, j), i);
            x == [fields[i], fields[j]] + rest && y == [fields[j], fields[i]] + rest
  {
    var p, q := ToFront(fields, j), ToFront(fields, i);
    ToFrontReorders(fields, j);
    ToFrontReorders(fields, i);
    Reordered(fields, p);
    Reordered(fields, q);
    x, y := ToFront(p, i + 1), ToFront(q, j);
    ToFrontReorders(p, i + 1);
    ToFrontReorders(q, j);
    Reordered(fields, x);
    Reordered(fields, y);
    BothOrders(fields, i, j);
  }

  lemma PairWitness(prefix: string, fields: seq<Entry>, i: nat, j: nat, field: string, code: string) returns (fields': seq<Entry>)
    requires MapShaped(fields) && i < j < |fields| && !Swappable(prefix, fields[i], fields[j], field, code)
    ensures SameTree(fields, fields') && MapShaped(fields')
    ensures Group(FlattenFields(prefix, fields), field, code) != Group(FlattenFields(prefix, fields'), field, code)
  {
    var x, y := SwapTwice(fields, i, j);
    var rest := Without(Without(fields, j), i);
    var a, b := Contribution(prefix, fields[i], field, code), Contribution(prefix, fields[j], field, code);
    ContributionsOfPair(prefix, fields[i], fields[j], rest, field, code);
    ContributionsOfPair(prefix, fields[j], fields[i], rest, field, code);
    CancelRight(a + b, b + a, Contributions(prefix, rest, field, code));
    GroupOfFields(prefix, x, field, code);
    GroupOfFields(prefix, y, field, code);
    fields' := if Group(FlattenFields(prefix, fields), field, code) != Group(FlattenFields(prefix, x), field, code) then x else y;
  }

  lemma Cancel(a: seq<FieldError>, b: seq<FieldError>, b': seq<FieldError>, c: seq<FieldError>)
    requires b != b'
    ensures a + b + c != a + b' + c
  {
    var s, s' := a + b + c, a + b' + c;
    if |b| == |b'| {
      assert s[|a|..|a| + |b|] == b && s'[|a|..|a| + |b|] == b';
    }
  }

  /** Replacing one field's contents by a differing walk of them carries the difference up. */
  lemma ReplaceEntry(prefix: string, fields: seq<Entry>, i: nat, kind': Kind, field: string, code: string)
    requires MapShaped(fields) && i < |fields| && SameKind(fields[i].kind, kind') && KindMapShaped(kind')
    requires Group(FlattenKind(Path(prefix, fields[i].name), fields[i].kind), field, code) !=
             Group(FlattenKind(Path(prefix, fields[i].name), kind'), field, code)
    ensures var fields' := fields[i := Entry(fields[i].name, kind')];
            && SameTree(fields, fields') && MapShaped(fields')
            && Group(FlattenFields(prefix, fields), field, code) != Group(FlattenFields(prefix, fields'), field, code)
  {
    var fields' := fields[i := Entry(fields[i].name, kind')];
    assert forall k :: 0 <= k < |fields| ==> fields'[k].name == fields[k].name;
    assert Names(fields) == Names(fields');
    forall k, l | 0 <= k < |fields| && 0 <= l < |fields'| && fields[k].name == fields'[l].name
      ensures SameKind(fields[k].kind, fields'[l].kind)
    {
      assert k == l;
      SameKindReflexive(fields[k].kind);
    }
    assert fields'[..i] == fields[..i] && fields'[i + 1..] == fields[i + 1..];
    ContributionsAround(prefix, fields, i, field, code);
    ContributionsAround(prefix, fields', i, field, code);
    GroupOfFields(prefix, fields, field, code);
    GroupOfFields(prefix, fields', field, code);
    Cancel(Contributions(prefix, fields[..i], field, code), Contribution(prefix, fields[i], field, code),
           Contribution(prefix, fields'[i], field, code), Contributions(prefix, fields[i + 1..], field, code));
  }

  lemma {:induction false} ItemsConcat(path: string, a: seq<Item>, b: seq<Item>)
    ensures FlattenItems(path, a + b) == FlattenItems(path, a) + FlattenItems(path, b)
  {
    if a == [] {
      assert a + b == b;
    } else {
      assert (a + b)[1..] == a[1..] + b;
      ItemsConcat(path, a[1..], b);
      Regroup(FlattenFields(ItemPath(path, a[0].index), a[0].fields), FlattenItems(path, a[1..]), FlattenItems(path, b));
    }
  }

  lemma ItemsAround(path: string, items: seq<Item>, k: nat, field: string, code: string)
    requires k < |items|
    ensures Group(FlattenItems(path, items), field, code) ==
            Group(FlattenItems(path, items[..k]), field, code) +
            Group(FlattenFields(ItemPath(path, items[k].index), items[k].fields), field, code) +
            Group(FlattenItems(path, items[k + 1..]), field, code)
  {
    var before, after := FlattenItems(path, items[..k]), FlattenItems(path, items[k + 1..]);
    var here := FlattenFields(ItemPath(path, items[k].index), items[k].fields);
    assert items == items[..k] + items[k..];
    ItemsConcat(path, items[..k], items[k..]);
    ItemsFrom(path, items, k);
    GroupConcat(before, here + after, field, code);
    GroupConcat(here, after, field, code);
    Regroup(Group(before, field, code), Group(here, field, code), Group(after, field, code));
  }

  lemma ReplaceItem(path: string, items: seq<Item>, k: nat, fields': seq<Entry>, field: string, code: string)
    requires KindMapShaped(List(items)) && k < |items| && SameTree(items[k].fields, fields') && MapShaped(fields')
    requires var p := ItemPath(path, items[k].index);
             Group(FlattenFields(p, items[k].fields), field, code) != Group(FlattenFields(p, fields'), field, code)
    ensures var kind' := List(items[k := Item(items[k].index, fields')]);
            && SameKind(List(items), kind') && KindMapShaped(kind')
            && Group(FlattenKind(path, List(items)), field, code) != Group(FlattenKind(path, kind'), field, code)
  {
    var items' := items[k := Item(items[k].index, fields')];
    forall i | 0 <= i < |items|
      ensures SameTree(items[i].fields, items'[i].fields)
    {
      if i != k {
        SameTreeReflexive(items[i].fields);
      }
    }
    assert items'[..k] == items[..k] && items'[k + 1..] == items[k + 1..];
    ItemsAround(path, items, k, field, code);
    ItemsAround(path, items', k, field, code);
    var p := ItemPath(path, items[k].index);
    Cancel(Group(FlattenItems(path, items[..k]), field, code), Group(FlattenFields(p, items[k].fields), field, code),
           Group(FlattenFields(p, fields'), field, code), Group(FlattenItems(path, items[k + 1..]), field, code));
  }

  lemma {:induction false} AmbiguousWalk(prefix: string, fields: seq<Entry>)
    returns (fields': seq<Entry>, field: string, code: string)
    requires MapShaped(fields) && !Unambiguous(prefix, fields)
    ensures SameTree(fields, fields') && MapShaped(fields')
    ensures Group(FlattenFields(prefix, fields), field, code) != Group(FlattenFields(prefix, fields'), field, code)
    decreases fields
  {
    if i, j :| 0 <= i < j < |fields| && !Commute(prefix, fields[i], fields[j]) {
      field, code :| !Swappable(prefix, fields[i], fields[j], field, code);
      fields' := PairWitness(prefix, fields, i, j, field, code);
    } else {
      var i :| 0 <= i < |fields| && !KindUnambiguous(Path(prefix, fields[i].name), fields[i].kind);
      var kind';
      kind', field, code := AmbiguousKind(Path(prefix, fields[i].name), fields[i].kind);
      fields' := fields[i := Entry(fields[i].name, kind')];
      ReplaceEntry(prefix, fields, i, kind', field, code);
    }
  }

  lemma {:induction false} AmbiguousKind(path: string, kind: Kind) returns (kind': Kind, field: string, code: string)
    requires KindMapShaped(kind) && !KindUnambiguous(path, kind)
    ensures SameKind(kind, kind') && KindMapShaped(kind')
    ensures Group(FlattenKind(path, kind), field, code) != Group(FlattenKind(path, kind'), field, code)
    decreases kind
  {
    match kind
    case Struct(fields) =>
      var fields';
      fields', field, code := AmbiguousWalk(path, fields);
      kind' := Struct(fields');
    case List(items) =>
      var k :| 0 <= k < |items| && !Unambiguous(ItemPath(path, items[k].index), items[k].fields);
      var fields';
      fields', field, code := AmbiguousWalk(ItemPath(path, items[k].index), items[k].fields);
      kind' := List(items[k := Item(items[k].index, fields')]);
      ReplaceItem(path, items, k, fields', field, code);
  }

  // --- the theorem ---

  /** Whatever order the hash maps are walked in, the sorted response is the same. */
  ghost predicate OrderIndependent(fields: seq<Entry>) {
    forall fields', r, r' ::
      && SameTree(fields, fields') && MapShaped(fields')
      && IsStableSort(FlattenFields("", fields), r) && IsStableSort(FlattenFields("", fields'), r') ==>
        r == r'
  }

  lemma OrderIndependentIff(fields: seq<Entry>)
    requires MapShaped(fields)
    ensures OrderIndependent(fields) <==> Unambiguous("", fields)
  {
    if Unambiguous("", fields) {
      forall fields', r, r' |
        SameTree(fields, fields') && MapShaped(fields') &&
        IsStableSort(FlattenFields("", fields), r) && IsStableSort(FlattenFields("", fields'), r')
        ensures r == r'
      {
        forall field, code
          ensures Group(r, field, code) == Group(r', field, code)
        {
          SameTreeSameGroups("", fields, fields', field, code);
        }
        SortedGroupsDetermine(r, r');
      }
    } else {
      var fields', field, code := AmbiguousWalk("", fields);
      var s, s' := FlattenFields("", fields), FlattenFields("", fields');
      SortIsStable(s);
      SortIsStable(s');
      assert Group(Sort(s), field, code) != Group(Sort(s'), field, code);
    }
  }
}
