/** Sorting the flattened list by field path and code, and what a stable sort promises. */
module FieldErrorSort {
  import opened FieldErrors

  // --- the sort key: field path, then code ---

  predicate StringLe(a: string, b: string) {
    if a == "" then true
    else if b == "" then false
    else a[0] < b[0] || (a[0] == b[0] && StringLe(a[1..], b[1..]))
  }

  lemma StringLeAntisymmetric(a: string, b: string)
    ensures StringLe(a, b) && StringLe(b, a) <==> a == b
  {
  }

  lemma {:induction false} StringLeTotal(a: string, b: string)
    ensures StringLe(a, b) || StringLe(b, a)
  {
    if a != "" && b != "" {
      StringLeTotal(a[1..], b[1..]);
    }
  }

  lemma {:induction false} StringLeTransitive(a: string, b: string, c: string)
    requires StringLe(a, b) && StringLe(b, c)
    ensures StringLe(a, c)
  {
    if a != "" && a[0] == b[0] == c[0] {
      StringLeTransitive(a[1..], b[1..], c[1..]);
    }
  }

  /** Lexicographic order, without recursion: `a` is a prefix of `b`, or has the smaller
      character where the two first differ. */
  predicate Before(a: string, b: string) {
    a <= b || exists i :: 0 <= i < |a| && i < |b| && a[..i] == b[..i] && a[i] < b[i]
  }

  lemma StringLeIsBefore(a: string, b: string)
    ensures StringLe(a, b) <==> Before(a, b)
  {
    if StringLe(a, b) {
      LeGivesBefore(a, b);
    }
    if a <= b {
      PrefixIsLe(a, b);
    } else if i :| 0 <= i < |a| && i < |b| && a[..i] == b[..i] && a[i] < b[i] {
      DifferenceIsLe(a, b, i);
    }
  }

  lemma {:induction false} LeGivesBefore(a: string, b: string)
    requires StringLe(a, b)
    ensures Before(a, b)
  {
    if a != "" && a[0] == b[0] {
      LeGivesBefore(a[1..], b[1..]);
      assert a == [a[0]] + a[1..] && b == [b[0]] + b[1..];
      if !(a[1..] <= b[1..]) {
        var i :| 0 <= i < |a[1..]| && i < |b[1..]| && a[1..][..i] == b[1..][..i] && a[1..][i] < b[1..][i];
        assert a[..i + 1] == [a[0]] + a[1..][..i] && b[..i + 1] == [b[0]] + b[1..][..i];
        assert a[i + 1] < b[i + 1];
      }
    } else if a != "" {
      assert a[..0] == b[..0] && a[0] < b[0];
    }
  }

  lemma {:induction false} PrefixIsLe(a: string, b: string)
    requires a <= b
    ensures StringLe(a, b)
  {
    if a != "" {
      PrefixIsLe(a[1..], b[1..]);
    }
  }

  lemma {:induction false} DifferenceIsLe(a: string, b: string, i: nat)
    requires i < |a| && i < |b| && a[..i] == b[..i] && a[i] < b[i]
    ensures StringLe(a, b)
  {
    if i > 0 {
      assert a[0] == a[..i][0] == b[..i][0] == b[0];
      assert a[1..][..i - 1] == a[..i][1..] && b[1..][..i - 1] == b[..i][1..];
      DifferenceIsLe(a[1..], b[1..], i - 1);
    }
  }

  predicate KeyLe(a: FieldError, b: FieldError) {
    if a.field == b.field then StringLe(a.code, b.code) else StringLe(a.field, b.field)
  }

  lemma KeyLeOrder(a: FieldError, b: FieldError)
    ensures KeyLe(a, b) || KeyLe(b, a)
    ensures KeyLe(a, b) && KeyLe(b, a) <==> a.field == b.field && a.code == b.code
  {
    StringLeTotal(a.field, b.field);
    StringLeTotal(a.code, b.code);
    StringLeAntisymmetric(a.field, b.field);
    StringLeAntisymmetric(a.code, b.code);
  }

  lemma KeyLeTransitive(a: FieldError, b: FieldError, c: FieldError)
    requires KeyLe(a, b) && KeyLe(b, c)
    ensures KeyLe(a, c)
  {
    StringLeAntisymmetric(a.field, b.field);
    if a.field == b.field == c.field {
      StringLeTransitive(a.code, b.code, c.code);
    } else if a.field != b.field && b.field != c.field {
      StringLeTransitive(a.field, b.field, c.field);
    }
  }

  // --- what a stable sort promises ---

  /** The errors of one field with one code, in the order they occur. */
  function Group(s: seq<FieldError>, field: string, code: string): seq<FieldError> {
    if s == [] then []
    else (if s[0].field == field && s[0].code == code then [s[0]] else []) + Group(s[1..], field, code)
  }

  predicate Sorted(s: seq<FieldError>) {
    forall i, j :: 0 <= i < j < |s| ==> KeyLe(s[i], s[j])
  }

  /** `r` is `s` rearranged into key order with equal keys kept in their original order. */
  ghost predicate IsStableSort(s: seq<FieldError>, r: seq<FieldError>) {
    Sorted(r) && forall field, code :: Group(r, field, code) == Group(s, field, code)
  }

  lemma {:induction false} GroupConcat(s: seq<FieldError>, t: seq<FieldError>, field: string, code: string)
    ensures Group(s + t, field, code) == Group(s, field, code) + Group(t, field, code)
  {
    if s == [] {
      assert s + t == t;
    } else {
      assert (s + t)[1..] == s[1..] + t;
      GroupConcat(s[1..], t, field, code);
    }
  }

  lemma {:induction false} GroupEmpty(s: seq<FieldError>, field: string, code: string)
    ensures Group(s, field, code) == [] <==>
            forall i :: 0 <= i < |s| ==> !(s[i].field == field && s[i].code == code)
  {
    if s != [] {
      GroupEmpty(s[1..], field, code);
      if Group(s, field, code) == [] {
        forall i | 0 <= i < |s|
          ensures !(s[i].field == field && s[i].code == code)
        {
          assert i > 0 ==> s[i] == s[1..][i - 1];
        }
      } else if Group(s[1..], field, code) != [] {
        var i :| 0 <= i < |s[1..]| && s[1..][i].field == field && s[1..][i].code == code;
        assert s[i + 1] == s[1..][i];
      }
    }
  }

  /** The smallest key of a sorted list is at its head. */
  lemma HeadIsLeast(r: seq<FieldError>, r': seq<FieldError>)
    requires Sorted(r) && r != [] && r' != []
    requires Group(r, r'[0].field, r'[0].code) == Group(r', r'[0].field, r'[0].code)
    ensures KeyLe(r[0], r'[0])
  {
    var x := r'[0];
    GroupEmpty(r, x.field, x.code);
    var i :| 0 <= i < |r| && r[i].field == x.field && r[i].code == x.code;
    KeyLeOrder(r[i], x);
    if i > 0 {
      assert KeyLe(r[0], r[i]);
    }
  }

  /** A stable sort has only one possible result. */
  lemma {:induction false} SortedGroupsDetermine(r: seq<FieldError>, r': seq<FieldError>)
    requires Sorted(r) && Sorted(r')
    requires forall field, code :: Group(r, field, code) == Group(r', field, code)
    ensures r == r'
  {
    assert r != [] ==> Group(r, r[0].field, r[0].code) != [];
    assert r' != [] ==> Group(r', r'[0].field, r'[0].code) != [];
    if r != [] && r' != [] {
      HeadIsLeast(r, r');
      HeadIsLeast(r', r);
      KeyLeOrder(r[0], r'[0]);
      var f, c := r[0].field, r[0].code;
      assert Group(r, f, c)[0] == r[0] && Group(r', f, c)[0] == r'[0];
      forall field, code
        ensures Group(r[1..], field, code) == Group(r'[1..], field, code)
      {
        var hit := if field == f && code == c then [r[0]] else [];
        assert Group(r, field, code) == hit + Group(r[1..], field, code);
        assert Group(r', field, code) == hit + Group(r'[1..], field, code);
        assert Group(r, field, code)[|hit|..] == Group(r[1..], field, code);
        assert Group(r', field, code)[|hit|..] == Group(r'[1..], field, code);
      }
      SortedGroupsDetermine(r[1..], r'[1..]);
      assert r == [r[0]] + r[1..] && r' == [r'[0]] + r'[1..];
    }
  }

  /** In the response, fields come in lexicographic order, and the codes of one field do. */
  predicate InKeyOrder(s: seq<FieldError>) {
    forall i, j :: 0 <= i < j < |s| ==>
      Before(s[i].field, s[j].field) && (s[i].field == s[j].field ==> Before(s[i].code, s[j].code))
  }

  lemma SortedIsKeyOrder(s: seq<FieldError>)
    ensures Sorted(s) <==> InKeyOrder(s)
  {
    forall i, j | 0 <= i < j < |s|
      ensures KeyLe(s[i], s[j]) <==>
              Before(s[i].field, s[j].field) && (s[i].field == s[j].field ==> Before(s[i].code, s[j].code))
    {
      StringLeIsBefore(s[i].field, s[j].field);
      StringLeIsBefore(s[i].code, s[j].code);
    }
  }

  // --- a stable sort, in place ---

  function Insert(r: seq<FieldError>, x: FieldError): seq<FieldError> {
    if r == [] || KeyLe(r[|r| - 1], x) then r + [x]
    else Insert(r[..|r| - 1], x) + [r[|r| - 1]]
  }

  lemma {:induction false} InsertKeepsGroups(r: seq<FieldError>, x: FieldError, field: string, code: string)
    ensures Group(Insert(r, x), field, code) == Group(r + [x], field, code)
  {
    if !(r == [] || KeyLe(r[|r| - 1], x)) {
      var init, y := r[..|r| - 1], r[|r| - 1];
      KeyLeOrder(y, x);
      InsertKeepsGroups(init, x, field, code);
      GroupConcat(Insert(init, x), [y], field, code);
      GroupConcat(init, [x], field, code);
      assert r == init + [y];
      GroupConcat(r, [x], field, code);
      GroupConcat(init, [y], field, code);
    }
  }

  lemma {:induction false} InsertKeepsSorted(r: seq<FieldError>, x: FieldError)
    requires Sorted(r)
    ensures Sorted(Insert(r, x))
    ensures forall b :: KeyLe(x, b) && (forall i :: 0 <= i < |r| ==> KeyLe(r[i], b)) ==>
              forall i :: 0 <= i < |r| + 1 == |Insert(r, x)| ==> KeyLe(Insert(r, x)[i], b)
    ensures |Insert(r, x)| == |r| + 1
  {
    if r == [] {
    } else if KeyLe(r[|r| - 1], x) {
      forall i | 0 <= i < |r|
        ensures KeyLe(r[i], x)
      {
        if i < |r| - 1 {
          KeyLeTransitive(r[i], r[|r| - 1], x);
        }
      }
    } else {
      var init, y := r[..|r| - 1], r[|r| - 1];
      KeyLeOrder(y, x);
      InsertKeepsSorted(init, x);
    }
  }

  function Sort(s: seq<FieldError>): seq<FieldError> {
    if s == [] then [] else Insert(Sort(s[..|s| - 1]), s[|s| - 1])
  }

  /** Inserting the last element into the sorted rest gives a stable sort of the whole. */
  lemma InsertIsStable(s: seq<FieldError>, r: seq<FieldError>, x: FieldError)
    requires IsStableSort(s, r)
    ensures IsStableSort(s + [x], Insert(r, x))
  {
    InsertKeepsSorted(r, x);
    forall field, code
      ensures Group(Insert(r, x), field, code) == Group(s + [x], field, code)
    {
      InsertKeepsGroups(r, x, field, code);
      GroupConcat(r, [x], field, code);
      GroupConcat(s, [x], field, code);
    }
  }

  lemma {:induction false} SortIsStable(s: seq<FieldError>)
    ensures IsStableSort(s, Sort(s))
  {
    if s != [] {
      SortIsStable(s[..|s| - 1]);
      InsertIsStable(s[..|s| - 1], Sort(s[..|s| - 1]), s[|s| - 1]);
      assert s == s[..|s| - 1] + [s[|s| - 1]];
    }
  }

  method SortFields(out: Output)
    modifies out
    ensures IsStableSort(old(out.items), out.items) && InKeyOrder(out.items)
  {
    var s := out.items;
    var r: seq<FieldError> := [];
    var i := 0;
    while i < |s|
      invariant 0 <= i <= |s|
      invariant IsStableSort(s[..i], r)
    {
      InsertIsStable(s[..i], r, s[i]);
      assert s[..i + 1] == s[..i] + [s[i]];
      r := Insert(r, s[i]);
      i := i + 1;
    }
    assert s[..i] == s;
    SortedIsKeyOrder(r);
    out.items := r;
  }

  /** The conversion into the response body: walk, then sort. */
  method FromValidationErrors(fields: seq<Entry>) returns (response: seq<FieldError>)
    ensures IsStableSort(FlattenFields("", fields), response) && InKeyOrder(response)
  {
    var out := new Output();
    FlattenInto("", fields, out);
    assert out.items == FlattenFields("", fields);
    SortFields(out);
    response := out.items;
  }
}
