/**
 * The shapes of the MUI widget registry and the generic list operations its
 * helpers use: a table is a sequence of (property name, entry) pairs in
 * declaration order.
 */
module MuiTable {
  import opened Optional

  datatype Category = Layout | Inputs | DataDisplay | Navigation | Feedback | Surfaces

  /** The category's id string, as stored in a node's `muiCategory`. */
  function CategoryId(c: Category): (r: string)
    ensures r != ""
  {
    match c
    case Layout => "layout"
    case Inputs => "inputs"
    case DataDisplay => "dataDisplay"
    case Navigation => "navigation"
    case Feedback => "feedback"
    case Surfaces => "surfaces"
  }

  datatype CategoryMeta = CategoryMeta(id: Category, labelText: string, labelKo: string, color: string, bgColor: string)

  datatype ComponentDef = ComponentDef(key: string, labelText: string, labelKo: string, category: Category, isContainer: bool)

  predicate KeysDistinct(s: seq<(string, ComponentDef)>) {
    forall i, j :: 0 <= i < j < |s| ==> s[i].0 != s[j].0
  }

  predicate KeysDisjoint(a: seq<(string, ComponentDef)>, b: seq<(string, ComponentDef)>) {
    forall i, j :: 0 <= i < |a| && 0 <= j < |b| ==> a[i].0 != b[j].0
  }

  lemma DistinctConcat(a: seq<(string, ComponentDef)>, b: seq<(string, ComponentDef)>)
    requires KeysDistinct(a) && KeysDistinct(b) && KeysDisjoint(a, b)
    ensures KeysDistinct(a + b)
  {
    forall i, j | 0 <= i < j < |a + b|
      ensures (a + b)[i].0 != (a + b)[j].0
    {
      if j < |a| {
      } else if i >= |a| {
        assert (a + b)[i] == b[i - |a|] && (a + b)[j] == b[j - |a|];
      } else {
        assert (a + b)[j] == b[j - |a|];
      }
    }
  }

  lemma DisjointConcat(a: seq<(string, ComponentDef)>, b: seq<(string, ComponentDef)>, c: seq<(string, ComponentDef)>)
    requires KeysDisjoint(a, c) && KeysDisjoint(b, c)
    ensures KeysDisjoint(a + b, c)
  {
    forall i, j | 0 <= i < |a + b| && 0 <= j < |c|
      ensures (a + b)[i].0 != c[j].0
    {
      if i >= |a| {
        assert (a + b)[i] == b[i - |a|];
      }
    }
  }

  /** `Object.values` of a table. */
  function Values(s: seq<(string, ComponentDef)>): (r: seq<ComponentDef>)
    ensures |r| == |s|
    ensures forall k :: 0 <= k < |s| ==> r[k] == s[k].1
  {
    seq(|s|, k requires 0 <= k < |s| => s[k].1)
  }

  /** `.filter(c => c.category === category)` over the values of `s`. */
  function Filter(s: seq<(string, ComponentDef)>, c: Category): (r: seq<ComponentDef>)
    ensures |r| <= |s|
  {
    if s == [] then []
    else (if s[0].1.category == c then [s[0].1] else []) + Filter(s[1..], c)
  }

  lemma {:induction false} FilterMembers(s: seq<(string, ComponentDef)>, c: Category)
    ensures forall d :: d in Filter(s, c) <==> d in Values(s) && d.category == c
  {
    if s != [] {
      FilterMembers(s[1..], c);
      assert Values(s) == [s[0].1] + Values(s[1..]);
    }
  }

  lemma {:induction false} FilterConcat(a: seq<(string, ComponentDef)>, b: seq<(string, ComponentDef)>, c: Category)
    ensures Filter(a + b, c) == Filter(a, c) + Filter(b, c)
  {
    if a == [] {
      assert a + b == b;
    } else {
      var head := if a[0].1.category == c then [a[0].1] else [];
      assert (a + b)[0] == a[0];
      assert (a + b)[1..] == a[1..] + b;
      FilterConcat(a[1..], b, c);
      assert Filter(a + b, c) == head + (Filter(a[1..], c) + Filter(b, c));
      assert Filter(a, c) == head + Filter(a[1..], c);
    }
  }

  lemma FilterConcat6(a1: seq<(string, ComponentDef)>, a2: seq<(string, ComponentDef)>, a3: seq<(string, ComponentDef)>,
                      a4: seq<(string, ComponentDef)>, a5: seq<(string, ComponentDef)>, a6: seq<(string, ComponentDef)>, c: Category)
    ensures Filter(a1 + a2 + a3 + a4 + a5 + a6, c) ==
            Filter(a1, c) + Filter(a2, c) + Filter(a3, c) + Filter(a4, c) + Filter(a5, c) + Filter(a6, c)
  {
    FilterConcat(a1, a2, c);
    FilterConcat(a1 + a2, a3, c);
    FilterConcat(a1 + a2 + a3, a4, c);
    FilterConcat(a1 + a2 + a3 + a4, a5, c);
    FilterConcat(a1 + a2 + a3 + a4 + a5, a6, c);
  }

  lemma {:induction false} FilterAllOf(s: seq<(string, ComponentDef)>, c: Category)
    requires forall i :: 0 <= i < |s| ==> s[i].1.category == c
    ensures Filter(s, c) == Values(s)
  {
    if s != [] {
      FilterAllOf(s[1..], c);
      assert Values(s) == [s[0].1] + Values(s[1..]);
    }
  }

  lemma {:induction false} FilterNoneOf(s: seq<(string, ComponentDef)>, c: Category)
    requires forall i :: 0 <= i < |s| ==> s[i].1.category != c
    ensures Filter(s, c) == []
  {
    if s != [] {
      FilterNoneOf(s[1..], c);
    }
  }

  /** The part of a table grouped by category, in the order Layout, Inputs, Data Display, Navigation, Feedback, Surfaces, that holds `c`. */
  function GroupOf<T>(a1: T, a2: T, a3: T, a4: T, a5: T, a6: T, c: Category): T {
    match c
    case Layout => a1
    case Inputs => a2
    case DataDisplay => a3
    case Navigation => a4
    case Feedback => a5
    case Surfaces => a6
  }

  predicate AllOf(s: seq<(string, ComponentDef)>, c: Category) {
    forall i :: 0 <= i < |s| ==> s[i].1.category == c
  }

  /** Filtering a table grouped by category yields the values of the one group of that category. */
  lemma FilterGrouped(a1: seq<(string, ComponentDef)>, a2: seq<(string, ComponentDef)>, a3: seq<(string, ComponentDef)>,
                      a4: seq<(string, ComponentDef)>, a5: seq<(string, ComponentDef)>, a6: seq<(string, ComponentDef)>, c: Category)
    requires AllOf(a1, Layout) && AllOf(a2, Inputs) && AllOf(a3, DataDisplay)
    requires AllOf(a4, Navigation) && AllOf(a5, Feedback) && AllOf(a6, Surfaces)
    ensures Filter(a1 + a2 + a3 + a4 + a5 + a6, c) == Values(GroupOf(a1, a2, a3, a4, a5, a6, c))
  {
    FilterConcat6(a1, a2, a3, a4, a5, a6, c);
    FilterPart(a1, Layout, c); FilterPart(a2, Inputs, c); FilterPart(a3, DataDisplay, c);
    FilterPart(a4, Navigation, c); FilterPart(a5, Feedback, c); FilterPart(a6, Surfaces, c);
    OneGroupLeft(Filter(a1, c), Filter(a2, c), Filter(a3, c), Filter(a4, c), Filter(a5, c), Filter(a6, c),
                 Values(a1), Values(a2), Values(a3), Values(a4), Values(a5), Values(a6), c);
    assert Values(GroupOf(a1, a2, a3, a4, a5, a6, c))
        == GroupOf(Values(a1), Values(a2), Values(a3), Values(a4), Values(a5), Values(a6), c);
  }

  /** When only the part of category `c` can be non-empty, the six parts together are that part. */
  lemma OneGroupLeft<T>(x1: seq<T>, x2: seq<T>, x3: seq<T>, x4: seq<T>, x5: seq<T>, x6: seq<T>,
                        y1: seq<T>, y2: seq<T>, y3: seq<T>, y4: seq<T>, y5: seq<T>, y6: seq<T>, c: Category)
    requires x1 == (if c == Layout then y1 else []) && x2 == (if c == Inputs then y2 else [])
    requires x3 == (if c == DataDisplay then y3 else []) && x4 == (if c == Navigation then y4 else [])
    requires x5 == (if c == Feedback then y5 else []) && x6 == (if c == Surfaces then y6 else [])
    ensures x1 + x2 + x3 + x4 + x5 + x6 == GroupOf(y1, y2, y3, y4, y5, y6, c)
  {
    match c
    case Layout => assert x1 + x2 + x3 + x4 + x5 + x6 == y1 + [] + [] + [] + [] + [];
    case Inputs => assert x1 + x2 + x3 + x4 + x5 + x6 == [] + y2 + [] + [] + [] + [];
    case DataDisplay => assert x1 + x2 + x3 + x4 + x5 + x6 == [] + [] + y3 + [] + [] + [];
    case Navigation => assert x1 + x2 + x3 + x4 + x5 + x6 == [] + [] + [] + y4 + [] + [];
    case Feedback => assert x1 + x2 + x3 + x4 + x5 + x6 == [] + [] + [] + [] + y5 + [];
    case Surfaces => assert x1 + x2 + x3 + x4 + x5 + x6 == [] + [] + [] + [] + [] + y6;
  }

  lemma FilterPart(s: seq<(string, ComponentDef)>, own: Category, c: Category)
    requires AllOf(s, own)
    ensures Filter(s, c) == if own == c then Values(s) else []
  {
    if own == c {
      FilterAllOf(s, c);
    } else {
      FilterNoneOf(s, c);
    }
  }

  function Lookup(s: seq<(string, ComponentDef)>, key: string): (r: Option<ComponentDef>)
    ensures r.Some? ==> (key, r.value) in s
    ensures r.None? <==> forall i :: 0 <= i < |s| ==> s[i].0 != key
  {
    if s == [] then None
    else if s[0].0 == key then Some(s[0].1)
    else Lookup(s[1..], key)
  }

  lemma {:induction false} LookupDistinct(s: seq<(string, ComponentDef)>, i: nat)
    requires KeysDistinct(s) && i < |s|
    ensures Lookup(s, s[i].0) == Some(s[i].1)
  {
    if i > 0 {
      assert s[0].0 != s[i].0;
      assert s[1..][i - 1] == s[i];
      LookupDistinct(s[1..], i - 1);
    }
  }

  /** `.find(c => c.id === category)`. */
  function FindMeta(ms: seq<CategoryMeta>, c: Category): (r: Option<CategoryMeta>)
    ensures r.Some? ==> r.value in ms && r.value.id == c
    ensures r.None? <==> forall i :: 0 <= i < |ms| ==> ms[i].id != c
  {
    if ms == [] then None
    else if ms[0].id == c then Some(ms[0])
    else FindMeta(ms[1..], c)
  }
}
