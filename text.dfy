/** The optional value used wherever the source has `null`, `undefined` or `None`. */
module Optional {
  datatype Option<+T> = None | Some(value: T)
}

/**
 * String helpers shared by the TypeScript and the Python parts of the model.
 * Strings are sequences of Unicode scalar values, as in both source languages
 * (JavaScript strings are modelled without surrogate pairs).
 */
module Text {
  import opened Optional

  /** Whitespace that JavaScript's `trim()` removes, restricted to ASCII. */
  predicate IsJsSpace(c: char) {
    c == ' ' || c == '\t' || c == '\n' || c == '\r' || c == '\U{000B}' || c == '\U{000C}'
  }

  /** Whitespace as Python's `str.strip()` and the regex class `\s` see it, restricted to ASCII. */
  predicate IsPySpace(c: char) {
    IsJsSpace(c) || ('\U{001C}' <= c <= '\U{001F}')
  }

  /** Drops the leading characters that satisfy `sp`. */
  function DropLeading(s: string, sp: char -> bool): string {
    if s == [] || !sp(s[0]) then s else DropLeading(s[1..], sp)
  }

  /** Drops the trailing characters that satisfy `sp`. */
  function DropTrailing(s: string, sp: char -> bool): string {
    if s == [] || !sp(s[|s| - 1]) then s else DropTrailing(s[..|s| - 1], sp)
  }

  /** What is left is a suffix of the text that does not start with a character satisfying `sp`. */
  lemma {:induction false} DropLeadingShape(s: string, sp: char -> bool)
    ensures var r := DropLeading(s, sp);
            |r| <= |s| && r == s[|s| - |r|..] && (r == [] || !sp(r[0]))
  {
    if s != [] && sp(s[0]) {
      var t := s[1..];
      DropLeadingShape(t, sp);
      var r := DropLeading(t, sp);
      assert DropLeading(s, sp) == r;
      assert t[|t| - |r|..] == s[|s| - |r|..];
    }
  }

  /** What is left is a prefix of the text that does not end with a character satisfying `sp`. */
  lemma {:induction false} DropTrailingShape(s: string, sp: char -> bool)
    ensures var r := DropTrailing(s, sp);
            |r| <= |s| && r == s[..|r|] && (r == [] || !sp(r[|r| - 1]))
  {
    if s != [] && sp(s[|s| - 1]) {
      var t := s[..|s| - 1];
      DropTrailingShape(t, sp);
      var r := DropTrailing(t, sp);
      assert DropTrailing(s, sp) == r;
      assert t[..|r|] == s[..|r|];
    }
  }

  /** Only leading characters satisfying `sp` are dropped. */
  lemma {:induction false} DroppedLeading(s: string, sp: char -> bool)
    ensures forall k :: 0 <= k < |s| - |DropLeading(s, sp)| ==> sp(s[k])
  {
    if s != [] && sp(s[0]) {
      DroppedLeading(s[1..], sp);
      DropLeadingShape(s[1..], sp);
      assert forall k :: 1 <= k < |s| ==> s[k] == s[1..][k - 1];
    }
  }

  /** Only trailing characters satisfying `sp` are dropped. */
  lemma {:induction false} DroppedTrailing(s: string, sp: char -> bool)
    ensures forall k :: |DropTrailing(s, sp)| <= k < |s| ==> sp(s[k])
  {
    if s != [] && sp(s[|s| - 1]) {
      DroppedTrailing(s[..|s| - 1], sp);
      DropTrailingShape(s[..|s| - 1], sp);
      assert forall k :: 0 <= k < |s| - 1 ==> s[k] == s[..|s| - 1][k];
    }
  }

  /** JavaScript `String.prototype.trim`. */
  function Trim(s: string): (r: string)
    ensures |r| <= |s|
    ensures r == [] || (!IsJsSpace(r[0]) && !IsJsSpace(r[|r| - 1]))
  {
    DropLeadingShape(s, IsJsSpace);
    DropTrailingShape(DropLeading(s, IsJsSpace), IsJsSpace);
    DropTrailing(DropLeading(s, IsJsSpace), IsJsSpace)
  }

  /** Python `str.strip()` with no argument. */
  function Strip(s: string): (r: string)
    ensures |r| <= |s|
    ensures r == [] || (!IsPySpace(r[0]) && !IsPySpace(r[|r| - 1]))
  {
    DropLeadingShape(s, IsPySpace);
    DropTrailingShape(DropLeading(s, IsPySpace), IsPySpace);
    DropTrailing(DropLeading(s, IsPySpace), IsPySpace)
  }

  /** Dropping at both ends leaves a slice of the text with only `sp` characters cut off before and after it. */
  lemma DropBothCore(s: string, sp: char -> bool)
    ensures var r := DropTrailing(DropLeading(s, sp), sp);
            exists i, j :: 0 <= i <= j <= |s| && r == s[i..j]
                           && (forall k :: 0 <= k < i ==> sp(s[k]))
                           && (forall k :: j <= k < |s| ==> sp(s[k]))
  {
    var a := DropLeading(s, sp);
    var r := DropTrailing(a, sp);
    DropLeadingShape(s, sp);
    DropTrailingShape(a, sp);
    DroppedLeading(s, sp);
    DroppedTrailing(a, sp);
    var i := |s| - |a|;
    SuffixCut(s, a, i, |r|, sp);
    assert r == s[i..i + |r|] by {
      assert r == a[..|r|];
    }
  }

  /** Characters of `sp` at the end of a suffix are characters of `sp` at the end of the whole text. */
  lemma SuffixCut(s: string, a: string, i: nat, n: nat, sp: char -> bool)
    requires i <= |s| && a == s[i..] && n <= |a|
    requires forall k :: n <= k < |a| ==> sp(a[k])
    ensures forall k :: i + n <= k < |s| ==> sp(s[k])
  {
    forall k | i + n <= k < |s|
      ensures sp(s[k])
    {
      assert s[k] == a[k - i];
    }
  }

  /** `trim` cuts only JavaScript whitespace, and only at the two ends. */
  lemma TrimCutsEnds(s: string)
    ensures exists i, j :: 0 <= i <= j <= |s| && Trim(s) == s[i..j]
                           && (forall k :: 0 <= k < i ==> IsJsSpace(s[k]))
                           && (forall k :: j <= k < |s| ==> IsJsSpace(s[k]))
  {
    DropBothCore(s, IsJsSpace);
  }

  /** `strip` cuts only Python whitespace, and only at the two ends. */
  lemma StripCutsEnds(s: string)
    ensures exists i, j :: 0 <= i <= j <= |s| && Strip(s) == s[i..j]
                           && (forall k :: 0 <= k < i ==> IsPySpace(s[k]))
                           && (forall k :: j <= k < |s| ==> IsPySpace(s[k]))
  {
    DropBothCore(s, IsPySpace);
  }

  /** A string made only of whitespace trims to the empty string, and only such a string does. */
  lemma {:induction false} TrimEmptyIff(s: string)
    ensures Trim(s) == [] <==> forall k :: 0 <= k < |s| ==> IsJsSpace(s[k])
  {
    var a := DropLeading(s, IsJsSpace);
    DroppedLeading(s, IsJsSpace);
    DroppedTrailing(a, IsJsSpace);
    DropLeadingShape(s, IsJsSpace);
    DropTrailingShape(a, IsJsSpace);
    if Trim(s) == [] {
      assert DropTrailing(a, IsJsSpace) == [];
    }
  }

  /** Lower-cases one ASCII letter; every other character is unchanged. */
  function LowerChar(c: char): (r: char)
    ensures 'A' <= c <= 'Z' ==> 'a' <= r <= 'z'
    ensures !('A' <= c <= 'Z') ==> r == c
  {
    if 'A' <= c <= 'Z' then (c as int + 32) as char else c
  }

  /** Python `str.lower()` / JavaScript `toLowerCase()`, restricted to ASCII letters. */
  function Lower(s: string): (r: string)
    ensures |r| == |s|
    ensures forall k :: 0 <= k < |s| ==> r[k] == LowerChar(s[k])
  {
    seq(|s|, k requires 0 <= k < |s| => LowerChar(s[k]))
  }

  predicate StartsWith(s: string, prefix: string) {
    |prefix| <= |s| && s[..|prefix|] == prefix
  }

  /** True when `sub` occurs in `s` at index `i`. */
  predicate OccursAt(s: string, sub: string, i: int) {
    0 <= i && i + |sub| <= |s| && s[i..i + |sub|] == sub
  }

  /** Python `sub in s` / JavaScript `s.includes(sub)`. */
  function Contains(s: string, sub: string): (r: bool)
    ensures r <==> exists i :: OccursAt(s, sub, i)
  {
    if StartsWith(s, sub) then
      assert OccursAt(s, sub, 0);
      true
    else if s == [] then
      assert forall i :: !OccursAt(s, sub, i);
      false
    else
      var r := Contains(s[1..], sub);
      if r then
        var i :| OccursAt(s[1..], sub, i);
        OccursInTail(s, sub, i);
        true
      else
        OccursAfterHead(s, sub);
        false
  }

  /** An occurrence in the tail is an occurrence one place further on. */
  lemma OccursInTail(s: string, sub: string, i: int)
    requires s != [] && OccursAt(s[1..], sub, i)
    ensures OccursAt(s, sub, i + 1)
  {
    assert s[i + 1..i + 1 + |sub|] == s[1..][i..i + |sub|];
  }

  /** Without `sub` at the start, every occurrence is one in the tail, one place earlier there. */
  lemma OccursAfterHead(s: string, sub: string)
    requires s != [] && !StartsWith(s, sub)
    ensures forall i :: OccursAt(s, sub, i) ==> i > 0 && OccursAt(s[1..], sub, i - 1)
  {
    forall i | OccursAt(s, sub, i)
      ensures i > 0 && OccursAt(s[1..], sub, i - 1)
    {
      if i > 0 {
        assert s[1..][i - 1..i - 1 + |sub|] == s[i..i + |sub|];
      }
    }
  }

  /** Python `any(k in s for k in keywords)`. */
  predicate ContainsAny(s: string, keywords: seq<string>) {
    exists k :: 0 <= k < |keywords| && Contains(s, keywords[k])
  }

  /** Python `s[:n]`. */
  function Take(s: string, n: nat): (r: string)
    ensures |r| == if |s| <= n then |s| else n
    ensures r == s[..|r|]
  {
    if |s| <= n then s else s[..n]
  }

  /** `sep.join(parts)`. */
  function Join(parts: seq<string>, sep: string): string {
    if parts == [] then ""
    else if |parts| == 1 then parts[0]
    else parts[0] + sep + Join(parts[1..], sep)
  }

  /** Python `s.split("\n")`: the pieces between newlines. */
  function SplitLines(s: string): (r: seq<string>)
    decreases |s|
  {
    if '\n' !in s then [s]
    else
      var i := FirstIndexOf(s, '\n');
      [s[..i]] + SplitLines(s[i + 1..])
  }

  /** There is always at least one piece, and no piece holds a newline. */
  lemma {:induction false} SplitLinesPieces(s: string)
    ensures |SplitLines(s)| >= 1
    ensures forall k :: 0 <= k < |SplitLines(s)| ==> '\n' !in SplitLines(s)[k]
    decreases |s|
  {
    if '\n' in s {
      var i := FirstIndexOf(s, '\n');
      var rest := SplitLines(s[i + 1..]);
      SplitLinesPieces(s[i + 1..]);
      assert SplitLines(s) == [s[..i]] + rest;
    }
  }

  /** There is always at least one piece, no piece holds a newline, and joining them back gives the text. */
  lemma {:induction false} SplitLinesJoin(s: string)
    ensures |SplitLines(s)| >= 1
    ensures forall k :: 0 <= k < |SplitLines(s)| ==> '\n' !in SplitLines(s)[k]
    ensures Join(SplitLines(s), "\n") == s
    decreases |s|
  {
    SplitLinesPieces(s);
    if '\n' in s {
      var i := FirstIndexOf(s, '\n');
      var head, tail := s[..i], s[i + 1..];
      var rest := SplitLines(tail);
      SplitLinesJoin(tail);
      assert SplitLines(s) == [head] + rest;
      JoinCons(head, rest, "\n");
      SplitAround(s, i);
      assert [s[i]] == "\n";
    }
  }

  /** A sequence is the part before position `i`, the item at `i`, and the part after it. */
  lemma SplitAround<T>(s: seq<T>, i: nat)
    requires i < |s|
    ensures s == s[..i] + [s[i]] + s[i + 1..]
  {
  }

  lemma JoinCons(head: string, rest: seq<string>, sep: string)
    requires |rest| >= 1
    ensures Join([head] + rest, sep) == head + sep + Join(rest, sep)
  {
    assert ([head] + rest)[1..] == rest;
  }

  /** Index of the first occurrence of `c`. */
  function FirstIndexOf(s: string, c: char): (i: nat)
    requires c in s
    ensures i < |s| && s[i] == c && c !in s[..i]
  {
    if s[0] == c then 0 else 1 + FirstIndexOf(s[1..], c)
  }

  /** `[f(x) for x in xs if f(x)]`: what `f` yields for the items of `xs`, in order, the misses skipped. */
  function Collect<A, B>(xs: seq<A>, f: A -> Option<B>): (r: seq<B>)
    ensures |r| <= |xs|
  {
    if xs == [] then []
    else
      var y := f(xs[|xs| - 1]);
      Collect(xs[..|xs| - 1], f) + (if y.Some? then [y.value] else [])
  }

  lemma CollectStep<A, B>(xs: seq<A>, k: nat, f: A -> Option<B>)
    requires k < |xs|
    ensures Collect(xs[..k + 1], f) == Collect(xs[..k], f) + (if f(xs[k]).Some? then [f(xs[k]).value] else [])
  {
    assert xs[..k + 1][..k] == xs[..k];
  }

  /** Collecting over two blocks is collecting over each, in order. */
  lemma {:induction false} CollectConcat<A, B>(a: seq<A>, b: seq<A>, f: A -> Option<B>)
    ensures Collect(a + b, f) == Collect(a, f) + Collect(b, f)
    decreases |b|
  {
    if b == [] {
      assert a + b == a;
    } else {
      var init := b[..|b| - 1];
      var y := f(b[|b| - 1]);
      var tail := if y.Some? then [y.value] else [];
      assert (a + b)[..|a + b| - 1] == a + init;
      assert (a + b)[|a + b| - 1] == b[|b| - 1];
      CollectConcat(a, init, f);
      assert Collect(a + b, f) == (Collect(a, f) + Collect(init, f)) + tail;
    }
  }

  /** Every collected value is what `f` yields for some item, and every hit is collected. */
  lemma {:induction false} CollectMembers<A, B>(xs: seq<A>, f: A -> Option<B>)
    ensures forall y :: y in Collect(xs, f) ==> exists k :: 0 <= k < |xs| && f(xs[k]) == Some(y)
    ensures forall k :: 0 <= k < |xs| && f(xs[k]).Some? ==> f(xs[k]).value in Collect(xs, f)
  {
    if xs != [] {
      var init := xs[..|xs| - 1];
      CollectMembers(init, f);
      assert forall k :: 0 <= k < |init| ==> init[k] == xs[k];
    }
  }

  /** The items `x` of `xs` with `p(x) == want`, in order. */
  function Split<A>(xs: seq<A>, p: A -> bool, want: bool): (r: seq<A>)
    ensures |r| <= |xs|
  {
    if xs == [] then []
    else Split(xs[..|xs| - 1], p, want) + (if p(xs[|xs| - 1]) == want then [xs[|xs| - 1]] else [])
  }

  /** One more item joins the side of its own verdict. */
  lemma SplitStep<A>(xs: seq<A>, k: nat, p: A -> bool, want: bool)
    requires k < |xs|
    ensures Split(xs[..k + 1], p, want) == Split(xs[..k], p, want) + (if p(xs[k]) == want then [xs[k]] else [])
  {
    assert xs[..k + 1][..k] == xs[..k];
  }

  /** The two sides together are a rearrangement of the input. */
  lemma {:induction false} SplitPermutes<A>(xs: seq<A>, p: A -> bool)
    ensures multiset(Split(xs, p, true)) + multiset(Split(xs, p, false)) == multiset(xs)
  {
    if xs != [] {
      var init := xs[..|xs| - 1];
      SplitPermutes(init, p);
      assert xs == init + [xs[|xs| - 1]];
    }
  }

  /** A side holds exactly the items of the input with that verdict. */
  lemma {:induction false} SplitMembers<A>(xs: seq<A>, p: A -> bool, want: bool)
    ensures forall x :: x in Split(xs, p, want) <==> x in xs && p(x) == want
  {
    if xs != [] {
      var init := xs[..|xs| - 1];
      SplitMembers(init, p, want);
      assert xs == init + [xs[|xs| - 1]];
    }
  }

  /** `[f(x, i) for i, x in enumerate(xs)]`: each item mapped together with its position. */
  function Numbered<A, B>(xs: seq<A>, f: (A, nat) -> B): seq<B>
  {
    if xs == [] then [] else Numbered(xs[..|xs| - 1], f) + [f(xs[|xs| - 1], |xs| - 1)]
  }

  /** One more item adds its value at the end. */
  lemma NumberedStep<A, B>(xs: seq<A>, k: nat, f: (A, nat) -> B)
    requires k < |xs|
    ensures Numbered(xs[..k + 1], f) == Numbered(xs[..k], f) + [f(xs[k], k)]
  {
    assert xs[..k + 1][..k] == xs[..k];
  }

  /** One value per item, the `k`-th being `f` of the `k`-th item and `k`. */
  lemma {:induction false} NumberedAt<A, B>(xs: seq<A>, f: (A, nat) -> B)
    ensures |Numbered(xs, f)| == |xs|
    ensures forall k :: 0 <= k < |xs| ==> Numbered(xs, f)[k] == f(xs[k], k)
  {
    if xs != [] {
      var init := xs[..|xs| - 1];
      NumberedAt(init, f);
      assert forall k :: 0 <= k < |init| ==> init[k] == xs[k];
    }
  }

  /** `for x in xs: out.extend(f(x))`: the pieces of all items, item by item. */
  function FlatMap<A, B>(xs: seq<A>, f: A -> seq<B>): seq<B> {
    if xs == [] then [] else FlatMap(xs[..|xs| - 1], f) + f(xs[|xs| - 1])
  }

  /** One more item adds its pieces at the end. */
  lemma FlatMapStep<A, B>(xs: seq<A>, k: nat, f: A -> seq<B>)
    requires k < |xs|
    ensures FlatMap(xs[..k + 1], f) == FlatMap(xs[..k], f) + f(xs[k])
  {
    assert xs[..k + 1][..k] == xs[..k];
  }

  /** A list that holds `acc0` and the pieces of the first `k` items, extended by the pieces of item `k`. */
  lemma FlatMapExtend<A, B>(xs: seq<A>, k: nat, f: A -> seq<B>, acc0: seq<B>, acc: seq<B>)
    requires k < |xs| && acc == acc0 + FlatMap(xs[..k], f)
    ensures acc + f(xs[k]) == acc0 + FlatMap(xs[..k + 1], f)
  {
    FlatMapStep(xs, k, f);
  }

  /** Python `enumerate(xs)`: each item paired with its position. */
  function Enumerate<A>(xs: seq<A>): (r: seq<(A, nat)>)
    ensures |r| == |xs| && forall i :: 0 <= i < |xs| ==> r[i] == (xs[i], i)
  {
    seq(|xs|, i requires 0 <= i < |xs| => (xs[i], i))
  }

  /**
   * When `f` hands each item's key on to what it yields and the keys of the
   * items increase, the keys of the collected values increase too.
   */
  lemma {:induction false} CollectKeysIncrease<A, B>(xs: seq<A>, f: A -> Option<B>, keyIn: A -> int, keyOut: B -> int)
    requires forall i, j :: 0 <= i < j < |xs| ==> keyIn(xs[i]) < keyIn(xs[j])
    requires forall x :: f(x).Some? ==> keyOut(f(x).value) == keyIn(x)
    ensures forall j, k :: 0 <= j < k < |Collect(xs, f)| ==> keyOut(Collect(xs, f)[j]) < keyOut(Collect(xs, f)[k])
  {
    if xs != [] {
      var init := xs[..|xs| - 1];
      CollectKeysIncrease(init, f, keyIn, keyOut);
      CollectMembers(init, f);
      var r := Collect(xs, f);
      var prefix := Collect(init, f);
      forall j | 0 <= j < |prefix|
        ensures keyOut(prefix[j]) < keyIn(xs[|xs| - 1])
      {
        var k :| 0 <= k < |init| && f(init[k]) == Some(prefix[j]);
      }
      assert forall j :: 0 <= j < |prefix| ==> r[j] == prefix[j];
    }
  }
}
