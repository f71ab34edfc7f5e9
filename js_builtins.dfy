/**
  The few JavaScript built-ins the task-list logic leans on, stated once so the
  rest of the model can use them: Array.prototype.filter, Array.prototype.findIndex,
  Array.prototype.splice (remove one / insert one) and String.prototype.trim.
*/
module JsBuiltins {

  /** `xs.filter(p)`: the elements satisfying `p`, in their original order. */
  function Filter<T>(xs: seq<T>, p: T -> bool): (r: seq<T>)
    ensures |r| <= |xs|
    ensures forall i :: 0 <= i < |r| ==> p(r[i])
    ensures forall i :: 0 <= i < |xs| && p(xs[i]) ==> xs[i] in r
    ensures multiset(r) <= multiset(xs)
    ensures (forall i :: 0 <= i < |xs| ==> p(xs[i])) ==> r == xs
  {
    if xs == [] then []
    else
      assert xs == [xs[0]] + xs[1..];
      (if p(xs[0]) then [xs[0]] else []) + Filter(xs[1..], p)
  }

  /** Filtering distributes over concatenation: the filter is stable. */
  lemma {:induction false} FilterConcat<T>(a: seq<T>, b: seq<T>, p: T -> bool)
    ensures Filter(a + b, p) == Filter(a, p) + Filter(b, p)
  {
    if a == [] {
      assert a + b == b;
    } else {
      assert (a + b)[0] == a[0];
      assert (a + b)[1..] == a[1..] + b;
      FilterConcat(a[1..], b, p);
    }
  }

  /** A one-element list keeps its element exactly when `p` accepts it. */
  lemma FilterSingleton<T>(x: T, p: T -> bool)
    ensures Filter([x], p) == if p(x) then [x] else []
  {
    assert [x][1..] == [];
  }

  /** When `p` rejects every element, the filter keeps nothing. */
  lemma {:induction false} FilterNone<T>(xs: seq<T>, p: T -> bool)
    requires forall i :: 0 <= i < |xs| ==> !p(xs[i])
    ensures Filter(xs, p) == []
  {
    if xs != [] {
      assert !p(xs[0]);
      FilterNone(xs[1..], p);
    }
  }

  /** Every element the filter keeps comes from the input. */
  lemma FilterFromInput<T>(xs: seq<T>, p: T -> bool, i: nat)
    requires i < |Filter(xs, p)|
    ensures Filter(xs, p)[i] in xs
  {
    var r := Filter(xs, p);
    assert r[i] in multiset(r);
  }

  /** The filter of a non-empty list: its head if `p` accepts it, then the filter of its tail. */
  lemma FilterCons<T>(xs: seq<T>, p: T -> bool)
    requires xs != []
    ensures multiset(Filter(xs, p)) == (if p(xs[0]) then multiset{xs[0]} else multiset{}) + multiset(Filter(xs[1..], p))
  {
  }

  lemma AddToOnePart<T>(x: multiset<T>, a: multiset<T>, b: multiset<T>, c: multiset<T>)
    ensures (x + a) + b + c == x + (a + b + c)
    ensures a + (x + b) + c == x + (a + b + c)
    ensures a + b + (x + c) == x + (a + b + c)
  {
  }

  /** What `p` keeps and what its negation keeps make up the input, element for element. */
  lemma {:induction false} FilterComplementMultiset<T>(xs: seq<T>, p: T -> bool, q: T -> bool)
    requires forall x :: q(x) == !p(x)
    ensures multiset(Filter(xs, p)) + multiset(Filter(xs, q)) == multiset(xs)
  {
    if xs != [] {
      var x, rest := xs[0], xs[1..];
      FilterComplementMultiset(rest, p, q);
      assert xs == [x] + rest;
      FilterCons(xs, p);
      FilterCons(xs, q);
      AddToOnePart(multiset{x}, multiset(Filter(rest, p)), multiset(Filter(rest, q)), multiset{});
    }
  }

  /** What `p` rejects and what it keeps add up to the whole input. */
  lemma FilterComplement<T>(xs: seq<T>, p: T -> bool, q: T -> bool)
    requires forall x :: q(x) == !p(x)
    ensures |Filter(xs, p)| + |Filter(xs, q)| == |xs|
    ensures multiset(Filter(xs, p)) + multiset(Filter(xs, q)) == multiset(xs)
  {
    FilterComplementMultiset(xs, p, q);
    assert |multiset(Filter(xs, p)) + multiset(Filter(xs, q))| == |multiset(xs)|;
  }

  /**
    Three filters by predicates that hold for each element exactly one at a
    time split the input between them.
  */
  lemma {:induction false} FilterPartition3<T>(xs: seq<T>, p: T -> bool, q: T -> bool, r: T -> bool)
    requires forall x :: p(x) || q(x) || r(x)
    requires forall x :: !(p(x) && q(x)) && !(p(x) && r(x)) && !(q(x) && r(x))
    ensures multiset(Filter(xs, p)) + multiset(Filter(xs, q)) + multiset(Filter(xs, r)) == multiset(xs)
  {
    if xs != [] {
      var x, rest := xs[0], xs[1..];
      FilterPartition3(rest, p, q, r);
      assert xs == [x] + rest;
      FilterCons(xs, p);
      FilterCons(xs, q);
      FilterCons(xs, r);
      AddToOnePart(multiset{x}, multiset(Filter(rest, p)), multiset(Filter(rest, q)), multiset(Filter(rest, r)));
    }
  }

  /** `xs.findIndex(p)`: the first index whose element satisfies `p`, or -1. */
  function FindIndex<T>(xs: seq<T>, p: T -> bool): (k: int)
    ensures -1 <= k < |xs|
    ensures k == -1 <==> forall i :: 0 <= i < |xs| ==> !p(xs[i])
    ensures k >= 0 ==> p(xs[k]) && forall i :: 0 <= i < k ==> !p(xs[i])
  {
    if xs == [] then -1
    else if p(xs[0]) then 0
    else
      var k := FindIndex(xs[1..], p);
      if k == -1 then -1 else k + 1
  }

  /** `xs.splice(i, 1)` with `i` in range: `xs` without its element at `i`. */
  function RemoveAt<T>(xs: seq<T>, i: nat): (r: seq<T>)
    requires i < |xs|
    ensures |r| == |xs| - 1
    ensures forall k :: 0 <= k < i ==> r[k] == xs[k]
    ensures forall k :: i <= k < |r| ==> r[k] == xs[k + 1]
    ensures multiset(r) + multiset{xs[i]} == multiset(xs)
  {
    assert xs == xs[..i] + [xs[i]] + xs[i + 1..];
    xs[..i] + xs[i + 1..]
  }

  /** `xs.splice(i, 0, x)`: `x` inserted before position `i`; an index past the end appends. */
  function InsertAt<T>(xs: seq<T>, i: nat, x: T): (r: seq<T>)
    ensures |r| == |xs| + 1
    ensures var j := if i < |xs| then i else |xs|;
      r[j] == x
      && (forall k :: 0 <= k < j ==> r[k] == xs[k])
      && (forall k :: j < k < |r| ==> r[k] == xs[k - 1])
    ensures multiset(r) == multiset(xs) + multiset{x}
  {
    var j := if i < |xs| then i else |xs|;
    assert xs == xs[..j] + xs[j..];
    xs[..j] + [x] + xs[j..]
  }

  /**
    The characters String.prototype.trim removes: the ECMAScript WhiteSpace
    code points (tab, vertical tab, form feed, space, no-break space, the
    byte-order mark and the Unicode space separators) and the LineTerminator
    code points.
  */
  predicate IsJsWhitespace(c: char) {
    || c == '\t' || c == '\n' || c == '\U{000B}' || c == '\U{000C}' || c == '\r'
    || c == ' ' || c == '\U{00A0}' || c == '\U{1680}'
    || ('\U{2000}' <= c <= '\U{200A}')
    || c == '\U{2028}' || c == '\U{2029}' || c == '\U{202F}' || c == '\U{205F}'
    || c == '\U{3000}' || c == '\U{FEFF}'
  }

  /** How many whitespace characters start `s`. */
  function LeadingWhitespace(s: string): (n: nat)
    ensures n <= |s|
    ensures forall k :: 0 <= k < n ==> IsJsWhitespace(s[k])
    ensures n < |s| ==> !IsJsWhitespace(s[n])
  {
    if s != [] && IsJsWhitespace(s[0]) then 1 + LeadingWhitespace(s[1..]) else 0
  }

  /** How many whitespace characters end `s`. */
  function TrailingWhitespace(s: string): (n: nat)
    ensures n <= |s|
    ensures forall k :: |s| - n <= k < |s| ==> IsJsWhitespace(s[k])
    ensures n < |s| ==> !IsJsWhitespace(s[|s| - n - 1])
  {
    if s != [] && IsJsWhitespace(s[|s| - 1]) then 1 + TrailingWhitespace(s[..|s| - 1]) else 0
  }

  /** Unless `s` is all whitespace, its leading and trailing runs do not overlap. */
  lemma WhitespaceRunsApart(s: string)
    requires LeadingWhitespace(s) < |s|
    ensures LeadingWhitespace(s) + TrailingWhitespace(s) < |s|
  {
    assert !IsJsWhitespace(s[LeadingWhitespace(s)]);
  }

  /**
    `s.trim()`: the slice of `s` that starts after its leading whitespace and
    stops before its trailing whitespace; nothing when `s` is all whitespace.
  */
  function Trim(s: string): (r: string)
    ensures r == [] <==> forall k :: 0 <= k < |s| ==> IsJsWhitespace(s[k])
    ensures r != [] ==> !IsJsWhitespace(r[0]) && !IsJsWhitespace(r[|r| - 1])
    ensures var i := LeadingWhitespace(s);
      i + |r| <= |s| && r == s[i..i + |r|]
      && (forall k :: 0 <= k < i ==> IsJsWhitespace(s[k]))
      && (forall k :: i + |r| <= k < |s| ==> IsJsWhitespace(s[k]))
  {
    var i := LeadingWhitespace(s);
    if i == |s| then []
    else
      WhitespaceRunsApart(s);
      s[i..|s| - TrailingWhitespace(s)]
  }

  /** Trimming twice is trimming once. */
  lemma TrimIdempotent(s: string)
    ensures Trim(Trim(s)) == Trim(s)
  {
    var r := Trim(s);
    if r != [] {
      assert LeadingWhitespace(r) == 0 && TrailingWhitespace(r) == 0;
      assert r[0..|r|] == r;
    }
  }
}
