/** Sequence vocabulary shared by the models: concatenation, reversal, filtering
    and the two slicing idioms of JavaScript arrays that the sources rely on. */
module Prelude {

  datatype Option<+T> = None | Some(value: T) {
    function GetOr(default: T): T {
      match this
      case Some(v) => v
      case None => default
    }
  }

  newtype byte = x: int | 0 <= x < 256

  function Max(a: int, b: int): int {
    if a < b then b else a
  }

  function Min(a: int, b: int): int {
    if a < b then a else b
  }

  /** Concatenation of a sequence of sequences (`Buffer.concat`). */
  function Flatten<T>(parts: seq<seq<T>>): seq<T> {
    if parts == [] then [] else parts[0] + Flatten(parts[1..])
  }

  lemma {:induction false} FlattenConcat<T>(a: seq<seq<T>>, b: seq<seq<T>>)
    ensures Flatten(a + b) == Flatten(a) + Flatten(b)
  {
    if a == [] {
      assert a + b == b;
    } else {
      calc {
        Flatten(a + b);
      ==  { assert (a + b)[0] == a[0] && (a + b)[1..] == a[1..] + b; }
        a[0] + Flatten(a[1..] + b);
      ==  { FlattenConcat(a[1..], b); }
        a[0] + (Flatten(a[1..]) + Flatten(b));
      ==
        Flatten(a) + Flatten(b);
      }
    }
  }

  lemma FlattenSnoc<T>(parts: seq<seq<T>>, last: seq<T>)
    ensures Flatten(parts + [last]) == Flatten(parts) + last
  {
    FlattenConcat(parts, [last]);
    assert Flatten([last]) == last;
  }

  /** `s.flatMap(f)`. */
  function FlatMap<T, U>(s: seq<T>, f: T -> seq<U>): seq<U> {
    if s == [] then [] else f(s[0]) + FlatMap(s[1..], f)
  }

  lemma {:induction false} FlatMapConcat<T, U>(a: seq<T>, b: seq<T>, f: T -> seq<U>)
    ensures FlatMap(a + b, f) == FlatMap(a, f) + FlatMap(b, f)
  {
    if a == [] {
      assert a + b == b;
    } else {
      var head, rest := f(a[0]), FlatMap(a[1..], f);
      calc {
        FlatMap(a + b, f);
      ==  { assert (a + b)[0] == a[0] && (a + b)[1..] == a[1..] + b; }
        head + FlatMap(a[1..] + b, f);
      ==  { FlatMapConcat(a[1..], b, f); }
        head + (rest + FlatMap(b, f));
      ==
        (head + rest) + FlatMap(b, f);
      }
    }
  }

  lemma FlatMapOne<T, U>(x: T, f: T -> seq<U>)
    ensures FlatMap([x], f) == f(x)
  {
    assert [x][1..] == [];
  }

  lemma FlatMapSnoc<T, U>(s: seq<T>, x: T, f: T -> seq<U>)
    ensures FlatMap(s + [x], f) == FlatMap(s, f) + f(x)
  {
    FlatMapConcat(s, [x], f);
    FlatMapOne(x, f);
  }

  function Reversed<T>(s: seq<T>): seq<T> {
    if s == [] then [] else Reversed(s[1..]) + [s[0]]
  }

  lemma {:induction false} ReversedIndex<T>(s: seq<T>)
    ensures |Reversed(s)| == |s|
    ensures forall k :: 0 <= k < |s| ==> Reversed(s)[k] == s[|s| - 1 - k]
  {
    if s != [] {
      ReversedIndex(s[1..]);
    }
  }

  lemma {:induction false} ReversedConcat<T>(a: seq<T>, b: seq<T>)
    ensures Reversed(a + b) == Reversed(b) + Reversed(a)
  {
    if a == [] {
      assert a + b == b;
    } else {
      calc {
        Reversed(a + b);
      ==  { assert (a + b)[0] == a[0] && (a + b)[1..] == a[1..] + b; }
        Reversed(a[1..] + b) + [a[0]];
      ==  { ReversedConcat(a[1..], b); }
        (Reversed(b) + Reversed(a[1..])) + [a[0]];
      ==
        Reversed(b) + Reversed(a);
      }
    }
  }

  /** `s.filter(p)`. */
  function Filter<T>(s: seq<T>, p: T -> bool): seq<T> {
    if s == [] then []
    else (if p(s[0]) then [s[0]] else []) + Filter(s[1..], p)
  }

  lemma {:induction false} FilterConcat<T>(a: seq<T>, b: seq<T>, p: T -> bool)
    ensures Filter(a + b, p) == Filter(a, p) + Filter(b, p)
  {
    if a == [] {
      assert a + b == b;
    } else {
      var head := if p(a[0]) then [a[0]] else [];
      calc {
        Filter(a + b, p);
      ==  { assert (a + b)[0] == a[0] && (a + b)[1..] == a[1..] + b; }
        head + Filter(a[1..] + b, p);
      ==  { FilterConcat(a[1..], b, p); }
        head + (Filter(a[1..], p) + Filter(b, p));
      ==
        Filter(a, p) + Filter(b, p);
      }
    }
  }

  lemma FilterSnoc<T>(s: seq<T>, x: T, p: T -> bool)
    ensures Filter(s + [x], p) == Filter(s, p) + if p(x) then [x] else []
  {
    FilterConcat(s, [x], p);
    assert [x][1..] == [];
    assert Filter([x], p) == if p(x) then [x] else [];
  }

  /** A filtered prefix is a prefix of the filtered whole. */
  lemma FilterPrefix<T>(s: seq<T>, i: nat, p: T -> bool)
    requires i <= |s|
    ensures Filter(s, p) == Filter(s[..i], p) + Filter(s[i..], p)
  {
    assert s == s[..i] + s[i..];
    FilterConcat(s[..i], s[i..], p);
  }

  lemma {:induction false} FilterMembers<T>(s: seq<T>, p: T -> bool)
    ensures forall x :: x in Filter(s, p) <==> x in s && p(x)
    ensures |Filter(s, p)| <= |s|
  {
    if s != [] {
      FilterMembers(s[1..], p);
      assert s == [s[0]] + s[1..];
    }
  }

  lemma {:induction false} FilterAll<T>(s: seq<T>, p: T -> bool)
    requires forall x :: x in s ==> p(x)
    ensures Filter(s, p) == s
  {
    if s != [] {
      assert s[0] in s && forall x :: x in s[1..] ==> x in s;
      FilterAll(s[1..], p);
    }
  }

  lemma {:induction false} FilterNone<T>(s: seq<T>, p: T -> bool)
    requires forall x :: x in s ==> !p(x)
    ensures Filter(s, p) == []
  {
    if s != [] {
      assert s[0] in s && forall x :: x in s[1..] ==> x in s;
      FilterNone(s[1..], p);
    }
  }

  lemma {:induction false} FilterBoth<T(!new)>(s: seq<T>, p: T -> bool, q: T -> bool, both: T -> bool)
    requires forall x :: both(x) <==> p(x) && q(x)
    ensures Filter(s, both) == Filter(Filter(s, p), q)
  {
    if s != [] {
      FilterBoth(s[1..], p, q, both);
      FilterConcat(if p(s[0]) then [s[0]] else [], Filter(s[1..], p), q);
    }
  }

  lemma {:induction false} FilterCommutes<T>(s: seq<T>, p: T -> bool, q: T -> bool)
    ensures Filter(Filter(s, p), q) == Filter(Filter(s, q), p)
  {
    if s != [] {
      FilterCommutes(s[1..], p, q);
      var hp, hq := if p(s[0]) then [s[0]] else [], if q(s[0]) then [s[0]] else [];
      FilterConcat(hp, Filter(s[1..], p), q);
      FilterConcat(hq, Filter(s[1..], q), p);
    }
  }

  /** The last `n` elements, or all of them when there are fewer. */
  function TakeLast<T>(s: seq<T>, n: nat): seq<T> {
    if |s| <= n then s else s[|s| - n..]
  }

  /** `s.slice(-n)` for `n >= 0`: JavaScript reads `-0` as index 0, so `n == 0`
      keeps everything. */
  function SliceFromEnd<T>(s: seq<T>, n: nat): seq<T> {
    if n == 0 then s else TakeLast(s, n)
  }

  /** An index argument of `Array.prototype.slice`: negative counts from the end. */
  function SliceIndex(length: nat, i: int): nat {
    if i < 0 then Max(0, length + i) else Min(i, length)
  }

  /** `s.slice(from, to)`. */
  function JsSlice<T>(s: seq<T>, from: int, to: int): seq<T> {
    var a, b := SliceIndex(|s|, from), SliceIndex(|s|, to);
    if a < b then s[a..b] else []
  }

  predicate Distinct<T(==)>(s: seq<T>) {
    forall i, j :: 0 <= i < j < |s| ==> s[i] != s[j]
  }
}
