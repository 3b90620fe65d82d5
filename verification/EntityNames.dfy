/** Entity names and keys (src/core/entity-store.ts): keys by trimming and ASCII case folding. */
module EntityNames {
  import opened Prelude
  import opened Strings

  function LowerChar(c: char): char {
    if 'A' <= c <= 'Z' then (c as int + 32) as char else c
  }

  function Lower(s: string): string {
    if s == "" then "" else [LowerChar(s[0])] + Lower(s[1..])
  }

  /** The case-insensitive identity of a name. */
  function KeyOf(name: string): string {
    Lower(Trim(name))
  }

  /** A stored name has the key of the name it was made from. */
  lemma TrimKeepsKey(name: string)
    ensures Trim(Trim(name)) == Trim(name)
    ensures KeyOf(Trim(name)) == KeyOf(name)
  {
    TrimTwice(name);
  }

  function Contains(s: string, q: string): bool
    decreases |s|
  {
    q <= s || (s != "" && Contains(s[1..], q))
  }

  /** The same letter, or an ASCII letter in both cases. */
  predicate SameLetter(c: char, d: char) {
    || c == d
    || ('A' <= c <= 'Z' && d as int == c as int + 32)
    || ('A' <= d <= 'Z' && c as int == d as int + 32)
  }

  /** Two strings fold alike exactly when they differ in ASCII case at most. */
  lemma {:induction false} LowerIff(a: string, b: string)
    ensures Lower(a) == Lower(b) <==> |a| == |b| && forall i :: 0 <= i < |a| ==> SameLetter(a[i], b[i])
  {
    LowerAt(a);
    LowerAt(b);
    forall c, d
      ensures LowerChar(c) == LowerChar(d) <==> SameLetter(c, d)
    {
    }
    if Lower(a) == Lower(b) {
      forall i | 0 <= i < |a|
        ensures SameLetter(a[i], b[i])
      {
        assert Lower(a)[i] == Lower(b)[i];
      }
    }
  }

  lemma {:induction false} LowerAt(s: string)
    ensures |Lower(s)| == |s| && forall i :: 0 <= i < |s| ==> Lower(s)[i] == LowerChar(s[i])
  {
    if s != "" { LowerAt(s[1..]); }
  }

  /** Names are the same entity exactly when, trimmed, they differ in ASCII case at most. */
  lemma KeyIff(a: string, b: string)
    ensures
      var s, t := Trim(a), Trim(b);
      KeyOf(a) == KeyOf(b) <==> |s| == |t| && forall i :: 0 <= i < |s| ==> SameLetter(s[i], t[i])
  {
    LowerIff(Trim(a), Trim(b));
  }

  predicate OccursAt(s: string, q: string, i: nat) {
    i + |q| <= |s| && s[i..i + |q|] == q
  }

  ghost predicate Occurs(s: string, q: string) {
    exists i: nat :: OccursAt(s, q, i)
  }

  /** `String.prototype.includes`. */
  lemma {:induction false} ContainsIff(s: string, q: string)
    ensures Contains(s, q) <==> Occurs(s, q)
    decreases |s|
  {
    assert OccursAt(s, q, 0) <==> q <= s by {
      if |q| <= |s| { assert s[0..0 + |q|] == s[..|q|]; }
    }
    if !(q <= s) && s != "" {
      ContainsIff(s[1..], q);
      if i: nat :| OccursAt(s[1..], q, i) {
        assert s[1..][i..i + |q|] == s[i + 1..i + 1 + |q|];
        assert OccursAt(s, q, i + 1);
      }
      if j: nat :| OccursAt(s, q, j) {
        assert s[1..][j - 1..j - 1 + |q|] == s[j..j + |q|];
        assert OccursAt(s[1..], q, j - 1);
      }
    }
  }
}
