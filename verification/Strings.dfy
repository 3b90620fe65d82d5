/** White space and trimming as JavaScript defines them (section 12.2 of ECMA-262): what
    `String.prototype.trim` removes is what `\s` matches. */
module Strings {

  predicate IsSpace(c: char) {
    || '\t' <= c <= '\r' || c == ' ' || c == '\U{00A0}' || c == '\U{1680}' || '\U{2000}' <= c <= '\U{200A}'
    || c == '\U{2028}' || c == '\U{2029}' || c == '\U{202F}' || c == '\U{205F}' || c == '\U{3000}' || c == '\U{FEFF}'
  }

  function TrimStart(s: string): string {
    if s != "" && IsSpace(s[0]) then TrimStart(s[1..]) else s
  }

  function TrimEnd(s: string): string {
    if s != "" && IsSpace(s[|s| - 1]) then TrimEnd(s[..|s| - 1]) else s
  }

  function Trim(s: string): string {
    TrimEnd(TrimStart(s))
  }

  lemma {:induction false} TrimStartFirst(s: string)
    ensures TrimStart(s) != "" ==> !IsSpace(TrimStart(s)[0])
  {
    if s != "" && IsSpace(s[0]) {
      TrimStartFirst(s[1..]);
    }
  }

  lemma {:induction false} TrimEndFacts(s: string)
    ensures TrimEnd(s) <= s
    ensures TrimEnd(s) != "" ==> !IsSpace(TrimEnd(s)[|TrimEnd(s)| - 1])
    ensures TrimEnd(TrimEnd(s)) == TrimEnd(s)
    decreases |s|
  {
    if s != "" && IsSpace(s[|s| - 1]) {
      TrimEndFacts(s[..|s| - 1]);
    }
  }

  /** Trimming twice is trimming once. */
  lemma TrimTwice(s: string)
    ensures Trim(Trim(s)) == Trim(s)
  {
    TrimStartFirst(s);
    TrimEndFacts(TrimStart(s));
    var t := Trim(s);
    if t != "" {
      assert t[0] == TrimStart(s)[0];
    }
    assert TrimStart(t) == t;
  }

  /** The white space and line terminators of ECMA-262, one by one. */
  const WHITE_SPACE :=
    "\t\n\U{000B}\U{000C}\r \U{00A0}\U{1680}\U{2000}\U{2001}\U{2002}\U{2003}\U{2004}\U{2005}\U{2006}\U{2007}\U{2008}\U{2009}\U{200A}\U{2028}\U{2029}\U{202F}\U{205F}\U{3000}\U{FEFF}"

  lemma SpacesAreListed(c: char)
    ensures IsSpace(c) <==> c in WHITE_SPACE
  {
    if '\t' <= c <= '\r' { assert c == WHITE_SPACE[c as int - 9]; }
    if '\U{2000}' <= c <= '\U{200A}' { assert c == WHITE_SPACE[c as int - 0x2000 + 8]; }
    assert WHITE_SPACE[5] == ' ' && WHITE_SPACE[6] == '\U{00A0}' && WHITE_SPACE[7] == '\U{1680}';
    assert WHITE_SPACE[19..] == "\U{2028}\U{2029}\U{202F}\U{205F}\U{3000}\U{FEFF}";
  }

  predicate AllSpaces(s: string) {
    forall i :: 0 <= i < |s| ==> IsSpace(s[i])
  }

  lemma {:induction false} TrimStartCuts(s: string)
    ensures |TrimStart(s)| <= |s| && TrimStart(s) == s[|s| - |TrimStart(s)|..]
    ensures AllSpaces(s[..|s| - |TrimStart(s)|])
  {
    if s != "" && IsSpace(s[0]) {
      TrimStartCuts(s[1..]);
      var n := |s| - |TrimStart(s)|;
      assert s[..n] == [s[0]] + s[1..][..n - 1];
    }
  }

  lemma {:induction false} TrimEndCuts(s: string)
    ensures |TrimEnd(s)| <= |s| && TrimEnd(s) == s[..|TrimEnd(s)|]
    ensures AllSpaces(s[|TrimEnd(s)|..])
    decreases |s|
  {
    if s != "" && IsSpace(s[|s| - 1]) {
      var front := s[..|s| - 1];
      TrimEndCuts(front);
      assert s[|TrimEnd(s)|..] == front[|TrimEnd(s)|..] + [s[|s| - 1]];
    }
  }

  /** Trimming cuts white space off both ends and leaves none there. */
  lemma TrimCuts(s: string) returns (front: string, back: string)
    ensures s == front + Trim(s) + back && AllSpaces(front) && AllSpaces(back)
    ensures Trim(s) != "" ==> !IsSpace(Trim(s)[0]) && !IsSpace(Trim(s)[|Trim(s)| - 1])
  {
    var t := TrimStart(s);
    TrimStartCuts(s);
    TrimEndCuts(t);
    TrimStartFirst(s);
    TrimEndFacts(t);
    front, back := s[..|s| - |t|], t[|Trim(s)|..];
    assert t == Trim(s) + back;
    assert s == front + t;
    assert front + (Trim(s) + back) == front + Trim(s) + back;
    if Trim(s) != "" {
      assert Trim(s)[0] == t[0];
    }
  }
}
