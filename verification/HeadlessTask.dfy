/** The bounded output tail and the session-id scanner of a headless run
    (src/workspaces/headless-task.ts). */
module HeadlessTasks {
  import opened Prelude
  import opened Strings

  const SCAN_LINE_MAX := 256 * 1024

  // ----- Tail sink -----

  ghost predicate HoldsTail(held: seq<byte>, pushed: seq<byte>, maxBytes: nat) {
    && |held| <= |pushed| && held == pushed[|pushed| - |held|..]
    && (|held| < |pushed| ==> maxBytes <= |held|)
    && (maxBytes > 0 ==> |held| <= 2 * maxBytes)
    && (maxBytes == 0 ==> held == pushed)
  }

  /** A longer suffix stays a suffix, collapsed to `maxBytes` once it is over twice the budget. */
  lemma AppendHoldsTail(held: seq<byte>, pushed: seq<byte>, c: seq<byte>, maxBytes: nat)
    requires HoldsTail(held, pushed, maxBytes)
    ensures
      var longer := held + c;
      HoldsTail(if |longer| > maxBytes * 2 then SliceFromEnd(longer, maxBytes) else longer, pushed + c, maxBytes)
  {
    assert held + c == (pushed + c)[|pushed + c| - |held + c|..];
  }

  /** `makeTailSink`.  `pushed` is everything ever pushed. */
  class TailSink {
    const maxBytes: nat
    var chunks: seq<seq<byte>>
    var total: nat
    ghost var pushed: seq<byte>

    /** Between pushes the sink holds a suffix of what was pushed: at least the last `maxBytes`,
        at most twice that. */
    ghost predicate Valid()
      reads this
    {
      total == |Flatten(chunks)| && HoldsTail(Flatten(chunks), pushed, maxBytes)
    }

    constructor (maxBytes: nat)
      ensures Valid() && pushed == [] && this.maxBytes == maxBytes
    {
      this.maxBytes := maxBytes;
      chunks, total, pushed := [], 0, [];
    }

    method Push(c: seq<byte>)
      requires Valid()
      modifies this
      ensures Valid() && pushed == old(pushed) + c
    {
      FlattenSnoc(chunks, c);
      AppendHoldsTail(Flatten(chunks), pushed, c, maxBytes);
      chunks := chunks + [c];
      total := total + |c|;
      pushed := pushed + c;
      if total > maxBytes * 2 {
        var merged := SliceFromEnd(Flatten(chunks), maxBytes);
        FlattenSnoc([], merged);
        assert [] + [merged] == [merged] && [] + merged == merged;
        chunks := [merged];
        total := |merged|;
      }
    }

    /** The text is the last `maxBytes` bytes ever pushed; only a budget of zero, which JavaScript
        slicing reads as "everything", breaks that. */
    method Text() returns (text: seq<byte>)
      requires Valid()
      ensures text == SliceFromEnd(pushed, maxBytes)
      ensures text == TakeLast(pushed, maxBytes) <==> maxBytes > 0 || pushed == []
      ensures maxBytes > 0 ==> total <= 2 * maxBytes
    {
      text := SliceFromEnd(Flatten(chunks), maxBytes);
    }
  }

  // ----- Session-id scanner -----

  /** Index of the first newline, or the length. */
  function NewlineAt(s: string): (i: nat)
    ensures i <= |s|
    ensures i < |s| ==> s[i] == '\n'
    ensures forall j :: 0 <= j < i ==> s[j] != '\n'
  {
    if s == "" || s[0] == '\n' then 0 else 1 + NewlineAt(s[1..])
  }

  predicate HasNewline(s: string) {
    NewlineAt(s) < |s|
  }

  /** What a line yields: blank lines are skipped, and an empty id counts as none. */
  function LineId(line: string, extract: string -> Option<string>): Option<string> {
    var trimmed := Trim(line);
    if trimmed == "" then None
    else if extract(trimmed) == Some("") then None
    else extract(trimmed)
  }

  /** A line yields an id exactly when its trimmed text is not empty and extracts to a non-empty one. */
  lemma LineIdIff(line: string, extract: string -> Option<string>, id: string)
    ensures LineId(line, extract) == Some(id) <==> Trim(line) != "" && extract(Trim(line)) == Some(id) && id != ""
  {
  }

  /** The id on the first complete line that has one. */
  function FirstId(text: string, extract: string -> Option<string>): Option<string>
    decreases |text|
  {
    if !HasNewline(text) then None
    else
      var id := LineId(text[..NewlineAt(text)], extract);
      if id.Some? then id else FirstId(text[NewlineAt(text) + 1..], extract)
  }

  /** The text after the last newline. */
  function Unfinished(text: string): string
    decreases |text|
  {
    if !HasNewline(text) then text else Unfinished(text[NewlineAt(text) + 1..])
  }

  lemma NewlineConcat(a: string, b: string)
    ensures HasNewline(a) ==> NewlineAt(a + b) == NewlineAt(a)
    ensures HasNewline(a) ==> (a + b)[NewlineAt(a) + 1..] == a[NewlineAt(a) + 1..] + b
    ensures HasNewline(a) ==> (a + b)[..NewlineAt(a)] == a[..NewlineAt(a)]
  {
    if HasNewline(a) {
      var i, j := NewlineAt(a), NewlineAt(a + b);
      assert (a + b)[i] == '\n';
      assert forall k :: 0 <= k < |a| ==> (a + b)[k] == a[k];
    }
  }

  /** Scanning a longer text: what is found in the first part is final, otherwise the search goes
      on from its unfinished line. */
  lemma {:induction false} ScanSplits(a: string, b: string, extract: string -> Option<string>)
    ensures FirstId(a + b, extract) ==
              if FirstId(a, extract).Some? then FirstId(a, extract) else FirstId(Unfinished(a) + b, extract)
    ensures Unfinished(a + b) == Unfinished(Unfinished(a) + b)
    decreases |a|
  {
    NewlineConcat(a, b);
    if HasNewline(a) {
      ScanSplits(a[NewlineAt(a) + 1..], b, extract);
    }
  }

  /** No line, finished or not, outgrows the cap. */
  predicate LinesFit(text: string, cap: nat)
    decreases |text|
  {
    if !HasNewline(text) then |text| <= cap
    else NewlineAt(text) <= cap && LinesFit(text[NewlineAt(text) + 1..], cap)
  }

  lemma {:induction false} PrefixFits(a: string, b: string, cap: nat)
    requires LinesFit(a + b, cap)
    ensures LinesFit(a, cap) && |Unfinished(a)| <= cap && LinesFit(Unfinished(a) + b, cap)
    decreases |a|
  {
    NewlineConcat(a, b);
    if HasNewline(a) {
      PrefixFits(a[NewlineAt(a) + 1..], b, cap);
    } else {
      assert forall j :: 0 <= j < |a| ==> (a + b)[j] == a[j];
    }
  }

  /** `makeSessionIdScanner`.  `found` is what the `onFound` callback stored; `fed` is all text
      pushed and `reports` every id passed to the callback. */
  class SessionIdScanner {
    const extract: string -> Option<string>
    const cap: nat
    var buf: string
    var done: bool
    var found: Option<string>
    ghost var fed: string
    ghost var reports: seq<string>

    /** As long as no line outgrew the cap, the buffer is the unfinished line, and exactly the
        first id of the text has been reported. */
    ghost predicate Valid()
      reads this
    {
      && (done <==> found.Some?)
      && reports == (if found.Some? then [found.value] else [])
      && (!done ==> !HasNewline(buf))
      && (LinesFit(fed, cap) ==> found == FirstId(fed, extract) && (!done ==> buf == Unfinished(fed)))
    }

    constructor (extract: string -> Option<string>, cap: nat)
      ensures Valid() && fed == "" && found == None && this.extract == extract && this.cap == cap
    {
      this.extract, this.cap := extract, cap;
      buf, done, found, fed, reports := "", false, None, "", [];
    }

    /** Reports at most once ever, and never again after that. */
    method Push(c: string)
      requires Valid()
      modifies this
      ensures Valid() && fed == old(fed) + c && old(reports) <= reports
      ensures |reports| <= 1
    {
      ghost var before := fed;
      fed := fed + c;
      ChunkScan(before, c, extract, cap);
      if done {
        return;
      }
      buf := buf + c;
      ghost var whole := buf;
      while HasNewline(buf)
        invariant fed == before + c && reports == [] && !done && found == None
        invariant FirstId(buf, extract) == FirstId(whole, extract) && Unfinished(buf) == Unfinished(whole)
        decreases |buf|
      {
        var nl := NewlineAt(buf);
        var line := Trim(buf[..nl]);
        assert LineId(buf[..nl], extract).Some? ==> FirstId(buf, extract) == LineId(buf[..nl], extract);
        buf := buf[nl + 1..];
        if line != "" {
          var id := extract(line);
          if id.Some? && id.value != "" {
            done := true;
            found := id;
            reports := reports + [id.value];
            return;
          }
        }
      }
      if |buf| > cap {
        buf := "";
      }
    }
  }

  /** What one more chunk adds, in terms of the unfinished line. */
  lemma ChunkScan(before: string, c: string, extract: string -> Option<string>, cap: nat)
    ensures LinesFit(before + c, cap) ==>
              && LinesFit(before, cap)
              && |Unfinished(before + c)| <= cap
              && Unfinished(before + c) == Unfinished(Unfinished(before) + c)
              && FirstId(before + c, extract) ==
                   if FirstId(before, extract).Some? then FirstId(before, extract)
                   else FirstId(Unfinished(before) + c, extract)
  {
    if LinesFit(before + c, cap) {
      PrefixFits(before, c, cap);
      ScanSplits(before, c, extract);
      assert before + c + "" == before + c;
      PrefixFits(before + c, "", cap);
    }
  }

  /** Whatever the chunk borders, the id found is the one on the first complete line of the whole
      output that has one. */
  method ScanOutput(extract: string -> Option<string>, chunks: seq<string>) returns (found: Option<string>)
    ensures LinesFit(Flatten(chunks), 262_144) ==> found == FirstId(Flatten(chunks), extract)
  {
    var scanner := new SessionIdScanner(extract, SCAN_LINE_MAX);
    for i := 0 to |chunks|
      invariant scanner.Valid() && scanner.extract == extract && scanner.cap == SCAN_LINE_MAX
      invariant scanner.fed == Flatten(chunks[..i])
    {
      FlattenSnoc(chunks[..i], chunks[i]);
      assert chunks[..i + 1] == chunks[..i] + [chunks[i]];
      scanner.Push(chunks[i]);
    }
    assert chunks[..|chunks|] == chunks;
    found := scanner.found;
  }
}
