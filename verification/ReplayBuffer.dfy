/** The bounded ring of PTY output (src/workspaces/replay-buffer.ts).  The ring
    stores chunks; its specification is the whole output history. */
module ReplayBuffers {
  import opened Prelude

  datatype ReplaySlice = ReplaySlice(bytes: seq<byte>, effectiveSeq: int, tailSeq: nat)

  /** The oldest seq a ring of `maxBytes` still holds after `history`. */
  function HeadOf(history: seq<byte>, maxBytes: nat): nat {
    if |history| <= maxBytes then 0 else |history| - maxBytes
  }

  /** The slice of the full history that a request from `seq` is answered with. */
  function SliceSince(history: seq<byte>, maxBytes: nat, seq_: int): ReplaySlice {
    var eff := Max(seq_, HeadOf(history, maxBytes));
    ReplaySlice(if eff >= |history| then [] else history[eff..], eff, |history|)
  }

  class ReplayBuffer {
    const maxBytes: nat
    var chunks: seq<seq<byte>>
    var totalBytes: nat
    var head: nat
    /** Every byte ever appended. */
    ghost var history: seq<byte>

    /** The chunks hold exactly the newest `maxBytes` bytes of the history. */
    ghost predicate Valid()
      reads this
    {
      && maxBytes > 0
      && head == HeadOf(history, maxBytes)
      && Flatten(chunks) == history[head..]
      && totalBytes == |Flatten(chunks)|
    }

    constructor (max: nat)
      requires max > 0
      ensures Valid() && history == [] && maxBytes == max
    {
      maxBytes := max;
      chunks, totalBytes, head, history := [], 0, 0, [];
    }

    /** The source's constructor, with its RangeError as an empty result. */
    static method Create(max: int) returns (r: Option<ReplayBuffer>)
      ensures r.None? <==> max <= 0
      ensures r.Some? ==> fresh(r.value) && r.value.Valid() && r.value.history == [] && r.value.maxBytes == max
    {
      if max <= 0 {
        return None;
      }
      var b := new ReplayBuffer(max);
      return Some(b);
    }

    method HeadSeq() returns (r: nat)
      requires Valid()
      ensures r == HeadOf(history, maxBytes)
    {
      r := head;
    }

    method TailSeq() returns (r: nat)
      requires Valid()
      ensures r == |history|
    {
      r := head + totalBytes;
    }

    method Append(chunk: seq<byte>)
      requires Valid()
      modifies this
      ensures Valid() && history == old(history) + chunk
    {
      if |chunk| == 0 {
        assert history == history + chunk;
        return;
      }
      FlattenSnoc(chunks, chunk);
      chunks := chunks + [chunk];
      totalBytes := totalBytes + |chunk|;
      history := history + chunk;
      assert Flatten(chunks) == history[head..];
      Evict();
    }

    /** Drops whole chunks, then part of one, until the ring fits. */
    method Evict()
      requires maxBytes > 0 && head <= HeadOf(history, maxBytes)
      requires Flatten(chunks) == history[head..] && totalBytes == |Flatten(chunks)|
      modifies this`chunks, this`totalBytes, this`head
      ensures Valid()
    {
      while totalBytes > maxBytes
        invariant head <= HeadOf(history, maxBytes)
        invariant Flatten(chunks) == history[head..] && totalBytes == |Flatten(chunks)|
        decreases totalBytes, |chunks|
      {
        var oldest := chunks[0];
        var overshoot := totalBytes - maxBytes;
        assert Flatten(chunks) == oldest + Flatten(chunks[1..]);
        if overshoot >= |oldest| {
          assert history[head..][|oldest|..] == history[head + |oldest|..];
          chunks := chunks[1..];
          totalBytes := totalBytes - |oldest|;
          head := head + |oldest|;
        } else {
          var kept := chunks[0 := oldest[overshoot..]];
          assert kept[1..] == chunks[1..];
          assert Flatten(kept) == history[head..][overshoot..];
          chunks := kept;
          totalBytes := totalBytes - overshoot;
          head := head + overshoot;
        }
      }
    }

    method Since(seq_: int) returns (r: ReplaySlice)
      requires Valid()
      ensures r == SliceSince(history, maxBytes, seq_)
    {
      var effectiveSeq := Max(seq_, head);
      var tailSeq := head + totalBytes;
      if effectiveSeq >= tailSeq {
        return ReplaySlice([], effectiveSeq, tailSeq);
      }
      var skipBytes := effectiveSeq - head;
      var out: seq<seq<byte>> := [];
      var remainingSkip := skipBytes;
      ghost var seen: seq<byte> := [];
      for i := 0 to |chunks|
        invariant seen == Flatten(chunks[..i])
        invariant remainingSkip == if |seen| < skipBytes then skipBytes - |seen| else 0
        invariant Flatten(out) == if |seen| < skipBytes then [] else seen[skipBytes..]
      {
        var chunk := chunks[i];
        assert chunks[..i + 1] == chunks[..i] + [chunk];
        FlattenSnoc(chunks[..i], chunk);
        seen := seen + chunk;
        if remainingSkip >= |chunk| {
          remainingSkip := remainingSkip - |chunk|;
          continue;
        }
        if remainingSkip > 0 {
          FlattenSnoc(out, chunk[remainingSkip..]);
          out := out + [chunk[remainingSkip..]];
          remainingSkip := 0;
        } else {
          FlattenSnoc(out, chunk);
          out := out + [chunk];
        }
      }
      assert chunks[..|chunks|] == chunks;
      assert history[head..][skipBytes..] == history[effectiveSeq..];
      return ReplaySlice(Flatten(out), effectiveSeq, tailSeq);
    }
  }

  /** What a slice means: it is the whole missing suffix unless eviction passed the request. */
  lemma SliceCompletesPrefix(history: seq<byte>, maxBytes: nat, k: nat)
    requires maxBytes > 0 && k <= |history|
    ensures var r := SliceSince(history, maxBytes, k);
      && (r.effectiveSeq == k <==> history[..k] + r.bytes == history)
      && (r.effectiveSeq == k <==> |history| - k <= maxBytes)
      && |r.bytes| == Min(|history| - k, maxBytes)
  {
    var r := SliceSince(history, maxBytes, k);
    if r.effectiveSeq == k {
      assert history[..k] + r.bytes == history;
    }
  }
}
