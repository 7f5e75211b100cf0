/**
  The rotating diagnostic log: a current file and two older generations, bounded in size
  (scripts/run_with_bounded_log.py).
 */
module BoundedLog {
  import opened Wrappers

  type Bytes = seq<bv8>

  datatype Files = Files(current: Bytes, one: Option<Bytes>, two: Option<Bytes>)

  function Content(file: Option<Bytes>): Bytes {
    if file.Some? then file.value else []
  }

  predicate Rotates(f: Files, chunk: Bytes, limit: int) {
    |f.current| + |chunk| > limit
  }

  function WriteChunk(f: Files, chunk: Bytes, limit: int): Files {
    if Rotates(f, chunk, limit) then Files(chunk, Some(f.current), if f.one.Some? then f.one else f.two)
    else f.(current := f.current + chunk)
  }

  function WriteAll(f: Files, chunks: seq<Bytes>, limit: int): Files
    decreases |chunks|
  {
    if chunks == [] then f else WriteAll(WriteChunk(f, chunks[0], limit), chunks[1..], limit)
  }

  // ---------- the program ----------

  class RotatingLog {
    var current: Bytes
    var one: Option<Bytes>
    var two: Option<Bytes>
    var size: int
    const limit: int

    ghost function View(): Files
      reads this
    {
      Files(current, one, two)
    }

    /** The recorded size is the length of the current file. */
    ghost predicate Valid()
      reads this
    {
      size == |current|
    }

    constructor (files: Files, limit: int)
      ensures View() == files && Valid() && this.limit == limit
    {
      current, one, two, size := files.current, files.one, files.two, |files.current|;
      this.limit := limit;
    }

    method Write(chunk: Bytes)
      requires Valid()
      modifies this
      ensures Valid() && View() == WriteChunk(old(View()), chunk, limit)
    {
      if size + |chunk| > limit {
        if one.Some? {
          two := one;
        }
        one := Some(current);
        current := [];
        size := 0;
      }
      current := current + chunk;
      size := size + |chunk|;
    }

    /** Copies the child's output until it ends. */
    method Copy(chunks: seq<Bytes>)
      requires Valid()
      modifies this
      ensures Valid() && View() == WriteAll(old(View()), chunks, limit)
    {
      var k := 0;
      while k < |chunks|
        invariant 0 <= k <= |chunks| && Valid()
        invariant WriteAll(View(), chunks[k..], limit) == WriteAll(old(View()), chunks, limit)
      {
        assert chunks[k..][1..] == chunks[k + 1..];
        Write(chunks[k]);
        k := k + 1;
      }
    }
  }

  // ---------- what is kept ----------

  function Flatten(chunks: seq<Bytes>): Bytes {
    if chunks == [] then [] else chunks[0] + Flatten(chunks[1..])
  }

  /** The log from its oldest to its newest byte. */
  function Kept(f: Files): Bytes {
    Content(f.two) + Content(f.one) + f.current
  }

  ghost predicate IsSuffix(s: Bytes, t: Bytes) {
    exists dropped :: t == dropped + s
  }

  /** The part that one write drops: the oldest generation, when both older ones exist. */
  function Dropped(f: Files, chunk: Bytes, limit: int): Bytes {
    if Rotates(f, chunk, limit) && f.one.Some? then Content(f.two) else []
  }

  lemma WriteDropsOldest(f: Files, chunk: Bytes, limit: int)
    ensures Kept(f) + chunk == Dropped(f, chunk, limit) + Kept(WriteChunk(f, chunk, limit))
  {
  }

  lemma Regroup(kept: Bytes, chunk: Bytes, rest: Bytes, first: Bytes, next: Bytes, dropped: Bytes, last: Bytes)
    requires kept + chunk == first + next && next + rest == dropped + last
    ensures kept + (chunk + rest) == (first + dropped) + last
  {
    calc {
      kept + (chunk + rest);
      (kept + chunk) + rest;
      (first + next) + rest;
      first + (next + rest);
      first + (dropped + last);
      (first + dropped) + last;
    }
  }

  /** Whatever is rotated away, what remains is the end of everything ever written, in order and without a hole. */
  lemma {:induction false} KeptIsSuffix(f: Files, chunks: seq<Bytes>, limit: int)
    ensures IsSuffix(Kept(WriteAll(f, chunks, limit)), Kept(f) + Flatten(chunks))
    decreases |chunks|, 0
  {
    if chunks == [] {
      assert Kept(f) + Flatten(chunks) == [] + Kept(f);
    } else {
      SuffixStep(f, chunks[0], chunks[1..], limit, WriteChunk(f, chunks[0], limit));
    }
  }

  lemma {:induction false} SuffixStep(f: Files, chunk: Bytes, rest: seq<Bytes>, limit: int, next: Files)
    requires next == WriteChunk(f, chunk, limit)
    ensures IsSuffix(Kept(WriteAll(next, rest, limit)), Kept(f) + (chunk + Flatten(rest)))
    decreases |rest|, 1
  {
    KeptIsSuffix(next, rest, limit);
    var last := Kept(WriteAll(next, rest, limit));
    var dropped :| Kept(next) + Flatten(rest) == dropped + last;
    WriteDropsOldest(f, chunk, limit);
    Regroup(Kept(f), chunk, Flatten(rest), Dropped(f, chunk, limit), Kept(next), dropped, last);
  }

  ghost predicate WithinLimit(f: Files, limit: int) {
    |f.current| <= limit && |Content(f.one)| <= limit && |Content(f.two)| <= limit
  }

  /** Files that start within the limit stay within it, when no read is longer than the limit. */
  lemma {:induction false} StaysWithinLimit(f: Files, chunks: seq<Bytes>, limit: int)
    requires WithinLimit(f, limit) && forall c :: c in chunks ==> |c| <= limit
    ensures WithinLimit(WriteAll(f, chunks, limit), limit)
    decreases |chunks|
  {
    if chunks != [] {
      assert chunks[0] in chunks;
      StaysWithinLimit(WriteChunk(f, chunks[0], limit), chunks[1..], limit);
    }
  }

  /** The newest two generations hold more than one full budget. */
  ghost predicate FullBudget(f: Files, limit: int) {
    f.one.Some? && |f.one.value| + |f.current| > limit
  }

  ghost predicate RotatedOnce(f: Files, chunks: seq<Bytes>, limit: int)
    decreases |chunks|
  {
    chunks != [] && (Rotates(f, chunks[0], limit) || RotatedOnce(WriteChunk(f, chunks[0], limit), chunks[1..], limit))
  }

  lemma {:induction false} FullBudgetStays(f: Files, chunks: seq<Bytes>, limit: int)
    requires FullBudget(f, limit)
    ensures FullBudget(WriteAll(f, chunks, limit), limit)
    decreases |chunks|
  {
    if chunks != [] { FullBudgetStays(WriteChunk(f, chunks[0], limit), chunks[1..], limit); }
  }

  /** From the first rotation of a run on, rotation never leaves less than a full budget. */
  lemma {:induction false} RotationKeepsBudget(f: Files, chunks: seq<Bytes>, limit: int)
    ensures RotatedOnce(f, chunks, limit) ==> FullBudget(WriteAll(f, chunks, limit), limit)
    ensures !RotatedOnce(f, chunks, limit) ==> WriteAll(f, chunks, limit) == f.(current := f.current + Flatten(chunks))
    decreases |chunks|
  {
    if chunks != [] {
      var next := WriteChunk(f, chunks[0], limit);
      if Rotates(f, chunks[0], limit) {
        FullBudgetStays(next, chunks[1..], limit);
      } else {
        RotationKeepsBudget(next, chunks[1..], limit);
        assert f.current + (chunks[0] + Flatten(chunks[1..])) == (f.current + chunks[0]) + Flatten(chunks[1..]);
      }
    } else {
      assert f.current + [] == f.current;
    }
  }

  /** In a run, either everything is still there or more than one full budget is. */
  lemma LosesOnlyBeyondBudget(f: Files, chunks: seq<Bytes>, limit: int)
    ensures Kept(WriteAll(f, chunks, limit)) == Kept(f) + Flatten(chunks) || |Kept(WriteAll(f, chunks, limit))| > limit
  {
    RotationKeepsBudget(f, chunks, limit);
    if !RotatedOnce(f, chunks, limit) {
      assert Kept(f) + Flatten(chunks) == Content(f.two) + Content(f.one) + (f.current + Flatten(chunks));
    }
  }
}
