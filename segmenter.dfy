/** The response segmenter of utils.go: `SplitMessage` cuts a byte string
    into chunks of at most `maxLen` bytes, preferring a cut just after a
    newline near the end of the window, then just after a space, and drops
    the blanks (spaces and newlines) that follow each cut. */
module Segmenter {
  import opened Base

  /** Limit used when the caller passes a non-positive `maxLen`. */
  const DefaultLimit := 4000
  /** How far back from the window end the newline search reaches. */
  const NewlineReach := 100
  /** How far back from the window end the space search reaches. */
  const SpaceReach := 50

  predicate IsBlank(b: byte) {
    b == Space || b == Newline
  }

  ghost predicate AllBlank(s: seq<byte>) {
    forall i :: 0 <= i < |s| ==> IsBlank(s[i])
  }

  /** The limit the loop actually uses. */
  function EffectiveLimit(maxLen: int): (m: int)
    ensures m > 0
    ensures maxLen > 0 ==> m == maxLen
  {
    if maxLen <= 0 then DefaultLimit else maxLen
  }

  /** The backward search `for i := hi; i > 0 && i > lo; i--`: the largest
      position `i` in (lo, hi] whose preceding byte `s[i-1]` is `b`. */
  function LastAfter(s: seq<byte>, b: byte, lo: int, hi: int): (r: Option<int>)
    requires hi <= |s|
    ensures r.Some? ==> 1 <= r.value <= hi && lo < r.value && s[r.value - 1] == b
    decreases hi
  {
    if hi <= 0 || hi <= lo then None
    else if s[hi - 1] == b then Some(hi)
    else LastAfter(s, b, lo, hi - 1)
  }

  /** The search finds the last occurrence in its range, and finds nothing
      only when there is no occurrence in its range. */
  lemma {:induction false} LastAfterIsLast(s: seq<byte>, b: byte, lo: int, hi: int)
    requires hi <= |s|
    ensures var r := LastAfter(s, b, lo, hi);
      && (r.Some? ==> forall k :: r.value <= k < hi ==> s[k] != b)
      && (r.None? ==> forall k :: 0 <= k < hi && lo <= k ==> s[k] != b)
    decreases hi
  {
    if hi > 0 && hi > lo && s[hi - 1] != b {
      LastAfterIsLast(s, b, lo, hi - 1);
    }
  }

  /** The inner search loop of the segmenter, which starts with the split
      position at `hi` and moves it to the first position found. */
  method ScanBack(s: seq<byte>, b: byte, lo: int, hi: int) returns (splitPos: int)
    requires 0 < hi <= |s|
    ensures 0 < splitPos <= hi
    ensures LastAfter(s, b, lo, hi).Some? ==> splitPos == LastAfter(s, b, lo, hi).value
    ensures LastAfter(s, b, lo, hi).None? ==> splitPos == hi
  {
    splitPos := hi;
    var i := hi;
    while i > 0 && i > lo
      invariant 0 <= i <= hi && splitPos == hi
      invariant LastAfter(s, b, lo, hi) == LastAfter(s, b, lo, i)
      decreases i
    {
      if s[i - 1] == b {
        splitPos := i;
        break;
      }
      i := i - 1;
    }
  }

  /** The loop that drops the spaces and newlines at the start of the
      remainder after a cut. */
  method SkipBlanks(rest: seq<byte>) returns (current: seq<byte>)
    ensures current == rest[LeadingBlanks(rest)..]
  {
    current := rest;
    ghost var skipped := 0;
    while |current| > 0 && (current[0] == Space || current[0] == Newline)
      invariant 0 <= skipped <= LeadingBlanks(rest)
      invariant current == rest[skipped..]
      decreases |current|
    {
      current := current[1..];
      skipped := skipped + 1;
    }
    assert skipped < LeadingBlanks(rest) ==> IsBlank(rest[..LeadingBlanks(rest)][skipped]);
  }

  /** Where the loop body cuts a remainder that is longer than `m`. A
      newline found at the very end of the window leaves the cut position
      equal to `m`, which the code reads as "not found". */
  function CutPoint(cur: seq<byte>, m: int): (p: int)
    requires 0 < m < |cur|
    ensures 1 <= p <= m
  {
    var newline := LastAfter(cur, Newline, m - NewlineReach, m);
    var space := LastAfter(cur, Space, m - SpaceReach, m);
    if newline.Some? && newline.value != m then newline.value
    else if space.Some? then space.value
    else m
  }

  /** How many blanks the skipping loop drops from the front of `s`. */
  function LeadingBlanks(s: seq<byte>): (k: int)
    ensures 0 <= k <= |s|
    ensures AllBlank(s[..k])
    ensures k < |s| ==> !IsBlank(s[k])
    decreases |s|
  {
    if |s| > 0 && IsBlank(s[0]) then 1 + LeadingBlanks(s[1..]) else 0
  }

  /** What one turn of the loop leaves in `current`: the bytes after the
      cut, without their leading blanks. */
  function Remainder(cur: seq<byte>, m: int): (r: seq<byte>)
    requires 0 < m < |cur|
    ensures |r| < |cur|
  {
    var rest := cur[CutPoint(cur, m)..];
    rest[LeadingBlanks(rest)..]
  }

  /** The chunks the `for len(current) > maxLen` loop and the final append
      produce from `cur` with the positive limit `m`. */
  function Chunks(cur: seq<byte>, m: int): (r: seq<seq<byte>>)
    requires m > 0
    ensures |r| <= |cur|
    ensures r == [] <==> cur == []
    decreases |cur|
  {
    if |cur| <= m then (if |cur| > 0 then [cur] else [])
    else
      [cur[..CutPoint(cur, m)]] + Chunks(Remainder(cur, m), m)
  }

  /** The result of `SplitMessage(text, maxLen)`; it is empty only for the
      empty text with a negative limit (Go's nil slice). */
  function Split(text: seq<byte>, maxLen: int): (r: seq<seq<byte>>)
    ensures r == [] <==> text == [] && maxLen < 0
    ensures |text| > maxLen ==> |r| <= |text|
  {
    if |text| <= maxLen then [text] else Chunks(text, EffectiveLimit(maxLen))
  }

  /** The blank runs the loop drops: the i-th run follows the i-th chunk. */
  ghost function DroppedRuns(cur: seq<byte>, m: int): seq<seq<byte>>
    requires m > 0
    decreases |cur|
  {
    if |cur| <= m then (if |cur| > 0 then [[]] else [])
    else
      var rest := cur[CutPoint(cur, m)..];
      [rest[..LeadingBlanks(rest)]] + DroppedRuns(Remainder(cur, m), m)
  }

  ghost function Gaps(text: seq<byte>, maxLen: int): seq<seq<byte>>
  {
    if |text| <= maxLen then [[]] else DroppedRuns(text, EffectiveLimit(maxLen))
  }

  /** chunk1 ++ gap1 ++ chunk2 ++ gap2 ++ ... */
  ghost function Rejoin(chunks: seq<seq<byte>>, gaps: seq<seq<byte>>): seq<byte>
    requires |chunks| == |gaps|
    decreases |chunks|
  {
    if chunks == [] then [] else chunks[0] + gaps[0] + Rejoin(chunks[1..], gaps[1..])
  }

  method SplitMessage(text: seq<byte>, maxLen: int) returns (parts: seq<seq<byte>>)
    ensures parts == Split(text, maxLen)
  {
    if |text| <= maxLen {
      return [text];
    }
    var limit := maxLen;
    if limit <= 0 {
      limit := DefaultLimit;
    }
    parts := [];
    var current := text;
    ghost var all := Chunks(text, limit);
    while |current| > limit
      invariant parts + Chunks(current, limit) == all
      decreases |current|
    {
      ghost var before, done := current, parts;
      var chunk;
      chunk, current := NextChunk(current, limit);
      parts := parts + [chunk];
      LoopStep(done, before, limit);
    }

    if |current| > 0 {
      parts := parts + [current];
    }
  }

  /** The body of the loop: cut the next chunk off `current` and drop the
      blanks after it. */
  method NextChunk(current: seq<byte>, limit: int) returns (chunk: seq<byte>, rest: seq<byte>)
    requires 0 < limit < |current|
    ensures chunk == current[..CutPoint(current, limit)] && rest == Remainder(current, limit)
  {
    // the newline search, then the space search if it found nothing
    var splitPos := ScanBack(current, Newline, limit - NewlineReach, limit);
    if splitPos == limit {
      splitPos := ScanBack(current, Space, limit - SpaceReach, limit);
    }

    // the hard cut: this branch assigns the value splitPos already has
    if splitPos == limit && |current| > limit {
      splitPos := limit;
    }
    assert splitPos == CutPoint(current, limit);

    chunk := current[..splitPos];
    rest := SkipBlanks(current[splitPos..]);
  }

  // ---------------------------------------------------------------------
  // Properties of Split

  /** One turn of the loop: the cut-off chunk, then the chunks of the rest. */
  lemma LoopStep(done: seq<seq<byte>>, cur: seq<byte>, m: int)
    requires 0 < m < |cur|
    ensures (done + [cur[..CutPoint(cur, m)]]) + Chunks(Remainder(cur, m), m) == done + Chunks(cur, m)
  {
  }

  /** A text that already fits comes back as the one chunk it is. */
  lemma FitsUnchanged(text: seq<byte>, maxLen: int)
    requires |text| <= maxLen
    ensures Split(text, maxLen) == [text]
  {
  }

  /** A non-positive limit is replaced by 4000, but only once the text does
      not fit; the empty text with a negative limit yields no chunk at all,
      while with the limit 0 it yields one empty chunk. */
  lemma NonPositiveLimit(text: seq<byte>, maxLen: int)
    requires maxLen <= 0
    ensures |text| > maxLen ==> Split(text, maxLen) == Chunks(text, DefaultLimit)
    ensures maxLen < 0 ==> Split([], maxLen) == []
    ensures Split([], 0) == [[]]
  {
  }

  /** The first chunk is a non-empty prefix of the remainder. */
  lemma FirstChunkIsPrefix(cur: seq<byte>, m: int)
    requires m > 0 && cur != []
    ensures Chunks(cur, m) != []
    ensures 0 < |Chunks(cur, m)[0]| <= |cur|
    ensures Chunks(cur, m)[0] == cur[..|Chunks(cur, m)[0]|]
  {
  }

  lemma {:induction false} ChunksBounded(cur: seq<byte>, m: int)
    requires m > 0
    ensures forall i :: 0 <= i < |Chunks(cur, m)| ==> 0 < |Chunks(cur, m)[i]| <= m
    decreases |cur|
  {
    if |cur| > m {
      ChunksBounded(Remainder(cur, m), m);
    }
  }

  /** Every chunk fits the effective limit, and when the text had to be
      split no chunk is empty. */
  lemma SplitBounded(text: seq<byte>, maxLen: int)
    ensures forall c :: c in Split(text, maxLen) ==> |c| <= EffectiveLimit(maxLen)
    ensures |text| > maxLen ==> forall c :: c in Split(text, maxLen) ==> |c| > 0
  {
    if |text| > maxLen {
      ChunksBounded(text, EffectiveLimit(maxLen));
    }
  }

  lemma {:induction false} ChunksStartNonBlank(cur: seq<byte>, m: int)
    requires m > 0
    ensures forall i :: 1 <= i < |Chunks(cur, m)| ==> |Chunks(cur, m)[i]| > 0 && !IsBlank(Chunks(cur, m)[i][0])
    decreases |cur|
  {
    if |cur| > m {
      var kept := Remainder(cur, m);
      ChunksStartNonBlank(kept, m);
      if kept != [] {
        FirstChunkIsPrefix(kept, m);
        ChunksBounded(kept, m);
      }
      assert Chunks(cur, m)[1..] == Chunks(kept, m);
    }
  }

  /** Every chunk after the first begins with a byte that is neither a
      space nor a newline. */
  lemma LaterChunksStartNonBlank(text: seq<byte>, maxLen: int)
    ensures forall i :: 1 <= i < |Split(text, maxLen)| ==> |Split(text, maxLen)[i]| > 0
    ensures forall i :: 1 <= i < |Split(text, maxLen)| ==> !IsBlank(Split(text, maxLen)[i][0])
  {
    if |text| > maxLen {
      ChunksBounded(text, EffectiveLimit(maxLen));
      ChunksStartNonBlank(text, EffectiveLimit(maxLen));
    }
  }

  lemma {:induction false} RunsMatchChunks(cur: seq<byte>, m: int)
    requires m > 0
    ensures |Chunks(cur, m)| == |DroppedRuns(cur, m)|
    ensures forall i :: 0 <= i < |DroppedRuns(cur, m)| ==> AllBlank(DroppedRuns(cur, m)[i])
    decreases |cur|
  {
    if |cur| > m {
      RunsMatchChunks(Remainder(cur, m), m);
    }
  }

  lemma {:induction false} ChunksRejoin(cur: seq<byte>, m: int)
    requires m > 0
    ensures |Chunks(cur, m)| == |DroppedRuns(cur, m)|
    ensures Rejoin(Chunks(cur, m), DroppedRuns(cur, m)) == cur
    decreases |cur|
  {
    RunsMatchChunks(cur, m);
    if |cur| <= m {
      if |cur| > 0 {
        assert Rejoin([cur], [[]]) == cur + [] + Rejoin([], []);
      }
    } else {
      var p := CutPoint(cur, m);
      var rest := cur[p..];
      var kept := Remainder(cur, m);
      var gap := rest[..LeadingBlanks(rest)];
      ChunksRejoin(kept, m);
      RejoinCons(cur[..p], gap, Chunks(kept, m), DroppedRuns(kept, m));
      CutDecomposes(cur, m);
    }
  }

  lemma RejoinCons(c: seq<byte>, g: seq<byte>, cs: seq<seq<byte>>, gs: seq<seq<byte>>)
    requires |cs| == |gs|
    ensures Rejoin([c] + cs, [g] + gs) == c + g + Rejoin(cs, gs)
  {
    assert ([c] + cs)[1..] == cs;
    assert ([g] + gs)[1..] == gs;
  }

  /** The chunk, the dropped run and the remainder make up the text. */
  lemma CutDecomposes(cur: seq<byte>, m: int)
    requires 0 < m < |cur|
    ensures var rest := cur[CutPoint(cur, m)..];
      cur == cur[..CutPoint(cur, m)] + rest[..LeadingBlanks(rest)] + Remainder(cur, m)
  {
    var p := CutPoint(cur, m);
    var rest := cur[p..];
    assert rest == rest[..LeadingBlanks(rest)] + rest[LeadingBlanks(rest)..];
    assert cur == cur[..p] + rest;
  }

  /** No byte other than dropped blanks is lost: the text is the chunks
      interleaved with the blank runs dropped after each of them (the last
      run is the trailing blanks at the end of the text). */
  lemma SplitReconstructs(text: seq<byte>, maxLen: int)
    ensures |Split(text, maxLen)| == |Gaps(text, maxLen)|
    ensures Rejoin(Split(text, maxLen), Gaps(text, maxLen)) == text
    ensures forall g :: g in Gaps(text, maxLen) ==> AllBlank(g)
  {
    if |text| <= maxLen {
      assert Rejoin([text], [[]]) == text + [] + Rejoin([], []);
    } else {
      ChunksRejoin(text, EffectiveLimit(maxLen));
      RunsMatchChunks(text, EffectiveLimit(maxLen));
    }
  }

  /** Where a cut falls. A newline cut or a space cut keeps the delimiter
      as the last byte of the chunk; the newline search looks at indices
      from m-100, the space search at indices from m-50; a delimiter at
      index m-1 stops its search with the cut at m; otherwise the chunk is
      exactly m bytes. */
  lemma CutPointShape(cur: seq<byte>, m: int)
    requires 0 < m < |cur|
    ensures var p := CutPoint(cur, m);
      // a newline in the window, and none in the last byte: cut after the last one
      && ((cur[m - 1] != Newline
           && exists j :: m - NewlineReach <= j < m - 1 && 0 <= j && cur[j] == Newline)
          ==> p < m && cur[p - 1] == Newline && m - NewlineReach <= p - 1
              && forall j :: p <= j < m ==> cur[j] != Newline)
      // otherwise a space in the window, and none in the last byte: cut after the last one
      && ((cur[m - 1] == Newline
           || forall j :: m - NewlineReach <= j < m && 0 <= j ==> cur[j] != Newline)
          && cur[m - 1] != Space
          && (exists j :: m - SpaceReach <= j < m - 1 && 0 <= j && cur[j] == Space)
          ==> p < m && cur[p - 1] == Space && m - SpaceReach <= p - 1
              && forall j :: p <= j < m ==> cur[j] != Space)
      // a cut before m follows a newline within reach or a space within reach
      && (p < m ==> (cur[p - 1] == Newline && m - NewlineReach <= p - 1)
                    || (cur[p - 1] == Space && m - SpaceReach <= p - 1))
      // no newline search hit before m and no space before m - 1: a cut at m
      && ((cur[m - 1] == Newline || forall j :: m - NewlineReach <= j < m - 1 && 0 <= j ==> cur[j] != Newline)
          && (cur[m - 1] == Space || forall j :: m - SpaceReach <= j < m - 1 && 0 <= j ==> cur[j] != Space)
          ==> p == m)
      // a hard cut happens only when neither search found a position before m
      && (p == m ==>
            (cur[m - 1] == Newline || forall j :: m - NewlineReach <= j < m - 1 && 0 <= j ==> cur[j] != Newline)
            && (cur[m - 1] == Space || forall j :: m - SpaceReach <= j < m - 1 && 0 <= j ==> cur[j] != Space))
  {
    var nl := LastAfter(cur, Newline, m - NewlineReach, m);
    var sp := LastAfter(cur, Space, m - SpaceReach, m);
    LastAfterIsLast(cur, Newline, m - NewlineReach, m);
    LastAfterIsLast(cur, Space, m - SpaceReach, m);
    if cur[m - 1] != Newline && exists j :: m - NewlineReach <= j < m - 1 && 0 <= j && cur[j] == Newline {
      var j :| m - NewlineReach <= j < m - 1 && 0 <= j && cur[j] == Newline;
      assert (j + 1) - 1 == j;
      assert nl.Some?;
    }
    if cur[m - 1] != Space && exists j :: m - SpaceReach <= j < m - 1 && 0 <= j && cur[j] == Space {
      var j :| m - SpaceReach <= j < m - 1 && 0 <= j && cur[j] == Space;
      assert (j + 1) - 1 == j;
      assert sp.Some?;
    }
  }

  /** 4500 non-blank bytes with the limit 4000 make a chunk of 4000 bytes
      and one of 500. */
  lemma HardCutExample(text: seq<byte>)
    requires |text| == 4500
    requires forall i :: 0 <= i < |text| ==> !IsBlank(text[i])
    ensures Split(text, 4000) == [text[..4000], text[4000..]]
  {
    var nl := LastAfter(text, Newline, 4000 - NewlineReach, 4000);
    var sp := LastAfter(text, Space, 4000 - SpaceReach, 4000);
    assert nl.None?;
    assert sp.None?;
    assert CutPoint(text, 4000) == 4000;
    var rest := text[4000..];
    assert !IsBlank(rest[0]);
    assert LeadingBlanks(rest) == 0;
    assert Remainder(text, 4000) == rest;
    assert Chunks(rest, 4000) == [rest];
    LoopStep([], text, 4000);
  }
}
