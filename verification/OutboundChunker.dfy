/** Splitting outbound Matrix text at spaces and newlines (extensions/matrix/runtime-api.ts). */
module OutboundChunker {
  import opened JsText

  predicate IsSpace(c: CodeUnit) { IsSpaceCode(c) }

  ghost predicate Blank(s: Text) { forall i :: 0 <= i < |s| ==> IsSpace(s[i]) }

  function TrimStart(s: Text): Text { s[FirstInk(s, 0, IsSpace)..] }

  function TrimEnd(s: Text): Text { s[..InkEnd(s, |s|, IsSpace)] }

  predicate IsBreak(c: CodeUnit) { c == 10 || c == 32 }

  function SliceTo(s: Text, n: int): Text { s[..ClampIndex(n, |s|)] }

  function SliceFrom(s: Text, n: int): Text { s[ClampIndex(n, |s|)..] }

  function LastIndexOf(s: Text, c: CodeUnit): (r: int)
    ensures -1 <= r < |s| && (r >= 0 ==> s[r] == c)
    ensures forall i :: r < i < |s| ==> s[i] != c
  {
    if s == [] then -1
    else if s[|s| - 1] == c then |s| - 1
    else LastIndexOf(s[..|s| - 1], c)
  }

  /** The last newline or space. */
  function SplitAt(window: Text): (r: int)
    ensures -1 <= r < |window| && (r >= 0 ==> IsBreak(window[r]))
    ensures forall i :: r < i < |window| ==> !IsBreak(window[i])
  {
    Max(LastIndexOf(window, 10), LastIndexOf(window, 32))
  }

  /** Where one turn of the loop cuts. */
  function BreakAt(remaining: Text, limit: int): int {
    var splitAt := SplitAt(SliceTo(remaining, limit));
    if splitAt > 0 then splitAt else limit
  }

  function TurnChunk(remaining: Text, limit: int): Text {
    TrimEnd(SliceTo(remaining, BreakAt(remaining, limit)))
  }

  function TurnRest(remaining: Text, limit: int): Text {
    TrimStart(SliceFrom(remaining, BreakAt(remaining, limit)))
  }

  /** The inputs on which the loop ends (see LoopEndsExactlyWhen). */
  ghost predicate Ends(text: Text, limit: int) {
    limit >= 1 || (limit == 0 && Blank(text))
  }

  /** One turn cuts at the last break of a full window, or at its end. */
  lemma CutPoint(remaining: Text, limit: int)
    requires limit >= 1 && |remaining| > limit
    ensures 1 <= BreakAt(remaining, limit) <= limit
    ensures BreakAt(remaining, limit) < limit ==> remaining[BreakAt(remaining, limit)] in {10, 32}
    ensures forall i :: 0 < i < limit && (i > BreakAt(remaining, limit) || BreakAt(remaining, limit) == limit)
                        ==> remaining[i] != 10 && remaining[i] != 32
  {}

  lemma TurnShrinks(remaining: Text, limit: int)
    requires Ends(remaining, limit) && |remaining| > limit
    ensures |TurnRest(remaining, limit)| < |remaining| && Ends(TurnRest(remaining, limit), limit)
  {
    hide LastIndexOf, FirstInk, SplitAt;
    if limit == 0 {
      assert SliceFrom(remaining, BreakAt(remaining, 0)) == remaining;
    } else {
      CutPoint(remaining, limit);
    }
  }

  /** The chunks the loop still produces from what remains. */
  ghost function Chunks(remaining: Text, limit: int): seq<Text>
    requires Ends(remaining, limit)
    decreases |remaining|
  {
    if |remaining| > limit then
      TurnShrinks(remaining, limit);
      [TurnChunk(remaining, limit)] + Chunks(TurnRest(remaining, limit), limit)
    else if remaining == [] then [] else [remaining]
  }

  method ChunkTextForOutbound(text: Text, limit: int) returns (chunks: seq<Text>)
    requires Ends(text, limit)
    ensures chunks == if text == [] then [[]] else Chunks(text, limit)
  {
    hide SplitAt, FirstInk, InkEnd, Blank;
    chunks := [];
    var remaining := text;
    while |remaining| > limit
      invariant Ends(remaining, limit) && chunks + Chunks(remaining, limit) == Chunks(text, limit)
      invariant text == [] ==> remaining == [] && chunks == []
      decreases |remaining|
    {
      TurnShrinks(remaining, limit);
      ghost var before := remaining;
      var window := SliceTo(remaining, limit);
      var splitAt := SplitAt(window);
      var breakAt := if splitAt > 0 then splitAt else limit;
      var chunk := TrimEnd(SliceTo(remaining, breakAt));
      remaining := TrimStart(SliceFrom(remaining, breakAt));
      assert chunk == TurnChunk(before, limit) && remaining == TurnRest(before, limit);
      assert chunks + Chunks(before, limit) == (chunks + [chunk]) + Chunks(remaining, limit);
      chunks := chunks + [chunk];
    }
    if |remaining| > 0 || |text| == 0 {
      chunks := chunks + [remaining];
    }
  }

  // ---------- termination ----------

  ghost function Turn(t: Text, limit: int): Text {
    if |t| > limit then TurnRest(t, limit) else t
  }

  /** What remains after n turns of the loop. */
  ghost function After(text: Text, limit: int, n: nat): Text {
    if n == 0 then text else Turn(After(text, limit, n - 1), limit)
  }

  lemma TurnProgresses(t: Text, limit: int)
    requires Ends(t, limit)
    ensures Ends(Turn(t, limit), limit)
    ensures |t| <= limit ==> Turn(t, limit) == t
    ensures |t| > limit ==> |Turn(t, limit)| < |t|
  {}

  lemma {:induction false} EndsWithin(text: Text, limit: int, n: nat)
    requires Ends(text, limit)
    ensures Ends(After(text, limit, n), limit)
    ensures |After(text, limit, n)| <= limit || |After(text, limit, n)| + n <= |text|
  {
    hide Turn;
    if n > 0 {
      EndsWithin(text, limit, n - 1);
      TurnProgresses(After(text, limit, n - 1), limit);
    }
  }

  lemma {:induction false} ZeroLimitKeepsInk(text: Text, n: nat)
    requires !Blank(text)
    ensures !Blank(After(text, 0, n))
  {
    hide LastIndexOf, FirstInk;
    if n > 0 {
      ZeroLimitKeepsInk(text, n - 1);
      var t := After(text, 0, n - 1);
      var i :| 0 <= i < |t| && !IsSpace(t[i]);
      assert SliceFrom(t, BreakAt(t, 0)) == t;
      assert TrimStart(t)[i - FirstInk(t, 0, IsSpace)] == t[i];
    }
  }

  /** The loop guard fails after some number of turns exactly for a positive limit, or a
      zero limit and blank text. */
  lemma LoopEndsExactlyWhen(text: Text, limit: int)
    ensures (exists n: nat :: |After(text, limit, n)| <= limit) <==> Ends(text, limit)
  {
    if Ends(text, limit) {
      EndsWithin(text, limit, |text|);
    } else if limit == 0 {
      forall n: nat ensures After(text, 0, n) != [] {
        ZeroLimitKeepsInk(text, n);
      }
    }
  }

  // ---------- what the chunks are ----------

  /** Chunks and gaps in turn. */
  ghost function Weave(chunks: seq<Text>, gaps: seq<Text>): Text
    requires |chunks| == |gaps|
  {
    if chunks == [] then [] else chunks[0] + gaps[0] + Weave(chunks[1..], gaps[1..])
  }

  /** A chunk met the next one without a gap: it is full and holds no place to break at. */
  ghost predicate HardCut(chunk: Text, limit: int) {
    |chunk| == limit && forall i :: 0 < i < |chunk| ==> chunk[i] != 10 && chunk[i] != 32
  }

  ghost predicate StartsWithInk(chunk: Text) { chunk != [] && !IsSpace(chunk[0]) }

  /** What one turn keeps and drops, as places in what remained. */
  lemma TurnPlaces(remaining: Text, limit: int) returns (c: nat, b: nat, o: nat)
    requires limit >= 1 && |remaining| > limit
    ensures c <= b <= o <= |remaining| && b == BreakAt(remaining, limit) && 1 <= b <= limit
    ensures TurnChunk(remaining, limit) == remaining[..c] && TurnRest(remaining, limit) == remaining[o..]
    ensures Blank(remaining[c..o])
    ensures c > 0 ==> !IsSpace(remaining[c - 1])
    ensures o < |remaining| ==> !IsSpace(remaining[o])
  {
    hide LastIndexOf, FirstInk, InkEnd, SplitAt;
    CutPoint(remaining, limit);
    b := BreakAt(remaining, limit);
    var left, right := remaining[..b], remaining[b..];
    c := InkEnd(left, b, IsSpace);
    o := b + FirstInk(right, 0, IsSpace);
    assert right[o - b..] == remaining[o..];
    forall i | c <= i < o ensures IsSpace(remaining[i]) {
      assert if i < b then left[i] == remaining[i] else right[i - b] == remaining[i];
    }
  }

  /** One turn: the chunk, a blank gap, and the rest are what remained. */
  lemma TurnSplits(remaining: Text, limit: int) returns (gap: Text)
    requires limit >= 1 && |remaining| > limit
    ensures remaining == TurnChunk(remaining, limit) + gap + TurnRest(remaining, limit)
    ensures Blank(gap)
    ensures |TurnChunk(remaining, limit)| <= limit
    ensures gap == [] ==> HardCut(TurnChunk(remaining, limit), limit)
    ensures StartsWithInk(remaining) ==> StartsWithInk(TurnChunk(remaining, limit))
    ensures TurnRest(remaining, limit) == [] || StartsWithInk(TurnRest(remaining, limit))
  {
    hide BreakAt, TurnChunk, TurnRest;
    var c, b, o := TurnPlaces(remaining, limit);
    gap := remaining[c..o];
    assert remaining == remaining[..c] + gap + remaining[o..];
    CutPoint(remaining, limit);
    assert c == 0 ==> gap != [] && gap[0] == remaining[0];
  }

  /** The text is its chunks separated by blank gaps: nothing else is lost, added or moved.
      No chunk is over the limit, none but the first can be empty or start with a blank,
      and a word is cut only where a full window offers no break. */
  lemma {:induction false} TextIsChunksAndBlanks(text: Text, limit: int) returns (gaps: seq<Text>)
    requires limit >= 1
    ensures |gaps| == |Chunks(text, limit)| && Weave(Chunks(text, limit), gaps) == text
    ensures forall g :: g in gaps ==> Blank(g)
    ensures forall c :: c in Chunks(text, limit) ==> |c| <= limit
    ensures forall i :: 0 < i < |gaps| ==> StartsWithInk(Chunks(text, limit)[i])
    ensures forall i :: 0 <= i < |gaps| - 1 && gaps[i] == [] ==> HardCut(Chunks(text, limit)[i], limit)
    ensures StartsWithInk(text) ==> gaps != [] && StartsWithInk(Chunks(text, limit)[0])
    decreases |text|
  {
    hide TurnChunk, TurnRest, HardCut;
    if |text| <= limit {
      return if text == [] then [] else [[]];
    }
    var gap := TurnSplits(text, limit);
    TurnShrinks(text, limit);
    var chunk, rest := TurnChunk(text, limit), TurnRest(text, limit);
    var tail := TextIsChunksAndBlanks(rest, limit);
    gaps := [gap] + tail;
    assert Chunks(text, limit)[1..] == Chunks(rest, limit);
  }

  // ---------- how many ----------

  /** Any two consecutive turns consume at least `limit` units. */
  lemma TwoTurnsConsumeALimit(remaining: Text, limit: int)
    requires limit >= 1 && |remaining| > limit && |TurnRest(remaining, limit)| > limit
    ensures |TurnRest(TurnRest(remaining, limit), limit)| <= |remaining| - limit
  {
    hide BreakAt, TurnRest;
    var r1 := TurnRest(remaining, limit);
    var _, b, o := TurnPlaces(remaining, limit);
    var _, b2, o2 := TurnPlaces(r1, limit);
    CutPoint(remaining, limit);
    CutPoint(r1, limit);
    assert b2 < limit ==> r1[b2] == remaining[o + b2];
    assert o + o2 >= limit;
  }

  lemma OneLess(q: nat, limit: int)
    ensures (q - 1) * limit == q * limit - limit
  {}

  /** Two turns for every `limit` units, and one chunk for what is left. */
  lemma {:induction false} ChunkCountBound(text: Text, limit: int, q: nat)
    requires limit >= 1 && q >= 1 && |text| <= q * limit
    ensures |Chunks(text, limit)| <= 2 * q - 1
    decreases |text|
  {
    hide TurnChunk, TurnRest;
    if |text| > limit {
      TurnShrinks(text, limit);
      var r1 := TurnRest(text, limit);
      assert q >= 2;
      if |r1| > limit {
        TurnShrinks(r1, limit);
        TwoTurnsConsumeALimit(text, limit);
        var r2 := TurnRest(r1, limit);
        OneLess(q, limit);
        ChunkCountBound(r2, limit, q - 1);
        assert |Chunks(r1, limit)| == 1 + |Chunks(r2, limit)|;
      }
      assert |Chunks(text, limit)| == 1 + |Chunks(r1, limit)|;
    }
  }

  /** A text of n units yields at most 2 * floor(n / limit) + 1 chunks. */
  lemma ChunkCount(text: Text, limit: int)
    requires limit >= 1
    ensures |Chunks(text, limit)| <= 2 * (|text| / limit) + 1
  {
    var q := |text| / limit;
    assert |text| == q * limit + |text| % limit;
    assert (q + 1) * limit == q * limit + limit;
    ChunkCountBound(text, limit, q + 1);
  }
}
