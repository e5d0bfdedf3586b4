/** The bounded capture of `az login` output (extensions/microsoft-foundry/cli.ts). */
module LoginTail {
  import opened JsText

  const MAX_CAPTURED_LOGIN_OUTPUT_CHARS := 8000

  function Total(chunks: seq<Text>): nat {
    if chunks == [] then 0 else |chunks[0]| + Total(chunks[1..])
  }

  lemma {:induction false} TotalAppends(a: seq<Text>, b: seq<Text>)
    ensures Total(a + b) == Total(a) + Total(b)
  {
    if a == [] {
      assert a + b == b;
    } else {
      assert (a + b)[1..] == a[1..] + b;
      TotalAppends(a[1..], b);
    }
  }

  /** Drop chunks from the front until the rest fits. */
  function Fitting(chunks: seq<Text>): seq<Text> {
    if Total(chunks) <= MAX_CAPTURED_LOGIN_OUTPUT_CHARS then chunks else Fitting(chunks[1..])
  }

  lemma {:induction false} FittingIsASuffix(chunks: seq<Text>)
    ensures |Fitting(chunks)| <= |chunks| && Fitting(chunks) == chunks[|chunks| - |Fitting(chunks)|..]
    ensures Total(Fitting(chunks)) <= 8000
  {
    if Total(chunks) > 8000 {
      FittingIsASuffix(chunks[1..]);
    }
  }

  /** What is kept is the longest suffix that fits: every other fitting suffix is part of it. */
  lemma {:induction false} FittingIsLongest(chunks: seq<Text>, k: nat)
    requires k <= |chunks| && Total(chunks[k..]) <= 8000
    ensures |chunks| - k <= |Fitting(chunks)|
  {
    if Total(chunks) > 8000 {
      assert chunks[0..] == chunks;
      assert chunks[k..] == chunks[1..][k - 1..];
      FittingIsLongest(chunks[1..], k - 1);
    }
  }

  /** Trimming as output arrives loses nothing: it keeps what trimming the whole history
      at the end would keep. */
  lemma {:induction false} FittingIsIncremental(history: seq<Text>, text: Text)
    ensures Fitting(Fitting(history) + [text]) == Fitting(history + [text])
  {
    if Total(history) > MAX_CAPTURED_LOGIN_OUTPUT_CHARS {
      FittingIsIncremental(history[1..], text);
      TotalAppends(history, [text]);
      assert (history + [text])[1..] == history[1..] + [text];
    }
  }

  /** One turn of the trimming loop, or its end. */
  lemma FittingStep(chunks: seq<Text>)
    ensures Total(chunks) <= MAX_CAPTURED_LOGIN_OUTPUT_CHARS ==> Fitting(chunks) == chunks
    ensures Total(chunks) > MAX_CAPTURED_LOGIN_OUTPUT_CHARS ==>
              && chunks != [] && Fitting(chunks) == Fitting(chunks[1..])
              && Total(chunks) == |chunks[0]| + Total(chunks[1..])
  {}

  lemma TotalOne(text: Text)
    ensures Total([text]) == |text|
  {}

  /** What one call leaves captured. */
  function Appended(chunks: seq<Text>, text: Text): seq<Text> {
    if text == [] then chunks else Fitting(chunks + [text])
  }

  /** One captured stream. */
  class Capture {
    var chunks: seq<Text>
    var len: nat

    ghost predicate Valid()
      reads this
    {
      len == Total(chunks)
    }

    constructor ()
      ensures Valid() && chunks == []
    {
      chunks, len := [], 0;
    }

    method AppendBoundedChunk(text: Text)
      requires Valid()
      modifies this
      ensures Valid() && chunks == Appended(old(chunks), text)
    {
      hide Fitting, Total;
      if text == [] {
        return;
      }
      var kept := chunks + [text];
      var total := len + |text|;
      TotalAppends(chunks, [text]);
      TotalOne(text);
      FittingStep(kept);
      while total > MAX_CAPTURED_LOGIN_OUTPUT_CHARS && |kept| > 0
        invariant total == Total(kept) && Fitting(kept) == Fitting(old(chunks) + [text])
        decreases |kept|
      {
        FittingStep(kept);
        total := total - |kept[0]|;
        kept := kept[1..];
      }
      FittingStep(kept);
      chunks := kept;
      len := total;
    }
  }

  // ---------- every sequence of appends ----------

  /** What a stream holds after the given writes, in order. */
  ghost function Captured(texts: seq<Text>): seq<Text> {
    if texts == [] then [] else Appended(Captured(texts[..|texts| - 1]), texts[|texts| - 1])
  }

  ghost function NonEmpty(texts: seq<Text>): seq<Text> {
    if texts == [] then []
    else NonEmpty(texts[..|texts| - 1]) + if texts[|texts| - 1] == [] then [] else [texts[|texts| - 1]]
  }

  /** However the output arrived, the stream holds the longest suffix of all its non-empty
      chunks that fits the limit (see FittingIsLongest). */
  lemma {:induction false} CaptureIsTheLongestTail(texts: seq<Text>)
    ensures Captured(texts) == Fitting(NonEmpty(texts))
  {
    if texts != [] {
      var n := |texts| - 1;
      CaptureIsTheLongestTail(texts[..n]);
      if texts[n] == [] {
        assert NonEmpty(texts) == NonEmpty(texts[..n]);
      } else {
        FittingIsIncremental(NonEmpty(texts[..n]), texts[n]);
      }
    }
  }
}
