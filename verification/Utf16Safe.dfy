/** Slicing and truncating UTF-16 text without splitting a surrogate pair
    (src/utils.ts). Text is measured in code units, as JavaScript does. */
module Utf16Safe {
  import opened JsText

  predicate IsHighSurrogate(c: CodeUnit) { 0xD800 <= c <= 0xDBFF }

  predicate IsLowSurrogate(c: CodeUnit) { 0xDC00 <= c <= 0xDFFF }

  /** A boundary at i falls between the two halves of a pair. */
  predicate SplitsPair(s: Text, i: int) {
    0 < i < |s| && IsHighSurrogate(s[i - 1]) && IsLowSurrogate(s[i])
  }

  /** The unit at i is a surrogate without its other half next to it. */
  predicate Unpaired(s: Text, i: nat)
    requires i < |s|
  {
    || (IsHighSurrogate(s[i]) && !SplitsPair(s, i + 1))
    || (IsLowSurrogate(s[i]) && !SplitsPair(s, i))
  }

  /** Well-formed UTF-16, section 3.9 of the Unicode Standard. */
  ghost predicate WellFormed(s: Text) {
    forall i :: 0 <= i < |s| ==> !Unpaired(s, i)
  }

  /** First unit the safe slice from lo keeps. */
  function SafeFrom(s: Text, lo: nat): nat { if SplitsPair(s, lo) then lo + 1 else lo }

  /** One past the last unit the safe slice up to hi keeps. */
  function SafeTo(s: Text, hi: nat): nat { if SplitsPair(s, hi) then hi - 1 else hi }

  /** The safe slice between two bounds in order; both halves of a lone split pair go. */
  function SafeSlice(s: Text, lo: nat, hi: nat): (r: Text)
    requires lo <= hi <= |s|
  {
    if SafeFrom(s, lo) < SafeTo(s, hi) then s[SafeFrom(s, lo)..SafeTo(s, hi)] else []
  }

  /** The bounds in the order the slice takes them, both within the text. */
  function OrderedBounds(start: int, end: Option<int>, len: nat): (r: (nat, nat))
    ensures r.0 <= r.1 <= len
  {
    var a := ClampIndex(start, len);
    var b := if end.None? then len else ClampIndex(end.value, len);
    if a <= b then (a, b) else (b, a)
  }

  method SliceUtf16Safe(input: Text, start: int, end: Option<int>) returns (r: Text)
    ensures var bounds := OrderedBounds(start, end, |input|);
            r == SafeSlice(input, bounds.0, bounds.1)
  {
    var len := |input|;
    var from := if start < 0 then Max(len + start, 0) else Min(start, len);
    var to := if end.None? then len
              else if end.value < 0 then Max(len + end.value, 0)
              else Min(end.value, len);
    if to < from {
      from, to := to, from;
    }
    ghost var bounds := OrderedBounds(start, end, len);
    assert (from, to) == bounds;
    if from > 0 && from < len {
      if IsLowSurrogate(input[from]) && IsHighSurrogate(input[from - 1]) {
        from := from + 1;
      }
    }
    assert from == SafeFrom(input, bounds.0);
    if to > 0 && to < len {
      if IsHighSurrogate(input[to - 1]) && IsLowSurrogate(input[to]) {
        to := to - 1;
      }
    }
    assert to == SafeTo(input, bounds.1);
    r := if from < to then input[from..to] else [];
  }

  /** Every surrogate keeps its partner: a unit of the slice is unpaired exactly when
      it was unpaired at the same place of the input. */
  lemma SliceKeepsPairing(s: Text, lo: nat, hi: nat, i: nat)
    requires lo <= hi <= |s| && i < |SafeSlice(s, lo, hi)|
    ensures SafeFrom(s, lo) + i < |s| && SafeSlice(s, lo, hi)[i] == s[SafeFrom(s, lo) + i]
    ensures Unpaired(SafeSlice(s, lo, hi), i) <==> Unpaired(s, SafeFrom(s, lo) + i)
  {
    var r, o := SafeSlice(s, lo, hi), SafeFrom(s, lo);
    assert i + 1 < |r| ==> r[i + 1] == s[o + i + 1];
    assert 0 < i ==> r[i - 1] == s[o + i - 1];
    assert !SplitsPair(s, o) && !SplitsPair(s, SafeTo(s, hi));
  }

  lemma SliceStaysWellFormed(s: Text, lo: nat, hi: nat)
    requires lo <= hi <= |s| && WellFormed(s)
    ensures WellFormed(SafeSlice(s, lo, hi))
  {
    forall i | 0 <= i < |SafeSlice(s, lo, hi)| ensures !Unpaired(SafeSlice(s, lo, hi), i) {
      SliceKeepsPairing(s, lo, hi, i);
    }
  }

  /** The slice gives up no more than it must: whatever lies between the requested bounds
      and starts and ends at boundaries that split no pair is inside it. */
  lemma SliceIsLargest(s: Text, lo: nat, hi: nat, a: nat, b: nat)
    requires lo <= a < b <= hi <= |s| && !SplitsPair(s, a) && !SplitsPair(s, b)
    ensures SafeFrom(s, lo) <= a && b <= SafeTo(s, hi)
    ensures s[a..b] == SafeSlice(s, lo, hi)[a - SafeFrom(s, lo)..b - SafeFrom(s, lo)]
  {
    var r, o := SafeSlice(s, lo, hi), SafeFrom(s, lo);
    assert |r[a - o..b - o]| == b - a;
    assert forall k :: 0 <= k < b - a ==> r[a - o..b - o][k] == s[a..b][k];
  }

  /** Bounds count from the start, or from the end if negative, stop at the ends of the text, and
      are put in order. */
  lemma {:induction false} BoundsExactly(a: int, b: int, len: nat)
    requires 0 <= a <= b <= len
    ensures OrderedBounds(a, Some(b), len) == OrderedBounds(b, Some(a), len) == (a, b)
    ensures OrderedBounds(a, None, len) == (a, len)
    ensures a < len ==> OrderedBounds(a - len, None, len) == (a, len)
    ensures b < len ==> OrderedBounds(a - len, Some(b - len), len) == OrderedBounds(a, Some(b - len), len) == (a, b)
    ensures forall over: int :: over > len ==>
      OrderedBounds(a, Some(over), len) == (a, len) && OrderedBounds(-over, Some(b), len) == (0, b)
  {}

  /** A negative start alone gives the end of the text: that many units, or one fewer if they
      would begin inside a pair. */
  lemma {:induction false} TailSlice(s: Text, k: int)
    requires 0 < k <= |s|
    ensures var bounds := OrderedBounds(-k, None, |s|);
            SafeSlice(s, bounds.0, bounds.1) == s[if SplitsPair(s, |s| - k) then |s| - k + 1 else |s| - k..]
  {}

  // ---------- truncation ----------

  function Limit(maxLen: real): nat { Max(0, maxLen.Floor) }

  /** The limit is the largest whole number within the given one, and not negative. */
  lemma {:induction false} LimitExactly(maxLen: real)
    ensures if maxLen < 1.0 then Limit(maxLen) == 0 else Limit(maxLen) as real <= maxLen < Limit(maxLen) as real + 1.0
  {}

  function Truncated(input: Text, limit: nat): Text {
    if |input| <= limit then input else SafeSlice(input, 0, limit)
  }

  method TruncateUtf16Safe(input: Text, maxLen: real) returns (r: Text)
    ensures r == Truncated(input, Limit(maxLen))
  {
    var limit := Max(0, maxLen.Floor);
    if |input| <= limit {
      return input;
    }
    r := SliceUtf16Safe(input, 0, Some(limit));
  }

  /** A prefix within the limit, one unit short of it exactly when the limit splits a pair. */
  lemma TruncationIsAPrefix(s: Text, limit: nat)
    ensures Truncated(s, limit) <= s
    ensures |Truncated(s, limit)| ==
            if |s| <= limit then |s| else if SplitsPair(s, limit) then limit - 1 else limit
  {
    assert !SplitsPair(s, 0);
  }

  /** Truncating twice is truncating once to the smaller limit; with equal limits this is
      idempotence. */
  lemma TruncationsCompose(s: Text, m: nat, n: nat)
    ensures Truncated(Truncated(s, m), n) == Truncated(s, Min(m, n))
  {
    TruncationIsAPrefix(s, m);
    TruncationIsAPrefix(s, n);
    var t := Truncated(s, m);
    TruncationIsAPrefix(t, n);
    if n < m && n < |t| {
      assert SplitsPair(t, n) <==> SplitsPair(s, n);
      assert Truncated(t, n) == t[..|Truncated(t, n)|];
      assert Truncated(s, n) == s[..|Truncated(s, n)|];
    }
  }

  // ---------- in terms of characters ----------

  /** A Unicode scalar value. */
  type Scalar = c: int | 0 <= c < 0xD800 || 0xE000 <= c < 0x110000

  /** The character that two surrogates stand for, section 2.2 of RFC 2781. */
  function PairValue(high: int, low: int): int { 0x10000 + (high - 0xD800) * 0x400 + (low - 0xDC00) }

  /** UTF-16 encoding of one character, section 2.1 of RFC 2781. */
  function EncodeOne(c: Scalar): (r: Text)
    ensures |r| == 1 || (|r| == 2 && SplitsPair(r, 1))
    ensures !IsLowSurrogate(r[0])
    ensures |r| == 1 ==> !IsHighSurrogate(r[0])
    ensures c == if |r| == 1 then r[0] else PairValue(r[0], r[1])
  {
    if c < 0x10000 then [c]
    else [0xD800 + (c - 0x10000) / 0x400, 0xDC00 + (c - 0x10000) % 0x400]
  }

  function Encode(cs: seq<Scalar>): Text {
    if cs == [] then [] else EncodeOne(cs[0]) + Encode(cs[1..])
  }

  /** Encoding is compositional at the end as well as at the front. */
  lemma {:induction false} EncodeOneMore(cs: seq<Scalar>, k: nat)
    requires k < |cs|
    ensures Encode(cs[..k + 1]) == Encode(cs[..k]) + EncodeOne(cs[k])
  {
    if k == 0 {
      assert cs[..1][1..] == [];
    } else {
      EncodeOneMore(cs[1..], k - 1);
      assert cs[..k + 1][1..] == cs[1..][..k];
      assert cs[..k][1..] == cs[1..][..k - 1];
    }
  }

  lemma BoundaryAfterOne(e: Text, rest: Text, m: nat)
    requires |e| == 1 || (|e| == 2 && SplitsPair(e, 1))
    requires 0 < m <= |e + rest| && !SplitsPair(e + rest, m)
    ensures |e| <= m && !SplitsPair(rest, m - |e|)
  {
    assert m < |e| ==> (e + rest)[0] == e[0] && (e + rest)[1] == e[1];
    var j := m - |e|;
    assert 0 < j < |rest| ==> (e + rest)[m] == rest[j] && (e + rest)[m - 1] == rest[j - 1];
  }

  /** A prefix of encoded text that splits no pair is the encoding of whole characters. */
  lemma {:induction false} WholeCharacters(cs: seq<Scalar>, m: nat) returns (k: nat)
    requires m <= |Encode(cs)| && !SplitsPair(Encode(cs), m)
    ensures k <= |cs| && Encode(cs)[..m] == Encode(cs[..k])
    ensures k < |cs| ==> m < |Encode(cs)| && Encode(cs)[m] == EncodeOne(cs[k])[0]
  {
    if cs == [] || m == 0 {
      return 0;
    }
    var e, rest := EncodeOne(cs[0]), Encode(cs[1..]);
    BoundaryAfterOne(e, rest, m);
    k := WholeCharacters(cs[1..], m - |e|);
    assert cs[..k + 1][1..] == cs[1..][..k];
    assert (e + rest)[..m] == e + rest[..m - |e|];
    k := k + 1;
  }

  /** Truncated encoded text is the encoding of the longest run of leading characters
      that fits the limit. */
  lemma TruncationKeepsWholeCharacters(cs: seq<Scalar>, limit: nat) returns (k: nat)
    ensures k <= |cs| && Truncated(Encode(cs), limit) == Encode(cs[..k])
    ensures |Encode(cs[..k])| <= limit
    ensures k < |cs| ==> limit < |Encode(cs[..k + 1])|
  {
    var s := Encode(cs);
    TruncationIsAPrefix(s, limit);
    var t := Truncated(s, limit);
    assert t == s[..|t|];
    k := WholeCharacters(cs, |t|);
    if k < |cs| {
      EncodeOneMore(cs, k);
    }
  }

  lemma {:induction false} TailIsWellFormed(t: Text, n: nat)
    requires n <= |t| && WellFormed(t) && !SplitsPair(t, n)
    ensures WellFormed(t[n..])
  {
    forall i | 0 <= i < |t| - n ensures !Unpaired(t[n..], i) {
      assert !Unpaired(t, n + i);
    }
  }

  /** The character at the front of well-formed text. */
  lemma {:induction false} FirstCharacter(t: Text) returns (c: Scalar, rest: Text)
    requires t != [] && WellFormed(t)
    ensures t == EncodeOne(c) + rest && WellFormed(rest)
  {
    assert !Unpaired(t, 0);
    if IsHighSurrogate(t[0]) {
      var x := PairValue(t[0], t[1]);
      assert 0x10000 <= x < 0x110000;
      c, rest := x, t[2..];
      assert EncodeOne(c) == [t[0], t[1]];
      assert IsLowSurrogate(t[1]);
      TailIsWellFormed(t, 2);
    } else {
      c, rest := t[0], t[1..];
      TailIsWellFormed(t, 1);
    }
  }

  lemma {:induction false} JoinIsWellFormed(c: Scalar, t: Text)
    requires WellFormed(t)
    ensures WellFormed(EncodeOne(c) + t)
  {
    var e := EncodeOne(c);
    forall i | 0 <= i < |e + t| ensures !Unpaired(e + t, i) {
      if i >= |e| { assert !Unpaired(t, i - |e|); }
    }
  }

  lemma {:induction false} Decoded(t: Text) returns (cs: seq<Scalar>)
    requires WellFormed(t)
    ensures Encode(cs) == t
    decreases |t|
  {
    if t == [] {
      cs := [];
    } else {
      var c, rest := FirstCharacter(t);
      var more := Decoded(rest);
      cs := [c] + more;
      assert cs[1..] == more;
    }
  }

  lemma {:induction false} EncodedIsWellFormed(cs: seq<Scalar>)
    ensures WellFormed(Encode(cs))
  {
    if cs != [] {
      EncodedIsWellFormed(cs[1..]);
      JoinIsWellFormed(cs[0], Encode(cs[1..]));
    }
  }

  /** Well-formed text is exactly what encoding characters gives. */
  lemma {:induction false} WellFormedExactly(t: Text)
    ensures WellFormed(t) <==> exists cs :: Encode(cs) == t
  {
    if WellFormed(t) {
      var cs := Decoded(t);
    }
    if cs :| Encode(cs) == t {
      EncodedIsWellFormed(cs);
    }
  }
}
