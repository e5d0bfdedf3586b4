/** Text primitives that several modelled files share: optional values, the white
    space that ECMAScript's `trim` removes, and trimming itself. */
module JsText {

  datatype Option<+T> = None | Some(value: T)

  function OrEmpty(s: Option<string>): string { if s.Some? then s.value else "" }

  /** A UTF-16 code unit, and text as JavaScript measures it. */
  type CodeUnit = c: int | 0 <= c < 0x10000
  type Text = seq<CodeUnit>

  function Max(a: int, b: int): int { if a < b then b else a }

  function Min(a: int, b: int): int { if a < b then a else b }

  /** How `slice` reads an index: negative counts from the end, then clamp. */
  function ClampIndex(i: int, len: nat): (r: nat)
    ensures r <= len
  {
    if i < 0 then (if len + i < 0 then 0 else len + i) else if i < len then i else len
  }

  /** White space and line terminators, by code point. */
  predicate IsSpaceCode(c: int) {
    || 9 <= c <= 13 || c == 32 || c == 0xA0 || c == 0x1680 || 0x2000 <= c <= 0x200A
    || c == 0x2028 || c == 0x2029 || c == 0x202F || c == 0x205F || c == 0x3000 || c == 0xFEFF
  }

  predicate IsSpace(c: char) { IsSpaceCode(c as int) }

  /** First position from `from` on that is not blank. */
  function FirstInk<T>(s: seq<T>, from: nat, blank: T -> bool): (r: nat)
    requires from <= |s|
    ensures from <= r <= |s| && (r < |s| ==> !blank(s[r]))
    ensures forall i :: from <= i < r ==> blank(s[i])
    decreases |s| - from
  {
    if from < |s| && blank(s[from]) then FirstInk(s, from + 1, blank) else from
  }

  /** End of the text without the blanks before `to`. */
  function InkEnd<T>(s: seq<T>, to: nat, blank: T -> bool): (r: nat)
    requires to <= |s|
    ensures r <= to && (0 < r ==> !blank(s[r - 1]))
    ensures forall i :: r <= i < to ==> blank(s[i])
  {
    if 0 < to && blank(s[to - 1]) then InkEnd(s, to - 1, blank) else to
  }

  predicate Trimmed(s: string) {
    s == [] || (!IsSpace(s[0]) && !IsSpace(s[|s| - 1]))
  }

  function Trim(s: string): (r: string)
    ensures Trimmed(r)
    ensures Trimmed(s) ==> r == s
  {
    var t := s[FirstInk(s, 0, IsSpace)..];
    t[..InkEnd(t, |t|, IsSpace)]
  }

  /** Trimming drops blanks at the two ends and nothing else. */
  lemma {:induction false} TrimDropsBlankEnds(s: string) returns (before: string, after: string)
    ensures s == before + Trim(s) + after
    ensures (forall c :: c in before ==> IsSpace(c)) && (forall c :: c in after ==> IsSpace(c))
  {
    hide IsSpace, FirstInk, InkEnd;
    var n := FirstInk(s, 0, IsSpace);
    var t := s[n..];
    var m := InkEnd(t, |t|, IsSpace);
    before, after := s[..n], t[m..];
    assert s == before + t && t == t[..m] + after;
    assert Trim(s) == t[..m];
    assert forall i :: 0 <= i < |after| ==> after[i] == t[m + i];
  }

  /** The 25 code points that count as blank. */
  lemma {:induction false} BlanksAre(c: int)
    ensures IsSpaceCode(c) <==> c in [
      0x09, 0x0A, 0x0B, 0x0C, 0x0D, 0x20, 0xA0, 0x1680, 0x2000, 0x2001, 0x2002, 0x2003, 0x2004, 0x2005, 0x2006,
      0x2007, 0x2008, 0x2009, 0x200A, 0x2028, 0x2029, 0x202F, 0x205F, 0x3000, 0xFEFF]
  {}

  function LowerChar(c: char): char { if 'A' <= c <= 'Z' then c - 'A' + 'a' else c }

  /** Lowercase, for ASCII letters. */
  function ToLower(s: string): string { seq(|s|, i requires 0 <= i < |s| => LowerChar(s[i])) }

  lemma {:induction false} Regroup<T>(a: seq<T>, b: seq<T>, c: seq<T>)
    ensures a + (b + c) == (a + b) + c
  {}

  /** Where a separator first occurs, a text splits in one way only. */
  lemma {:induction false} FirstSeparator(sep: char, a: string, b: string, c: string, d: string)
    requires sep !in a && sep !in c && a + [sep] + b == c + [sep] + d
    ensures a == c && b == d
  {
    var s, t := a + [sep] + b, c + [sep] + d;
    assert s[|a|] == sep && forall j :: 0 <= j < |a| ==> s[j] == a[j];
    assert t[|c|] == sep && forall j :: 0 <= j < |c| ==> t[j] == c[j];
    assert |a| == |c|;
    assert a == s[..|a|] && c == t[..|c|];
    assert b == s[|a| + 1..] && d == t[|c| + 1..];
  }
}
