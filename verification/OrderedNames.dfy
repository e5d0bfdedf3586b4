/** Canonical name lists: trimmed, without blanks or repeats, sorted. Two plugins
    (phone control, Bedrock discovery) store name lists only in this form. */
module OrderedNames {
  import opened JsText

  predicate Less(a: string, b: string) {
    b != [] && (a == [] || a[0] < b[0] || (a[0] == b[0] && Less(a[1..], b[1..])))
  }

  /** The texts agree up to k, where one ends or has the smaller character. */
  ghost predicate DiffersAt(a: string, b: string, k: int) {
    0 <= k <= |a| && k < |b| && a[..k] == b[..k] && (k == |a| || a[k] < b[k])
  }

  /** The order of a dictionary: at the first difference the smaller character, or the end of
      the shorter text, comes first. */
  lemma {:induction false} LessExactly(a: string, b: string)
    ensures Less(a, b) <==> exists k :: DiffersAt(a, b, k)
  {
    if a != [] && b != [] && a[0] == b[0] {
      LessExactly(a[1..], b[1..]);
      if k :| DiffersAt(a[1..], b[1..], k) {
        assert a[..k + 1] == [a[0]] + a[1..][..k] && b[..k + 1] == [b[0]] + b[1..][..k];
        assert DiffersAt(a, b, k + 1);
      }
      if k :| DiffersAt(a, b, k) {
        assert k > 0;
        assert a[1..][..k - 1] == a[..k][1..] && b[1..][..k - 1] == b[..k][1..];
        assert DiffersAt(a[1..], b[1..], k - 1);
      }
    } else if a != [] && b != [] {
      assert forall k :: 0 < k <= |a| ==> a[..k][0] == a[0];
      assert forall k :: 0 < k <= |b| ==> b[..k][0] == b[0];
      assert a[0] < b[0] ==> DiffersAt(a, b, 0);
    } else if b != [] {
      assert DiffersAt(a, b, 0);
    }
  }

  lemma {:induction false} LessIsStrict(a: string, b: string)
    ensures !(Less(a, b) && Less(b, a))
    ensures Less(a, b) || Less(b, a) || a == b
    ensures !Less(a, a)
  {
    if a != [] {
      LessIsStrict(a[1..], a[1..]);
    }
    if a != [] && b != [] && a[0] == b[0] {
      LessIsStrict(a[1..], b[1..]);
      assert a == [a[0]] + a[1..] && b == [b[0]] + b[1..];
    }
  }

  lemma {:induction false} LessIsTransitive(a: string, b: string, c: string)
    requires Less(a, b) && Less(b, c)
    ensures Less(a, c)
  {
    if a != [] && a[0] == b[0] == c[0] {
      LessIsTransitive(a[1..], b[1..], c[1..]);
    }
  }

  predicate StrictlySorted(s: seq<string>) {
    forall i :: 0 < i < |s| ==> Less(s[i - 1], s[i])
  }

  lemma {:induction false} SortedFrom(s: seq<string>, i: nat, j: nat)
    requires StrictlySorted(s) && i < j < |s|
    ensures Less(s[i], s[j])
  {
    if i + 1 < j {
      SortedFrom(s, i, j - 1);
      LessIsTransitive(s[i], s[j - 1], s[j]);
    }
  }

  lemma HeadIsLeast(s: seq<string>, x: string)
    requires StrictlySorted(s) && x in s
    ensures x == s[0] || Less(s[0], x)
  {
    var i :| 0 <= i < |s| && s[i] == x;
    if 0 < i { SortedFrom(s, 0, i); }
  }

  lemma TailExcludesHead(s: seq<string>, x: string)
    requires StrictlySorted(s) && s != []
    ensures x in s[1..] <==> x in s && x != s[0]
  {
    if s[0] in s[1..] {
      var i :| 0 <= i < |s| - 1 && s[1..][i] == s[0];
      SortedFrom(s, 0, i + 1);
      LessIsStrict(s[0], s[0]);
    }
    if x in s && x != s[0] {
      var i :| 0 <= i < |s| && s[i] == x;
      assert s[1..][i - 1] == x;
    }
  }

  /** A strictly sorted list is determined by its elements. */
  lemma {:induction false} SortedIsUnique(s: seq<string>, t: seq<string>)
    requires StrictlySorted(s) && StrictlySorted(t)
    requires forall x :: x in s <==> x in t
    ensures s == t
  {
    assert s != [] ==> s[0] in t;
    assert t != [] ==> t[0] in s;
    if s != [] && t != [] {
      HeadIsLeast(s, t[0]);
      HeadIsLeast(t, s[0]);
      LessIsStrict(s[0], t[0]);
      assert s[0] == t[0];
      forall x ensures x in s[1..] <==> x in t[1..] {
        TailExcludesHead(s, x);
        TailExcludesHead(t, x);
      }
      SortedIsUnique(s[1..], t[1..]);
      assert s == [s[0]] + s[1..] && t == [t[0]] + t[1..];
    }
  }

  lemma HeadBelow(x: string, s: seq<string>, t: seq<string>)
    requires StrictlySorted(s) && s != [] && Less(s[0], x)
    requires StrictlySorted(t) && forall y :: y in t <==> y == x || y in s[1..]
    ensures StrictlySorted([s[0]] + t)
  {
    assert x in t;
    assert t[0] in t;
    if t[0] != x {
      var i :| 0 <= i < |s| - 1 && s[1..][i] == t[0];
      SortedFrom(s, 0, i + 1);
    }
  }

  /** Sorted insertion that keeps one copy of each name. */
  function Insert(x: string, s: seq<string>): (r: seq<string>)
    requires StrictlySorted(s)
    ensures StrictlySorted(r)
    ensures forall y :: y in r <==> y == x || y in s
  {
    if s == [] then [x]
    else if x == s[0] then s
    else if Less(x, s[0]) then [x] + s
    else
      LessIsStrict(x, s[0]);
      var t := Insert(x, s[1..]);
      HeadBelow(x, s, t);
      assert s == [s[0]] + s[1..];
      [s[0]] + t
  }

  /** The names a list stands for: its entries, trimmed, blanks dropped. */
  ghost function Names(values: seq<string>): set<string> {
    set v | v in values && Trim(v) != [] :: Trim(v)
  }

  function InsertAll(values: seq<string>): (r: seq<string>)
    ensures StrictlySorted(r)
    ensures forall x :: x in r <==> x in Names(values)
  {
    if values == [] then []
    else
      var rest := InsertAll(values[1..]);
      var v := Trim(values[0]);
      assert values == [values[0]] + values[1..];
      assert forall x :: x in Names(values) <==> (x == v && v != []) || x in Names(values[1..]);
      if v == [] then rest else Insert(v, rest)
  }

  /** Trimmed, non-blank, distinct and sorted: the form in which lists are stored. */
  function UniqSorted(values: seq<string>): (r: seq<string>)
    ensures StrictlySorted(r)
    ensures forall x :: x in r <==> x in Names(values)
  {
    InsertAll(values)
  }

  /** Two lists have the same canonical form exactly when they stand for the same names. */
  lemma CanonicalFormIsExact(a: seq<string>, b: seq<string>)
    ensures UniqSorted(a) == UniqSorted(b) <==> Names(a) == Names(b)
  {
    if Names(a) == Names(b) {
      SortedIsUnique(UniqSorted(a), UniqSorted(b));
    }
    if UniqSorted(a) == UniqSorted(b) {
      assert forall x :: x in Names(a) <==> x in UniqSorted(a);
    }
  }

  /** Canonical lists are fixed points: they stand for their own entries. */
  lemma CanonicalIsStable(values: seq<string>)
    ensures UniqSorted(UniqSorted(values)) == UniqSorted(values)
    ensures forall x :: x in UniqSorted(values) ==> Trimmed(x) && x != []
    ensures Names(UniqSorted(values)) == Names(values)
  {
    var r := UniqSorted(values);
    forall x | x in r ensures Trimmed(x) && x != [] && Trim(x) == x {
      assert x in Names(values);
    }
    assert forall x :: x in Names(r) <==> x in r;
    CanonicalFormIsExact(r, values);
  }

  function Keep(s: seq<string>, t: seq<string>, inside: bool): seq<string> {
    if s == [] then []
    else (if (s[0] in t) == inside then [s[0]] else []) + Keep(s[1..], t, inside)
  }

  lemma {:induction false} KeepMembers(s: seq<string>, t: seq<string>, inside: bool)
    ensures forall x :: x in Keep(s, t, inside) <==> x in s && (x in t) == inside
  {
    if s != [] {
      KeepMembers(s[1..], t, inside);
      assert s == [s[0]] + s[1..];
    }
  }

  /** The entries of s that are not in t, in order. */
  function Minus(s: seq<string>, t: seq<string>): (r: seq<string>)
    ensures forall x :: x in r <==> x in s && x !in t
  {
    KeepMembers(s, t, false);
    Keep(s, t, false)
  }

  /** The entries of s that are in t, in order. */
  function Common(s: seq<string>, t: seq<string>): (r: seq<string>)
    ensures forall x :: x in r <==> x in s && x in t
  {
    KeepMembers(s, t, true);
    Keep(s, t, true)
  }

  lemma {:induction false} KeepOneMore(s: seq<string>, x: string, t: seq<string>, inside: bool)
    ensures Keep(s + [x], t, inside) == Keep(s, t, inside) + (if (x in t) == inside then [x] else [])
  {
    if s == [] {
      assert (s + [x])[1..] == [];
    } else {
      KeepOneMore(s[1..], x, t, inside);
      assert (s + [x])[1..] == s[1..] + [x];
    }
  }

  /** Canonical lists have pairwise distinct entries. */
  lemma SortedIsDistinct(s: seq<string>, i: nat)
    requires StrictlySorted(s) && i < |s|
    ensures s[i] !in s[..i]
  {
    if s[i] in s[..i] {
      var j :| 0 <= j < i && s[j] == s[i];
      SortedFrom(s, j, i);
      LessIsStrict(s[i], s[i]);
    }
  }

  /** A list whose entries are trimmed and non-blank stands for exactly its entries. */
  lemma CleanListNames(s: seq<string>)
    requires forall x :: x in s ==> Trimmed(x) && x != []
    ensures forall x :: x in Names(s) <==> x in s
  {}

  lemma NamesOfConcat(a: seq<string>, b: seq<string>)
    ensures Names(a + b) == Names(a) + Names(b)
  {}
}
