/** String operations the dashboard relies on, with Python's meaning:
    substring search (`p in s`, `str.find`), `str.split(sep)`, ASCII
    lower-casing and the code-point ordering of strings. */
module Text {
  import opened Wrappers

  /** `p` occurs in `s` starting at index `i`. */
  predicate OccursAt(s: string, p: string, i: nat)
  {
    i + |p| <= |s| && s[i..i + |p|] == p
  }

  /** A slice of a slice is a slice of the original. */
  lemma SliceOfSlice(s: string, lo: nat, hi: nat, a: nat, b: nat)
    requires lo <= hi <= |s| && a <= b <= hi - lo
    ensures s[lo..hi][a..b] == s[lo + a..lo + b]
  {
    forall k | 0 <= k < b - a
      ensures s[lo..hi][a..b][k] == s[lo + a..lo + b][k]
    {
      assert s[lo..hi][a..b][k] == s[lo..hi][a + k] == s[lo + a + k];
    }
  }

  /** A slice of a suffix is a slice of the original. */
  lemma DropSlice(s: string, d: nat, a: nat, b: nat)
    requires d <= |s| && a <= b <= |s| - d
    ensures s[d..][a..b] == s[d + a..d + b]
  {
    assert s[d..] == s[d..|s|];
    SliceOfSlice(s, d, |s|, a, b);
  }

  /** Index of the first occurrence of `p` in `s` at or after `k`. */
  function IndexFrom(s: string, p: string, k: nat): (r: Option<nat>)
    ensures r.Some? ==> k <= r.value && OccursAt(s, p, r.value)
    ensures r.Some? ==> forall j: nat :: k <= j < r.value ==> !OccursAt(s, p, j)
    ensures r.None? ==> forall j: nat :: k <= j ==> !OccursAt(s, p, j)
    decreases |s| - k
  {
    if k + |p| > |s| then None
    else if OccursAt(s, p, k) then Some(k)
    else IndexFrom(s, p, k + 1)
  }

  /** Index of the first occurrence of `p` in `s`, as Python's `s.find(p)`
      (None where Python answers -1). */
  function IndexOf(s: string, p: string): (r: Option<nat>)
    ensures r.Some? ==> OccursAt(s, p, r.value)
    ensures r.Some? ==> forall j: nat :: j < r.value ==> !OccursAt(s, p, j)
    ensures r.None? ==> forall j: nat :: !OccursAt(s, p, j)
  {
    IndexFrom(s, p, 0)
  }

  /** Python's `p in s` on strings. */
  predicate Contains(s: string, p: string)
  {
    IndexOf(s, p).Some?
  }

  /** An occurrence anywhere makes `Contains` true. */
  lemma ContainsAt(s: string, p: string, i: nat)
    requires OccursAt(s, p, i)
    ensures Contains(s, p)
  {
  }

  /** An occurrence inside a slice is an occurrence in the whole string. */
  lemma ContainsSlice(s: string, lo: nat, hi: nat, p: string)
    requires lo <= hi <= |s|
    requires Contains(s[lo..hi], p)
    ensures Contains(s, p)
  {
    var j := IndexOf(s[lo..hi], p).value;
    assert OccursAt(s[lo..hi], p, j);
    SliceOfSlice(s, lo, hi, j, j + |p|);
    ContainsAt(s, p, lo + j);
  }

  /** A prefix that does not hold the first character of `p` cannot take
      part in an occurrence of `p`: `a + b` holds `p` only if `b` does. */
  lemma ContainsAfterPrefix(a: string, b: string, p: string)
    requires |p| > 0 && forall k :: 0 <= k < |a| ==> a[k] != p[0]
    ensures Contains(a + b, p) ==> Contains(b, p)
  {
    if Contains(a + b, p) {
      var j := IndexOf(a + b, p).value;
      assert (a + b)[j] == p[0];
      assert j >= |a|;
      assert OccursAt(a + b, p, j);
      assert b == (a + b)[|a|..|a + b|];
      SliceOfSlice(a + b, |a|, |a + b|, j - |a|, j - |a| + |p|);
      ContainsAt(b, p, j - |a|);
    }
  }

  /** Python's `s.split(sep)` for a non-empty separator: the pieces between
      successive non-overlapping occurrences, scanning left to right. */
  function Split(s: string, sep: string): (parts: seq<string>)
    requires |sep| > 0
    ensures |parts| >= 1
    decreases |s|
  {
    match IndexOf(s, sep)
    case None => [s]
    case Some(i) => [s[..i]] + Split(s[i + |sep|..], sep)
  }

  /** Python's `sep.join(parts)`. */
  function Join(parts: seq<string>, sep: string): string
  {
    if |parts| == 0 then ""
    else if |parts| == 1 then parts[0]
    else parts[0] + sep + Join(parts[1..], sep)
  }

  /** Joining the pieces of a split gives back the original string. */
  lemma {:induction false} JoinSplit(s: string, sep: string)
    requires |sep| > 0
    ensures Join(Split(s, sep), sep) == s
    decreases |s|
  {
    var r := IndexOf(s, sep);
    if r.Some? {
      var i := r.value;
      var rest := s[i + |sep|..];
      JoinSplit(rest, sep);
      var tail := Split(rest, sep);
      SplitStep(s, sep, i);
      JoinCons(s[..i], tail, sep);
      assert s[i..i + |sep|] == sep;
      assert s == s[..i] + s[i..i + |sep|] + rest;
      assert Join(Split(s, sep), sep) == s[..i] + sep + rest;
    } else {
      assert Split(s, sep) == [s];
    }
  }

  lemma JoinCons(head: string, tail: seq<string>, sep: string)
    requires |tail| >= 1
    ensures Join([head] + tail, sep) == head + sep + Join(tail, sep)
  {
    assert ([head] + tail)[1..] == tail;
  }

  /** One step of `Split`. */
  lemma SplitStep(s: string, sep: string, i: nat)
    requires |sep| > 0 && IndexOf(s, sep) == Some(i)
    ensures i + |sep| <= |s|
    ensures Split(s, sep) == [s[..i]] + Split(s[i + |sep|..], sep)
  {
    assert OccursAt(s, sep, i);
  }

  /** The text before the first occurrence does not contain the pattern. */
  lemma BeforeFirstFree(s: string, sep: string, i: nat)
    requires |sep| > 0 && IndexOf(s, sep) == Some(i)
    ensures !Contains(s[..i], sep)
  {
    assert OccursAt(s, sep, i);
    forall j: nat | j + |sep| <= i
      ensures !OccursAt(s[..i], sep, j)
    {
      assert s[..i] == s[0..i];
      SliceOfSlice(s, 0, i, j, j + |sep|);
      assert !OccursAt(s, sep, j);
    }
  }

  /** Piece `k` of a split does not contain the separator. */
  lemma {:induction false} SplitPieceFree(s: string, sep: string, k: nat)
    requires |sep| > 0 && k < |Split(s, sep)|
    ensures !Contains(Split(s, sep)[k], sep)
    decreases |s|
  {
    var r := IndexOf(s, sep);
    if r.Some? {
      var i := r.value;
      SplitStep(s, sep, i);
      var rest := s[i + |sep|..];
      if k == 0 {
        BeforeFirstFree(s, sep, i);
      } else {
        assert Split(s, sep)[k] == Split(rest, sep)[k - 1];
        SplitPieceFree(rest, sep, k - 1);
      }
    } else {
      assert Split(s, sep) == [s];
    }
  }

  /** No piece of a split contains the separator. */
  lemma SplitPiecesFree(s: string, sep: string)
    requires |sep| > 0
    ensures forall k :: 0 <= k < |Split(s, sep)| ==> !Contains(Split(s, sep)[k], sep)
  {
    forall k | 0 <= k < |Split(s, sep)|
      ensures !Contains(Split(s, sep)[k], sep)
    {
      SplitPieceFree(s, sep, k);
    }
  }

  /** Every piece of a split is a slice of the original. */
  lemma {:induction false} SplitPieceSlice(s: string, sep: string, k: nat) returns (lo: nat, hi: nat)
    requires |sep| > 0 && k < |Split(s, sep)|
    ensures lo <= hi <= |s| && Split(s, sep)[k] == s[lo..hi]
    decreases |s|
  {
    var r := IndexOf(s, sep);
    if r.Some? {
      var i := r.value;
      SplitStep(s, sep, i);
      var rest := s[i + |sep|..];
      if k == 0 {
        lo, hi := 0, i;
      } else {
        var a, b := SplitPieceSlice(rest, sep, k - 1);
        DropSlice(s, i + |sep|, a, b);
        lo, hi := i + |sep| + a, i + |sep| + b;
        assert Split(s, sep)[k] == Split(rest, sep)[k - 1] == rest[a..b];
      }
    } else {
      assert Split(s, sep) == [s];
      lo, hi := 0, |s|;
    }
  }

  /** Whatever a piece of a split contains, the string contains. */
  lemma SplitPieceWithin(s: string, sep: string, k: nat, p: string)
    requires |sep| > 0 && k < |Split(s, sep)|
    requires Contains(Split(s, sep)[k], p)
    ensures Contains(s, p)
  {
    var lo, hi := SplitPieceSlice(s, sep, k);
    ContainsSlice(s, lo, hi, p);
  }

  /** Splitting on a one-character separator undoes joining pieces that do
      not contain it. */
  lemma {:induction false} SplitJoinChar(parts: seq<string>, c: char)
    requires |parts| >= 1
    requires forall k :: 0 <= k < |parts| ==> !Contains(parts[k], [c])
    ensures Split(Join(parts, [c]), [c]) == parts
    decreases |parts|
  {
    if |parts| == 1 {
    } else {
      var head, tail := parts[0], Join(parts[1..], [c]);
      var s := head + [c] + tail;
      assert Join(parts, [c]) == s;
      assert OccursAt(s, [c], |head|) by {
        assert s[|head|..|head| + 1] == [c];
      }
      forall j: nat | j < |head|
        ensures !OccursAt(s, [c], j)
      {
        if OccursAt(s, [c], j) {
          assert s[j..j + 1] == head[j..j + 1];
          ContainsAt(head, [c], j);
        }
      }
      assert IndexOf(s, [c]) == Some(|head|);
      assert s[..|head|] == head;
      assert s[|head| + 1..] == tail;
      SplitJoinChar(parts[1..], c);
    }
  }

  /** Joining concatenated lists of pieces. */
  lemma {:induction false} JoinAppend(a: seq<string>, b: seq<string>, sep: string)
    requires |a| >= 1 && |b| >= 1
    ensures Join(a + b, sep) == Join(a, sep) + sep + Join(b, sep)
    decreases |a|
  {
    if |a| == 1 {
      assert (a + b)[1..] == b;
    } else {
      assert (a + b)[1..] == a[1..] + b;
      JoinAppend(a[1..], b, sep);
    }
  }

  /** Splitting `a + c + b` on the one-character separator `c` splits `a`
      and `b` separately. */
  lemma SplitAroundChar(a: string, b: string, c: char)
    ensures Split(a + [c] + b, [c]) == Split(a, [c]) + Split(b, [c])
  {
    var pa, pb := Split(a, [c]), Split(b, [c]);
    JoinSplit(a, [c]);
    JoinSplit(b, [c]);
    JoinAppend(pa, pb, [c]);
    SplitPiecesFree(a, [c]);
    SplitPiecesFree(b, [c]);
    assert forall k :: 0 <= k < |pa + pb| ==> !Contains((pa + pb)[k], [c]) by {
      forall k | 0 <= k < |pa + pb|
        ensures !Contains((pa + pb)[k], [c])
      {
        if k < |pa| { assert (pa + pb)[k] == pa[k]; } else { assert (pa + pb)[k] == pb[k - |pa|]; }
      }
    }
    SplitJoinChar(pa + pb, c);
  }

  /** ASCII lower-casing of one character, as `str.lower()` does on ASCII. */
  function LowerChar(c: char): (r: char)
  {
    if 'A' <= c <= 'Z' then (c as int + 32) as char else c
  }

  /** ASCII lower-casing of a string. */
  function Lower(s: string): (r: string)
    ensures |r| == |s|
    ensures forall i :: 0 <= i < |s| ==> r[i] == LowerChar(s[i])
  {
    seq(|s|, i requires 0 <= i < |s| => LowerChar(s[i]))
  }

  /** Lower-casing twice is lower-casing once. */
  lemma LowerIdempotent(s: string)
    ensures Lower(Lower(s)) == Lower(s)
  {
    assert forall i :: 0 <= i < |s| ==> LowerChar(LowerChar(s[i])) == LowerChar(s[i]);
  }

  /** A string that agrees with `b` lower-cased, position by position, is `Lower(b)`. */
  lemma LowerPointwise(a: string, b: string)
    requires |a| == |b| && forall i :: 0 <= i < |a| ==> a[i] == LowerChar(b[i])
    ensures a == Lower(b)
  {
  }

  /** Lower-casing commutes with slicing. */
  lemma LowerSlice(s: string, lo: nat, hi: nat)
    requires lo <= hi <= |s|
    ensures Lower(s)[lo..hi] == Lower(s[lo..hi])
  {
    var l, t := Lower(s), s[lo..hi];
    forall i | 0 <= i < hi - lo
      ensures l[lo..hi][i] == LowerChar(t[i])
    {
      assert l[lo..hi][i] == l[lo + i];
      assert t[i] == s[lo + i];
    }
    LowerPointwise(l[lo..hi], t);
  }

  /** Python's `<` on strings: lexicographic order of code points, a proper
      prefix coming first. */
  function StrLess(a: string, b: string): bool
  {
    if |a| == 0 then |b| > 0
    else if |b| == 0 then false
    else if a[0] == b[0] then StrLess(a[1..], b[1..])
    else a[0] < b[0]
  }

  lemma {:induction false} StrLessIrreflexive(a: string)
    ensures !StrLess(a, a)
  {
    if |a| > 0 { StrLessIrreflexive(a[1..]); }
  }

  lemma {:induction false} StrLessTransitive(a: string, b: string, c: string)
    requires StrLess(a, b) && StrLess(b, c)
    ensures StrLess(a, c)
  {
    if |a| > 0 && |b| > 0 && |c| > 0 && a[0] == b[0] == c[0] {
      StrLessTransitive(a[1..], b[1..], c[1..]);
    }
  }

  lemma {:induction false} StrLessTotal(a: string, b: string)
    requires a != b
    ensures StrLess(a, b) || StrLess(b, a)
  {
    if |a| > 0 && |b| > 0 && a[0] == b[0] {
      assert a == [a[0]] + a[1..] && b == [b[0]] + b[1..];
      StrLessTotal(a[1..], b[1..]);
    }
  }
}
