/** Sequence vocabulary shared by the byte-level and the line-level components. */
module Sequences {
  import opened Wrappers

  /** The concatenation of a list of pieces. */
  function Flatten<T>(pieces: seq<seq<T>>): seq<T> {
    if pieces == [] then [] else pieces[0] + Flatten(pieces[1..])
  }

  lemma Associative<T>(a: seq<T>, b: seq<T>, c: seq<T>)
    ensures (a + b) + c == a + (b + c)
  {}

  lemma {:induction false} FlattenAppend<T>(a: seq<seq<T>>, b: seq<seq<T>>)
    ensures Flatten(a + b) == Flatten(a) + Flatten(b)
  {
    if a == [] {
      assert a + b == b;
    } else {
      FlattenAppend(a[1..], b);
      assert (a + b)[0] == a[0] && (a + b)[1..] == a[1..] + b;
      Associative(a[0], Flatten(a[1..]), Flatten(b));
    }
  }

  lemma FlattenNone<T>(pieces: seq<seq<T>>)
    requires pieces == []
    ensures Flatten(pieces) == []
  {}

  lemma FlattenOne<T>(piece: seq<T>)
    ensures Flatten([piece]) == piece
  {
    assert [piece][1..] == [];
  }

  lemma FlattenSnoc<T>(pieces: seq<seq<T>>, piece: seq<T>)
    ensures Flatten(pieces + [piece]) == Flatten(pieces) + piece
  {
    FlattenAppend(pieces, [piece]);
    FlattenOne(piece);
  }

  lemma SliceSnoc<T>(s: seq<T>, x: T, from: nat)
    requires from <= |s|
    ensures (s + [x])[from..|s| + 1] == s[from..|s|] + [x]
  {}

  lemma SliceOfPrefix<T>(s: seq<T>, t: seq<T>, from: nat, to: nat)
    requires from <= to <= |s|
    ensures (s + t)[from..to] == s[from..to]
  {}

  /** The offset at which piece `k` starts inside `Flatten(pieces)`. */
  function Offset<T>(pieces: seq<seq<T>>, k: nat): nat
    requires k <= |pieces|
  {
    |Flatten(pieces[..k])|
  }

  lemma FlattenSlice<T>(pieces: seq<seq<T>>, a: nat, b: nat)
    requires a <= b <= |pieces|
    ensures Offset(pieces, a) <= Offset(pieces, b) <= |Flatten(pieces)|
    ensures Flatten(pieces)[Offset(pieces, a)..Offset(pieces, b)] == Flatten(pieces[a..b])
  {
    hide Flatten;
    assert pieces == pieces[..a] + (pieces[a..b] + pieces[b..]);
    FlattenAppend(pieces[..a], pieces[a..b] + pieces[b..]);
    FlattenAppend(pieces[a..b], pieces[b..]);
    assert pieces[..b] == pieces[..a] + pieces[a..b];
    FlattenAppend(pieces[..a], pieces[a..b]);
  }

  lemma OffsetNext<T>(pieces: seq<seq<T>>, k: nat)
    requires k < |pieces|
    ensures Offset(pieces, k + 1) == Offset(pieces, k) + |pieces[k]|
  {
    assert pieces[..k + 1] == pieces[..k] + [pieces[k]];
    FlattenSnoc(pieces[..k], pieces[k]);
  }

  lemma OffsetEnd<T>(pieces: seq<seq<T>>)
    ensures Offset(pieces, |pieces|) == |Flatten(pieces)|
  {
    assert pieces[..|pieces|] == pieces;
  }

  /** The index of the first `x`, or the length when there is none. */
  function FirstIndex<T(==)>(s: seq<T>, x: T): (i: nat)
    ensures i <= |s|
    ensures x !in s[..i]
    ensures i < |s| ==> s[i] == x
  {
    if s == [] || s[0] == x then 0
    else
      var i := FirstIndex(s[1..], x);
      assert s[..i + 1] == [s[0]] + s[1..][..i];
      i + 1
  }

  lemma FirstIndexIs<T>(s: seq<T>, x: T, i: nat)
    requires i < |s| && s[i] == x && x !in s[..i]
    ensures FirstIndex(s, x) == i
  {
    var j := FirstIndex(s, x);
    assert forall k :: 0 <= k < i ==> s[k] == s[..i][k];
    assert forall k :: 0 <= k < j ==> s[k] == s[..j][k];
  }

  /** A line as `split_inclusive` yields it: nonempty, with the terminator at most at its end. */
  predicate IsLine<T(==)>(line: seq<T>, terminator: T) {
    line != [] && terminator !in line[..|line| - 1]
  }

  predicate IsTerminated<T(==)>(line: seq<T>, terminator: T) {
    line != [] && line[|line| - 1] == terminator
  }

  /** Every line is a line, and only the last one may lack its terminator. */
  predicate AreLines<T(==)>(lines: seq<seq<T>>, terminator: T) {
    && (forall k :: 0 <= k < |lines| ==> IsLine(lines[k], terminator))
    && (forall k :: 0 <= k < |lines| - 1 ==> IsTerminated(lines[k], terminator))
  }

  /** Rust's `split_inclusive`: cut after every terminator, drop an empty last piece. */
  function SplitInclusive<T(==)>(s: seq<T>, terminator: T): (lines: seq<seq<T>>)
    ensures lines == [] <==> s == []
  {
    if s == [] then []
    else
      var i := FirstIndex(s, terminator);
      if i == |s| then [s] else [s[..i + 1]] + SplitInclusive(s[i + 1..], terminator)
  }

  /** The cut loses nothing, and it yields lines. */
  lemma {:induction false} SplitYieldsLines<T>(s: seq<T>, terminator: T)
    ensures Flatten(SplitInclusive(s, terminator)) == s
    ensures AreLines(SplitInclusive(s, terminator), terminator)
  {
    if s != [] {
      var i := FirstIndex(s, terminator);
      if i == |s| {
        FlattenOne(s);
        assert s[..|s|] == s && s[..|s| - 1] <= s;
      } else {
        var line, rest := s[..i + 1], s[i + 1..];
        SplitYieldsLines(rest, terminator);
        var lines := SplitInclusive(rest, terminator);
        assert line[..|line| - 1] == s[..i] && s == line + rest;
        assert ([line] + lines)[1..] == lines;
      }
    }
  }

  /** `SplitInclusive` is the only way to cut a text into lines. */
  lemma {:induction false} SplitIsUnique<T>(lines: seq<seq<T>>, terminator: T)
    requires AreLines(lines, terminator)
    ensures SplitInclusive(Flatten(lines), terminator) == lines
  {
    if lines != [] {
      var s, line := Flatten(lines), lines[0];
      var last := |line| - 1;
      assert s == line + Flatten(lines[1..]);
      assert s[..last] == line[..last];
      if |lines| == 1 {
        FlattenOne(line);
        assert lines == [line] && s == line;
        if line[last] == terminator {
          FirstIndexIs(s, terminator, last);
          assert s[last + 1..] == [] && s[..last + 1] == line;
        } else {
          assert line == line[..last] + [line[last]];
        }
      } else {
        assert IsTerminated(lines[0], terminator);
        FirstIndexIs(s, terminator, last);
        assert s[..last + 1] == line && s[last + 1..] == Flatten(lines[1..]);
        SplitIsUnique(lines[1..], terminator);
        assert lines == [line] + lines[1..];
      }
    }
  }

  lemma SplitSnocLine<T>(init: seq<seq<T>>, last: seq<T>, terminator: T)
    requires AreLines(init, terminator) && IsLine(last, terminator)
    requires init != [] ==> IsTerminated(init[|init| - 1], terminator)
    ensures SplitInclusive(Flatten(init) + last, terminator) == init + [last]
  {
    hide SplitInclusive, Flatten, IsLine, IsTerminated;
    FlattenSnoc(init, last);
    SplitIsUnique(init + [last], terminator);
  }

  /** Where the first line of a text ends. */
  lemma FirstIndexInLine<T>(line: seq<T>, rest: seq<T>, terminator: T)
    requires IsLine(line, terminator)
    requires IsTerminated(line, terminator) || rest == []
    ensures FirstIndex(line + rest, terminator) == if IsTerminated(line, terminator) then |line| - 1 else |line|
  {
    var last := |line| - 1;
    assert line == line[..last] + [line[last]];
    if IsTerminated(line, terminator) {
      assert (line + rest)[..last] == line[..last];
      FirstIndexIs(line + rest, terminator, last);
    } else {
      assert line + rest == line;
    }
  }

  predicate Distinct<T(==)>(s: seq<T>) {
    forall i, j :: 0 <= i < j < |s| ==> s[i] != s[j]
  }

  /** The elements that satisfy `keep`, in order. */
  function Filter<T>(s: seq<T>, keep: T -> bool): (r: seq<T>) {
    if s == [] then []
    else if keep(s[0]) then [s[0]] + Filter(s[1..], keep)
    else Filter(s[1..], keep)
  }

  lemma {:induction false} FilterMembers<T(!new)>(s: seq<T>, keep: T -> bool)
    ensures forall x :: x in Filter(s, keep) <==> x in s && keep(x)
  {
    if s != [] {
      FilterMembers(s[1..], keep);
      assert forall x :: x in s <==> x == s[0] || x in s[1..];
    }
  }

  lemma {:induction false} FilterAppend<T>(a: seq<T>, b: seq<T>, keep: T -> bool)
    ensures Filter(a + b, keep) == Filter(a, keep) + Filter(b, keep)
  {
    if a == [] {
      assert a + b == b;
    } else {
      FilterAppend(a[1..], b, keep);
      assert (a + b)[0] == a[0] && (a + b)[1..] == a[1..] + b;
    }
  }

  /** Tests that agree on the elements keep the same ones. */
  lemma {:induction false} FilterAgrees<T>(s: seq<T>, p: T -> bool, q: T -> bool)
    requires forall k :: 0 <= k < |s| ==> p(s[k]) == q(s[k])
    ensures Filter(s, p) == Filter(s, q)
  {
    if s != [] {
      FilterAgrees(s[1..], p, q);
    }
  }

  lemma {:induction false} FilterKeepsAll<T>(s: seq<T>, keep: T -> bool)
    requires forall i :: 0 <= i < |s| ==> keep(s[i])
    ensures Filter(s, keep) == s
  {
    if s != [] {
      FilterKeepsAll(s[1..], keep);
    }
  }

  lemma {:induction false} FilterKeepsNone<T>(s: seq<T>, keep: T -> bool)
    requires forall i :: 0 <= i < |s| ==> !keep(s[i])
    ensures Filter(s, keep) == []
  {
    if s != [] {
      FilterKeepsNone(s[1..], keep);
    }
  }

  lemma {:induction false} FilterDistinct<T(!new)>(s: seq<T>, keep: T -> bool)
    requires Distinct(s)
    ensures Distinct(Filter(s, keep))
  {
    if s != [] {
      FilterDistinct(s[1..], keep);
      FilterMembers(s[1..], keep);
    }
  }

  /** Filtering keeps the order. */
  lemma {:induction false} FilterKeepsOrder<T>(s: seq<T>, keep: T -> bool, p: nat, q: nat) returns (a: nat, b: nat)
    requires p < q < |s| && keep(s[p]) && keep(s[q])
    ensures a < b < |Filter(s, keep)| && Filter(s, keep)[a] == s[p] && Filter(s, keep)[b] == s[q]
  {
    assert s == s[..p + 1] + s[p + 1..] && s[..p + 1] == s[..p] + [s[p]];
    assert s[p + 1..] == s[p + 1..q] + s[q..] && s[q..][1..] == s[q + 1..];
    FilterAppend(s[..p + 1], s[p + 1..], keep);
    FilterAppend(s[..p], [s[p]], keep);
    FilterAppend(s[p + 1..q], s[q..], keep);
    assert [s[p]][1..] == [];
    a := |Filter(s[..p], keep)|;
    b := a + 1 + |Filter(s[p + 1..q], keep)|;
  }

  /** What is kept in order comes from positions in order. */
  lemma {:induction false} FilterComesFrom<T>(s: seq<T>, keep: T -> bool, a: nat, b: nat) returns (p: nat, q: nat)
    requires a < b < |Filter(s, keep)|
    ensures p < q < |s| && s[p] == Filter(s, keep)[a] && s[q] == Filter(s, keep)[b]
  {
    if !keep(s[0]) {
      p, q := FilterComesFrom(s[1..], keep, a, b);
      p, q := p + 1, q + 1;
    } else if a > 0 {
      p, q := FilterComesFrom(s[1..], keep, a - 1, b - 1);
      p, q := p + 1, q + 1;
    } else {
      p := 0;
      FilteredIsMember(s[1..], keep, b - 1);
      var j :| 0 <= j < |s[1..]| && s[1..][j] == Filter(s[1..], keep)[b - 1];
      q := j + 1;
    }
  }

  lemma {:induction false} FilteredIsMember<T>(s: seq<T>, keep: T -> bool, b: nat)
    requires b < |Filter(s, keep)|
    ensures Filter(s, keep)[b] in s && keep(Filter(s, keep)[b])
  {
    if !keep(s[0]) {
      FilteredIsMember(s[1..], keep, b);
    } else if b > 0 {
      FilteredIsMember(s[1..], keep, b - 1);
    }
  }

  /** `iter().find(p)`. */
  function Find<T>(s: seq<T>, p: T -> bool): (r: Option<T>)
    ensures r.Some? ==> r.value in s && p(r.value)
    ensures r.None? ==> forall k :: 0 <= k < |s| ==> !p(s[k])
  {
    if s == [] then None
    else if p(s[0]) then Some(s[0])
    else Find(s[1..], p)
  }

  /** `iter().rev().find(p)`. */
  function FindLast<T>(s: seq<T>, p: T -> bool): (r: Option<T>)
    ensures r.Some? ==> r.value in s && p(r.value)
    ensures r.None? ==> forall k :: 0 <= k < |s| ==> !p(s[k])
  {
    if s == [] then None
    else if p(s[|s| - 1]) then Some(s[|s| - 1])
    else FindLast(s[..|s| - 1], p)
  }

  lemma {:induction false} FindIsFirst<T>(s: seq<T>, p: T -> bool, k: nat)
    requires k < |s| && p(s[k]) && forall j :: 0 <= j < k ==> !p(s[j])
    ensures Find(s, p) == Some(s[k])
  {
    if k > 0 {
      assert !p(s[0]);
      FindIsFirst(s[1..], p, k - 1);
    }
  }

  lemma {:induction false} FindLastIsLast<T>(s: seq<T>, p: T -> bool, k: nat)
    requires k < |s| && p(s[k]) && forall j :: k < j < |s| ==> !p(s[j])
    ensures FindLast(s, p) == Some(s[k])
    decreases |s|
  {
    if k < |s| - 1 {
      assert !p(s[|s| - 1]);
      FindLastIsLast(s[..|s| - 1], p, k);
    }
  }

  /** Every element at its first occurrence only. */
  function FirstOccurrences<T(!new,==)>(s: seq<T>): (r: seq<T>)
    ensures forall x :: x in r <==> x in s
    ensures Distinct(r)
  {
    if s == [] then []
    else
      var before, last := FirstOccurrences(s[..|s| - 1]), s[|s| - 1];
      assert s == s[..|s| - 1] + [last];
      if last in before then before else before + [last]
  }

  lemma FirstOccurrencesGrow<T(!new)>(s: seq<T>, x: T)
    ensures FirstOccurrences(s + [x]) == FirstOccurrences(s) + if x in FirstOccurrences(s) then [] else [x]
  {
    assert (s + [x])[..|s|] == s;
  }

  /** Repetitions may be dropped early. */
  lemma {:induction false} FirstOccurrencesAppend<T(!new)>(a: seq<T>, b: seq<T>)
    ensures FirstOccurrences(FirstOccurrences(a) + b) == FirstOccurrences(a + b)
  {
    hide FirstOccurrences;
    if b == [] {
      assert FirstOccurrences(a) + [] == FirstOccurrences(a) && a + [] == a;
      DistinctIsKept(FirstOccurrences(a));
    } else {
      var n := |b| - 1;
      FirstOccurrencesAppend(a, b[..n]);
      assert FirstOccurrences(a) + b == (FirstOccurrences(a) + b[..n]) + [b[n]] && a + b == (a + b[..n]) + [b[n]];
      FirstOccurrencesGrow(FirstOccurrences(a) + b[..n], b[n]);
      FirstOccurrencesGrow(a + b[..n], b[n]);
    }
  }

  lemma {:induction false} DistinctIsKept<T(!new)>(s: seq<T>)
    requires Distinct(s)
    ensures FirstOccurrences(s) == s
  {
    if s != [] {
      var n := |s| - 1;
      assert s == s[..n] + [s[n]];
      DistinctIsKept(s[..n]);
      FirstOccurrencesGrow(s[..n], s[n]);
      assert s[n] !in s[..n];
    }
  }

  /** What has occurred already adds nothing. */
  lemma {:induction false} NothingNewOccurs<T(!new)>(a: seq<T>, b: seq<T>)
    requires Distinct(a) && forall x :: x in b ==> x in a
    ensures FirstOccurrences(a + b) == a
  {
    hide FirstOccurrences;
    if b == [] {
      assert a + [] == a;
      DistinctIsKept(a);
    } else {
      var n := |b| - 1;
      assert forall x :: x in b[..n] ==> x in b;
      NothingNewOccurs(a, b[..n]);
      assert a + b == (a + b[..n]) + [b[n]];
      FirstOccurrencesGrow(a + b[..n], b[n]);
      assert b[n] in b;
    }
  }

  /** `f` applied to every element. */
  function Map<T, U>(f: T -> U, s: seq<T>): (r: seq<U>)
    ensures |r| == |s|
    ensures forall k :: 0 <= k < |s| ==> r[k] == f(s[k])
  {
    seq(|s|, k requires 0 <= k < |s| => f(s[k]))
  }

  function Without<T>(s: seq<T>, k: nat): seq<T>
    requires k < |s|
  {
    s[..k] + s[k + 1..]
  }

  lemma WithoutOne<T>(s: seq<T>, k: nat)
    requires k < |s|
    ensures multiset(Without(s, k)) == multiset(s) - multiset{s[k]}
    ensures multiset(s) == multiset(Without(s, k)) + multiset{s[k]}
  {
    assert s == s[..k] + ([s[k]] + s[k + 1..]);
  }

  lemma MapWithout<T, U>(f: T -> U, s: seq<T>, k: nat)
    requires k < |s|
    ensures multiset(Map(f, s)) == multiset(Map(f, Without(s, k))) + multiset{f(s[k])}
  {
    WithoutOne(Map(f, s), k);
    assert Without(Map(f, s), k) == Map(f, Without(s, k));
  }

  /** Permuting a sequence permutes its image. */
  lemma {:induction false} MapPermutes<T, U>(f: T -> U, s: seq<T>, t: seq<T>)
    requires multiset(s) == multiset(t)
    ensures multiset(Map(f, s)) == multiset(Map(f, t))
    decreases |s|
  {
    if s == [] {
      assert |multiset(t)| == 0;
    } else {
      assert s[0] in multiset(t);
      var k :| 0 <= k < |t| && t[k] == s[0];
      assert |Without(s, 0)| < |s|;
      hide Map, Without;
      WithoutOne(s, 0);
      WithoutOne(t, k);
      MapPermutes(f, Without(s, 0), Without(t, k));
      MapWithout(f, s, 0);
      MapWithout(f, t, k);
    }
  }

  /** No repetition is the same as no multiplicity above one. */
  lemma DistinctHead<T>(s: seq<T>)
    requires s != []
    ensures Distinct(s) <==> s[0] !in s[1..] && Distinct(s[1..])
  {
    var rest := s[1..];
    assert forall j :: 0 <= j < |rest| ==> rest[j] == s[j + 1];
    if s[0] !in rest && Distinct(rest) {
      forall i, j | 0 <= i < j < |s| ensures s[i] != s[j] {
        assert s[j] == rest[j - 1];
        assert i > 0 ==> s[i] == rest[i - 1];
      }
    }
  }

  lemma {:induction false} DistinctIsMultiplicity<T>(s: seq<T>)
    ensures Distinct(s) <==> forall x :: x in s ==> multiset(s)[x] == 1
  {
    if s != [] {
      var rest := s[1..];
      DistinctHead(s);
      DistinctIsMultiplicity(rest);
      hide Distinct;
      assert s == [s[0]] + rest;
      assert multiset(s) == multiset{s[0]} + multiset(rest);
      assert s[0] in rest <==> s[0] in multiset(rest);
      if forall x :: x in s ==> multiset(s)[x] == 1 {
        assert s[0] in s && multiset(s)[s[0]] == 1;
        forall x | x in rest ensures multiset(rest)[x] == 1 {
          assert x in s && x in multiset(rest) && x != s[0];
        }
      }
    }
  }

  lemma DistinctPermutes<T>(s: seq<T>, t: seq<T>)
    requires multiset(s) == multiset(t)
    ensures Distinct(s) <==> Distinct(t)
  {
    DistinctIsMultiplicity(s);
    DistinctIsMultiplicity(t);
    hide Distinct;
    assert forall x :: x in s <==> x in multiset(s);
    assert forall x :: x in t <==> x in multiset(t);
  }

  function Reverse<T>(s: seq<T>): (r: seq<T>)
    ensures |r| == |s|
    ensures forall k :: 0 <= k < |s| ==> r[k] == s[|s| - 1 - k]
  {
    if s == [] then [] else Reverse(s[1..]) + [s[0]]
  }

  /** The indices below `n` that satisfy `p`, ascending: `enumerate().filter(p)`. */
  function Select(n: nat, p: nat -> bool): (r: seq<nat>)
    ensures forall i: nat :: i in r <==> i < n && p(i)
    ensures forall i, j :: 0 <= i < j < |r| ==> r[i] < r[j]
  {
    if n == 0 then []
    else
      var before := Select(n - 1, p);
      assert forall i :: 0 <= i < |before| ==> before[i] in before;
      if p(n - 1) then before + [n - 1] else before
  }

  /** Everything that occurs in some of the lists. */
  function Covered<T(!new)>(lists: seq<seq<T>>): (all: set<T>)
    ensures forall x :: x in all <==> exists i :: 0 <= i < |lists| && x in lists[i]
  {
    set i, x | 0 <= i < |lists| && x in lists[i] :: x
  }
}
