/** The JavaScript array operations the editor relies on, with their edge
    cases: `splice` with a relative or `undefined` start, indexing past the
    end, and `filter` by position. */
module JsArray {
  import opened Document

  /** The start position `splice` actually uses: `undefined` reads as 0, a
      negative start counts back from the end, and both ends are clamped. */
  function SpliceStart(start: Option<int>, len: nat): (k: nat)
    ensures k <= len
    ensures start.Some? && 0 <= start.value <= len ==> k == start.value
    ensures start.None? ==> k == 0
    ensures start.Some? && start.value < 0 ==> k == if len + start.value < 0 then 0 else len + start.value
    ensures start.Some? && start.value > len ==> k == len
  {
    var s := if start.None? then 0 else start.value;
    if s < 0 then (if len + s < 0 then 0 else len + s)
    else if s > len then len
    else s
  }

  /** `const [removed] = a.splice(start, 1)`: what stays in the array and the
      removed element, which is `undef` when nothing was removed. */
  function SpliceOut<T>(s: seq<T>, start: Option<int>, undef: T): (seq<T>, T)
  {
    var k := SpliceStart(start, |s|);
    if k < |s| then (s[..k] + s[k + 1..], s[k]) else (s, undef)
  }

  /** `a.splice(start, 0, x)`. */
  function SpliceIn<T>(s: seq<T>, start: Option<int>, x: T): seq<T>
  {
    var k := SpliceStart(start, |s|);
    s[..k] + [x] + s[k..]
  }

  /** Take the element at `from` out and put it back in at `to`, as the
      editor's two `splice` calls in a row do. */
  function Move<T>(s: seq<T>, from: Option<int>, to: Option<int>, undef: T): seq<T>
  {
    var (rest, moved) := SpliceOut(s, from, undef);
    SpliceIn(rest, to, moved)
  }

  /** `a[i]`: `undef` outside the array. */
  function At<T>(s: seq<T>, i: int, undef: T): (r: T)
    ensures 0 <= i < |s| ==> r == s[i]
    ensures !(0 <= i < |s|) ==> r == undef
  {
    if 0 <= i < |s| then s[i] else undef
  }

  /** `s.filter((_, j) => j !== i)` restricted to positions `j` and onward. */
  function KeepOthers<T>(s: seq<T>, i: int, j: nat): seq<T>
    requires j <= |s|
    decreases |s| - j
  {
    if j == |s| then []
    else (if j != i then [s[j]] else []) + KeepOthers(s, i, j + 1)
  }

  /** `s.filter((_, j) => j !== i)`. */
  function DropIndex<T>(s: seq<T>, i: int): seq<T>
  {
    KeepOthers(s, i, 0)
  }

  lemma {:induction false} KeepOthersIsSlice<T>(s: seq<T>, i: int, j: nat)
    requires j <= |s|
    ensures KeepOthers(s, i, j) == if j <= i < |s| then s[j..i] + s[i + 1..] else s[j..]
    decreases |s| - j
  {
    if j < |s| {
      KeepOthersIsSlice(s, i, j + 1);
      if j == i {
        assert s[j..i] == [];
      } else if j < i < |s| {
        assert s[j..i] == [s[j]] + s[j + 1..i];
      } else {
        assert s[j..] == [s[j]] + s[j + 1..];
      }
    }
  }

  /** Filtering by position drops exactly the element at `i` and keeps the
      rest in order; an `i` outside the array drops nothing. */
  lemma DropIndexRemovesOne<T>(s: seq<T>, i: int)
    ensures DropIndex(s, i) == if 0 <= i < |s| then s[..i] + s[i + 1..] else s
    ensures |DropIndex(s, i)| == if 0 <= i < |s| then |s| - 1 else |s|
  {
    KeepOthersIsSlice(s, i, 0);
    assert s[0..] == s;
    if 0 <= i < |s| { assert s[0..i] == s[..i]; }
  }

  /** With both positions inside the array, the element at `from` ends up at
      `to`, taking it out again leaves what taking it out of the input left,
      and the result is a permutation of the input. */
  lemma MoveInRange<T>(s: seq<T>, from: int, to: int, undef: T)
    requires 0 <= from < |s| && 0 <= to < |s|
    ensures var r := Move(s, Some(from), Some(to), undef);
      && |r| == |s|
      && r[to] == s[from]
      && r[..to] + r[to + 1..] == s[..from] + s[from + 1..]
      && multiset(r) == multiset(s)
  {
    var rest := s[..from] + s[from + 1..];
    assert SpliceOut(s, Some(from), undef) == (rest, s[from]);
    var r := Move(s, Some(from), Some(to), undef);
    assert r == rest[..to] + [s[from]] + rest[to..];
    assert r[..to] == rest[..to];
    assert r[to + 1..] == rest[to..];
    assert rest[..to] + rest[to..] == rest;
    calc {
      multiset(r);
      multiset(rest[..to]) + multiset([s[from]]) + multiset(rest[to..]);
      { assert rest[..to] + rest[to..] == rest; }
      multiset(rest) + multiset([s[from]]);
      multiset(s[..from]) + multiset(s[from + 1..]) + multiset([s[from]]);
      { assert s == s[..from] + [s[from]] + s[from + 1..]; }
      multiset(s);
    }
  }

  /** Moving an element that is not there (a start at or past the end, or
      any start on an empty array) inserts `undef` and loses nothing. */
  lemma MovePastEndInsertsUndefined<T>(s: seq<T>, from: int, to: Option<int>, undef: T)
    requires from >= |s|
    ensures Move(s, Some(from), to, undef) == SpliceIn(s, to, undef)
    ensures |Move(s, Some(from), to, undef)| == |s| + 1
  {
  }

  /** With both positions `undefined`, `splice` reads them as 0: a non-empty
      array comes back unchanged, an empty one gains one `undef`. */
  lemma MoveUndefinedPositions<T>(s: seq<T>, undef: T)
    ensures |s| > 0 ==> Move(s, None, None, undef) == s
    ensures |s| == 0 ==> Move(s, None, None, undef) == [undef]
  {
    if |s| > 0 {
      assert ([s[0]] + s[1..]) == s;
    }
  }

  /** The documented example: `[L0, L1, L2, L3]` moved from 2 to 0 gives
      `[L2, L0, L1, L3]`. */
  lemma MoveExample<T>(l0: T, l1: T, l2: T, l3: T, undef: T)
    ensures Move([l0, l1, l2, l3], Some(2), Some(0), undef) == [l2, l0, l1, l3]
  {
    var s := [l0, l1, l2, l3];
    assert SpliceStart(Some(2), 4) == 2;
    assert s[..2] + s[3..] == [l0, l1, l3];
    assert SpliceOut(s, Some(2), undef) == ([l0, l1, l3], l2);
    assert SpliceStart(Some(0), 3) == 0;
  }
}
