/** Left-to-right, non-overlapping string replacement as findAndReplace of
    bootctrl/x86_boot_control.cpp does it, and what one pass between two texts that differ in
    their last character achieves. */
module Replacement {
  import opened Bytes

  // ----- Searching

  /** Character `i` of `f`, if there is one, is found in `s` when `f` is laid on it at `p`. */
  predicate Agree(s: string, f: string, p: nat, i: nat) {
    i < |f| ==> p + i < |s| && s[p + i] == f[i]
  }

  predicate OccursAt(s: string, f: string, p: nat) {
    p + |f| <= |s| && forall i: nat | i < |f| :: Agree(s, f, p, i)
  }

  ghost predicate Contains(s: string, f: string) {
    exists p: nat :: OccursAt(s, f, p)
  }

  /** `s.find(f, from)`: the first occurrence at or after `from`. */
  function Find(s: string, f: string, from: nat): (r: Option<nat>)
    ensures r.Some? ==> from <= r.value && r.value + |f| <= |s|
    decreases |s| - from
  {
    if from + |f| > |s| then None
    else if OccursAt(s, f, from) then Some(from)
    else Find(s, f, from + 1)
  }

  // ----- Left-to-right, non-overlapping replacement

  /** What replacing makes of `s` from `from` on. */
  function Replaced(s: string, from: nat, f: string, r: string): string
    requires f != "" && from <= |s|
    decreases |s| - from
  {
    match Find(s, f, from)
    case None => s[from..]
    case Some(p) => s[from..p] + r + Replaced(s, p + |f|, f, r)
  }

  function ReplaceAll(s: string, f: string, r: string): string
    requires f != ""
  {
    Replaced(s, 0, f, r)
  }

  /** The loop over a text scanned up to `start`: replace the next match and scan on behind it. */
  ghost function Scan(t: string, start: nat, f: string, r: string): string
    requires f != "" && start <= |t|
    decreases |t| - start
  {
    match Find(t, f, start)
    case None => t
    case Some(p) => Scan(t[..p] + r + t[p + |f|..], p + |r|, f, r)
  }

  ghost predicate FirstFrom(s: string, f: string, from: nat, r: Option<nat>) {
    && (r.Some? ==> from <= r.value && OccursAt(s, f, r.value))
    && (forall p: nat | from <= p && (r.Some? ==> p < r.value) :: !OccursAt(s, f, p))
  }

  /** Find returns the first occurrence at or after `from`, and nothing else. */
  lemma {:induction false} FindFirst(s: string, f: string, from: nat)
    ensures FirstFrom(s, f, from, Find(s, f, from))
    decreases |s| - from
  {
    if from + |f| > |s| || OccursAt(s, f, from) {
    } else {
      FindFirst(s, f, from + 1);
    }
  }

  lemma {:induction false} FindIs(s: string, f: string, from: nat, r: Option<nat>)
    requires FirstFrom(s, f, from, r)
    ensures Find(s, f, from) == r
  {
    FindFirst(s, f, from);
    var found := Find(s, f, from);
    assert found.Some? ==> OccursAt(s, f, found.value);
    assert r.Some? ==> OccursAt(s, f, r.value);
  }

  lemma {:induction false} OccursShift(s: string, from: nat, done: string, f: string, p: nat)
    requires from <= |s|
    ensures OccursAt(done + s[from..], f, |done| + p) <==> OccursAt(s, f, from + p)
  {
    var t, at, there := done + s[from..], |done| + p, from + p;
    forall i: nat | i < |f| && there + |f| <= |s|
      ensures Agree(t, f, at, i) <==> Agree(s, f, there, i)
    {
      assert t[at + i] == s[there + i];
    }
  }

  lemma {:induction false} OccursInSuffix(s: string, from: nat, f: string, p: nat)
    requires from <= |s|
    ensures OccursAt(s[from..], f, p) <==> OccursAt(s, f, from + p)
  {
    OccursShift(s, from, "", f, p);
    assert "" + s[from..] == s[from..];
  }

  /** Finding does not depend on what precedes the place where it starts. */
  lemma {:induction false} FindShift(s: string, from: nat, done: string, f: string)
    requires from <= |s|
    ensures Find(done + s[from..], f, |done|)
         == match Find(s, f, from) case None => None case Some(p) => Some(|done| + (p - from))
  {
    var t := done + s[from..];
    var r := Find(s, f, from);
    FindFirst(s, f, from);
    forall q: nat | |done| <= q && (r.Some? ==> q < |done| + (r.value - from))
      ensures !OccursAt(t, f, q)
    {
      OccursShift(s, from, done, f, q - |done|);
    }
    if r.Some? {
      OccursShift(s, from, done, f, r.value - from);
    }
    FindIs(t, f, |done|, match r case None => None case Some(p) => Some(|done| + (p - from)));
  }

  /** Scanning a text whose first part is `done` and whose rest is that of `s` from `from` on keeps
      the first part and replaces in the rest. */
  lemma {:induction false} ScanIsReplaced(t: string, s: string, from: nat, done: string, f: string, r: string)
    requires f != "" && from <= |s| && t == done + s[from..]
    ensures Scan(t, |done|, f, r) == done + Replaced(s, from, f, r)
    decreases |s| - from
  {
    hide Find, OccursAt;
    match Find(t, f, |done|)
    case None =>
      FindShift(s, from, done, f);
    case Some(at) =>
      var next := ReplacedStep(t, s, from, done, f, r, at);
      var head, tail := t[..at] + r, t[at + |f|..];
      assert |head| == at + |r|;
      ScanIsReplaced(head + tail, s, next, head, f, r);
  }

  lemma {:induction false} ReplacedStep(t: string, s: string, from: nat, done: string, f: string, r: string, at: nat)
    returns (next: nat)
    requires f != "" && from <= |s| && t == done + s[from..] && Find(t, f, |done|) == Some(at)
    ensures from < next <= |s| && t[at + |f|..] == s[next..]
    ensures (t[..at] + r) + Replaced(s, next, f, r) == done + Replaced(s, from, f, r)
  {
    hide Find, OccursAt;
    FindShift(s, from, done, f);
    var p := from + (at - |done|);
    next := p + |f|;
    SliceShift(s, from, done, p);
    SliceShift(s, from, done, next);
    Assemble(done, s[from..p], r, Replaced(s, next, f, r), t[..at], Replaced(s, from, f, r));
  }

  lemma Assemble(done: string, gap: string, r: string, rest: string, head: string, whole: string)
    requires head == done + gap && whole == gap + r + rest
    ensures (head + r) + rest == done + whole
  {
  }

  lemma SliceShift(s: string, from: nat, done: string, p: nat)
    requires from <= p <= |s|
    ensures (done + s[from..])[..|done| + (p - from)] == done + s[from..p]
    ensures (done + s[from..])[|done| + (p - from)..] == s[p..]
  {
  }

  // ----- Replacing is cutting at the leftmost matches and rejoining

  /** The pieces of a text with `glue` between each two. */
  function Join(pieces: seq<string>, glue: string): string
    requires pieces != []
  {
    if |pieces| == 1 then pieces[0] else pieces[0] + glue + Join(pieces[1..], glue)
  }

  /** A cut at the leftmost, non-overlapping occurrences of `f`: in a piece followed by `f` the
      first occurrence is that `f`, and the last piece has none. */
  ghost predicate CutLeftmost(pieces: seq<string>, f: string) {
    && pieces != []
    && (forall i | 0 <= i < |pieces| - 1 :: Find(pieces[i] + f, f, 0) == Some(|pieces[i]|))
    && Find(pieces[|pieces| - 1], f, 0) == None
  }

  /** Every text has such a cut; replacing rejoins it with `r`, and each match changes the length
      by |r| - |f|. */
  lemma {:induction false} ReplacingRejoins(s: string, f: string, r: string) returns (pieces: seq<string>)
    requires f != ""
    ensures CutLeftmost(pieces, f) && Join(pieces, f) == s
    ensures ReplaceAll(s, f, r) == Join(pieces, r)
    ensures |ReplaceAll(s, f, r)| == |s| + (|pieces| - 1) * (|r| - |f|)
  {
    pieces := CutFrom(s, 0, f, r);
    assert s[0..] == s;
    JoinLengths(pieces, f, r);
  }

  lemma {:induction false} CutFrom(s: string, from: nat, f: string, r: string) returns (pieces: seq<string>)
    requires f != "" && from <= |s|
    ensures CutLeftmost(pieces, f) && Join(pieces, f) == s[from..] && Join(pieces, r) == Replaced(s, from, f, r)
    decreases |s| - from
  {
    match Find(s, f, from)
    case None =>
      FindShift(s, from, "", f);
      assert "" + s[from..] == s[from..];
      pieces := [s[from..]];
    case Some(q) =>
      var rest := CutFrom(s, q + |f|, f, r);
      FirstMatch(s, from, f, q);
      RestoreMatch(s, from, f, q);
      CutCons(s[from..q], rest, f, r);
      pieces := [s[from..q]] + rest;
  }

  lemma {:induction false} CutCons(first: string, rest: seq<string>, f: string, r: string)
    requires f != "" && CutLeftmost(rest, f) && Find(first + f, f, 0) == Some(|first|)
    ensures CutLeftmost([first] + rest, f)
    ensures Join([first] + rest, f) == first + f + Join(rest, f)
    ensures Join([first] + rest, r) == first + r + Join(rest, r)
  {
    var pieces := [first] + rest;
    assert pieces[1..] == rest;
    assert forall i | 1 <= i < |pieces| :: pieces[i] == rest[i - 1];
  }

  lemma {:induction false} JoinLengths(pieces: seq<string>, f: string, r: string)
    requires pieces != []
    ensures |Join(pieces, r)| == |Join(pieces, f)| + (|pieces| - 1) * (|r| - |f|)
    decreases |pieces|
  {
    if |pieces| == 1 {
    } else {
      JoinLengths(pieces[1..], f, r);
      assert (|pieces| - 1) * (|r| - |f|) == (|pieces| - 2) * (|r| - |f|) + (|r| - |f|);
    }
  }

  lemma {:induction false} OccursIsSlice(s: string, f: string, p: nat)
    requires OccursAt(s, f, p)
    ensures s[p..p + |f|] == f
  {
    forall i: nat | i < |f|
      ensures s[p..p + |f|][i] == f[i]
    {
      assert Agree(s, f, p, i);
    }
  }

  lemma {:induction false} RestoreMatch(s: string, from: nat, f: string, q: nat)
    requires from <= q && Find(s, f, from) == Some(q)
    ensures s[from..] == s[from..q] + f + s[q + |f|..]
  {
    FindFirst(s, f, from);
    OccursIsSlice(s, f, q);
  }

  /** Nothing after the first match matters for finding it. */
  lemma {:induction false} FirstMatch(s: string, from: nat, f: string, q: nat)
    requires from <= |s| && Find(s, f, from) == Some(q)
    ensures Find(s[from..q] + f, f, 0) == Some(q - from)
  {
    FindFirst(s, f, from);
    var t, at := s[from..q] + f, q - from;
    assert forall i: nat | i < |f| :: Agree(t, f, at, i);
    forall p: nat | p < at
      ensures !OccursAt(t, f, p)
    {
      if OccursAt(t, f, p) {
        var there := from + p;
        forall i: nat | i < |f|
          ensures Agree(s, f, there, i)
        {
          assert Agree(t, f, p, i);
          assert there + i >= q ==> Agree(s, f, q, there + i - q);
        }
        assert OccursAt(s, f, there);
      }
    }
    FindIs(t, f, 0, Some(at));
  }

  /** The cut is unique, so it alone determines the result. */
  lemma {:induction false} CutDetermines(pieces: seq<string>, f: string, r: string)
    requires f != "" && CutLeftmost(pieces, f)
    ensures ReplaceAll(Join(pieces, f), f, r) == Join(pieces, r)
  {
    CutDeterminesFrom(pieces, "", f, r, Join(pieces, f));
  }

  lemma {:induction false} CutDeterminesFrom(pieces: seq<string>, done: string, f: string, r: string, s: string)
    requires f != "" && CutLeftmost(pieces, f) && s == done + Join(pieces, f)
    ensures Replaced(s, |done|, f, r) == Join(pieces, r)
    decreases |pieces|
  {
    hide Find, OccursAt;
    if |pieces| == 1 {
      FindShift(pieces[0], 0, done, f);
      assert pieces[0][0..] == pieces[0];
      assert s[|done|..] == pieces[0];
    } else {
      var first, rest := pieces[0], pieces[1..];
      Regroup(done, first, f, Join(rest, f));
      CutDeterminesFrom(rest, done + first + f, f, r, s);
      FirstReplaced(done, first, f, r, Join(rest, f), Join(rest, r), s);
    }
  }

  lemma Regroup(a: string, b: string, c: string, d: string)
    ensures a + (b + c + d) == a + b + c + d
  {
  }

  lemma {:induction false} FirstReplaced(done: string, first: string, f: string, r: string, rest: string,
                                         result: string, s: string)
    requires f != "" && s == done + first + f + rest && Find(first + f, f, 0) == Some(|first|)
    requires Replaced(s, |done| + |first| + |f|, f, r) == result
    ensures Replaced(s, |done|, f, r) == first + r + result
  {
    FindWithin(done, first, f, rest);
    assert s[|done|..|done| + |first|] == first;
  }

  lemma {:induction false} FindWithin(done: string, first: string, f: string, rest: string)
    requires Find(first + f, f, 0) == Some(|first|)
    ensures Find(done + first + f + rest, f, |done|) == Some(|done| + |first|)
  {
    FindFirst(first + f, f, 0);
    var s, t := done + first + f + rest, first + f;
    var at := |done| + |first|;
    assert forall i: nat | i < |f| :: Agree(s, f, at, i);
    forall p: nat | |done| <= p < at
      ensures !OccursAt(s, f, p)
    {
      if OccursAt(s, f, p) {
        var there := p - |done|;
        forall i: nat | i < |f|
          ensures Agree(t, f, there, i)
        {
          assert Agree(s, f, p, i);
        }
        assert OccursAt(t, f, there);
      }
    }
    FindIs(s, f, |done|, Some(at));
  }

  // ----- One pass between two texts that differ in their last character

  /** The two texts have one length and differ exactly in the last character. */
  predicate Siblings(f: string, r: string) {
    |f| == |r| > 0 && f[..|f| - 1] == r[..|r| - 1] && f[|f| - 1] != r[|r| - 1]
  }

  /** `s` has a border of length `k`: a proper prefix that is also a suffix. */
  predicate Border(s: string, k: nat) {
    0 < k < |s| && OccursAt(s, s[..k], |s| - k)
  }

  ghost predicate BorderFree(s: string) {
    forall k: nat :: !Border(s, k)
  }

  lemma {:induction false} SameLength(s: string, from: nat, f: string, r: string)
    requires Siblings(f, r) && from <= |s|
    ensures |Replaced(s, from, f, r)| == |s| - from
    decreases |s| - from
  {
    hide Find;
    match Find(s, f, from)
    case None =>
    case Some(q) => SameLength(s, q + |f|, f, r);
  }

  /** The result by position: the text up to the end of the first match but for its last
      character, the new last character, and the replaced rest. */
  lemma {:induction false} ReplacedAt(s: string, from: nat, f: string, r: string, q: nat, i: nat)
    requires Siblings(f, r) && from <= i < |s| && Find(s, f, from) == Some(q)
    ensures |Replaced(s, from, f, r)| == |s| - from && |Replaced(s, q + |f|, f, r)| == |s| - q - |f|
    ensures Replaced(s, from, f, r)[i - from]
         == if i < q + |f| - 1 then s[i]
            else if i == q + |f| - 1 then r[|r| - 1]
            else Replaced(s, q + |f|, f, r)[i - q - |f|]
  {
    hide Find, OccursAt;
    SameLength(s, from, f, r);
    SameLength(s, q + |f|, f, r);
    PieceAt(s[from..q], r, Replaced(s, q + |f|, f, r), i - from);
    if q <= i < q + |f| - 1 {
      FindFirst(s, f, from);
      SiblingsAgree(s, f, r, q, i);
    }
  }

  lemma PieceAt(gap: string, r: string, rest: string, k: nat)
    requires k < |gap| + |r| + |rest|
    ensures (gap + r + rest)[k]
         == if k < |gap| then gap[k] else if k < |gap| + |r| then r[k - |gap|] else rest[k - |gap| - |r|]
  {
  }

  lemma {:induction false} SiblingsAgree(s: string, f: string, r: string, q: nat, i: nat)
    requires Siblings(f, r) && OccursAt(s, f, q) && q <= i < q + |f| - 1
    ensures s[i] == r[i - q]
  {
    assert Agree(s, f, q, i - q);
    assert f[..|f| - 1][i - q] == r[..|r| - 1][i - q];
  }

  /** The first match is gone. */
  lemma {:induction false} MatchGone(s: string, from: nat, f: string, r: string, q: nat)
    requires Siblings(f, r) && from <= |s| && Find(s, f, from) == Some(q)
    ensures !OccursAt(Replaced(s, from, f, r), f, q - from)
  {
    var result, last, there := Replaced(s, from, f, r), |f| - 1, q - from;
    ReplacedAt(s, from, f, r, q, q + last);
    assert result[there + last] == r[last];
    assert !Agree(result, f, there, last);
  }

  /** Only last characters of matches change, and the length stays. */
  lemma {:induction false} OnlyMatchEndsChange(s: string, from: nat, f: string, r: string, i: nat)
    requires Siblings(f, r) && from <= i < |s|
    ensures |Replaced(s, from, f, r)| == |s| - from
    ensures Replaced(s, from, f, r)[i - from] != s[i] ==>
              && from + |f| <= i + 1 && OccursAt(s, f, i + 1 - |f|)
              && Replaced(s, from, f, r)[i - from] == r[|r| - 1]
    decreases |s| - from
  {
    hide Find;
    SameLength(s, from, f, r);
    match Find(s, f, from)
    case None =>
    case Some(q) =>
      ReplacedAt(s, from, f, r, q, i);
      if i == q + |f| - 1 {
        FindFirst(s, f, from);
      } else if i >= q + |f| {
        OnlyMatchEndsChange(s, q + |f|, f, r, i);
      }
  }

  /** An occurrence in the result before the first match was in the text before. */
  lemma {:induction false} OccursBefore(s: string, from: nat, f: string, r: string, q: nat, x: string, p: nat)
    requires Siblings(f, r) && from <= p < q && Find(s, f, from) == Some(q) && |x| == |f|
    requires OccursAt(Replaced(s, from, f, r), x, p - from)
    ensures OccursAt(s, x, p)
  {
    FindFirst(s, f, from);
    var there := p - from;
    forall i: nat | i < |x|
      ensures Agree(s, x, p, i)
    {
      assert Agree(Replaced(s, from, f, r), x, there, i);
      ReplacedAt(s, from, f, r, q, p + i);
    }
  }

  /** An occurrence across the end of the first replaced match starts with a border of it. */
  lemma {:induction false} OverlapIsBorder(s: string, from: nat, f: string, r: string, q: nat, p: nat)
    requires Siblings(f, r) && from <= q < p < q + |f| && Find(s, f, from) == Some(q)
    requires OccursAt(Replaced(s, from, f, r), f, p - from)
    ensures Border(r, q + |f| - p)
  {
    FindFirst(s, f, from);
    var m, k, there := |f|, q + |f| - p, p - from;
    var at := m - k;
    forall i: nat | i < k
      ensures Agree(r, r[..k], at, i)
    {
      assert Agree(Replaced(s, from, f, r), f, there, i);
      assert Agree(s, f, q, at + i);
      ReplacedAt(s, from, f, r, q, p + i);
      assert f[..m - 1][i] == r[..m - 1][i];
      assert at + i < m - 1 ==> f[..m - 1][at + i] == r[..m - 1][at + i];
    }
  }

  /** No occurrence of the old text survives if the new text is border-free. */
  lemma {:induction false} NothingLeft(s: string, from: nat, f: string, r: string, p: nat)
    requires Siblings(f, r) && BorderFree(r) && from <= p <= |s|
    ensures !OccursAt(Replaced(s, from, f, r), f, p - from)
    decreases |s| - from
  {
    var result := Replaced(s, from, f, r);
    FindFirst(s, f, from);
    SameLength(s, from, f, r);
    var there := p - from;
    if OccursAt(result, f, there) {
      match Find(s, f, from)
      case None =>
        OccursInSuffix(s, from, f, there);
      case Some(q) =>
        if p < q {
          OccursBefore(s, from, f, r, q, f, p);
        } else if p == q {
          MatchGone(s, from, f, r, q);
        } else if p < q + |f| {
          OverlapIsBorder(s, from, f, r, q, p);
        } else {
          NothingLeft(s, q + |f|, f, r, p);
          OccursAfter(s, from, f, r, q, p);
        }
    }
  }

  lemma {:induction false} OccursAfter(s: string, from: nat, f: string, r: string, q: nat, p: nat)
    requires Siblings(f, r) && from <= q && q + |f| <= p && Find(s, f, from) == Some(q)
    requires OccursAt(Replaced(s, from, f, r), f, p - from)
    ensures OccursAt(Replaced(s, q + |f|, f, r), f, p - q - |f|)
  {
    var there, at := p - from, p - q - |f|;
    var whole, rest := Replaced(s, from, f, r), Replaced(s, q + |f|, f, r);
    SameLength(s, from, f, r);
    SameLength(s, q + |f|, f, r);
    forall i: nat | i < |f|
      ensures Agree(rest, f, at, i)
    {
      assert Agree(whole, f, there, i);
      ReplacedAt(s, from, f, r, q, p + i);
    }
  }

  /** A border of the new text lets the old one reappear across the end of a match. */
  lemma {:induction false} BorderLeavesOne(f: string, r: string, k: nat) returns (s: string)
    requires Siblings(f, r) && Border(r, k)
    ensures Contains(ReplaceAll(s, f, r), f)
  {
    var m := |f|;
    s := f + f[k..];
    assert forall i: nat | i < m :: Agree(s, f, 0, i);
    FindFirst(s, f, 0);
    assert Find(s, f, 0) == Some(0);
    assert Replaced(s, m, f, r) == s[m..] == f[k..];
    var result := ReplaceAll(s, f, r);
    var at := m - k;
    assert result == s[0..0] + r + f[k..] == r + f[k..];
    forall i: nat | i < m
      ensures Agree(result, f, at, i)
    {
      if i < k {
        assert Agree(r, r[..k], at, i);
        assert f[..m - 1][i] == r[..m - 1][i];
      }
    }
    assert OccursAt(result, f, at);
  }

  ghost predicate Leaves(s: string, f: string, r: string)
    requires f != ""
  {
    Contains(ReplaceAll(s, f, r), f)
  }

  /** A pass leaves nothing of the old text in any file exactly when the new text is border-free. */
  lemma {:induction false} NothingLeftIff(f: string, r: string)
    requires Siblings(f, r)
    ensures (forall s :: !Leaves(s, f, r)) <==> BorderFree(r)
  {
    if BorderFree(r) {
      forall s
        ensures !Leaves(s, f, r)
      {
        NothingLeftAnywhere(s, f, r);
      }
    } else {
      var k: nat :| Border(r, k);
      var s := BorderLeavesOne(f, r, k);
      assert Leaves(s, f, r);
    }
  }

  lemma {:induction false} NothingLeftAnywhere(s: string, f: string, r: string)
    requires Siblings(f, r) && BorderFree(r)
    ensures !Contains(ReplaceAll(s, f, r), f)
  {
    SameLength(s, 0, f, r);
    forall p: nat
      ensures !OccursAt(ReplaceAll(s, f, r), f, p)
    {
      if p <= |s| {
        NothingLeft(s, 0, f, r, p);
      }
    }
  }

  // ----- Replacing back

  /** A leftmost cut at the old text is one at the new text too if the text had none of it. */
  lemma {:induction false} CutBack(pieces: seq<string>, f: string, r: string)
    requires Siblings(f, r) && CutLeftmost(pieces, f) && !Contains(Join(pieces, f), r)
    ensures CutLeftmost(pieces, r)
    decreases |pieces|
  {
    if |pieces| == 1 {
      assert forall p: nat :: !OccursAt(pieces[0], r, p);
      FindIs(pieces[0], r, 0, None);
    } else {
      var first, rest := pieces[0], pieces[1..];
      forall p: nat
        ensures !OccursAt(Join(rest, f), r, p)
      {
        if OccursAt(Join(rest, f), r, p) {
          OccursInside(first + f, Join(rest, f), "", r, p);
        }
      }
      CutBack(rest, f, r);
      FirstBack(first, Join(rest, f), f, r);
      assert pieces == [first] + rest;
      assert forall i | 1 <= i < |pieces| :: pieces[i] == rest[i - 1];
    }
  }

  lemma {:induction false} FirstBack(first: string, rest: string, f: string, r: string)
    requires Siblings(f, r) && Find(first + f, f, 0) == Some(|first|) && !Contains(first + f + rest, r)
    ensures Find(first + r, r, 0) == Some(|first|)
  {
    var there := |first|;
    forall p: nat | p < |first|
      ensures !OccursAt(first + r, r, p)
    {
      if OccursAt(first + r, r, p) {
        forall i: nat | i < |r|
          ensures Agree(first + f, r, p, i)
        {
          assert Agree(first + r, r, p, i);
          assert p + i >= there ==> f[..|f| - 1][p + i - there] == r[..|r| - 1][p + i - there];
        }
        assert "" + (first + f) + rest == first + f + rest;
        OccursInside("", first + f, rest, r, p);
      }
    }
    assert forall i: nat | i < |r| :: Agree(first + r, r, there, i);
    FindIs(first + r, r, 0, Some(there));
  }

  lemma {:induction false} OccursInside(before: string, s: string, after: string, f: string, p: nat)
    requires OccursAt(s, f, p)
    ensures OccursAt(before + s + after, f, |before| + p)
    ensures after == "" ==> OccursAt(before + s, f, |before| + p)
  {
    var at := |before| + p;
    forall i: nat | i < |f|
      ensures Agree(before + s + after, f, at, i)
    {
      assert Agree(s, f, p, i);
    }
    assert after == "" ==> before + s + after == before + s;
  }

  /** Where two joins of the same pieces first differ: at the end of the first glue. */
  lemma {:induction false} JoinsDiffer(pieces: seq<string>, f: string, r: string)
    requires Siblings(f, r) && |pieces| > 1
    ensures
      var x, y, e := Join(pieces, f), Join(pieces, r), |pieces[0]| + |f| - 1;
      e < |x| == |y| && x[e] != y[e] && x[..e] == y[..e] && x[..|pieces[0]|] == pieces[0]
      && x[e + 1..] == Join(pieces[1..], f) && y[e + 1..] == Join(pieces[1..], r)
  {
    JoinLengths(pieces, f, r);
    GlueDiffers(pieces[0], f, r, Join(pieces[1..], f), Join(pieces[1..], r));
  }

  lemma {:induction false} GlueDiffers(first: string, f: string, r: string, a: string, b: string)
    requires Siblings(f, r)
    ensures
      var x, y, e := first + f + a, first + r + b, |first| + |f| - 1;
      x[e] != y[e] && x[..e] == y[..e] && x[..|first|] == first && x[e + 1..] == a && y[e + 1..] == b
  {
    var last := |f| - 1;
    assert first + f + a == first + f[..last] + ([f[last]] + a);
    assert first + r + b == first + r[..last] + ([r[last]] + b);
  }

  /** Pieces are determined by their joins with two siblings. */
  lemma {:induction false} PiecesDetermined(p: seq<string>, q: seq<string>, f: string, r: string)
    requires Siblings(f, r) && p != [] && q != []
    requires Join(p, f) == Join(q, f) && Join(p, r) == Join(q, r)
    ensures p == q
    decreases |p|
  {
    hide Siblings;
    var x, y := Join(p, f), Join(p, r);
    if |p| == 1 && |q| == 1 {
      assert p == [p[0]] && q == [q[0]];
    } else if |p| == 1 {
      JoinsDiffer(q, f, r);
    } else if |q| == 1 {
      JoinsDiffer(p, f, r);
    } else {
      JoinsDiffer(p, f, r);
      JoinsDiffer(q, f, r);
      SameFirstDifference(x, y, |p[0]| + |f| - 1, |q[0]| + |f| - 1);
      PiecesDetermined(p[1..], q[1..], f, r);
      assert p == [p[0]] + p[1..] && q == [q[0]] + q[1..];
    }
  }

  lemma {:induction false} SameFirstDifference(x: string, y: string, d: nat, e: nat)
    requires d < |x| == |y| && e < |x| && x[d] != y[d] && x[e] != y[e] && x[..d] == y[..d] && x[..e] == y[..e]
    ensures d == e
  {
    if d < e {
      PrefixAgrees(x, y, e, d);
    } else if e < d {
      PrefixAgrees(x, y, d, e);
    }
  }

  lemma {:induction false} PrefixAgrees(x: string, y: string, n: nat, i: nat)
    requires i < n <= |x| == |y| && x[..n] == y[..n]
    ensures x[i] == y[i]
  {
    assert x[..n][i] == y[..n][i];
  }

  /** A pass is undone by the opposite pass exactly when the text, cut at the leftmost matches of the
      old text, is by the same pieces cut at the leftmost matches of the new text after the pass. So it
      is undone on every text that did not contain the new text before, and for a border-free old text
      on no other. */
  lemma {:induction false} ReplacingBackIff(s: string, f: string, r: string) returns (pieces: seq<string>)
    requires Siblings(f, r)
    ensures CutLeftmost(pieces, f) && Join(pieces, f) == s
    ensures ReplaceAll(ReplaceAll(s, f, r), r, f) == s <==> CutLeftmost(pieces, r)
    ensures !Contains(s, r) ==> ReplaceAll(ReplaceAll(s, f, r), r, f) == s
    ensures BorderFree(f) && Contains(s, r) ==> ReplaceAll(ReplaceAll(s, f, r), r, f) != s
  {
    hide Find, OccursAt, Replaced;
    pieces := ReplacingRejoins(s, f, r);
    if CutLeftmost(pieces, r) {
      CutDetermines(pieces, r, f);
    } else {
      var others := ReplacingRejoins(ReplaceAll(s, f, r), r, f);
      if ReplaceAll(ReplaceAll(s, f, r), r, f) == s {
        PiecesDetermined(pieces, others, f, r);
      }
    }
    if !Contains(s, r) {
      CutBack(pieces, f, r);
    } else if BorderFree(f) {
      NothingLeftAnywhere(ReplaceAll(s, f, r), r, f);
    }
  }
}
