/** The four passes of SetBootSlot in bootctrl/x86_boot_control.cpp on any file: exactly when they change
    every slot letter and nothing else. */
module SlotGlue {
  import opened Bytes
  import opened Replacement
  import opened SlotSwitch

  // ----- One pass on any text

  /** No two occurrences of `f` overlap. */
  ghost predicate Apart(s: string, f: string) {
    forall p: nat, q: nat :: OccursAt(s, f, p) && OccursAt(s, f, q) && p < q ==> q - p >= |f|
  }

  /** A character that a pass changes is the end of the first match or is changed behind it. */
  lemma {:induction false} ChangeIsEnd(s: string, from: nat, f: string, r: string, q: nat, x: nat)
    requires Siblings(f, r) && from <= x < |s| && Find(s, f, from) == Some(q)
    requires |Replaced(s, from, f, r)| == |s| - from && Replaced(s, from, f, r)[x - from] != s[x]
    ensures |f| > 0 && |Replaced(s, q + |f|, f, r)| == |s| - q - |f|
    ensures x == q + |f| - 1 || (x >= q + |f| && Replaced(s, q + |f|, f, r)[x - q - |f|] != s[x])
  {
    hide Find, OccursAt, Replaced;
    ReplacedAt(s, from, f, r, q, x);
  }

  /** Two characters that a pass changes are at least a match apart. */
  lemma {:induction false} ChangesApart(s: string, from: nat, f: string, r: string, x: nat, y: nat)
    requires Siblings(f, r) && from <= x < y < |s| && |Replaced(s, from, f, r)| == |s| - from
    requires Replaced(s, from, f, r)[x - from] != s[x] && Replaced(s, from, f, r)[y - from] != s[y]
    ensures y - x >= |f|
    decreases |s| - from
  {
    hide Find, OccursAt, Siblings;
    match Find(s, f, from)
    case None =>
    case Some(q) =>
      ChangeIsEnd(s, from, f, r, q, x);
      ChangeIsEnd(s, from, f, r, q, y);
      if x >= q + |f| {
        ChangesApart(s, q + |f|, f, r, x, y);
      } else {
        OnlyMatchEndsChange(s, q + |f|, f, r, y);
      }
  }

  /** Where no two occurrences overlap each is replaced. */
  lemma {:induction false} ApartChanges(s: string, from: nat, f: string, r: string, p: nat)
    requires Siblings(f, r) && Apart(s, f) && from <= p && OccursAt(s, f, p)
    ensures p + |f| <= |s| && |Replaced(s, from, f, r)| == |s| - from
    ensures Replaced(s, from, f, r)[p + |f| - 1 - from] == r[|r| - 1] != s[p + |f| - 1]
    decreases |s| - from
  {
    SameLength(s, from, f, r);
    FindFirst(s, f, from);
    assert Agree(s, f, p, |f| - 1);
    var q := Find(s, f, from).value;
    ReplacedAt(s, from, f, r, q, p + |f| - 1);
    if q == p {
    } else {
      ApartChanges(s, q + |f|, f, r, p);
    }
  }

  /** Position `x` is where the letter `a` stands after `text`. */
  predicate EndAt(s: string, text: string, a: char, x: nat) {
    x < |s| && s[x] == a && SlotAt(s, text, x)
  }

  /** A pass changes every slot letter of its text and nothing else exactly if no two occurrences of the
      text with the letter overlap. */
  lemma {:induction false} PassSwitchesIff(s: string, text: string, a: char, b: char)
    requires a != b
    ensures ReplaceAll(s, Head(text) + [a], Head(text) + [b]) == Switched(s, [text], a, b) <==> Apart(s, Head(text) + [a])
  {
    var f, r := Head(text) + [a], Head(text) + [b];
    assert Siblings(f, r) by { HeadSiblings(Head(text), a, b); }
    SameLength(s, 0, f, r);
    if Apart(s, f) {
      forall x: nat | x < |s|
        ensures ReplaceAll(s, f, r)[x] == Switched(s, [text], a, b)[x]
      {
        ApartPassAt(s, text, a, b, x);
      }
    } else {
      var p: nat, q: nat :| OccursAt(s, f, p) && OccursAt(s, f, q) && p < q && q - p < |f|;
      OverlapMissed(s, text, a, b, p, q);
    }
  }

  lemma {:induction false} HeadSiblings(h: string, a: char, b: char)
    requires a != b
    ensures Siblings(h + [a], h + [b])
  {
    assert (h + [a])[..|h|] == h == (h + [b])[..|h|];
  }

  lemma {:induction false} OneText(s: string, text: string, x: nat)
    ensures SomeSlotAt(s, [text], x) <==> SlotAt(s, text, x)
  {
    assert [text][0] == text;
  }

  lemma {:induction false} ApartPassAt(s: string, text: string, a: char, b: char, x: nat)
    requires a != b && Apart(s, Head(text) + [a]) && x < |s|
    ensures |ReplaceAll(s, Head(text) + [a], Head(text) + [b])| == |s|
    ensures ReplaceAll(s, Head(text) + [a], Head(text) + [b])[x] == Switched(s, [text], a, b)[x]
         == if EndAt(s, text, a, x) then b else s[x]
  {
    var f, r := Head(text) + [a], Head(text) + [b];
    assert Siblings(f, r) by { HeadSiblings(Head(text), a, b); }
    SameLength(s, 0, f, r);
    OneText(s, text, x);
    SlotIsOccurrence(s, text, a, x);
    OnlyMatchEndsChange(s, 0, f, r, x);
    if EndAt(s, text, a, x) {
      ApartChanges(s, 0, f, r, x - |Head(text)|);
    }
  }

  lemma {:induction false} OverlapMissed(s: string, text: string, a: char, b: char, p: nat, q: nat)
    requires a != b && OccursAt(s, Head(text) + [a], p) && OccursAt(s, Head(text) + [a], q) && p < q < p + |Head(text)| + 1
    ensures ReplaceAll(s, Head(text) + [a], Head(text) + [b]) != Switched(s, [text], a, b)
  {
    var f, r := Head(text) + [a], Head(text) + [b];
    assert Siblings(f, r) by { HeadSiblings(Head(text), a, b); }
    SameLength(s, 0, f, r);
    EndSwitched(s, text, a, b, p);
    EndSwitched(s, text, a, b, q);
    hide Find, OccursAt, Replaced, Head, Siblings;
    if ReplaceAll(s, f, r) == Switched(s, [text], a, b) {
      ChangesApart(s, 0, f, r, p + |f| - 1, q + |f| - 1);
    }
  }

  lemma {:induction false} EndSwitched(s: string, text: string, a: char, b: char, p: nat)
    requires a != b && OccursAt(s, Head(text) + [a], p)
    ensures
      var x := p + |Head(text)|;
      x < |s| && s[x] == a && Switched(s, [text], a, b)[x] == b
  {
    SlotIsOccurrence(s, text, a, p + |Head(text)|);
    OneText(s, text, p + |Head(text)|);
  }

  // ----- Texts without slot letters

  /** The head has no slot letter in it. */
  predicate Plain(text: string, a: char, b: char) {
    a != b && forall i | 0 <= i < |Head(text)| :: Head(text)[i] != a && Head(text)[i] != b
  }

  lemma {:induction false} PlainApart(s: string, text: string, a: char, b: char)
    requires Plain(text, a, b)
    ensures Apart(s, Head(text) + [a])
  {
    var f := Head(text) + [a];
    forall p: nat, q: nat | OccursAt(s, f, p) && OccursAt(s, f, q) && p < q
      ensures q - p >= |f|
    {
      LettersAt(s, text, a, p, p + |Head(text)|);
      if q <= p + |Head(text)| {
        LettersAt(s, text, a, q, p + |Head(text)|);
      }
    }
  }

  lemma {:induction false} LettersAt(s: string, text: string, c: char, p: nat, y: nat)
    requires OccursAt(s, Head(text) + [c], p) && p <= y <= p + |Head(text)|
    ensures y < |s| && s[y] == if y - p < |Head(text)| then Head(text)[y - p] else c
  {
    assert Agree(s, Head(text) + [c], p, y - p);
  }

  /** The file has changed in slot letters only. */
  predicate LettersChanged(s: string, u: string, a: char, b: char) {
    |u| == |s| && forall x | 0 <= x < |s| :: u[x] == s[x] || (s[x] == a && u[x] == b)
  }

  lemma {:induction false} PlainSlotStays(s: string, u: string, text: string, a: char, b: char, x: nat)
    requires Plain(text, a, b) && LettersChanged(s, u, a, b)
    ensures SlotAt(u, text, x) <==> SlotAt(s, text, x)
  {
    var h := Head(text);
    if |h| <= x {
      var p := x - |h|;
      forall i: nat | i < |h| && p + |h| <= |s|
        ensures Agree(u, h, p, i) <==> Agree(s, h, p, i)
      {
      }
    }
  }

  /** One pass for a text without slot letters. */
  lemma {:induction false} PlainPassAt(s: string, u: string, text: string, a: char, b: char, x: nat)
    requires Plain(text, a, b) && LettersChanged(s, u, a, b) && x < |s|
    ensures
      var v := ReplaceAll(u, Head(text) + [a], Head(text) + [b]);
      |v| == |s| && v[x] == if u[x] == a && SlotAt(s, text, x) then b else u[x]
  {
    PlainApart(u, text, a, b);
    ApartPassAt(u, text, a, b, x);
    PlainSlotStays(s, u, text, a, b, x);
  }

  // ----- The text "androidboot.slot_suffix="

  /** What matters of "androidboot.slot_suffix=_": 'a' is its first letter only, and an underscore inside
      is followed by 's'. */
  predicate SuffixHead(h: string) {
    && |h| == 25 && h[0] == 'a' && h[1] == 'n' && h[23] == '=' && h[24] == '_'
    && (forall i | 0 < i < 25 :: h[i] != 'a')
    && (forall i | 0 <= i < 24 && h[i] == '_' :: h[i + 1] == 's')
  }

  predicate Slots(a: char, b: char) {
    (a == 'a' && b == 'b') || (a == 'b' && b == 'a')
  }

  lemma SuffixHeadOf()
    ensures SuffixHead(Head(TEXTS[2]))
  {
  }

  /** The earlier passes change letters behind an underscore that no equals sign precedes. */
  predicate WordSlotsChanged(s: string, u: string, a: char, b: char) {
    && LettersChanged(s, u, a, b)
    && forall y | 0 <= y < |s| && u[y] != s[y] :: y >= 2 && s[y - 1] == '_' && s[y - 2] != '='
  }

  /** All of `f` but its first character is found at `p`. */
  predicate OccursButFirst(s: string, f: string, p: nat) {
    p + |f| <= |s| && forall i: nat | 0 < i < |f| :: Agree(s, f, p, i)
  }

  lemma {:induction false} FirstAndRest(s: string, f: string, p: nat)
    requires f != ""
    ensures OccursAt(s, f, p) <==> OccursButFirst(s, f, p) && s[p] == f[0]
  {
    if p + |f| <= |s| {
      assert Agree(s, f, p, 0) <==> s[p] == f[0];
    }
  }

  /** Behind its first letter the text with its slot letter is not touched by the earlier passes. */
  lemma {:induction false} InsideStays(s: string, u: string, t: string, h: string, a: char, b: char, p: nat, i: nat)
    requires SuffixHead(h) && Slots(a, b) && WordSlotsChanged(s, u, a, b) && t in [s, u]
    requires OccursButFirst(t, h + [a], p) && 0 < i <= 25
    ensures u[p + i] == s[p + i]
  {
    assert Agree(t, h + [a], p, i) && (i > 1 ==> Agree(t, h + [a], p, i - 1));
    assert i == 25 ==> Agree(t, h + [a], p, 23);
    assert i == 1 ==> t[p + i] == 'n';
    assert 1 < i < 25 && t[p + i - 1] == '_' ==> t[p + i] == 's';
  }

  lemma {:induction false} RestStays(s: string, u: string, h: string, a: char, b: char, p: nat)
    requires SuffixHead(h) && Slots(a, b) && WordSlotsChanged(s, u, a, b)
    ensures OccursButFirst(u, h + [a], p) <==> OccursButFirst(s, h + [a], p)
  {
    if OccursButFirst(u, h + [a], p) {
      RestCarries(s, u, u, s, h, a, b, p);
    }
    if OccursButFirst(s, h + [a], p) {
      RestCarries(s, u, s, u, h, a, b, p);
    }
  }

  lemma {:induction false} RestCarries(s: string, u: string, from: string, to: string, h: string, a: char, b: char, p: nat)
    requires SuffixHead(h) && Slots(a, b) && WordSlotsChanged(s, u, a, b)
    requires (from, to) in [(s, u), (u, s)] && OccursButFirst(from, h + [a], p)
    ensures OccursButFirst(to, h + [a], p)
  {
    forall i: nat | 0 < i < 26
      ensures Agree(to, h + [a], p, i)
    {
      InsideStays(s, u, from, h, a, b, p, i);
      assert Agree(from, h + [a], p, i);
    }
  }

  /** The text begins at `p` with a letter that an earlier pass changed, or with the slot letter of an
      occurrence of the same text. */
  predicate Spoilt(s: string, u: string, h: string, a: char, p: nat) {
    && p < |s| == |u| && s[p] == a && OccursButFirst(s, h + [a], p)
    && (u[p] != s[p] || (a == 'a' && 25 <= p && OccursAt(s, h, p - 25)))
  }

  lemma {:induction false} SameOccurrences(s: string, u: string, h: string, a: char, b: char, p: nat)
    requires SuffixHead(h) && Slots(a, b) && WordSlotsChanged(s, u, a, b) && !Spoilt(s, u, h, a, p)
    ensures OccursAt(u, h + [a], p) <==> OccursAt(s, h + [a], p)
  {
    RestStays(s, u, h, a, b, p);
    FirstAndRest(s, h + [a], p);
    FirstAndRest(u, h + [a], p);
  }

  lemma {:induction false} OverlapSpoils(s: string, u: string, h: string, a: char, b: char, p: nat, q: nat)
    requires SuffixHead(h) && Slots(a, b) && WordSlotsChanged(s, u, a, b) && !Spoilt(s, u, h, a, p)
    requires OccursAt(u, h + [a], p) && OccursAt(u, h + [a], q) && p < q < p + 26
    ensures a == 'a' && Spoilt(s, u, h, a, q)
  {
    var f := h + [a];
    assert Agree(u, f, p, q - p) && Agree(u, f, q, 0);
    SameOccurrences(s, u, h, a, b, p);
    forall i: nat | i < |h|
      ensures Agree(s, h, p, i)
    {
      assert Agree(s, f, p, i);
    }
    FirstAndRest(u, f, q);
    RestStays(s, u, h, a, b, q);
  }

  lemma {:induction false} UnspoiltApart(s: string, u: string, h: string, a: char, b: char)
    requires SuffixHead(h) && Slots(a, b) && WordSlotsChanged(s, u, a, b)
    requires forall p: nat :: !Spoilt(s, u, h, a, p)
    ensures Apart(u, h + [a])
  {
    assert |h| == 25;
    hide OccursAt, SuffixHead, WordSlotsChanged, Slots, Spoilt;
    forall p: nat, q: nat | OccursAt(u, h + [a], p) && OccursAt(u, h + [a], q) && p < q
      ensures q - p >= |h| + 1
    {
      if q - p < |h| + 1 {
        OverlapSpoils(s, u, h, a, b, p, q);
      }
    }
  }

  /** Ending in another letter than 'a' the text never overlaps itself. */
  lemma {:induction false} OtherApart(s: string, h: string, a: char)
    requires SuffixHead(h) && a != 'a'
    ensures Apart(s, h + [a])
  {
    var f := h + [a];
    forall p: nat, q: nat | OccursAt(s, f, p) && OccursAt(s, f, q) && p < q
      ensures q - p >= |f|
    {
      assert Agree(s, f, q, 0);
      assert q - p < |f| ==> Agree(s, f, p, q - p);
    }
  }

  // ----- The pass for that text

  /** The pass has changed position `x` exactly if the slot letter stands there in the file from the start. */
  predicate ChangedRight(s: string, u: string, text: string, a: char, b: char, x: nat) {
    var v := ReplaceAll(u, Head(text) + [a], Head(text) + [b]);
    x < |s| ==> |v| == |u| == |s| && (v[x] != u[x] <==> EndAt(s, text, a, x))
  }

  lemma {:induction false} UnspoiltChanges(s: string, u: string, text: string, a: char, b: char, x: nat)
    requires SuffixHead(Head(text)) && Slots(a, b) && WordSlotsChanged(s, u, a, b)
    requires forall p: nat :: !Spoilt(s, u, Head(text), a, p)
    ensures ChangedRight(s, u, text, a, b, x)
  {
    if x < |s| {
      UnspoiltApart(s, u, Head(text), a, b);
      ApartPassAt(u, text, a, b, x);
      SlotIsOccurrence(u, text, a, x);
      SlotIsOccurrence(s, text, a, x);
      if 25 <= x {
        SameOccurrences(s, u, Head(text), a, b, x - 25);
      }
    }
  }

  lemma {:induction false} CreatedAt(s: string, u: string, text: string, a: char, b: char, p: nat)
    requires SuffixHead(Head(text)) && a == 'b' && b == 'a' && WordSlotsChanged(s, u, a, b) && Spoilt(s, u, Head(text), a, p)
    ensures !ChangedRight(s, u, text, a, b, p + 25)
  {
    var f, x := Head(text) + [a], p + 25;
    FirstAndRest(s, f, p);
    FirstAndRest(u, f, p);
    RestStays(s, u, Head(text), a, b, p);
    OtherApart(u, Head(text), a);
    ApartPassAt(u, text, a, b, x);
    SlotIsOccurrence(u, text, a, x);
    SlotIsOccurrence(s, text, a, x);
  }

  lemma {:induction false} DestroyedAt(s: string, u: string, text: string, a: char, b: char, p: nat)
    requires SuffixHead(Head(text)) && a == 'a' && b == 'b' && WordSlotsChanged(s, u, a, b) && Spoilt(s, u, Head(text), a, p)
    requires u[p] != s[p]
    ensures !ChangedRight(s, u, text, a, b, p + 25)
  {
    var f, x := Head(text) + [a], p + 25;
    FirstAndRest(s, f, p);
    FirstAndRest(u, f, p);
    SlotIsOccurrence(s, text, a, x);
    HeadSiblings(Head(text), a, b);
    OnlyMatchEndsChange(u, 0, f, Head(text) + [b], x);
  }

  lemma {:induction false} ChainedAt(s: string, u: string, text: string, a: char, b: char, p: nat)
    requires SuffixHead(Head(text)) && a == 'a' && b == 'b' && |u| == |s|
    requires p < |s| && s[p] == a && OccursButFirst(s, Head(text) + [a], p) && 25 <= p && OccursAt(s, Head(text), p - 25)
    ensures !ChangedRight(s, u, text, a, b, p) || !ChangedRight(s, u, text, a, b, p + 25)
  {
    var f, r := Head(text) + [a], Head(text) + [b];
    FirstAndRest(s, f, p);
    SlotIsOccurrence(s, text, a, p + 25);
    assert EndAt(s, text, a, p) && EndAt(s, text, a, p + 25);
    HeadSiblings(Head(text), a, b);
    SameLength(u, 0, f, r);
    var v := ReplaceAll(u, f, r);
    if v[p] != u[p] && v[p + 25] != u[p + 25] {
      ChangesApart(u, 0, f, r, p, p + 25);
    }
  }

  /** The pass changes exactly the slot letters of its text exactly if none is spoilt. */
  lemma {:induction false} SuffixPassIff(s: string, u: string, text: string, a: char, b: char)
    requires SuffixHead(Head(text)) && Slots(a, b) && WordSlotsChanged(s, u, a, b)
    ensures (forall x: nat :: ChangedRight(s, u, text, a, b, x)) <==> (forall p: nat :: !Spoilt(s, u, Head(text), a, p))
  {
    hide OccursAt, SuffixHead, WordSlotsChanged, ChangedRight, OccursButFirst;
    if forall p: nat :: !Spoilt(s, u, Head(text), a, p) {
      forall x: nat
        ensures ChangedRight(s, u, text, a, b, x)
      {
        UnspoiltChanges(s, u, text, a, b, x);
      }
    } else {
      var p: nat :| Spoilt(s, u, Head(text), a, p);
      if a == 'b' {
        CreatedAt(s, u, text, a, b, p);
      } else if u[p] != s[p] {
        DestroyedAt(s, u, text, a, b, p);
      } else {
        ChainedAt(s, u, text, a, b, p);
      }
    }
  }

  // ----- The four passes

  /** The file after the passes for "kernel" and "initrd". */
  function WordPasses(s: string, a: char, b: char): string {
    ReplaceAll(ReplaceAll(s, Head(TEXTS[0]) + [a], Head(TEXTS[0]) + [b]), Head(TEXTS[1]) + [a], Head(TEXTS[1]) + [b])
  }

  lemma {:induction false} FourPasses(s: string, a: char, b: char)
    ensures
      var v := ReplaceAll(WordPasses(s, a, b), Head(TEXTS[2]) + [a], Head(TEXTS[2]) + [b]);
      Passes(s, TEXTS, ['_', a], ['_', b]) == ReplaceAll(v, Head(TEXTS[3]) + [a], Head(TEXTS[3]) + [b])
  {
    hide ReplaceAll;
    assert forall k | 0 <= k < 4 :: TEXTS[k] + ['_', a] == Head(TEXTS[k]) + [a] && TEXTS[k] + ['_', b] == Head(TEXTS[k]) + [b];
    assert TEXTS[1..][0] == TEXTS[1] && TEXTS[1..][1..] == TEXTS[2..];
    assert TEXTS[2..][0] == TEXTS[2] && TEXTS[2..][1..] == TEXTS[3..];
    assert TEXTS[3..][0] == TEXTS[3] && TEXTS[3..][1..] == [];
  }

  lemma PlainTexts(a: char, b: char)
    requires Slots(a, b)
    ensures Plain(TEXTS[0], a, b) && Plain(TEXTS[1], a, b) && Plain(TEXTS[3], a, b)
  {
  }

  lemma {:induction false} PassLetters(u: string, text: string, a: char, b: char)
    requires a != b
    ensures LettersChanged(u, ReplaceAll(u, Head(text) + [a], Head(text) + [b]), a, b)
  {
    HeadSiblings(Head(text), a, b);
    SameLength(u, 0, Head(text) + [a], Head(text) + [b]);
    forall x: nat | x < |u|
      ensures
        var v := ReplaceAll(u, Head(text) + [a], Head(text) + [b]);
        v[x] == u[x] || (EndAt(u, text, a, x) && v[x] == b)
    {
      PassChanges(u, text, a, b, x);
    }
  }

  /** A pass changes nothing but slot letters of its text. */
  lemma {:induction false} PassChanges(u: string, text: string, a: char, b: char, x: nat)
    requires a != b && x < |u|
    ensures
      var v := ReplaceAll(u, Head(text) + [a], Head(text) + [b]);
      |v| == |u| && (v[x] == u[x] || (EndAt(u, text, a, x) && v[x] == b))
  {
    HeadSiblings(Head(text), a, b);
    OnlyMatchEndsChange(u, 0, Head(text) + [a], Head(text) + [b], x);
    SlotIsOccurrence(u, text, a, x);
  }

  lemma LettersChain(s: string, u: string, v: string, a: char, b: char)
    requires a != b && LettersChanged(s, u, a, b) && LettersChanged(u, v, a, b)
    ensures LettersChanged(s, v, a, b)
  {
  }

  lemma {:induction false} WordPassesAt(s: string, a: char, b: char, x: nat)
    requires Slots(a, b) && x < |s|
    ensures
      var u := WordPasses(s, a, b);
      |u| == |s| && u[x] == if s[x] == a && (SlotAt(s, TEXTS[0], x) || SlotAt(s, TEXTS[1], x)) then b else s[x]
  {
    assert LettersChanged(s, s, a, b);
    hide ReplaceAll, SlotAt, Head, Plain, LettersChanged;
    PlainTexts(a, b);
    var first := ReplaceAll(s, Head(TEXTS[0]) + [a], Head(TEXTS[0]) + [b]);
    PassLetters(s, TEXTS[0], a, b);
    PlainPassAt(s, s, TEXTS[0], a, b, x);
    PlainPassAt(s, first, TEXTS[1], a, b, x);
  }

  lemma {:induction false} WordSlotLetters(s: string, k: nat, x: nat)
    requires k < 2 && SlotAt(s, TEXTS[k], x)
    ensures 2 <= x <= |s| && s[x - 1] == '_' && s[x - 2] != '='
  {
    SlotLetters(s, TEXTS[k], x, 6);
  }

  lemma {:induction false} WordPassesLength(s: string, a: char, b: char)
    requires a != b
    ensures |WordPasses(s, a, b)| == |s|
  {
    hide ReplaceAll;
    PassLetters(s, TEXTS[0], a, b);
    PassLetters(ReplaceAll(s, Head(TEXTS[0]) + [a], Head(TEXTS[0]) + [b]), TEXTS[1], a, b);
  }

  lemma {:induction false} WordPassesChange(s: string, a: char, b: char)
    requires Slots(a, b)
    ensures WordSlotsChanged(s, WordPasses(s, a, b), a, b)
  {
    hide WordPasses, SlotAt;
    var u := WordPasses(s, a, b);
    WordPassesLength(s, a, b);
    forall x: nat | x < |s|
      ensures u[x] == s[x] || (s[x] == a && u[x] == b && x >= 2 && s[x - 1] == '_' && s[x - 2] != '=')
    {
      WordPassesAt(s, a, b, x);
      if SlotAt(s, TEXTS[0], x) {
        WordSlotLetters(s, 0, x);
      } else if SlotAt(s, TEXTS[1], x) {
        WordSlotLetters(s, 1, x);
      }
    }
  }

  /** A slot letter of "androidboot.slot_suffix=" is one of no other text. */
  lemma {:induction false} SlotsDiffer(s: string, x: nat)
    requires SlotAt(s, TEXTS[2], x)
    ensures !SlotAt(s, TEXTS[0], x) && !SlotAt(s, TEXTS[1], x) && !SlotAt(s, TEXTS[3], x)
  {
    SlotLetters(s, TEXTS[2], x, 23);
    if SlotAt(s, TEXTS[0], x) {
      SlotLetters(s, TEXTS[0], x, 5);
    } else if SlotAt(s, TEXTS[1], x) {
      SlotLetters(s, TEXTS[1], x, 5);
    } else if SlotAt(s, TEXTS[3], x) {
      SlotLetters(s, TEXTS[3], x, 3);
    }
  }

  lemma {:induction false} SomeOfFour(s: string, x: nat)
    ensures SomeSlotAt(s, TEXTS, x)
       <==> SlotAt(s, TEXTS[0], x) || SlotAt(s, TEXTS[1], x) || SlotAt(s, TEXTS[2], x) || SlotAt(s, TEXTS[3], x)
  {
    assert |TEXTS| == 4;
    hide SlotAt, TEXTS;
  }

  /** The last pass, which changes the slot letters of "SLOT=". */
  lemma {:induction false} LastPassAt(s: string, a: char, b: char, x: nat)
    requires Slots(a, b) && x < |s|
    ensures
      var u := WordPasses(s, a, b);
      var v := ReplaceAll(u, Head(TEXTS[2]) + [a], Head(TEXTS[2]) + [b]);
      var w := Passes(s, TEXTS, ['_', a], ['_', b]);
      && |w| == |v| == |u| == |s|
      && w[x] == (if v[x] == a && SlotAt(s, TEXTS[3], x) then b else v[x])
      && (v[x] != u[x] ==> u[x] == a && v[x] == b && !SlotAt(s, TEXTS[3], x))
  {
    hide ReplaceAll, SlotAt, Head, Plain, LettersChanged, Passes, WordPasses, Switched;
    var u := WordPasses(s, a, b);
    var v := ReplaceAll(u, Head(TEXTS[2]) + [a], Head(TEXTS[2]) + [b]);
    FourPasses(s, a, b);
    PlainTexts(a, b);
    WordPassesChange(s, a, b);
    PassLetters(u, TEXTS[2], a, b);
    WordPassesLength(s, a, b);
    PassChanges(u, TEXTS[2], a, b, x);
    LettersChain(s, u, v, a, b);
    PlainPassAt(s, v, TEXTS[3], a, b, x);
    PlainSlotStays(s, u, TEXTS[3], a, b, x);
    if v[x] != u[x] {
      SlotsDiffer(u, x);
    }
  }

  /** A position comes out right exactly if the pass for "androidboot.slot_suffix=" treats it right. */
  lemma {:induction false} RightAt(s: string, a: char, b: char, x: nat)
    requires Slots(a, b) && x < |s|
    ensures |Passes(s, TEXTS, ['_', a], ['_', b])| == |s|
    ensures Passes(s, TEXTS, ['_', a], ['_', b])[x] == Switched(s, TEXTS, a, b)[x]
       <==> ChangedRight(s, WordPasses(s, a, b), TEXTS[2], a, b, x)
  {
    hide ReplaceAll, SlotAt, Head, Passes, WordPasses, SomeSlotAt;
    LastPassAt(s, a, b, x);
    WordPassesAt(s, a, b, x);
    SomeOfFour(s, x);
    if SlotAt(s, TEXTS[2], x) {
      SlotsDiffer(s, x);
    }
  }

  /** The text "androidboot.slot_suffix=" with the letter `a`, its first letter aside, lies at `p`, where
      the letter `a` stands as the slot letter of "kernel" or "initrd", or of the same text when `a` is
      'a'. */
  predicate SharedLetter(s: string, a: char, p: nat) {
    && p < |s| && s[p] == a && OccursButFirst(s, Head(TEXTS[2]) + [a], p)
    && (SlotAt(s, TEXTS[0], p) || SlotAt(s, TEXTS[1], p) || (a == 'a' && SlotAt(s, TEXTS[2], p)))
  }

  lemma {:induction false} SharedIsSpoilt(s: string, a: char, b: char, p: nat)
    requires Slots(a, b)
    ensures SharedLetter(s, a, p) <==> Spoilt(s, WordPasses(s, a, b), Head(TEXTS[2]), a, p)
  {
    hide WordPasses, OccursButFirst;
    WordPassesLength(s, a, b);
    if p < |s| {
      WordPassesAt(s, a, b, p);
      assert |Head(TEXTS[2])| == 25;
    }
  }

  /** SetBootSlot changes every slot letter and nothing else in exactly the files without a shared letter. */
  lemma {:induction false} SetBootSlotSwitchesIff(s: string, a: char, b: char)
    requires Slots(a, b)
    ensures Passes(s, TEXTS, ['_', a], ['_', b]) == Switched(s, TEXTS, a, b) <==> forall p: nat :: !SharedLetter(s, a, p)
  {
    var u, w := WordPasses(s, a, b), Passes(s, TEXTS, ['_', a], ['_', b]);
    SuffixHeadOf();
    WordPassesChange(s, a, b);
    SuffixPassIff(s, u, TEXTS[2], a, b);
    hide ReplaceAll, SlotAt, Head, Passes, WordPasses, Switched, SharedLetter, Spoilt, ChangedRight;
    forall p: nat
      ensures SharedLetter(s, a, p) <==> Spoilt(s, u, Head(TEXTS[2]), a, p)
    {
      SharedIsSpoilt(s, a, b, p);
    }
    PassesLength(s, a, b);
    forall x: nat
      ensures ChangedRight(s, u, TEXTS[2], a, b, x) <==> (x < |s| ==> w[x] == Switched(s, TEXTS, a, b)[x])
    {
      if x < |s| {
        RightAt(s, a, b, x);
      } else {
        BeyondEnd(s, u, TEXTS[2], a, b, x);
      }
    }
    SameByPosition(w, Switched(s, TEXTS, a, b));
  }

  lemma {:induction false} PassesLength(s: string, a: char, b: char)
    requires Slots(a, b)
    ensures |Passes(s, TEXTS, ['_', a], ['_', b])| == |Switched(s, TEXTS, a, b)| == |s|
  {
    hide ReplaceAll, Passes, WordPasses;
    FourPasses(s, a, b);
    WordPassesLength(s, a, b);
    var u := WordPasses(s, a, b);
    PassLetters(u, TEXTS[2], a, b);
    PassLetters(ReplaceAll(u, Head(TEXTS[2]) + [a], Head(TEXTS[2]) + [b]), TEXTS[3], a, b);
  }

  lemma BeyondEnd(s: string, u: string, text: string, a: char, b: char, x: nat)
    requires x >= |s|
    ensures ChangedRight(s, u, text, a, b, x)
  {
  }

  lemma SameByPosition(w: string, t: string)
    requires |w| == |t|
    ensures w == t <==> forall x: nat :: x < |w| ==> w[x] == t[x]
  {
  }

  /** Such a file: the first letter of the second text is the slot letter of "kernel". */
  lemma {:induction false} SharedWithKernel(s: string)
    requires s == Head(TEXTS[0]) + Head(TEXTS[2]) + ['a']
    ensures SharedLetter(s, 'a', 7) && Passes(s, TEXTS, ['_', 'a'], ['_', 'b']) != Switched(s, TEXTS, 'a', 'b')
  {
    SuffixHeadOf();
    assert |Head(TEXTS[0])| == 7;
    hide Passes, Switched, Head;
    SharedByConcat(s, Head(TEXTS[0]), Head(TEXTS[2]), 'a');
    SetBootSlotSwitchesIff(s, 'a', 'b');
  }

  lemma {:induction false} SharedByConcat(s: string, word: string, h: string, a: char)
    requires s == word + h + [a] && h != "" && h[0] == a
    ensures OccursAt(s, word, 0) && s[|word|] == a && OccursButFirst(s, h + [a], |word|)
  {
    var at := |word|;
    assert forall i: nat | i < |word| :: Agree(s, word, 0, i);
    assert forall i: nat | 0 < i <= |h| :: Agree(s, h + [a], at, i);
  }

  // ----- What is left of the old letter, and the way back

  /** A slot letter `a` at `p` of any text, with "androidboot.slot_suffix=" and the letter `a` behind it but for its
      first letter. */
  predicate LateLetter(s: string, a: char, p: nat) {
    p < |s| && s[p] == a && SomeSlotAt(s, TEXTS, p) && OccursButFirst(s, Head(TEXTS[2]) + [a], p)
  }

  lemma {:induction false} SwitchedLetters(s: string, a: char, b: char)
    requires a != b
    ensures LettersChanged(s, Switched(s, TEXTS, a, b), a, b)
  {
  }

  /** Inside its head that text is not touched by switching. */
  lemma {:induction false} HeadInsideStays(s: string, t: string, h: string, a: char, b: char, p: nat, i: nat)
    requires SuffixHead(h) && Slots(a, b) && t in [s, Switched(s, TEXTS, a, b)]
    requires OccursButFirst(t, h, p) && 0 < i < 25
    ensures p + i < |s| && Switched(s, TEXTS, a, b)[p + i] == s[p + i]
  {
    assert Agree(t, h, p, i) && (i > 1 ==> Agree(t, h, p, i - 1));
    assert i > 1 && t[p + i - 1] == '_' ==> t[p + i] == 's';
    if Switched(s, TEXTS, a, b)[p + i] != s[p + i] {
      BeforeChange(s, TEXTS, a, b, p + i);
    }
  }

  lemma {:induction false} HeadCarries(s: string, from: string, to: string, h: string, a: char, b: char, p: nat)
    requires SuffixHead(h) && Slots(a, b) && (from, to) in [(s, Switched(s, TEXTS, a, b)), (Switched(s, TEXTS, a, b), s)]
    requires OccursButFirst(from, h, p)
    ensures OccursButFirst(to, h, p)
  {
    hide SuffixHead, Slots, Switched;
    SameSize(s, a, b);
    HeadLength(h);
    forall i: nat | 0 < i < 25
      ensures Agree(to, h, p, i)
    {
      HeadInsideStays(s, from, h, a, b, p, i);
      assert Agree(from, h, p, i);
    }
  }

  lemma SameSize(s: string, a: char, b: char)
    ensures |Switched(s, TEXTS, a, b)| == |s|
  {
  }

  lemma HeadLength(h: string)
    requires SuffixHead(h)
    ensures |h| == 25 && h[0] == 'a'
  {
  }

  /** Where that text has its slots after switching. */
  lemma {:induction false} SuffixSlotAfter(s: string, text: string, a: char, b: char, x: nat)
    requires SuffixHead(Head(text)) && Slots(a, b)
    ensures
      var w := Switched(s, TEXTS, a, b);
      SlotAt(w, text, x) <==> 25 <= x <= |s| && OccursButFirst(s, Head(text), x - 25) && w[x - 25] == 'a'
  {
    var h, w := Head(text), Switched(s, TEXTS, a, b);
    HeadLength(h);
    SameSize(s, a, b);
    hide SuffixHead, Slots, Switched, Head;
    if 25 <= x {
      var p := x - 25;
      FirstAndRest(w, h, p);
      if OccursButFirst(w, h, p) {
        HeadCarries(s, w, s, h, a, b, p);
      }
      if OccursButFirst(s, h, p) {
        HeadCarries(s, s, w, h, a, b, p);
      }
    }
  }

  /** All of the text and its letter but for the first is its head but for the first, and the letter. */
  lemma {:induction false} ButFirstAndLetter(s: string, h: string, c: char, p: nat)
    requires h != ""
    ensures OccursButFirst(s, h + [c], p) <==> OccursButFirst(s, h, p) && p + |h| < |s| && s[p + |h|] == c
  {
    var f := h + [c];
    if p + |f| <= |s| {
      assert Agree(s, f, p, |h|) <==> s[p + |h|] == c;
      assert forall i: nat | i < |h| :: Agree(s, f, p, i) <==> Agree(s, h, p, i);
    }
  }

  lemma {:induction false} TailIsNoSlot(s: string, h: string, p: nat)
    requires h == Head(TEXTS[2]) && OccursButFirst(s, h, p)
    ensures !SlotAt(s, TEXTS[0], p + 25) && !SlotAt(s, TEXTS[1], p + 25) && !SlotAt(s, TEXTS[3], p + 25)
  {
    assert Agree(s, h, p, 23) && Agree(s, h, p, 22);
    assert s[p + 23] == '=' && s[p + 22] == 'x';
    if SlotAt(s, TEXTS[0], p + 25) {
      SlotLetters(s, TEXTS[0], p + 25, 5);
    } else if SlotAt(s, TEXTS[1], p + 25) {
      SlotLetters(s, TEXTS[1], p + 25, 5);
    } else if SlotAt(s, TEXTS[3], p + 25) {
      SlotLetters(s, TEXTS[3], p + 25, 3);
    }
  }

  /** Where any text has its slots after switching. */
  lemma {:induction false} SlotsAfter(s: string, a: char, b: char, x: nat)
    requires Slots(a, b)
    ensures
      var w := Switched(s, TEXTS, a, b);
      SomeSlotAt(w, TEXTS, x)
      <==> SlotAt(s, TEXTS[0], x) || SlotAt(s, TEXTS[1], x) || SlotAt(s, TEXTS[3], x)
           || (25 <= x <= |s| && OccursButFirst(s, Head(TEXTS[2]), x - 25) && w[x - 25] == 'a')
  {
    var w := Switched(s, TEXTS, a, b);
    SuffixHeadOf();
    PlainTexts(a, b);
    SwitchedLetters(s, a, b);
    hide Switched, Head, TEXTS, SlotAt, Plain, SuffixHead, LettersChanged;
    SomeOfFour(w, x);
    PlainSlotStays(s, w, TEXTS[0], a, b, x);
    PlainSlotStays(s, w, TEXTS[1], a, b, x);
    PlainSlotStays(s, w, TEXTS[3], a, b, x);
    SuffixSlotAfter(s, TEXTS[2], a, b, x);
  }

  lemma {:induction false} SuffixSlotAt(s: string, h: string, x: nat)
    requires h == Head(TEXTS[2])
    ensures SlotAt(s, TEXTS[2], x) <==> 25 <= x && OccursButFirst(s, h, x - 25) && s[x - 25] == 'a'
  {
    SuffixHeadOf();
    HeadLength(h);
    if 25 <= x {
      FirstAndRest(s, h, x - 25);
    }
  }

  /** Where the old letter is left. */
  lemma {:induction false} OldLeftIff(s: string, a: char, b: char, x: nat)
    requires Slots(a, b) && x < |s|
    ensures
      var w := Switched(s, TEXTS, a, b);
      w[x] == a && SomeSlotAt(w, TEXTS, x) <==> 25 <= x && a == 'b' && LateLetter(s, a, x - 25)
  {
    SuffixFacts(s, a, b, x);
    hide Head, TEXTS, SlotAt, OccursButFirst, SomeSlotAt;
  }

  /** Where a slot is lost. */
  lemma {:induction false} LostIff(s: string, a: char, b: char, x: nat)
    requires Slots(a, b) && x < |s|
    ensures
      var w := Switched(s, TEXTS, a, b);
      s[x] == a && SomeSlotAt(s, TEXTS, x) && !SomeSlotAt(w, TEXTS, x) <==> 25 <= x && a == 'a' && LateLetter(s, a, x - 25)
  {
    SuffixFacts(s, a, b, x);
    hide Head, TEXTS, SlotAt, OccursButFirst, SomeSlotAt;
  }

  lemma {:induction false} SuffixFacts(s: string, a: char, b: char, x: nat)
    requires Slots(a, b) && x < |s|
    ensures
      var w, h := Switched(s, TEXTS, a, b), Head(TEXTS[2]);
      && (SomeSlotAt(s, TEXTS, x) <==> SlotAt(s, TEXTS[0], x) || SlotAt(s, TEXTS[1], x) || SlotAt(s, TEXTS[3], x)
                                       || (25 <= x && OccursButFirst(s, h, x - 25) && s[x - 25] == 'a'))
      && (SomeSlotAt(w, TEXTS, x) <==> SlotAt(s, TEXTS[0], x) || SlotAt(s, TEXTS[1], x) || SlotAt(s, TEXTS[3], x)
                                       || (25 <= x && OccursButFirst(s, h, x - 25) && w[x - 25] == 'a'))
      && (25 <= x && OccursButFirst(s, h, x - 25) ==> !SlotAt(s, TEXTS[0], x) && !SlotAt(s, TEXTS[1], x) && !SlotAt(s, TEXTS[3], x))
      && (25 <= x ==> (OccursButFirst(s, h + [a], x - 25) <==> OccursButFirst(s, h, x - 25) && s[x] == a))
  {
    hide Head, TEXTS, SlotAt, OccursButFirst, Switched, SomeSlotAt, Slots;
    SlotsAfter(s, a, b, x);
    SuffixBefore(s, x);
    if 25 <= x {
      SuffixBehind(s, a, x - 25);
    }
  }

  lemma {:induction false} SuffixBefore(s: string, x: nat)
    ensures SomeSlotAt(s, TEXTS, x)
       <==> SlotAt(s, TEXTS[0], x) || SlotAt(s, TEXTS[1], x) || SlotAt(s, TEXTS[3], x)
            || (25 <= x && OccursButFirst(s, Head(TEXTS[2]), x - 25) && s[x - 25] == 'a')
  {
    assert |TEXTS| == 4;
    hide Head, TEXTS, SlotAt, OccursButFirst, SomeSlotAt;
    SomeOfFour(s, x);
    SuffixSlotAt(s, Head(TEXTS[2]), x);
  }

  lemma {:induction false} SuffixBehind(s: string, a: char, p: nat)
    ensures
      var h := Head(TEXTS[2]);
      && (OccursButFirst(s, h + [a], p) <==> OccursButFirst(s, h, p) && p + 25 < |s| && s[p + 25] == a)
      && (OccursButFirst(s, h, p) ==> !SlotAt(s, TEXTS[0], p + 25) && !SlotAt(s, TEXTS[1], p + 25) && !SlotAt(s, TEXTS[3], p + 25))
  {
    var h := Head(TEXTS[2]);
    SuffixHeadOf();
    HeadLength(h);
    hide Head, TEXTS, SlotAt, OccursButFirst;
    ButFirstAndLetter(s, h, a, p);
    if OccursButFirst(s, h, p) {
      TailIsNoSlot(s, h, p);
    }
  }

  lemma {:induction false} HasSlotIff(w: string, c: char)
    ensures (exists k | 0 <= k < |TEXTS| :: HasSlot(w, TEXTS[k], c)) <==> exists x: nat :: x < |w| && w[x] == c && SomeSlotAt(w, TEXTS, x)
  {
    if k :| 0 <= k < |TEXTS| && HasSlot(w, TEXTS[k], c) {
      var p: nat :| OccursAt(w, Head(TEXTS[k]) + [c], p);
      var x := p + |Head(TEXTS[k])|;
      SlotIsOccurrence(w, TEXTS[k], c, x);
      assert SomeSlotAt(w, TEXTS, x);
    }
    if x: nat :| x < |w| && w[x] == c && SomeSlotAt(w, TEXTS, x) {
      var k :| 0 <= k < |TEXTS| && SlotAt(w, TEXTS[k], x);
      SlotIsOccurrence(w, TEXTS[k], c, x);
      assert HasSlot(w, TEXTS[k], c);
    }
  }

  /** On any file without a shared letter: switching to slot b leaves no old letter, and switching to slot a leaves
      none exactly if no late letter is there. */
  lemma {:induction false} NoOldLetterIff(s: string, a: char, b: char)
    requires Slots(a, b) && forall p: nat :: !SharedLetter(s, a, p)
    ensures (forall k | 0 <= k < |TEXTS| :: !HasSlot(Passes(s, TEXTS, ['_', a], ['_', b]), TEXTS[k], a))
       <==> (a == 'a' || forall p: nat :: !LateLetter(s, a, p))
  {
    var w := Switched(s, TEXTS, a, b);
    SetBootSlotSwitchesIff(s, a, b);
    HasSlotIff(w, a);
    SameSize(s, a, b);
    hide Passes, Switched, SharedLetter, HasSlot, SomeSlotAt, TEXTS;
    forall x: nat | x < |s|
      ensures w[x] == a && SomeSlotAt(w, TEXTS, x) <==> 25 <= x && a == 'b' && LateLetter(s, a, x - 25)
    {
      OldLeftIff(s, a, b, x);
    }
    if a == 'b' {
      if p: nat :| LateLetter(s, a, p) {
        LateIsInside(s, a, p);
        assert w[p + 25] == a && SomeSlotAt(w, TEXTS, p + 25);
      }
    }
  }

  lemma LateIsInside(s: string, a: char, p: nat)
    requires LateLetter(s, a, p)
    ensures p + 25 < |s|
  {
  }

  /** On any file without a shared letter, and without one after switching: switching back restores the file exactly
      if no late letter is there, when the old letter is 'a', and no letter that was the new one before stands in a
      slot afterwards. */
  lemma {:induction false} SwitchedBackIff(s: string, a: char, b: char)
    requires Slots(a, b) && forall p: nat :: !SharedLetter(s, a, p)
    requires forall p: nat :: !SharedLetter(Switched(s, TEXTS, a, b), b, p)
    ensures Passes(Passes(s, TEXTS, ['_', a], ['_', b]), TEXTS, ['_', b], ['_', a]) == s
       <==> (a == 'b' || forall p: nat :: !LateLetter(s, a, p))
            && forall x: nat :: x < |s| && s[x] == b ==> !SomeSlotAt(Switched(s, TEXTS, a, b), TEXTS, x)
  {
    var w := Switched(s, TEXTS, a, b);
    var back := Switched(w, TEXTS, b, a);
    SetBootSlotSwitchesIff(s, a, b);
    SetBootSlotSwitchesIff(w, b, a);
    SameSize(s, a, b);
    SameSize(w, b, a);
    assert a != b;
    hide Passes, Switched, SharedLetter, SomeSlotAt, TEXTS, LateLetter, Slots;
    forall x: nat
      ensures (x < |s| ==> back[x] == s[x])
         <==> (x < |s| ==> !(25 <= x && a == 'a' && LateLetter(s, a, x - 25)) && (s[x] == b ==> !SomeSlotAt(w, TEXTS, x)))
    {
      if x < |s| {
        LostIff(s, a, b, x);
        BackAt(s, a, b, x);
      }
    }
    SameByPosition(back, s);
    if a == 'a' {
      if p: nat :| LateLetter(s, a, p) {
        LateIsInside(s, a, p);
        assert !(p + 25 < |s| ==> back[p + 25] == s[p + 25]);
      }
    }
  }

  lemma BackAt(s: string, a: char, b: char, x: nat)
    requires a != b && x < |s|
    ensures
      var w := Switched(s, TEXTS, a, b);
      Switched(w, TEXTS, b, a)[x] == s[x]
      <==> if s[x] == a then SomeSlotAt(s, TEXTS, x) ==> SomeSlotAt(w, TEXTS, x) else s[x] == b ==> !SomeSlotAt(w, TEXTS, x)
  {
    hide SomeSlotAt, TEXTS;
  }

  /** Such a letter: in SLOT=_androidboot.slot_suffix=_a the last pass takes the first letter from the third text. */
  lemma {:induction false} LateBehindSlot(s: string)
    requires s == Head(TEXTS[3]) + Head(TEXTS[2]) + ['a']
    ensures LateLetter(s, 'a', 6)
  {
    SuffixHeadOf();
    assert |Head(TEXTS[3])| == 6;
    hide Head;
    SharedByConcat(s, Head(TEXTS[3]), Head(TEXTS[2]), 'a');
    assert SlotAt(s, TEXTS[3], 6);
  }

  /** The four texts as they stand in the file: SetBootSlot changes the letter behind exactly these. */
  lemma {:induction false} LettersByText(s: string, a: char, b: char, x: nat)
    requires Slots(a, b) && x < |s| && forall p: nat :: !SharedLetter(s, a, p)
    ensures |Passes(s, TEXTS, ['_', a], ['_', b])| == |s|
    ensures
      Passes(s, TEXTS, ['_', a], ['_', b])[x]
      == if s[x] == a && (|| (7 <= x && OccursAt(s, "kernel_", x - 7)) || (7 <= x && OccursAt(s, "initrd_", x - 7))
                          || (25 <= x && OccursAt(s, "androidboot.slot_suffix=_", x - 25)) || (6 <= x && OccursAt(s, "SLOT=_", x - 6)))
         then b else s[x]
  {
    SetBootSlotSwitchesIff(s, a, b);
    SomeOfFour(s, x);
    assert Head(TEXTS[0]) == "kernel_" && Head(TEXTS[1]) == "initrd_" && Head(TEXTS[3]) == "SLOT=_";
    assert Head(TEXTS[2]) == "androidboot.slot_suffix=_";
    hide OccursAt, Passes, SharedLetter, SomeSlotAt;
  }
}
