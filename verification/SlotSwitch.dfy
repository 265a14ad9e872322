/** The slot switch of bootctrl/x86_boot_control.cpp: four passes of in-place replacement over the
    boot loader's configuration file, one for each text that a slot suffix follows. */
module SlotSwitch {
  import opened Bytes
  import opened Replacement

  class BootConfig {
    var content: string

    constructor (text: string)
      ensures content == text
    {
      content := text;
    }

    method FindAndReplace(findStr: string, replaceStr: string)
      requires findStr != ""
      modifies this
      ensures content == ReplaceAll(old(content), findStr, replaceStr)
    {
      hide Find, OccursAt, Replaced;
      ghost var s := content;
      var pos := Find(content, findStr, 0);
      ghost var start: nat := 0;
      while pos.Some?
        invariant start <= |content| && pos == Find(content, findStr, start)
        invariant Scan(content, start, findStr, replaceStr) == Scan(s, 0, findStr, replaceStr)
        decreases |content| - start
      {
        var at := pos.value;
        content := content[..at] + replaceStr + content[at + |findStr|..];
        start := at + |replaceStr|;
        pos := Find(content, findStr, at + |replaceStr|);
      }
      ScanIsReplaced(s, s, 0, "", findStr, replaceStr);
    }

    /** The four passes. Without an old suffix nothing is done. */
    method SetBootSlot(oldSuffix: string, newSuffix: string) returns (ok: bool)
      modifies this
      ensures ok <==> oldSuffix != ""
      ensures content == if ok then Passes(old(content), TEXTS, oldSuffix, newSuffix) else old(content)
    {
      if oldSuffix == "" {
        return false;
      }
      for i := 0 to |TEXTS|
        invariant Passes(content, TEXTS[i..], oldSuffix, newSuffix)
               == Passes(old(content), TEXTS, oldSuffix, newSuffix)
      {
        var text := TEXTS[i];
        assert TEXTS[i..][1..] == TEXTS[i + 1..];
        FindAndReplace(text + oldSuffix, text + newSuffix);
      }
      ok := true;
    }
  }

  const TEXTS: seq<string> := ["kernel", "initrd", "androidboot.slot_suffix=", "SLOT="]

  function Passes(s: string, texts: seq<string>, oldSuffix: string, newSuffix: string): string
    requires oldSuffix != ""
    decreases |texts|
  {
    if texts == [] then s
    else Passes(ReplaceAll(s, texts[0] + oldSuffix, texts[0] + newSuffix), texts[1..], oldSuffix, newSuffix)
  }

  // ----- Texts and files

  /** What precedes the slot letter: a text and the underscore of the suffix. */
  function Head(text: string): string {
    text + "_"
  }

  /** The letters `a` and `b` follow an underscore nowhere inside the head. */
  predicate GoodText(text: string, a: char, b: char) {
    && a != b && a != '_' && b != '_'
    && forall i | 0 <= i < |text| && text[i] == '_' && i + 1 < |text| :: text[i + 1] != a && text[i + 1] != b
  }

  ghost predicate GoodTexts(texts: seq<string>, a: char, b: char) {
    forall k | 0 <= k < |texts| :: GoodText(texts[k], a, b)
  }

  /** A text that begins with a slot letter lies at `p` with that letter being the end of a suffix. */
  predicate Glued(s: string, text: string, a: char, b: char, p: nat) {
    && 0 < p && p + |Head(text)| <= |s| && s[p - 1] == '_'
    && Head(text)[0] in [a, b] && s[p] in [a, b]
    && OccursAt(s, Head(text)[1..], p + 1)
  }

  /** No text of the file is glued to the suffix of another. */
  ghost predicate Delimited(s: string, texts: seq<string>, a: char, b: char) {
    forall k, p: nat | 0 <= k < |texts| :: !Glued(s, texts[k], a, b, p)
  }

  /** Position `x` is where the slot letter after `text` stands. */
  predicate SlotAt(s: string, text: string, x: nat) {
    |Head(text)| <= x && OccursAt(s, Head(text), x - |Head(text)|)
  }

  predicate SomeSlotAt(s: string, texts: seq<string>, x: nat) {
    exists k | 0 <= k < |texts| :: SlotAt(s, texts[k], x)
  }

  /** The file with every slot letter `a` changed to `b` and nothing else. */
  function Switched(s: string, texts: seq<string>, a: char, b: char): string {
    seq(|s|, x requires 0 <= x < |s| => if s[x] == a && SomeSlotAt(s, texts, x) then b else s[x])
  }

  /** The text occurs with the slot letter `c`. */
  ghost predicate HasSlot(s: string, text: string, c: char) {
    Contains(s, Head(text) + [c])
  }

  lemma {:induction false} SlotIsOccurrence(s: string, text: string, c: char, x: nat)
    ensures (x < |s| && s[x] == c && SlotAt(s, text, x))
       <==> (|Head(text)| <= x && OccursAt(s, Head(text) + [c], x - |Head(text)|))
  {
    var h := Head(text);
    if |h| <= x {
      var p := x - |h|;
      var f := h + [c];
      if OccursAt(s, f, p) {
        forall i: nat | i < |h|
          ensures Agree(s, h, p, i)
        {
          assert Agree(s, f, p, i);
        }
        assert Agree(s, f, p, |h|);
      } else if x < |s| && s[x] == c && OccursAt(s, h, p) {
        forall i: nat | i < |f|
          ensures Agree(s, f, p, i)
        {
          assert i < |h| ==> Agree(s, h, p, i);
        }
      }
    }
  }

  // ----- One pass

  /** A slot position found from inside the match at `q` would be a glued text. */
  lemma {:induction false} NoOverlap(s: string, text: string, a: char, b: char, q: nat, x: nat)
    requires GoodText(text, a, b) && Delimited(s, [text], a, b)
    requires OccursAt(s, Head(text) + [a], q) && SlotAt(s, text, x)
    ensures !(q < x - |Head(text)| <= q + |Head(text)|)
  {
    var h, p := Head(text), x - |Head(text)|;
    var f := h + [a];
    if q < p <= q + |h| {
      var y := q + |h|;
      assert Agree(s, f, q, |h|) && Agree(s, f, q, |h| - 1);
      assert s[y] == a && s[y - 1] == '_' && [text][0] == text;
      if p == y {
        OverlapIsGlued(s, text, a, b, p);
      } else {
        NoLetterInside(s, text, a, b, p, y);
      }
    }
  }

  lemma {:induction false} OverlapIsGlued(s: string, text: string, a: char, b: char, p: nat)
    requires 0 < p < |s| && s[p] == a && s[p - 1] == '_' && OccursAt(s, Head(text), p)
    ensures Glued(s, text, a, b, p)
  {
    assert Agree(s, Head(text), p, 0);
    TailOccurs(s, Head(text), p);
  }

  /** Inside a head no slot letter stands behind an underscore. */
  lemma {:induction false} NoLetterInside(s: string, text: string, a: char, b: char, p: nat, y: nat)
    requires GoodText(text, a, b) && OccursAt(s, Head(text), p) && p < y < p + |Head(text)| && s[y - 1] == '_'
    ensures s[y] != a
  {
    assert Agree(s, Head(text), p, y - p) && Agree(s, Head(text), p, y - 1 - p);
  }

  lemma {:induction false} TailOccurs(s: string, h: string, p: nat)
    requires h != "" && OccursAt(s, h, p)
    ensures OccursAt(s, h[1..], p + 1)
  {
    var next := p + 1;
    forall i: nat | i < |h| - 1
      ensures Agree(s, h[1..], next, i)
    {
      assert Agree(s, h, p, i + 1);
    }
  }

  lemma {:induction false} PassAt(s: string, text: string, a: char, b: char, from: nat, x: nat)
    requires GoodText(text, a, b) && Delimited(s, [text], a, b) && from <= x < |s|
    ensures |Replaced(s, from, Head(text) + [a], Head(text) + [b])| == |s| - from
    ensures Replaced(s, from, Head(text) + [a], Head(text) + [b])[x - from]
         == if s[x] == a && SlotAt(s, text, x) && from + |Head(text)| <= x then b else s[x]
    decreases |s| - from
  {
    hide Find;
    var h, f, r := Head(text), Head(text) + [a], Head(text) + [b];
    SameLength(s, from, f, r);
    FindFirst(s, f, from);
    SlotIsOccurrence(s, text, a, x);
    match Find(s, f, from)
    case None =>
    case Some(q) =>
      ReplacedAt(s, from, f, r, q, x);
      if x == q + |h| {
        assert SlotAt(s, text, x);
      } else if x > q + |h| {
        PassAt(s, text, a, b, q + |f|, x);
        if SlotAt(s, text, x) {
          NoOverlap(s, text, a, b, q, x);
        }
      }
  }

  /** On a delimited file one pass changes exactly the slot letters of its text. */
  lemma {:induction false} PassSwitches(s: string, text: string, a: char, b: char)
    requires GoodText(text, a, b) && Delimited(s, [text], a, b)
    ensures ReplaceAll(s, Head(text) + [a], Head(text) + [b]) == Switched(s, [text], a, b)
  {
    SameLength(s, 0, Head(text) + [a], Head(text) + [b]);
    forall x: nat | x < |s|
      ensures ReplaceAll(s, Head(text) + [a], Head(text) + [b])[x] == Switched(s, [text], a, b)[x]
    {
      PassAt(s, text, a, b, 0, x);
      assert [text][0] == text;
    }
  }

  // ----- Passes one after the other

  /** Switching moves no slot position of any text. */
  lemma {:induction false} SlotsStay(s: string, texts: seq<string>, text: string, a: char, b: char, x: nat)
    requires GoodText(text, a, b) && Delimited(s, [text], a, b)
    ensures SlotAt(Switched(s, texts, a, b), text, x) <==> SlotAt(s, text, x)
  {
    var s' := Switched(s, texts, a, b);
    if SlotAt(s, text, x) {
      SlotStays(s, texts, s, s', text, a, b, x);
    }
    if SlotAt(s', text, x) {
      SlotStays(s, texts, s', s, text, a, b, x);
    }
  }

  /** A slot position of the file before or after is one of the other. */
  lemma {:induction false} SlotStays(s: string, texts: seq<string>, t: string, u: string, text: string, a: char, b: char, x: nat)
    requires GoodText(text, a, b) && Delimited(s, [text], a, b)
    requires {t, u} == {s, Switched(s, texts, a, b)} && SlotAt(t, text, x)
    ensures SlotAt(u, text, x)
  {
    var h := Head(text);
    var p := x - |h|;
    FirstLetterStays(s, texts, t, u, text, a, b, x);
    forall i: nat | i < |h|
      ensures Agree(u, h, p, i)
    {
      SlotLetters(t, text, x, i);
      if i > 0 {
        InnerLetterStays(s, texts, t, u, text, a, b, x, i);
      }
    }
  }

  lemma {:induction false} InnerLetterStays(s: string, texts: seq<string>, t: string, u: string, text: string,
                                            a: char, b: char, x: nat, i: nat)
    requires GoodText(text, a, b) && {t, u} == {s, Switched(s, texts, a, b)}
    requires SlotAt(t, text, x) && 0 < i < |Head(text)|
    ensures |t| == |u| && t[x - |Head(text)| + i] == u[x - |Head(text)| + i]
  {
    SlotLetters(t, text, x, i);
    var y := x - |Head(text)| + i;
    if s[y] != Switched(s, texts, a, b)[y] {
      BeforeChange(s, texts, a, b, y);
    }
  }

  lemma {:induction false} FirstLetterStays(s: string, texts: seq<string>, t: string, u: string, text: string,
                                            a: char, b: char, x: nat)
    requires GoodText(text, a, b) && Delimited(s, [text], a, b)
    requires {t, u} == {s, Switched(s, texts, a, b)} && SlotAt(t, text, x)
    ensures |t| == |u| && t[x - |Head(text)|] == u[x - |Head(text)|]
  {
    var h := Head(text);
    var p := x - |h|;
    SlotLetters(t, text, x, 0);
    if t[p] != u[p] {
      BeforeChange(s, texts, a, b, p);
      var next := p + 1;
      forall i: nat | i < |h| - 1
        ensures Agree(s, h[1..], next, i)
      {
        SlotLetters(t, text, x, i + 1);
        InnerLetterStays(s, texts, t, u, text, a, b, x, i + 1);
      }
      assert [text][0] == text;
      assert Glued(s, text, a, b, p);
    }
  }

  lemma {:induction false} SlotLetters(s: string, text: string, x: nat, i: nat)
    requires SlotAt(s, text, x) && i < |Head(text)|
    ensures x <= |s| && s[x - |Head(text)| + i] == Head(text)[i]
    ensures i > 0 ==> s[x - |Head(text)| + i - 1] == Head(text)[i - 1]
  {
    assert Agree(s, Head(text), x - |Head(text)|, i);
    assert i > 0 ==> Agree(s, Head(text), x - |Head(text)|, i - 1);
  }

  /** A changed letter stands behind an unchanged underscore. */
  lemma {:induction false} BeforeChange(s: string, texts: seq<string>, a: char, b: char, y: nat)
    requires a != '_' && y < |s| && Switched(s, texts, a, b)[y] != s[y]
    ensures s[y] == a && Switched(s, texts, a, b)[y] == b
    ensures y > 0 && s[y - 1] == '_' == Switched(s, texts, a, b)[y - 1]
  {
    var k :| 0 <= k < |texts| && SlotAt(s, texts[k], y);
    SlotLetters(s, texts[k], y, |Head(texts[k])| - 1);
  }

  lemma {:induction false} StaysDelimited(s: string, texts: seq<string>, text: string, a: char, b: char)
    requires GoodText(text, a, b) && Delimited(s, [text], a, b)
    ensures Delimited(Switched(s, texts, a, b), [text], a, b)
  {
    var s', h := Switched(s, texts, a, b), Head(text);
    forall k, p: nat | 0 <= k < 1
      ensures !Glued(s', [text][k], a, b, p)
    {
      if Glued(s', text, a, b, p) {
        if s[p - 1] != s'[p - 1] {
          BeforeChange(s, texts, a, b, p - 1);
        }
        var next := p + 1;
        forall i: nat | i < |h| - 1
          ensures Agree(s, h[1..], next, i)
        {
          assert Agree(s', h[1..], next, i);
          assert i > 0 ==> Agree(s', h[1..], next, i - 1);
          if s[next + i] != s'[next + i] {
            BeforeChange(s, texts, a, b, next + i);
          }
        }
        if s[p] != s'[p] {
          BeforeChange(s, texts, a, b, p);
        }
        assert [text][0] == text;
        assert Glued(s, text, a, b, p);
      }
    }
  }

  lemma {:induction false} SwitchedTwice(s: string, first: seq<string>, second: seq<string>, a: char, b: char)
    requires GoodTexts(second, a, b) && Delimited(s, second, a, b)
    ensures Switched(Switched(s, first, a, b), second, a, b) == Switched(s, first + second, a, b)
  {
    var s' := Switched(s, first, a, b);
    forall x: nat | x < |s|
      ensures Switched(s', second, a, b)[x] == Switched(s, first + second, a, b)[x]
    {
      SlotsStayAll(s, first, second, a, b, x);
      SomeSlotConcat(s, first, second, x);
    }
  }

  lemma {:induction false} SomeSlotConcat(s: string, first: seq<string>, second: seq<string>, x: nat)
    ensures SomeSlotAt(s, first + second, x) <==> SomeSlotAt(s, first, x) || SomeSlotAt(s, second, x)
  {
    var both := first + second;
    if SomeSlotAt(s, both, x) {
      var k :| 0 <= k < |both| && SlotAt(s, both[k], x);
      assert if k < |first| then both[k] == first[k] else both[k] == second[k - |first|];
    }
    if SomeSlotAt(s, first, x) {
      var k :| 0 <= k < |first| && SlotAt(s, first[k], x);
      assert both[k] == first[k];
    }
    if SomeSlotAt(s, second, x) {
      var k :| 0 <= k < |second| && SlotAt(s, second[k], x);
      assert both[|first| + k] == second[k];
    }
  }

  lemma {:induction false} SlotsStayAll(s: string, texts: seq<string>, others: seq<string>, a: char, b: char, x: nat)
    requires GoodTexts(others, a, b) && Delimited(s, others, a, b)
    ensures SomeSlotAt(Switched(s, texts, a, b), others, x) <==> SomeSlotAt(s, others, x)
  {
    forall k | 0 <= k < |others|
      ensures SlotAt(Switched(s, texts, a, b), others[k], x) <==> SlotAt(s, others[k], x)
    {
      DelimitedOne(s, others, a, b, k);
      SlotsStay(s, texts, others[k], a, b, x);
    }
  }

  lemma {:induction false} DelimitedOne(s: string, texts: seq<string>, a: char, b: char, k: nat)
    requires k < |texts| && Delimited(s, texts, a, b)
    ensures Delimited(s, [texts[k]], a, b)
  {
    forall j, p: nat | 0 <= j < 1
      ensures !Glued(s, [texts[k]][j], a, b, p)
    {
      assert !Glued(s, texts[k], a, b, p);
    }
  }

  /** On a delimited file the passes together change every slot letter and nothing else. */
  lemma {:induction false} PassesSwitch(s: string, texts: seq<string>, a: char, b: char)
    requires GoodTexts(texts, a, b) && Delimited(s, texts, a, b)
    ensures Passes(s, texts, ['_', a], ['_', b]) == Switched(s, texts, a, b)
    decreases |texts|
  {
    if texts == [] {
      assert Switched(s, texts, a, b) == s;
    } else {
      var text, rest := texts[0], texts[1..];
      assert text + ['_', a] == Head(text) + [a] && text + ['_', b] == Head(text) + [b];
      DelimitedOne(s, texts, a, b, 0);
      PassSwitches(s, text, a, b);
      var s' := Switched(s, [text], a, b);
      forall k, p: nat | 0 <= k < |rest|
        ensures !Glued(s', rest[k], a, b, p)
      {
        assert rest[k] == texts[k + 1];
        DelimitedOne(s, texts, a, b, k + 1);
        StaysDelimited(s, [text], rest[k], a, b);
        assert [rest[k]][0] == rest[k];
      }
      PassesSwitch(s', rest, a, b);
      RestDelimited(s, texts, a, b);
      SwitchedTwice(s, [text], rest, a, b);
      assert [text] + rest == texts;
    }
  }

  lemma {:induction false} RestDelimited(s: string, texts: seq<string>, a: char, b: char)
    requires texts != [] && GoodTexts(texts, a, b) && Delimited(s, texts, a, b)
    ensures GoodTexts(texts[1..], a, b) && Delimited(s, texts[1..], a, b)
  {
    assert forall k | 0 <= k < |texts| - 1 :: texts[1..][k] == texts[k + 1];
  }

  /** On a delimited file the order of the passes does not matter. */
  lemma {:induction false} OrderDoesNotMatter(s: string, texts: seq<string>, others: seq<string>, a: char, b: char)
    requires GoodTexts(texts, a, b) && Delimited(s, texts, a, b)
    requires forall text :: text in texts <==> text in others
    ensures Passes(s, others, ['_', a], ['_', b]) == Passes(s, texts, ['_', a], ['_', b])
  {
    forall k, p: nat | 0 <= k < |others|
      ensures GoodText(others[k], a, b) && !Glued(s, others[k], a, b, p)
    {
      assert others[k] in others;
      var j :| 0 <= j < |texts| && texts[j] == others[k];
    }
    forall k | 0 <= k < |others|
      ensures GoodText(others[k], a, b)
    {
      assert !Glued(s, others[k], a, b, 0);
    }
    PassesSwitch(s, texts, a, b);
    PassesSwitch(s, others, a, b);
    forall x: nat | x < |s|
      ensures SomeSlotAt(s, texts, x) <==> SomeSlotAt(s, others, x)
    {
      SameSlots(s, texts, others, x);
      SameSlots(s, others, texts, x);
    }
    assert Switched(s, texts, a, b) == Switched(s, others, a, b);
  }

  lemma {:induction false} SameSlots(s: string, texts: seq<string>, others: seq<string>, x: nat)
    requires forall text :: text in texts ==> text in others
    ensures SomeSlotAt(s, texts, x) ==> SomeSlotAt(s, others, x)
  {
    if SomeSlotAt(s, texts, x) {
      var k :| 0 <= k < |texts| && SlotAt(s, texts[k], x);
      assert texts[k] in others;
      var j :| 0 <= j < |others| && others[j] == texts[k];
    }
  }

  /** On a delimited file no text keeps its old slot letter. */
  lemma {:induction false} NoOldSlotLeft(s: string, texts: seq<string>, a: char, b: char, k: nat)
    requires GoodTexts(texts, a, b) && Delimited(s, texts, a, b) && k < |texts|
    ensures !HasSlot(Passes(s, texts, ['_', a], ['_', b]), texts[k], a)
  {
    var s' := Switched(s, texts, a, b);
    PassesSwitch(s, texts, a, b);
    var f := Head(texts[k]) + [a];
    forall p: nat
      ensures !OccursAt(s', f, p)
    {
      var x := p + |Head(texts[k])|;
      SlotIsOccurrence(s', texts[k], a, x);
      DelimitedOne(s, texts, a, b, k);
      SlotsStay(s, texts, texts[k], a, b, x);
    }
  }

  /** Switching a delimited file back restores it exactly when no text had the new slot letter. */
  lemma {:induction false} SwitchBackIff(s: string, texts: seq<string>, a: char, b: char)
    requires GoodTexts(texts, a, b) && Delimited(s, texts, a, b)
    ensures Passes(Passes(s, texts, ['_', a], ['_', b]), texts, ['_', b], ['_', a]) == s
       <==> forall k | 0 <= k < |texts| :: !HasSlot(s, texts[k], b)
  {
    var s' := Switched(s, texts, a, b);
    PassesSwitch(s, texts, a, b);
    forall k, p: nat | 0 <= k < |texts|
      ensures !Glued(s', texts[k], b, a, p)
    {
      DelimitedOne(s, texts, a, b, k);
      StaysDelimited(s, texts, texts[k], a, b);
      assert [texts[k]][0] == texts[k];
      assert !Glued(s', texts[k], a, b, p);
    }
    PassesSwitch(s', texts, b, a);
    var back := Switched(s', texts, b, a);
    forall x: nat | x < |s|
      ensures back[x] == if s[x] == b && SomeSlotAt(s, texts, x) then a else s[x]
    {
      SlotsStayAll(s, texts, texts, a, b, x);
    }
    if back != s {
      var x: nat :| x < |s| && back[x] != s[x];
      var k :| 0 <= k < |texts| && SlotAt(s, texts[k], x);
      SlotIsOccurrence(s, texts[k], b, x);
      assert HasSlot(s, texts[k], b);
    }
    forall k | 0 <= k < |texts| && HasSlot(s, texts[k], b)
      ensures back != s
    {
      var p: nat :| OccursAt(s, Head(texts[k]) + [b], p);
      SlotIsOccurrence(s, texts[k], b, p + |Head(texts[k])|);
    }
  }

  // ----- The texts of SetBootSlot and the slots a and b

  lemma {:induction false} TextsAreGood()
    ensures GoodTexts(TEXTS, 'a', 'b')
  {
    assert GoodText(TEXTS[0], 'a', 'b') && GoodText(TEXTS[1], 'a', 'b') && GoodText(TEXTS[3], 'a', 'b');
    assert GoodText(TEXTS[2], 'a', 'b') by {
      forall i: nat | i < |TEXTS[2]| && TEXTS[2][i] == '_'
        ensures i == 16
      {
      }
    }
  }

  /** SetBootSlot from one slot to the other and back, either way, on a file in which no text is glued
      to the suffix of another. */
  lemma {:induction false} SetBootSlotIsSwitch(s: string, a: char, b: char)
    requires (a == 'a' && b == 'b') || (a == 'b' && b == 'a')
    requires Delimited(s, TEXTS, a, b)
    ensures Passes(s, TEXTS, ['_', a], ['_', b]) == Switched(s, TEXTS, a, b)
    ensures forall k | 0 <= k < |TEXTS| :: !HasSlot(Passes(s, TEXTS, ['_', a], ['_', b]), TEXTS[k], a)
    ensures Passes(Passes(s, TEXTS, ['_', a], ['_', b]), TEXTS, ['_', b], ['_', a]) == s
       <==> forall k | 0 <= k < |TEXTS| :: !HasSlot(s, TEXTS[k], b)
  {
    TextsAreGood();
    GoodEitherWay(TEXTS, 'a', 'b');
    PassesSwitch(s, TEXTS, a, b);
    SwitchBackIff(s, TEXTS, a, b);
    forall k | 0 <= k < |TEXTS|
      ensures !HasSlot(Passes(s, TEXTS, ['_', a], ['_', b]), TEXTS[k], a)
    {
      NoOldSlotLeft(s, TEXTS, a, b, k);
    }
  }

  lemma {:induction false} GoodEitherWay(texts: seq<string>, a: char, b: char)
    requires GoodTexts(texts, a, b)
    ensures GoodTexts(texts, b, a)
  {
    forall k | 0 <= k < |texts|
      ensures GoodText(texts[k], b, a)
    {
      assert GoodText(texts[k], a, b);
    }
  }

  /** "androidboot.slot_suffix=_a" begins and ends with the same letter, so switching to slot a can
      leave the text with slot b in a file that is not delimited; switching to slot b cannot. */
  lemma {:induction false} SlotSuffixText()
    ensures Border(TEXTS[2] + "_a", 1)
    ensures BorderFree(TEXTS[2] + "_b")
    ensures exists s :: Leaves(s, TEXTS[2] + "_b", TEXTS[2] + "_a")
    ensures forall s :: !Leaves(s, TEXTS[2] + "_a", TEXTS[2] + "_b")
  {
    var f, r := TEXTS[2] + "_a", TEXTS[2] + "_b";
    assert Siblings(f, r) && Siblings(r, f);
    assert Border(f, 1);
    forall k: nat | 0 < k < |r|
      ensures !OccursAt(r, r[..k], |r| - k)
    {
      assert r[|r| - k] != 'a';
      assert !Agree(r, r[..k], |r| - k, 0);
    }
    NothingLeftIff(f, r);
    NothingLeftIff(r, f);
  }

  /** The head begins with the letter and does not have it again. */
  predicate FirstOnly(text: string, a: char) {
    Head(text)[0] == a && forall i | 1 <= i < |Head(text)| :: Head(text)[i] != a
  }

  /** In a file in which a text is glued to the suffix of another word the last letter depends on the
      order of the two passes. */
  lemma {:induction false} OrderMattersWhenGlued(word: string, text: string, a: char, b: char, s: string)
    requires s == Head(word) + Head(text) + [a] && FirstOnly(text, a) && a != b && a !in Head(word)
    requires word != "" && text != "" && word[|word| - 1] != text[|text| - 1]
    ensures Glued(s, text, a, b, |Head(word)|)
    ensures Passes(s, [word, text], ['_', a], ['_', b]) != Passes(s, [text, word], ['_', a], ['_', b])
  {
    GluedFile(word, text, a, b, s);
    WordFirst(word, text, a, b, s);
    TextFirst(word, text, a, b, s);
    hide ReplaceAll, Passes, Head;
    TwoPasses(s, word, text, a, b);
    TwoPasses(s, text, word, a, b);
  }

  /** "kernel_androidboot.slot_suffix=_a" is such a file. */
  lemma {:induction false} OrderMatters(s: string)
    requires s == Head(TEXTS[0]) + Head(TEXTS[2]) + "a"
    ensures Glued(s, TEXTS[2], 'a', 'b', 7)
    ensures Passes(s, [TEXTS[0], TEXTS[2]], ['_', 'a'], ['_', 'b']) != Passes(s, [TEXTS[2], TEXTS[0]], ['_', 'a'], ['_', 'b'])
  {
    var word, text := TEXTS[0], TEXTS[2];
    assert |Head(word)| == 7 && 'a' !in Head(word) && word[5] == 'l' && |word| == 6;
    assert |text| == 24 && text[23] == '=' && FirstOnly(text, 'a');
    hide Passes, Head, FirstOnly, TEXTS;
    OrderMattersWhenGlued(word, text, 'a', 'b', s);
  }

  lemma {:induction false} TwoPasses(s: string, first: string, second: string, a: char, b: char)
    ensures Passes(s, [first, second], ['_', a], ['_', b])
         == ReplaceAll(ReplaceAll(s, Head(first) + [a], Head(first) + [b]), Head(second) + [a], Head(second) + [b])
  {
    hide ReplaceAll;
    assert [first, second][1..] == [second];
    assert first + ['_', a] == Head(first) + [a] && first + ['_', b] == Head(first) + [b];
    assert second + ['_', a] == Head(second) + [a] && second + ['_', b] == Head(second) + [b];
    var s1 := ReplaceAll(s, Head(first) + [a], Head(first) + [b]);
    var s2 := ReplaceAll(s1, Head(second) + [a], Head(second) + [b]);
    assert Passes(s1, [second], ['_', a], ['_', b]) == Passes(s2, [second][1..], ['_', a], ['_', b]) == s2;
  }

  lemma {:induction false} GluedFile(word: string, text: string, a: char, b: char, s: string)
    requires s == Head(word) + Head(text) + [a] && Head(text)[0] == a
    ensures Glued(s, text, a, b, |Head(word)|)
  {
    var next := |Head(word)| + 1;
    assert forall i: nat | i < |Head(text)| - 1 :: Agree(s, Head(text)[1..], next, i);
  }

  /** The word's pass takes the first letter from the other text, whose pass then misses the last letter. */
  lemma {:induction false} WordFirst(word: string, text: string, a: char, b: char, s: string)
    requires s == Head(word) + Head(text) + [a] && FirstOnly(text, a) && a != b && a !in Head(word)
    requires word != "" && text != "" && word[|word| - 1] != text[|text| - 1]
    ensures
      var result := ReplaceAll(ReplaceAll(s, Head(word) + [a], Head(word) + [b]), Head(text) + [a], Head(text) + [b]);
      |result| == |s| && result[|s| - 1] == a
  {
    var f, r, at := Head(word) + [a], Head(word) + [b], |Head(word)|;
    var v := ReplaceAll(s, f, r);
    assert f[..at] == r[..at];
    FoundAtStart(s, f, Head(text)[1..] + [a]);
    ReplacedAt(s, 0, f, r, 0, at);
    WordNotLast(word, text, a, s);
    OnlyMatchEndsChange(s, 0, f, r, |s| - 1);
    NotFoundAt(v, Head(text), a, b, at);
  }

  lemma {:induction false} WordNotLast(word: string, text: string, a: char, s: string)
    requires s == Head(word) + Head(text) + [a] && word != "" && text != "" && word[|word| - 1] != text[|text| - 1]
    ensures !OccursAt(s, Head(word) + [a], |s| - |Head(word)| - 1)
  {
    assert s[|s| - 3] == text[|text| - 1];
    assert !Agree(s, Head(word) + [a], |s| - |Head(word)| - 1, |word| - 1);
  }

  lemma {:induction false} NotFoundAt(v: string, head: string, a: char, b: char, at: nat)
    requires a != b && head != "" && at + |head| + 1 == |v| && v[at] != head[0]
    ensures
      var w := ReplaceAll(v, head + [a], head + [b]);
      |w| == |v| && w[|v| - 1] == v[|v| - 1]
  {
    assert (head + [a])[..|head|] == (head + [b])[..|head|];
    OnlyMatchEndsChange(v, 0, head + [a], head + [b], |v| - 1);
    assert !Agree(v, head + [a], at, 0);
  }

  lemma {:induction false} FoundAtStart(s: string, f: string, rest: string)
    requires s == f + rest
    ensures Find(s, f, 0) == Some(0)
  {
    assert forall i: nat | i < |f| :: Agree(s, f, 0, i);
    FindIs(s, f, 0, Some(0));
  }

  lemma {:induction false} TextFirst(word: string, text: string, a: char, b: char, s: string)
    requires s == Head(word) + Head(text) + [a] && FirstOnly(text, a) && a != b && a !in Head(word)
    ensures
      var result := ReplaceAll(ReplaceAll(s, Head(text) + [a], Head(text) + [b]), Head(word) + [a], Head(word) + [b]);
      |result| == |s| && result[|s| - 1] == b
  {
    var f, r, at, last := Head(text) + [a], Head(text) + [b], |Head(word)|, |s| - 1;
    forall p: nat | p < at
      ensures !OccursAt(s, f, p)
    {
      assert !Agree(s, f, p, 0);
    }
    assert forall i: nat | i < |f| :: Agree(s, f, at, i);
    FindIs(s, f, 0, Some(at));
    assert f[..|f| - 1] == r[..|r| - 1];
    ReplacedAt(s, 0, f, r, at, last);
    LastStays(ReplaceAll(s, f, r), word, a, b);
  }

  lemma {:induction false} LastStays(v: string, word: string, a: char, b: char)
    requires a != b && v != "" && v[|v| - 1] == b
    ensures
      var result := ReplaceAll(v, Head(word) + [a], Head(word) + [b]);
      |result| == |v| && result[|v| - 1] == b
  {
    var f, r := Head(word) + [a], Head(word) + [b];
    assert f[..|f| - 1] == r[..|r| - 1];
    OnlyMatchEndsChange(v, 0, f, r, |v| - 1);
  }
}
