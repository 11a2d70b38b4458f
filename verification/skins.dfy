/**
 * The skin switcher: a fixed list of style sheets and the index of the one
 * in use. Each click moves to the next sheet, wrapping round after the last,
 * and points the page's theme link at it.
 */
module Skins {

  const SkinSheets: seq<string> := ["basic.css", "dark.css", "modern.css"]

  /** The sheet list and the index of the sheet in use (`currentSkin`). */
  datatype Theme = Theme(skins: seq<string>, current: nat)

  /** The state after a click and the address the theme link is given. */
  datatype SkinChange = SkinChange(theme: Theme, href: string)

  predicate Valid(t: Theme) {
    |t.skins| > 0 && t.current < |t.skins|
  }

  /** `(c + 1) % len` for an index `c` in range: one step on, or back to 0 from the last. */
  lemma NextIndex(c: nat, len: nat)
    requires c < len
    ensures (c + 1) % len == if c + 1 < len then c + 1 else 0
  {
  }

  /** The page's starting state: the first sheet of the fixed list. */
  function Initial(): (t: Theme)
    ensures Valid(t) && t.skins == SkinSheets && t.current == 0
  {
    Theme(SkinSheets, 0)
  }

  /**
   * `changeSkin()`: the index moves one step, back to 0 after the last
   * sheet; the link names the sheet now in use; the list stays the same.
   */
  function ChangeSkin(t: Theme): (r: SkinChange)
    requires Valid(t)
    ensures Valid(r.theme)
    ensures r.theme.skins == t.skins
    ensures r.href == t.skins[r.theme.current]
    ensures t.current + 1 < |t.skins| ==> r.theme.current == t.current + 1
    ensures t.current + 1 == |t.skins| ==> r.theme.current == 0
  {
    var next := (t.current + 1) % |t.skins|;
    NextIndex(t.current, |t.skins|);
    SkinChange(Theme(t.skins, next), t.skins[next])
  }

  /** The state after `n` clicks. */
  function Advance(t: Theme, n: nat): (r: Theme)
    requires Valid(t)
    ensures r.skins == t.skins
    ensures Valid(r)
    decreases n
  {
    if n == 0 then t else Advance(ChangeSkin(t).theme, n - 1)
  }

  /** Clicking `a` times and then `b` times is clicking `a + b` times. */
  lemma {:induction false} AdvanceSplit(t: Theme, a: nat, b: nat)
    requires Valid(t)
    ensures Advance(t, a + b) == Advance(Advance(t, a), b)
    decreases a
  {
    if a > 0 {
      AdvanceSplit(ChangeSkin(t).theme, a - 1, b);
    }
  }

  /** Before the index reaches the end of the list, `k` clicks move it `k` places. */
  lemma {:induction false} AdvanceStraight(t: Theme, k: nat)
    requires Valid(t)
    requires t.current + k < |t.skins|
    ensures Advance(t, k).current == t.current + k
    decreases k
  {
    if k > 0 {
      AdvanceStraight(ChangeSkin(t).theme, k - 1);
    }
  }

  /** Clicking from index `c` until the end of the list wraps back to index 0. */
  lemma WrapAround(t: Theme)
    requires Valid(t)
    ensures Advance(t, |t.skins| - t.current).current == 0
  {
    var steps: nat := |t.skins| - 1 - t.current;
    assert steps + 1 == |t.skins| - t.current;
    AdvanceSplit(t, steps, 1);
    AdvanceStraight(t, steps);
    var last := Advance(t, steps);
    assert Advance(last, 1) == ChangeSkin(last).theme;
  }

  /** As many clicks as there are sheets bring back the sheet in use. */
  lemma FullCycle(t: Theme)
    requires Valid(t)
    ensures Advance(t, |t.skins|) == t
  {
    var len, c := |t.skins|, t.current;
    var toStart: nat := len - c;
    assert toStart + c == len;
    AdvanceSplit(t, toStart, c);
    WrapAround(t);
    var first := Advance(t, toStart);
    AdvanceStraight(first, c);
    var back := Advance(first, c);
    assert back.skins == t.skins && back.current == c;
    assert Advance(t, len) == back;
  }

  /** From the start, `n` clicks select sheet `n mod 3`. */
  lemma {:induction false} AdvanceFromStart(n: nat)
    ensures Advance(Initial(), n).current == n % |SkinSheets|
    ensures Advance(Initial(), n).skins == SkinSheets
    decreases n
  {
    if n > 0 {
      var m: nat := n - 1;
      assert m + 1 == n;
      AdvanceFromStart(m);
      AdvanceSplit(Initial(), m, 1);
      var before := Advance(Initial(), m);
      assert Advance(before, 1) == ChangeSkin(before).theme;
      StepMod3(m);
    }
  }

  /** One more click on a count of `m` clicks, taken modulo the three sheets. */
  lemma StepMod3(m: nat)
    ensures (m % 3 + 1) % 3 == (m + 1) % 3
  {
  }

  /** From the start, clicks show the dark, modern and basic sheets, in that order. */
  lemma ClicksFromStart()
    ensures var c1 := ChangeSkin(Initial());
      && c1.theme.current == 1 && c1.href == "dark.css"
      && var c2 := ChangeSkin(c1.theme);
      && c2.theme.current == 2 && c2.href == "modern.css"
      && var c3 := ChangeSkin(c2.theme);
      && c3.theme.current == 0 && c3.href == "basic.css"
  {
  }
}
