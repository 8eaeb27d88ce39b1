/**
  The four buttons of a convert pane and the enable/disable lists that the
  pane's callbacks apply to them (`_enable_widgets` / `_disable_widgets`).
*/
module Gating {

  datatype Widget = ConvertButton | TranslateButton | SaveTextButton | SaveTranslationButton

  /** Which of the pane's buttons are enabled. */
  datatype Buttons = Buttons(convert: bool, translate: bool, saveText: bool, saveTranslation: bool)

  function Enabled(b: Buttons, w: Widget): bool
  {
    match w
    case ConvertButton => b.convert
    case TranslateButton => b.translate
    case SaveTextButton => b.saveText
    case SaveTranslationButton => b.saveTranslation
  }

  /** `configure_item(w, enabled=on)`. */
  function Set(b: Buttons, w: Widget, on: bool): Buttons
  {
    match w
    case ConvertButton => b.(convert := on)
    case TranslateButton => b.(translate := on)
    case SaveTextButton => b.(saveText := on)
    case SaveTranslationButton => b.(saveTranslation := on)
  }

  /** Sets every listed widget to `on`; the widgets not listed keep their state. */
  function Configure(b: Buttons, widgets: seq<Widget>, on: bool): (r: Buttons)
    ensures forall w :: Enabled(r, w) == (if w in widgets then on else Enabled(b, w))
    decreases |widgets|
  {
    if widgets == [] then b else Configure(Set(b, widgets[0], on), widgets[1..], on)
  }

  /** The buttons as a new pane creates them: only convert is enabled. */
  const Initial: Buttons := Buttons(convert := true, translate := false, saveText := false, saveTranslation := false)

  /** The `disable` and `enable` lists of the convert and translate payloads. */
  const ConvertDisable: seq<Widget> := [ConvertButton]
  const ConvertEnable: seq<Widget> := [TranslateButton, SaveTextButton]
  const TranslateDisable: seq<Widget> := [TranslateButton]
  const TranslateEnable: seq<Widget> := [TranslateButton, SaveTranslationButton]

  /**
    A click as the gating sees it: a convert click and whether the
    converter returned pages, or a translate click and whether its callback
    raised.
  */
  datatype Click = Convert(ok: bool) | Translate(raises: bool)

  /**
    One click: a disabled button runs no callback; a convert callback applies
    its disable list, and its enable list only when there were pages; a
    translate callback applies its disable list, and its enable list only
    when nothing escaped.
  */
  function Step(b: Buttons, c: Click): (r: Buttons)
    ensures !b.convert ==> !r.convert
    ensures b.saveText ==> r.saveText
    ensures b.saveTranslation ==> r.saveTranslation
    ensures c.Convert? ==> r.saveTranslation == b.saveTranslation
    ensures c.Translate? ==> r.convert == b.convert && r.saveText == b.saveText
  {
    match c
    case Convert(ok) =>
      if !b.convert then b
      else if ok then b.(convert := false, translate := true, saveText := true)
      else b.(convert := false)
    case Translate(raises) =>
      if !b.translate then b
      else b.(translate := !raises, saveTranslation := b.saveTranslation || !raises)
  }

  /** `Step` is exactly what the payloads' `disable` and `enable` lists do to an enabled button's pane. */
  lemma StepFollowsPayloads(b: Buttons, c: Click)
    ensures c.Convert? && b.convert ==>
              Step(b, c) == (var d := Configure(b, ConvertDisable, false);
                             if c.ok then Configure(d, ConvertEnable, true) else d)
    ensures c.Translate? && b.translate ==>
              Step(b, c) == (var d := Configure(b, TranslateDisable, false);
                             if c.raises then d else Configure(d, TranslateEnable, true))
  {
  }

  /** The buttons after a sequence of clicks on a new pane. */
  function Replay(clicks: seq<Click>): Buttons
    decreases |clicks|
  {
    if clicks == [] then Initial else Step(Replay(clicks[..|clicks| - 1]), clicks[|clicks| - 1])
  }

  /** No click before position `n` is a convert click. */
  predicate NoConvertBefore(clicks: seq<Click>, n: int)
  {
    forall k :: 0 <= k < n && k < |clicks| ==> !clicks[k].Convert?
  }

  /** The first convert click is at `i` and the converter returned pages for it. */
  predicate ConvertedAt(clicks: seq<Click>, i: int)
  {
    0 <= i < |clicks| && clicks[i] == Convert(true) && NoConvertBefore(clicks, i)
  }

  /** No translate click strictly between `lo` and `hi` raised. */
  predicate NoRaisingTranslate(clicks: seq<Click>, lo: int, hi: int)
  {
    forall k :: lo < k < hi && 0 <= k < |clicks| ==> clicks[k] != Translate(true)
  }

  /**
    After the successful first convert click at `i`, the translate click at
    `j` did not raise and no translate click between them raised.
  */
  predicate TranslatedAt(clicks: seq<Click>, i: int, j: int)
  {
    && ConvertedAt(clicks, i) && i < j < |clicks|
    && clicks[j] == Translate(false)
    && NoRaisingTranslate(clicks, i, j)
  }

  /** Whether the first convert click succeeded is decided by the clicks up to it: dropping a later click keeps it. */
  lemma ConvertedAtPrefix(clicks: seq<Click>, i: int)
    requires ConvertedAt(clicks, i) && i < |clicks| - 1
    ensures ConvertedAt(clicks[..|clicks| - 1], i)
    ensures !NoConvertBefore(clicks[..|clicks| - 1], |clicks| - 1)
  {
  }

  /** The clicks before a first convert click at the end contain no convert click. */
  lemma ConvertedAtLast(clicks: seq<Click>)
    requires clicks != [] && ConvertedAt(clicks, |clicks| - 1)
    ensures NoConvertBefore(clicks[..|clicks| - 1], |clicks| - 1)
  {
  }

  /** After any clicks, translate or save-translation enabled implies save-text enabled, which implies convert disabled. */
  lemma {:induction false} ReplayConsistent(clicks: seq<Click>)
    ensures var b := Replay(clicks);
            && (b.translate ==> b.saveText) && (b.saveTranslation ==> b.saveText) && (b.saveText ==> !b.convert)
    decreases |clicks|
  {
    if clicks != [] {
      ReplayConsistent(clicks[..|clicks| - 1]);
    }
  }

  /** Convert is enabled exactly while there has been no convert click. */
  lemma {:induction false} ConvertIff(clicks: seq<Click>)
    ensures Replay(clicks).convert <==> NoConvertBefore(clicks, |clicks|)
    decreases |clicks|
  {
    if clicks != [] {
      var pre := clicks[..|clicks| - 1];
      ConvertIff(pre);
      assert forall k :: 0 <= k < |pre| ==> clicks[k] == pre[k];
    }
  }

  /** Save-text is enabled exactly when the first convert click returned pages. */
  lemma {:induction false} SaveTextIff(clicks: seq<Click>)
    ensures Replay(clicks).saveText <==> exists i :: ConvertedAt(clicks, i)
    decreases |clicks|
  {
    if clicks != [] {
      var n := |clicks|;
      var pre := clicks[..n - 1];
      assert forall k :: 0 <= k < |pre| ==> clicks[k] == pre[k];
      SaveTextIff(pre);
      ConvertIff(pre);
      if Replay(clicks).saveText {
        if Replay(pre).saveText {
          var i :| ConvertedAt(pre, i);
          assert ConvertedAt(clicks, i);
        } else {
          assert ConvertedAt(clicks, n - 1);
        }
      }
      if exists i :: ConvertedAt(clicks, i) {
        var i :| ConvertedAt(clicks, i);
        if i < n - 1 {
          assert ConvertedAt(pre, i);
        }
      }
    }
  }

  /** Translate is enabled only after a successful first conversion with no raising translate click since. */
  lemma {:induction false} TranslateOnlyAfter(clicks: seq<Click>)
    requires Replay(clicks).translate
    ensures exists i :: ConvertedAt(clicks, i) && NoRaisingTranslate(clicks, i, |clicks|)
    decreases |clicks|
  {
    var n := |clicks|;
    var pre := clicks[..n - 1];
    assert forall k :: 0 <= k < |pre| ==> clicks[k] == pre[k];
    ConvertIff(pre);
    if clicks[n - 1] == Convert(true) && Replay(pre).convert {
      assert ConvertedAt(clicks, n - 1) && NoRaisingTranslate(clicks, n - 1, n);
    } else {
      assert Replay(pre).translate;
      TranslateOnlyAfter(pre);
      var i :| ConvertedAt(pre, i) && NoRaisingTranslate(pre, i, |pre|);
      assert ConvertedAt(clicks, i) && NoRaisingTranslate(clicks, i, n);
    }
  }

  /** After a successful first conversion, translate stays enabled until a translate click raises. */
  lemma {:induction false} TranslateAfter(clicks: seq<Click>, i: int)
    requires ConvertedAt(clicks, i) && NoRaisingTranslate(clicks, i, |clicks|)
    ensures Replay(clicks).translate
    decreases |clicks|
  {
    var n := |clicks|;
    var pre := clicks[..n - 1];
    assert forall k :: 0 <= k < |pre| ==> clicks[k] == pre[k];
    ConvertIff(pre);
    if i < n - 1 {
      assert ConvertedAt(pre, i) && NoRaisingTranslate(pre, i, |pre|);
      TranslateAfter(pre, i);
      assert !NoConvertBefore(pre, |pre|);
    }
  }

  /** Save-translation is enabled only after a non-raising translate click that followed a successful first conversion. */
  lemma {:induction false} SaveTranslationOnlyAfter(clicks: seq<Click>)
    requires Replay(clicks).saveTranslation
    ensures exists i, j :: TranslatedAt(clicks, i, j)
    decreases |clicks|
  {
    var n := |clicks|;
    var pre := clicks[..n - 1];
    assert forall k :: 0 <= k < |pre| ==> clicks[k] == pre[k];
    if Replay(pre).saveTranslation {
      SaveTranslationOnlyAfter(pre);
      var i, j :| TranslatedAt(pre, i, j);
      assert TranslatedAt(clicks, i, j);
    } else {
      assert clicks[n - 1] == Translate(false) && Replay(pre).translate;
      TranslateOnlyAfter(pre);
      var i :| ConvertedAt(pre, i) && NoRaisingTranslate(pre, i, |pre|);
      assert TranslatedAt(clicks, i, n - 1);
    }
  }

  /** Such a translate click enables save-translation for good. */
  lemma {:induction false} SaveTranslationAfter(clicks: seq<Click>, i: int, j: int)
    requires TranslatedAt(clicks, i, j)
    ensures Replay(clicks).saveTranslation
    decreases |clicks|
  {
    var n := |clicks|;
    var pre := clicks[..n - 1];
    assert forall k :: 0 <= k < |pre| ==> clicks[k] == pre[k];
    assert ConvertedAt(pre, i);
    if j < n - 1 {
      assert TranslatedAt(pre, i, j);
      SaveTranslationAfter(pre, i, j);
    } else {
      assert NoRaisingTranslate(pre, i, |pre|);
      TranslateAfter(pre, i);
    }
  }
}
