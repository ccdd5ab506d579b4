/** Which assets carry the `selected` class. A plain click on an asset
    selects it alone, a ctrl-click toggles it, and a click on the bare
    canvas selects nothing. The "remove from every asset" step walks all
    assets in the document, so it is modelled against the set of all of
    them. */
module Selection {

  /** An asset, identified by its position among the created assets. */
  type AssetId = nat

  /** `classList.toggle('selected')` on asset a. */
  function Toggle(sel: set<AssetId>, a: AssetId): (r: set<AssetId>)
    ensures a in r <==> a !in sel
    ensures forall x :: x != a ==> (x in r <==> x in sel)
  {
    if a in sel then sel - {a} else sel + {a}
  }

  /** Removing `selected` from every asset in the document. */
  function DeselectAll(all: set<AssetId>, sel: set<AssetId>): (r: set<AssetId>)
    ensures r <= sel
    ensures r !! all
    ensures forall x :: x in sel && x !in all ==> x in r
    ensures sel <= all ==> r == {}
  {
    sel - all
  }

  /** `selectAsset`: a click on asset a, with or without ctrl held. */
  function SelectAsset(all: set<AssetId>, sel: set<AssetId>, a: AssetId, ctrl: bool): (r: set<AssetId>)
    // ctrl: only a's membership flips
    ensures ctrl ==> (a in r <==> a !in sel)
    ensures ctrl ==> forall x :: x != a ==> (x in r <==> x in sel)
    // plain: a is selected and no other asset of the document is
    ensures !ctrl ==> a in r && forall x :: x in r && x != a ==> x !in all && x in sel
    ensures !ctrl && sel <= all ==> r == {a}
  {
    if ctrl then Toggle(sel, a) else DeselectAll(all, sel) + {a}
  }

  /** Two ctrl-clicks on the same asset restore the selection. */
  lemma CtrlClickTwice(all: set<AssetId>, sel: set<AssetId>, a: AssetId)
    ensures SelectAsset(all, SelectAsset(all, sel, a, true), a, true) == sel
  {
  }

  /** A second plain click on the same asset changes nothing. */
  lemma PlainClickIdempotent(all: set<AssetId>, sel: set<AssetId>, a: AssetId)
    ensures var s1 := SelectAsset(all, sel, a, false);
            SelectAsset(all, s1, a, false) == s1
  {
  }

  /** A ctrl-click on an unselected asset adds it to the selection and
      keeps every asset already selected. */
  lemma CtrlClickAddsToSelection(all: set<AssetId>, sel: set<AssetId>, a: AssetId)
    requires a !in sel
    ensures SelectAsset(all, sel, a, true) == sel + {a}
  {
  }
}
