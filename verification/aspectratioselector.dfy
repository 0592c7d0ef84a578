/** components/AspectRatioSelector.tsx: three buttons over a constant list of ratios. */
module AspectRatioSelector {

  /** A button: its value and its `label` (a reserved word in Dafny, hence `caption`). */
  datatype RatioOption = RatioOption(value: string, caption: string)

  /** `ratios`, in display order. */
  const Ratios: seq<RatioOption> := [
    RatioOption("16:9", "Landscape"),
    RatioOption("9:16", "Portrait"),
    RatioOption("1:1", "Square")
  ]

  /** The closed set of values a button can report. */
  const RatioValues: set<string> := {"16:9", "9:16", "1:1"}

  /** `isSelected` for one button. */
  predicate IsSelected(selectedRatio: string, option: RatioOption) {
    selectedRatio == option.value
  }

  /** Positions of the buttons drawn as selected. */
  function SelectedButtons(selectedRatio: string): (ix: set<nat>)
    ensures forall i: nat :: i in ix <==> i < |Ratios| && IsSelected(selectedRatio, Ratios[i])
  {
    set i: nat | i < |Ratios| && IsSelected(selectedRatio, Ratios[i])
  }

  /** The values of the buttons are exactly the closed set, with no value twice. */
  lemma RatiosDistinct()
    ensures forall i, j :: 0 <= i < j < |Ratios| ==> Ratios[i].value != Ratios[j].value
    ensures forall v :: v in RatioValues <==> exists i :: 0 <= i < |Ratios| && Ratios[i].value == v
  {
    assert Ratios[0].value == "16:9" && Ratios[1].value == "9:16" && Ratios[2].value == "1:1";
  }

  /** Exactly one button is selected for a value of the set, none for any other. */
  lemma ExactlyOneSelected(selectedRatio: string)
    ensures selectedRatio in RatioValues ==>
              exists i :: 0 <= i < |Ratios| && SelectedButtons(selectedRatio) == {i}
    ensures selectedRatio !in RatioValues ==> SelectedButtons(selectedRatio) == {}
  {
    RatiosDistinct();
    if selectedRatio in RatioValues {
      var i :| 0 <= i < |Ratios| && Ratios[i].value == selectedRatio;
      assert SelectedButtons(selectedRatio) == {i};
    }
  }

  /** Clicking button `i` reports that button's value, which lies in the closed set. */
  function OnRatioClick(i: nat): (ratio: string)
    requires i < |Ratios|
    ensures ratio in RatioValues
    ensures IsSelected(ratio, Ratios[i]) && SelectedButtons(ratio) == {i}
  {
    RatiosDistinct();
    Ratios[i].value
  }
}
