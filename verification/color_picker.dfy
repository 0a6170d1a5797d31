/**
 * The colour picker's palette and labels (components/color-picker.tsx): the
 * predefined options, the label shown for a value, and the preview swatch
 * class.
 */
module ColorPicker {
  import opened Wrappers
  import opened ColorUtils

  /** One entry of the palette: its label and the value stored on the agenda item. */
  datatype ColorOption = ColorOption(name: string, value: string)

  /** `colorOptions`: "Default" with the empty value, then seventeen named colours. */
  const ColorOptions: seq<ColorOption> := [
    ColorOption("Default", ""),
    ColorOption("Red", "red"),
    ColorOption("Orange", "orange"),
    ColorOption("Amber", "amber"),
    ColorOption("Yellow", "yellow"),
    ColorOption("Lime", "lime"),
    ColorOption("Green", "green"),
    ColorOption("Emerald", "emerald"),
    ColorOption("Teal", "teal"),
    ColorOption("Cyan", "cyan"),
    ColorOption("Sky", "sky"),
    ColorOption("Blue", "blue"),
    ColorOption("Indigo", "indigo"),
    ColorOption("Violet", "violet"),
    ColorOption("Purple", "purple"),
    ColorOption("Fuchsia", "fuchsia"),
    ColorOption("Pink", "pink"),
    ColorOption("Rose", "rose")
  ]

  /** `Array.prototype.find` by value: the position of the first option carrying `value`. */
  function FindByValue(opts: seq<ColorOption>, value: string): (r: Option<nat>)
    ensures r.None? <==> forall i :: 0 <= i < |opts| ==> opts[i].value != value
    ensures r.Some? ==>
      && r.value < |opts| && opts[r.value].value == value
      && forall j :: 0 <= j < r.value ==> opts[j].value != value
  {
    if |opts| == 0 then None
    else if opts[0].value == value then Some(0)
    else
      match FindByValue(opts[1..], value)
      case None => None
      case Some(k) => Some(k + 1)
  }

  /** `getColorName`: the label of the option with this value, or "Default" when none has it. */
  function GetColorName(value: string): string {
    match FindByValue(ColorOptions, value)
    case Some(i) => ColorOptions[i].name
    case None => "Default"
  }

  /** `ColorPreview`'s class: grey for the empty value, the saturated colour otherwise. */
  function PreviewClass(color: string): (r: string)
    ensures color == "" ==> r == "bg-gray-200"
    ensures color != "" ==> r == GetColorBgClass(Some(color))
  {
    if color == "" then "bg-gray-200" else "bg-" + color + "-500"
  }

  /** No two palette entries share a value, so each value selects one entry. */
  lemma OptionValuesDistinct()
    ensures forall i, j :: 0 <= i < j < |ColorOptions| ==> ColorOptions[i].value != ColorOptions[j].value
  {
  }

  /**
   * The label shown for a palette value is that entry's own name, and a value
   * outside the palette is labelled "Default".
   */
  lemma ColorNameOfValue(value: string)
    ensures forall i :: 0 <= i < |ColorOptions| && ColorOptions[i].value == value ==>
              GetColorName(value) == ColorOptions[i].name
    ensures (forall i :: 0 <= i < |ColorOptions| ==> ColorOptions[i].value != value) ==>
              GetColorName(value) == "Default"
  {
    OptionValuesDistinct();
  }

  /**
   * The check mark: the options marked for the current value are exactly those
   * carrying it, so a palette value marks one entry and any other value none.
   */
  function Checked(value: string): (r: set<int>)
    ensures forall i :: i in r <==> 0 <= i < |ColorOptions| && ColorOptions[i].value == value
    ensures FindByValue(ColorOptions, value).Some? ==> |r| == 1
    ensures FindByValue(ColorOptions, value).None? ==> r == {}
  {
    OptionValuesDistinct();
    var r := set i | 0 <= i < |ColorOptions| && ColorOptions[i].value == value;
    var found := FindByValue(ColorOptions, value);
    assert found.Some? ==> r == {found.value};
    r
  }
}
