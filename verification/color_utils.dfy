/**
 * Tailwind class names for an agenda item's colour (utils/color-utils.ts). A
 * colour is optional; a missing or empty one is falsy and yields no class.
 */
module ColorUtils {
  import opened Wrappers
  import opened Strings

  /** The four class names a timer view uses for one colour. */
  datatype ColorClasses = ColorClasses(bg: string, progress: string, dot: string, text: string)

  /** `prefix + color + suffix` for a truthy colour, "" otherwise. */
  function Wrap(color: Option<string>, prefix: string, suffix: string): (r: string)
    ensures !Truthy(color) ==> r == ""
    ensures Truthy(color) ==>
      && |r| == |prefix| + |color.value| + |suffix|
      && StartsWith(r, prefix) && EndsWith(r, suffix)
      && r[|prefix|..|r| - |suffix|] == color.value
  {
    if !Truthy(color) then "" else prefix + color.value + suffix
  }

  /** The colour between a known prefix and suffix of a class name, when there is one. */
  function Unwrap(cls: string, prefix: string, suffix: string): Option<string> {
    if |prefix| + |suffix| < |cls| && StartsWith(cls, prefix) && EndsWith(cls, suffix)
    then Some(cls[|prefix|..|cls| - |suffix|])
    else None
  }

  /** `getColorBgClass`: the saturated background class, "bg-<c>-500". */
  function GetColorBgClass(color: Option<string>): string {
    Wrap(color, "bg-", "-500")
  }

  /** `getColorTextClass`: the text class, "text-<c>-600". */
  function GetColorTextClass(color: Option<string>): string {
    Wrap(color, "text-", "-600")
  }

  /** `getColorBgLightClass`: the light background class, "bg-<c>-100". */
  function GetColorBgLightClass(color: Option<string>): string {
    Wrap(color, "bg-", "-100")
  }

  /**
   * `getColorClasses`: all empty for a falsy colour; otherwise the light
   * background, the saturated background for both progress bar and dot, and the
   * text class.
   */
  function GetColorClasses(color: Option<string>): (r: ColorClasses)
    ensures r.bg == GetColorBgLightClass(color)
    ensures r.progress == GetColorBgClass(color) && r.dot == r.progress
    ensures r.text == GetColorTextClass(color)
    ensures !Truthy(color) <==> r == ColorClasses("", "", "", "")
  {
    if !Truthy(color) then ColorClasses("", "", "", "")
    else ColorClasses("bg-" + color.value + "-100", "bg-" + color.value + "-500",
                      "bg-" + color.value + "-500", "text-" + color.value + "-600")
  }

  /**
   * Each class names its colour: the colour is read back from the class, and a
   * falsy colour yields a class from which nothing is read.
   */
  lemma ClassesNameTheirColor(color: Option<string>)
    ensures Truthy(color) ==>
      && Unwrap(GetColorBgClass(color), "bg-", "-500") == color
      && Unwrap(GetColorTextClass(color), "text-", "-600") == color
      && Unwrap(GetColorBgLightClass(color), "bg-", "-100") == color
    ensures !Truthy(color) ==>
      && Unwrap(GetColorBgClass(color), "bg-", "-500").None?
      && Unwrap(GetColorTextClass(color), "text-", "-600").None?
      && Unwrap(GetColorBgLightClass(color), "bg-", "-100").None?
  {
  }

  /** Distinct truthy colours get distinct classes of every kind. */
  lemma ClassesInjective(a: Option<string>, b: Option<string>)
    requires Truthy(a) && Truthy(b) && a != b
    ensures GetColorClasses(a).bg != GetColorClasses(b).bg
    ensures GetColorClasses(a).progress != GetColorClasses(b).progress
    ensures GetColorClasses(a).text != GetColorClasses(b).text
  {
    ClassesNameTheirColor(a);
    ClassesNameTheirColor(b);
  }
}
