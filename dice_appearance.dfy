/** The shared dice appearance settings: fade duration, theme name and
    colours, texture and scale. Each setter ignores input it cannot use, so
    the fade never drops below 500 ms and the scale stays within 1..12. */
module DiceAppearanceState {
  import opened Text

  /** A JavaScript number: finite, or NaN and the infinities. */
  datatype Number = Finite(value: real) | NonFinite

  /** The object `getDiceAppearance` returns. */
  datatype Appearance = Appearance(
    fadeDurationMs: real, themeColor: string, themeName: string,
    tensThemeColor: string, texture: string, scale: real)

  const DefaultFadeDurationMs: real := 3000.0

  function RealMax(a: real, b: real): real
  {
    if a >= b then a else b
  }

  function RealMin(a: real, b: real): real
  {
    if a <= b then a else b
  }

  class DiceAppearance {
    var fadeDurationMs: real
    var themeColor: string
    var themeName: string
    var tensThemeColor: string
    var texture: string
    var scale: real

    /** The bounds every setter preserves. */
    predicate Valid()
      reads this
    {
      fadeDurationMs >= 500.0 && 1.0 <= scale <= 12.0
    }

    /** The module's initial settings. */
    constructor()
      ensures Valid()
      ensures Get() == Appearance(DefaultFadeDurationMs, "#ff7f00", "default", "#000000", "paper", 4.0)
    {
      fadeDurationMs := DefaultFadeDurationMs;
      themeColor := "#ff7f00";
      themeName := "default";
      tensThemeColor := "#000000";
      texture := "paper";
      scale := 4.0;
    }

    /** `getDiceAppearance`: a snapshot of the six settings. */
    function Get(): (a: Appearance)
      reads this
      ensures a.fadeDurationMs == fadeDurationMs && a.themeColor == themeColor && a.themeName == themeName
      ensures a.tensThemeColor == tensThemeColor && a.texture == texture && a.scale == scale
    {
      Appearance(fadeDurationMs, themeColor, themeName, tensThemeColor, texture, scale)
    }

    /** A finite duration is stored, raised to at least 500 ms; anything
        else leaves the settings as they were. */
    method SetFadeDuration(durationMs: Number)
      requires Valid()
      modifies this
      ensures Valid()
      ensures durationMs.NonFinite? ==> Get() == old(Get())
      ensures durationMs.Finite? ==>
        Get() == old(Get()).(fadeDurationMs := RealMax(500.0, durationMs.value))
      ensures durationMs.Finite? && durationMs.value >= 500.0 ==> fadeDurationMs == durationMs.value
    {
      if durationMs.Finite? {
        fadeDurationMs := RealMax(500.0, durationMs.value);
      }
    }

    /** A non-blank name is stored trimmed; a blank one changes nothing. */
    method SetThemeName(name: string)
      modifies this
      ensures Valid() == old(Valid())
      ensures Trim(name) == [] ==> Get() == old(Get())
      ensures Trim(name) != [] ==> Get() == old(Get()).(themeName := Trim(name))
    {
      var trimmed := Trim(name);
      if trimmed != [] {
        themeName := trimmed;
      }
    }

    method SetThemeColor(color: string)
      modifies this
      ensures Valid() == old(Valid())
      ensures Trim(color) == [] ==> Get() == old(Get())
      ensures Trim(color) != [] ==> Get() == old(Get()).(themeColor := Trim(color))
    {
      var trimmed := Trim(color);
      if trimmed != [] {
        themeColor := trimmed;
      }
    }

    method SetTensThemeColor(color: string)
      modifies this
      ensures Valid() == old(Valid())
      ensures Trim(color) == [] ==> Get() == old(Get())
      ensures Trim(color) != [] ==> Get() == old(Get()).(tensThemeColor := Trim(color))
    {
      var trimmed := Trim(color);
      if trimmed != [] {
        tensThemeColor := trimmed;
      }
    }

    method SetTexture(texture': string)
      modifies this
      ensures Valid() == old(Valid())
      ensures Trim(texture') == [] ==> Get() == old(Get())
      ensures Trim(texture') != [] ==> Get() == old(Get()).(texture := Trim(texture'))
    {
      var trimmed := Trim(texture');
      if trimmed != [] {
        texture := trimmed;
      }
    }

    /** A finite positive scale is stored clamped to 1..12; anything else
        leaves the settings as they were. */
    method SetScale(s: Number)
      requires Valid()
      modifies this
      ensures Valid()
      ensures !(s.Finite? && s.value > 0.0) ==> Get() == old(Get())
      ensures s.Finite? && s.value > 0.0 ==>
        Get() == old(Get()).(scale := RealMax(1.0, RealMin(12.0, s.value)))
      ensures s.Finite? && 1.0 <= s.value <= 12.0 ==> scale == s.value
    {
      if s.Finite? && s.value > 0.0 {
        scale := RealMax(1.0, RealMin(12.0, s.value));
      }
    }
  }
}
