/** The built-in themes of ColorTheme.cs and the lookup by name. */
module Themes {
  import opened Options
  import opened ColorThemes

  /** The fifteen interface colours a theme shares with the theme it is
      derived from: everything except the two accent colours. */
  datatype Palette = Palette(
    bg: Color, bgTransparent: Color, surface: Color, surfaceAlt: Color,
    border: Color,
    text: Color, subText: Color, dimText: Color,
    activeTime: Color,
    hover: Color, pressed: Color, checkBg: Color, checkBorder: Color,
    inactiveText: Color, blackedOutText: Color)

  /** A theme: its key, the name shown to the user, its palette and its two
      accent colours. A missing key or display name is `""`. */
  datatype ColorTheme = ColorTheme(
    name: string, displayName: string,
    palette: Palette, accent: Color, activeAccent: Color)

  /** `default(Color)`: transparent black. */
  const NoColor := Color(0, 0, 0, 0)

  /** The colours of Dark Orange. */
  const DarkPalette := Palette(
    /* bg */ Color(255, 0x1E, 0x1E, 0x1E),
    /* bgTransparent */ Color(0xE0, 0x20, 0x20, 0x20),
    /* surface */ Color(255, 0x25, 0x25, 0x25),
    /* surfaceAlt */ Color(255, 0x2A, 0x2A, 0x2A),
    /* border */ Color(255, 0x33, 0x33, 0x33),
    /* text */ Color(255, 0xD0, 0xD0, 0xD0),
    /* subText */ Color(255, 0xA0, 0xA0, 0xA0),
    /* dimText */ Color(255, 0x70, 0x70, 0x70),
    /* activeTime */ Color(255, 0x80, 0xFF, 0x80),
    /* hover */ Color(255, 0x44, 0x44, 0x44),
    /* pressed */ Color(255, 0x55, 0x55, 0x55),
    /* checkBg */ Color(255, 0x33, 0x33, 0x33),
    /* checkBorder */ Color(255, 0x55, 0x55, 0x55),
    /* inactiveText */ Color(255, 0x60, 0x60, 0x60),
    /* blackedOutText */ Color(255, 0x50, 0x50, 0x50))

  /** The colours of the light themes. */
  const LightPalette := Palette(
    /* bg */ Color(255, 0xF0, 0xF0, 0xF0),
    /* bgTransparent */ Color(0xE8, 0xF0, 0xF0, 0xF0),
    /* surface */ Color(255, 0xFF, 0xFF, 0xFF),
    /* surfaceAlt */ Color(255, 0xE8, 0xE8, 0xE8),
    /* border */ Color(255, 0xD0, 0xD0, 0xD0),
    /* text */ Color(255, 0x1E, 0x1E, 0x1E),
    /* subText */ Color(255, 0x60, 0x60, 0x60),
    /* dimText */ Color(255, 0x90, 0x90, 0x90),
    /* activeTime */ Color(255, 0x00, 0x88, 0x00),
    /* hover */ Color(255, 0xE0, 0xE0, 0xE0),
    /* pressed */ Color(255, 0xD0, 0xD0, 0xD0),
    /* checkBg */ Color(255, 0xFF, 0xFF, 0xFF),
    /* checkBorder */ Color(255, 0xAA, 0xAA, 0xAA),
    /* inactiveText */ Color(255, 0xA0, 0xA0, 0xA0),
    /* blackedOutText */ Color(255, 0xC0, 0xC0, 0xC0))

  /** The keys of the built-in themes, dark ones first: the order of `All`. */
  const Names: seq<string> := ["Dark-Orange", "Dark-Blue", "Dark-Green", "Dark-Purple",
                               "Light-Orange", "Light-Blue", "Light-Green", "Light-Purple"]

  /** The names shown to the user, in the same order. */
  const DisplayNames: seq<string> := ["Dark Orange", "Dark Blue", "Dark Green", "Dark Purple",
                                      "Light Orange", "Light Blue", "Light Green", "Light Purple"]

  /** The accent colours, in the same order. */
  const Accents: seq<Color> := [
    Color(255, 0xFF, 0x8C, 0x00), Color(255, 0x4E, 0xA8, 0xF0),
    Color(255, 0x4E, 0xC9, 0x6B), Color(255, 0xB0, 0x7E, 0xF0),
    Color(255, 0xE0, 0x78, 0x00), Color(255, 0x1A, 0x7A, 0xD4),
    Color(255, 0x2E, 0x9E, 0x48), Color(255, 0x88, 0x56, 0xD0)]

  /** How many of the built-in themes are dark. */
  const DarkCount := 4

  /** The built-in theme at position `i`: its key, display name and accent
      colour (which is also its active accent) from the tables above, on the
      dark or the light palette. */
  function ThemeAt(i: int): ColorTheme
    requires 0 <= i < 8
  {
    ColorTheme(Names[i], DisplayNames[i], if i < DarkCount then DarkPalette else LightPalette,
               Accents[i], Accents[i])
  }

  /** Dark Orange, the default theme. */
  const DarkOrange := ThemeAt(0)

  /** The unnamed light base the light themes copy: its key, display name
      and accents are left at their defaults. */
  const LightBase := ColorTheme("", "", LightPalette, NoColor, NoColor)

  /** `All`: the eight built-in themes, dark ones first. */
  function All(): (themes: seq<ColorTheme>)
    ensures |themes| == 8
  {
    seq(8, ThemeAt)
  }

  /** Whether some theme of `themes` has the key `name`. */
  predicate HasName(themes: seq<ColorTheme>, name: string) {
    exists i :: 0 <= i < |themes| && themes[i].name == name
  }

  /** `FirstOrDefault(t => t.Name == name)` over `themes`: the first theme
      with that key. */
  function FirstNamed(themes: seq<ColorTheme>, name: string): (r: Option<ColorTheme>)
    ensures r.Some? <==> HasName(themes, name)
    ensures r.Some? ==> exists i :: 0 <= i < |themes| && themes[i] == r.value
                                    && r.value.name == name
                                    && forall j :: 0 <= j < i ==> themes[j].name != name
  {
    if |themes| == 0 then None
    else if themes[0].name == name then Some(themes[0])
    else
      var r := FirstNamed(themes[1..], name);
      FirstNamedTail(themes, name, r);
      r
  }

  lemma FirstNamedTail(themes: seq<ColorTheme>, name: string, r: Option<ColorTheme>)
    requires |themes| > 0 && themes[0].name != name
    requires r.Some? <==> HasName(themes[1..], name)
    requires r.Some? ==> exists i :: 0 <= i < |themes[1..]| && themes[1..][i] == r.value
                                     && r.value.name == name
                                     && forall j :: 0 <= j < i ==> themes[1..][j].name != name
    ensures r.Some? <==> HasName(themes, name)
    ensures r.Some? ==> exists i :: 0 <= i < |themes| && themes[i] == r.value
                                    && r.value.name == name
                                    && forall j :: 0 <= j < i ==> themes[j].name != name
  {
    if HasName(themes, name) {
      var i :| 0 <= i < |themes| && themes[i].name == name;
      assert themes[1..][i - 1] == themes[i];
    }
    if r.Some? {
      var i :| 0 <= i < |themes[1..]| && themes[1..][i] == r.value && r.value.name == name
               && forall j :: 0 <= j < i ==> themes[1..][j].name != name;
      assert themes[i + 1] == r.value;
      forall j | 0 <= j < i + 1
        ensures themes[j].name != name
      {
        if j > 0 { assert themes[j] == themes[1..][j - 1]; }
      }
    }
  }

  /** `GetByName`: the first built-in theme with that key, else Dark Orange. */
  function GetByName(name: string): (t: ColorTheme)
    ensures HasName(All(), name) ==> t.name == name && exists i :: 0 <= i < 8 && t == ThemeAt(i)
    ensures !HasName(All(), name) ==> t == DarkOrange
  {
    match FirstNamed(All(), name)
    case Some(t) => t
    case None => DarkOrange
  }

  /** No two built-in themes share a key. */
  lemma KeysDistinct()
    ensures forall i, j :: 0 <= i < j < 8 ==> Names[i] != Names[j]
  {
  }

  /** Every built-in theme is found by its own key, and any other text
      gives Dark Orange. */
  lemma GetByNameFinds(name: string)
    ensures forall i :: 0 <= i < 8 && name == Names[i] ==> GetByName(name) == ThemeAt(i)
    ensures name !in Names ==> GetByName(name) == DarkOrange
  {
    KeysDistinct();
    forall i | 0 <= i < 8 && name == Names[i]
      ensures GetByName(name) == ThemeAt(i)
    {
      assert All()[i].name == name;
      var k :| 0 <= k < 8 && GetByName(name) == ThemeAt(k);
    }
    if name !in Names {
      assert !HasName(All(), name);
    }
  }

  /** Each dark theme is Dark Orange with its own key, display name and
      accent colour (`DarkOrange with { ... }`). */
  lemma DarkVariant(i: int)
    requires 0 <= i < DarkCount
    ensures ThemeAt(i) == DarkOrange.(name := Names[i], displayName := DisplayNames[i],
                                      accent := Accents[i], activeAccent := Accents[i])
  {
  }

  /** Each light theme is the unnamed light base with its own key, display
      name and accent colour (`LightBase with { ... }`). */
  lemma LightVariant(i: int)
    requires DarkCount <= i < 8
    ensures ThemeAt(i) == LightBase.(name := Names[i], displayName := DisplayNames[i],
                                     accent := Accents[i], activeAccent := Accents[i])
  {
  }
}
