/** The theme editor of src/app/pages/admin/ThemeCustomization.tsx without its
    rendering: the preset table, the editor state the handlers update, what
    `handleSave` sends and the preview's gradient. */
module ThemePage {

  import opened Basics
  import opened Schema
  import TenantApi

  datatype ThemePreset = ThemePreset(id: string, name: string, primary: string, secondary: string, gradient: string)

  /** `themePresets`. */
  const Presets: seq<ThemePreset> := [
    ThemePreset("rose", "Rose Pink", "#e11d48", "#ec4899", "from-rose-500 to-pink-500"),
    ThemePreset("green", "Emerald Green", "#059669", "#10b981", "from-emerald-500 to-green-500"),
    ThemePreset("blue", "Ocean Blue", "#0284c7", "#38bdf8", "from-blue-500 to-cyan-500"),
    ThemePreset("purple", "Royal Purple", "#7c3aed", "#a855f7", "from-purple-500 to-violet-500"),
    ThemePreset("gold", "Luxury Gold", "#b45309", "#f59e0b", "from-amber-600 to-yellow-500"),
    ThemePreset("red", "Classic Red", "#dc2626", "#ef4444", "from-red-600 to-red-400"),
    ThemePreset("teal", "Teal Mint", "#0d9488", "#14b8a6", "from-teal-600 to-cyan-500"),
    ThemePreset("indigo", "Deep Indigo", "#4f46e5", "#6366f1", "from-indigo-600 to-blue-500")
  ]

  ghost predicate DistinctIds(ps: seq<ThemePreset>) {
    forall i, j :: 0 <= i < j < |ps| ==> ps[i].id != ps[j].id
  }

  /** The eight presets have pairwise distinct ids (each told apart by its first two letters). */
  lemma PresetIdsDistinct()
    ensures |Presets| == 8 && DistinctIds(Presets)
  {
    var prefixes := ["ro", "gr", "bl", "pu", "go", "re", "te", "in"];
    forall k | 0 <= k < |Presets| ensures Presets[k].id[..2] == prefixes[k] {
    }
  }

  /** `presets.find((t) => t.id === themeId)`: the first preset with that id. */
  function FindPreset(ps: seq<ThemePreset>, themeId: string): (r: Option<ThemePreset>)
    ensures r.None? <==> forall p :: p in ps ==> p.id != themeId
    ensures r.Some? ==> r.value in ps && r.value.id == themeId
    decreases |ps|
  {
    if ps == [] then None
    else if ps[0].id == themeId then Some(ps[0])
    else FindPreset(ps[1..], themeId)
  }

  /** With distinct ids the preset found is the one at that id's position. */
  lemma {:induction false} FindPresetAt(ps: seq<ThemePreset>, k: nat)
    requires k < |ps| && DistinctIds(ps)
    ensures FindPreset(ps, ps[k].id) == Some(ps[k])
    decreases k
  {
    if k > 0 {
      assert ps[0].id != ps[k].id;
      assert DistinctIds(ps[1..]) by {
        forall i, j | 0 <= i < j < |ps| - 1 ensures ps[1..][i].id != ps[1..][j].id {
          assert ps[i + 1].id != ps[j + 1].id;
        }
      }
      FindPresetAt(ps[1..], k - 1);
    }
  }

  /** Selecting a preset's id finds that very preset; the first one, rose,
      carries the colours a new wedding starts with. */
  lemma PresetLookup(k: nat)
    requires k < |Presets|
    ensures FindPreset(Presets, Presets[k].id) == Some(Presets[k])
    ensures Presets[0].id == TenantApi.DefaultTheme && Presets[0].primary == TenantApi.DefaultPrimaryColor
    ensures Presets[0].secondary == TenantApi.DefaultSecondaryColor
  {
    PresetIdsDistinct();
    FindPresetAt(Presets, k);
  }

  const RoseGradient := "from-rose-500 to-pink-500"

  /** Every preset names a gradient. */
  lemma PresetHasGradient(p: ThemePreset)
    requires p in Presets
    ensures p.gradient != ""
  {
  }

  /** The preview's gradient: the selected preset's, otherwise rose's. */
  function PreviewGradient(selectedTheme: string): (gradient: string)
    ensures FindPreset(Presets, selectedTheme).Some? ==> gradient == FindPreset(Presets, selectedTheme).value.gradient
    ensures FindPreset(Presets, selectedTheme).None? ==> gradient == Presets[0].gradient
  {
    match FindPreset(Presets, selectedTheme)
    case Some(p) =>
      PresetHasGradient(p);
      if p.gradient != "" then p.gradient else RoseGradient
    case None => RoseGradient
  }

  /** A theme with no preset previews as rose. */
  lemma UnknownThemePreviewsAsRose(selectedTheme: string)
    requires forall k :: 0 <= k < |Presets| ==> Presets[k].id != selectedTheme
    ensures PreviewGradient(selectedTheme) == PreviewGradient("rose")
  {
    PresetIdsDistinct();
    FindPresetAt(Presets, 0);
    assert FindPreset(Presets, selectedTheme).None? by {
      forall p | p in Presets ensures p.id != selectedTheme {
        var k :| 0 <= k < |Presets| && Presets[k] == p;
      }
    }
  }

  datatype FontOption = FontOption(value: string, caption: string)

  /** `fontOptions`, the radio buttons of the font picker. */
  const FontOptions: seq<FontOption> := [
    FontOption("serif", "Serif (Classic)"),
    FontOption("sans-serif", "Sans Serif (Modern)"),
    FontOption("monospace", "Monospace (Minimal)")
  ]

  /** The arguments of `updateWeddingTheme`: wedding id, theme and the two colours. */
  datatype ThemeSave = ThemeSave(weddingId: string, theme: string, primaryColor: string, secondaryColor: string)

  /** The editor's state: the loaded wedding and the four selections. */
  class ThemeEditor {
    /** The preset table the component closes over. */
    const presets: seq<ThemePreset>
    var wedding: Option<Wedding>
    var selectedTheme: string
    var customPrimary: string
    var customSecondary: string
    var selectedFont: string

    /** The initial state: rose, its two colours and the serif font. */
    constructor ()
      ensures presets == Presets
      ensures wedding == None && selectedTheme == "rose"
      ensures customPrimary == TenantApi.DefaultPrimaryColor && customSecondary == TenantApi.DefaultSecondaryColor
      ensures selectedFont == TenantApi.DefaultFontFamily
    {
      presets := Presets;
      wedding := None;
      selectedTheme := "rose";
      customPrimary := "#e11d48";
      customSecondary := "#ec4899";
      selectedFont := "serif";
    }

    /** `loadWedding`: a found wedding fills all four selections from its row;
        otherwise (`data` is `None`, or the read threw) the page navigates away
        and nothing here changes. */
    method LoadWedding(data: Option<Wedding>)
      modifies this
      ensures data.None? ==> wedding == old(wedding) && selectedTheme == old(selectedTheme)
                             && customPrimary == old(customPrimary) && customSecondary == old(customSecondary)
                             && selectedFont == old(selectedFont)
      ensures data.Some? ==> wedding == data && selectedTheme == data.value.theme
                             && customPrimary == data.value.primaryColor && customSecondary == data.value.secondaryColor
                             && selectedFont == data.value.fontFamily
    {
      if data.Some? {
        wedding := data;
        selectedTheme := data.value.theme;
        customPrimary := data.value.primaryColor;
        customSecondary := data.value.secondaryColor;
        selectedFont := data.value.fontFamily;
      }
    }

    /** `handleThemeSelect(themeId)`: the theme is always taken; the colours
        follow a preset with that id and are kept otherwise. */
    method HandleThemeSelect(themeId: string)
      modifies this
      ensures selectedTheme == themeId
      ensures var preset := FindPreset(presets, themeId);
        preset.Some? ==> customPrimary == preset.value.primary && customSecondary == preset.value.secondary
      ensures var preset := FindPreset(presets, themeId);
        preset.None? ==> customPrimary == old(customPrimary) && customSecondary == old(customSecondary)
      ensures wedding == old(wedding) && selectedFont == old(selectedFont)
    {
      selectedTheme := themeId;
      var preset := FindPreset(presets, themeId);
      if preset.Some? {
        customPrimary := preset.value.primary;
        customSecondary := preset.value.secondary;
      }
    }

    /** The primary colour's picker and text field: either one replaces the
        colour with its value, unchecked, and nothing else changes. */
    method SetCustomPrimary(value: string)
      modifies this
      ensures customPrimary == value
      ensures wedding == old(wedding) && selectedTheme == old(selectedTheme)
      ensures customSecondary == old(customSecondary) && selectedFont == old(selectedFont)
    {
      customPrimary := value;
    }

    /** The secondary colour's picker and text field, likewise. */
    method SetCustomSecondary(value: string)
      modifies this
      ensures customSecondary == value
      ensures wedding == old(wedding) && selectedTheme == old(selectedTheme)
      ensures customPrimary == old(customPrimary) && selectedFont == old(selectedFont)
    {
      customSecondary := value;
    }

    /** Checking the radio button of `FontOptions[k]` selects that font's value;
        the theme and colours stay. */
    method SelectFont(k: nat)
      requires k < |FontOptions|
      modifies this
      ensures selectedFont == FontOptions[k].value
      ensures wedding == old(wedding) && selectedTheme == old(selectedTheme)
      ensures customPrimary == old(customPrimary) && customSecondary == old(customSecondary)
    {
      selectedFont := FontOptions[k].value;
    }

    /** What `handleSave` sends: nothing without a wedding, otherwise the theme
        and the two colours; the font is not among them. */
    function SaveCall(): (call: Option<ThemeSave>)
      reads this
      ensures call.None? <==> wedding.None?
      ensures call.Some? ==> call.value == ThemeSave(wedding.value.id, selectedTheme, customPrimary, customSecondary)
    {
      match wedding
      case None => None
      case Some(w) => Some(ThemeSave(w.id, selectedTheme, customPrimary, customSecondary))
    }
  }

  /** Saving writes the theme and colours of that wedding only and never its
      font: whatever font is selected, the stored one stays. */
  lemma SaveKeepsStoredFont(ws: seq<Wedding>, call: ThemeSave)
    ensures var t := UpdateWeddingRows(ws, call.weddingId, ThemePatch(call.theme, call.primaryColor, call.secondaryColor));
      && |t| == |ws|
      && (forall i :: 0 <= i < |ws| ==> t[i].fontFamily == ws[i].fontFamily && t[i].id == ws[i].id)
      && (forall i :: 0 <= i < |ws| && ws[i].id == call.weddingId ==>
            t[i].theme == call.theme && t[i].primaryColor == call.primaryColor && t[i].secondaryColor == call.secondaryColor)
      && (forall i :: 0 <= i < |ws| && ws[i].id != call.weddingId ==> t[i] == ws[i])
  {
  }
}
