/**
 * The colour palettes of the slide view and of the PowerPoint export
 * (`THEMES`, `PPTX_THEMES` in `components/ExamDisplay.tsx`) and the lookup of
 * a theme name in them with a fallback to the `'Default'` entry.
 */
module Palette {

  /** Class names for the on-screen slide view. */
  datatype ScreenPalette = ScreenPalette(bg: string, title: string, text: string, highlight: string, slideBg: string)

  /** Hex colours for the exported deck. */
  datatype PptxPalette = PptxPalette(slideBg: string, title: string, text: string, highlight: string)

  const DefaultKey: string := "Default"

  /** The four themes the generator is asked to choose from. */
  const KnownThemes: seq<string> := ["Xanh Dương", "Xanh Lá", "Cam", "Tím"]

  const ScreenThemes: map<string, ScreenPalette> := map[
    "Xanh Dương" := ScreenPalette("bg-blue-50", "text-blue-800", "text-slate-700", "text-blue-600", "bg-white"),
    "Xanh Lá" := ScreenPalette("bg-green-50", "text-green-800", "text-slate-700", "text-green-600", "bg-white"),
    "Cam" := ScreenPalette("bg-orange-50", "text-orange-800", "text-slate-700", "text-orange-600", "bg-white"),
    "Tím" := ScreenPalette("bg-purple-50", "text-purple-800", "text-slate-700", "text-purple-600", "bg-white"),
    "Default" := ScreenPalette("bg-slate-50", "text-blue-700", "text-slate-800", "text-blue-600", "bg-white")
  ]

  const PptxThemes: map<string, PptxPalette> := map[
    "Xanh Dương" := PptxPalette("F0F9FF", "1E40AF", "334155", "2563EB"),
    "Xanh Lá" := PptxPalette("F0FDF4", "166534", "334155", "16A34A"),
    "Cam" := PptxPalette("FFF7ED", "9A3412", "334155", "EA580C"),
    "Tím" := PptxPalette("FBF5FF", "6B21A8", "334155", "9333EA"),
    "Default" := PptxPalette("F8FAFC", "1D4ED8", "334155", "2563EB")
  ]

  /** Property names every plain JavaScript object inherits from `Object.prototype`. */
  const InheritedNames: set<string> := {
    "constructor", "hasOwnProperty", "isPrototypeOf", "propertyIsEnumerable",
    "toLocaleString", "toString", "valueOf", "__proto__",
    "__defineGetter__", "__defineSetter__", "__lookupGetter__", "__lookupSetter__"
  }

  /** What `table[key]` yields on an object literal: an own entry, an inherited
      member (a function or `Object.prototype`, truthy but not a palette), or
      `undefined`. */
  datatype Lookup<T> = Own(value: T) | Inherited(name: string) | Missing

  function PropertyGet<T>(table: map<string, T>, key: string): Lookup<T> {
    if key in table then Own(table[key])
    else if key in InheritedNames then Inherited(key)
    else Missing
  }

  /** `table[key] || table['Default']` as written: only `undefined` falls back. */
  function OrDefaultAsWritten<T>(table: map<string, T>, key: string): (r: Lookup<T>)
    requires DefaultKey in table
    ensures key in table ==> r == Own(table[key])
    ensures key !in table && key !in InheritedNames ==> r == Own(table[DefaultKey])
    ensures key !in table && key in InheritedNames ==> r == Inherited(key)
  {
    match PropertyGet(table, key)
    case Own(v) => Own(v)
    case Inherited(n) => Inherited(n)
    case Missing => Own(table[DefaultKey])
  }

  /** The on-screen palette lookup as the source writes it. */
  function ScreenPaletteAsWritten(theme: string): (r: Lookup<ScreenPalette>)
    ensures theme in KnownThemes ==> r == Own(ScreenThemes[theme])
    ensures theme in InheritedNames ==> r == Inherited(theme)
    ensures theme !in KnownThemes && theme !in InheritedNames ==> r == Own(ScreenThemes[DefaultKey])
  {
    OrDefaultAsWritten(ScreenThemes, theme)
  }

  /** The PowerPoint palette lookup as the source writes it. */
  function PptxPaletteAsWritten(theme: string): (r: Lookup<PptxPalette>)
    ensures theme in KnownThemes ==> r == Own(PptxThemes[theme])
    ensures theme in InheritedNames ==> r == Inherited(theme)
    ensures theme !in KnownThemes && theme !in InheritedNames ==> r == Own(PptxThemes[DefaultKey])
  {
    OrDefaultAsWritten(PptxThemes, theme)
  }

  /** A theme named after an inherited member selects no palette at all: the
      view reads `undefined` class names and the export `undefined` colours
      from a function object. */
  lemma InheritedNameSelectsNoPalette()
    ensures ScreenPaletteAsWritten("constructor") == Inherited("constructor")
    ensures PptxPaletteAsWritten("constructor") == Inherited("constructor")
  {
    assert "constructor" !in ScreenThemes && "constructor" !in PptxThemes;
  }

  /** The intended lookup: an own entry, otherwise the `'Default'` entry. */
  function OwnOrDefault<T>(table: map<string, T>, key: string): (r: T)
    requires DefaultKey in table
    ensures key in table ==> r == table[key]
    ensures key !in table ==> r == table[DefaultKey]
  {
    if key in table then table[key] else table[DefaultKey]
  }

  /** The on-screen palette for a theme name. */
  function ScreenPaletteFor(theme: string): (p: ScreenPalette)
    ensures theme !in KnownThemes ==> p == ScreenThemes[DefaultKey]
    ensures theme in KnownThemes ==> p == ScreenThemes[theme]
  {
    OwnOrDefault(ScreenThemes, theme)
  }

  /** The export palette for a theme name. */
  function PptxPaletteFor(theme: string): (p: PptxPalette)
    ensures theme !in KnownThemes ==> p == PptxThemes[DefaultKey]
    ensures theme in KnownThemes ==> p == PptxThemes[theme]
  {
    OwnOrDefault(PptxThemes, theme)
  }

  /** The corrected lookups differ from the source's only on inherited names. */
  lemma CorrectedAgreesOutsideInherited(theme: string)
    requires theme !in InheritedNames
    ensures ScreenPaletteAsWritten(theme) == Own(ScreenPaletteFor(theme))
    ensures PptxPaletteAsWritten(theme) == Own(PptxPaletteFor(theme))
  {
  }

  /** Each known theme has a palette of its own, distinct from every other
      known theme's and from the default one, on screen and in the export. */
  lemma KnownThemesAreDistinct(a: string, b: string)
    requires a in KnownThemes && b in KnownThemes && a != b
    ensures ScreenPaletteFor(a) != ScreenPaletteFor(b) && PptxPaletteFor(a) != PptxPaletteFor(b)
    ensures ScreenPaletteFor(a) != ScreenThemes[DefaultKey] && PptxPaletteFor(a) != PptxThemes[DefaultKey]
  {
  }
}
