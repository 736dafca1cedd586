/** The constant tables of the backend's settings file that the modelled code
    reads: the bundled fonts (in table order), the system font fallbacks and
    the default image model. */
module Config {
  import opened Wrappers

  datatype FontInfo = FontInfo(name: string, file: string, style: string, bestFor: string)

  /** One entry of the font table: its key and its description. */
  datatype FontEntry = FontEntry(key: string, info: FontInfo)

  /** The font table, in the order its entries are written. */
  const AvailableFonts: seq<FontEntry> := [
    FontEntry("noto_sans", FontInfo("Noto Sans TC", "NotoSansTC-Variable.ttf",
      "現代、乾淨、專業", "財商觀點、專業形象、清單體、長文")),
    FontEntry("noto_serif", FontInfo("Noto Serif TC", "NotoSerifTC-Variable.ttf",
      "典雅、文藝、有質感", "金句、心靈雞湯、文青風、限動標語"))
  ]

  /** The keys of the font table. */
  function FontKeys(): set<string> {
    set i | 0 <= i < |AvailableFonts| :: AvailableFonts[i].key
  }

  /** `AVAILABLE_FONTS.get(key)` over a table of entries. */
  function LookupIn(entries: seq<FontEntry>, key: string): (r: Option<FontInfo>)
    ensures r.Some? <==> exists i :: 0 <= i < |entries| && entries[i].key == key
    ensures r.Some? ==> exists i :: 0 <= i < |entries| && entries[i] == FontEntry(key, r.value)
  {
    if entries == [] then None
    else if entries[0].key == key then Some(entries[0].info)
    else
      var r := LookupIn(entries[1..], key);
      assert forall i :: 1 <= i < |entries| ==> entries[i] == entries[1..][i - 1];
      r
  }

  function LookupFont(key: string): (r: Option<FontInfo>)
    ensures r.Some? <==> key in FontKeys()
    ensures r.Some? ==> exists i :: 0 <= i < |AvailableFonts| && AvailableFonts[i] == FontEntry(key, r.value)
  {
    LookupIn(AvailableFonts, key)
  }

  /** Font files tried, in order, when the requested font cannot be used. */
  const SystemFontFallbacks: seq<string> := [
    "/System/Library/Fonts/PingFang.ttc",
    "/usr/share/fonts/opentype/noto/NotoSansCJK-Bold.ttc",
    "/usr/share/fonts/noto-cjk/NotoSansCJK-Bold.ttc"
  ]

  /** The image model used when the environment does not name one. */
  const DefaultImageModel: string := "gemini-2.5-flash-image"
}
