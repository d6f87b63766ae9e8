/** The constant tables behind KnownColorTable in Utilities/Utilities/Color.cs.
    The C# code fills `int[175]` and `string[175]` arrays on first use and never
    writes them again, so they are modelled as the constant sequences that the
    initialisation leaves behind. Index i is the KnownColor enumeration value i
    (ActiveBorder = 1 ... MenuHighlight = 174); index 0 is never written. */
module KnownColorData {
  import opened Numerics
  import opened Failures

  /** The last member of the KnownColor enumeration. */
  const MenuHighlight: Int32 := 174
  const TableSize: nat := 175

  /** A Win32 COLORREF word 0x00BBGGRR: its top byte is 0. */
  type ColorRef = x: int | 0 <= x < 0x100_0000

  /** A Win32 system-colour index. */
  type SystemColorIndex = x: int | 0 <= x < 31

  /** DefaultSystemColors, eight to a row: the fixed system colour words
      indexed by a Win32 system-colour index. */
  const DefaultSystemColorRows: seq<seq<ColorRef>> := [
    [13158600, 0, 13743257, 14405055, 15790320, 16777215, 6579300, 0],  // 0..7
    [0, 0, 11842740, 16578548, 11250603, 16750899, 16777215, 15790320],  // 8..15
    [10526880, 7171437, 0, 0, 16777215, 6908265, 14935011, 0],  // 16..23
    [14811135, 0, 13395456, 15389113, 15918295, 16750899, 15790320]   // 24..30
  ]

  /** SystemColorToArgb: the default word of a system colour, unchanged, so
      its alpha byte is 0. */
  function SystemColorToArgb(index: SystemColorIndex): (r: Int32)
    ensures 0 <= r < 0x100_0000
  {
    DefaultSystemColorRows[index / 8][index % 8]
  }

  /** The system-colour index UpdateSystemColors reads for table entries 1..26
      (ActiveBorder .. WindowText), in table order, eight to a row. */
  const SystemIndexLowRows: seq<seq<SystemColorIndex>> := [
    [10, 2, 9, 12, 15, 16, 21, 22],  // 1..8
    [20, 18, 1, 17, 13, 14, 26, 11],  // 9..16
    [3, 19, 24, 23, 4, 7, 0, 5],  // 17..24
    [6, 8]   // 25..26
  ]

  /** The system-colour index UpdateSystemColors reads for table entries
      168..174 (ButtonFace .. MenuHighlight), in table order. */
  const SystemIndexHigh: seq<SystemColorIndex> := [
    15, 20, 16, 27, 28, 30, 29
  ]

  /** An ARGB word with alpha 255. */
  type OpaqueArgb = x: int | -0x100_0000 <= x < 0 witness -1

  /** The word InitColorTable writes to entry 27, Transparent: white with alpha 0. */
  const TransparentArgb: Int32 := 16777215

  /** The ARGB words InitColorTable writes to entries 28..167 (AliceBlue ..
      YellowGreen), eight entries to a row; every one is opaque. */
  const OpaqueColorRows: seq<seq<OpaqueArgb>> := [
    [-984833, -332841, -16711681, -8388652, -983041, -657956, -6972, -16777216],  // 28..35
    [-5171, -16776961, -7722014, -5952982, -2180985, -10510688, -8388864, -2987746],  // 36..43
    [-32944, -10185235, -1828, -2354116, -16711681, -16777077, -16741493, -4684277],  // 44..51
    [-5658199, -16751616, -4343957, -7667573, -11179217, -29696, -6737204, -7667712],  // 52..59
    [-1468806, -7357301, -12042869, -13676721, -16724271, -7077677, -60269, -16728065],  // 60..67
    [-9868951, -14774017, -5103070, -1296, -14513374, -65281, -2302756, -460545],  // 68..75
    [-10496, -2448096, -8355712, -16744448, -5374161, -983056, -38476, -3318692],  // 76..83
    [-11861886, -16, -989556, -1644806, -3851, -8586240, -1331, -5383962],  // 84..91
    [-1015680, -2031617, -329006, -2894893, -7278960, -18751, -24454, -14634326],  // 92..99
    [-7876870, -8943463, -5192482, -32, -16711936, -13447886, -331546, -65281],  // 100..107
    [-8388608, -10039894, -16777011, -4565549, -7114533, -12799119, -8689426, -16713062],  // 108..115
    [-12004916, -3730043, -15132304, -655366, -6943, -6987, -8531, -16777088],  // 116..123
    [-133658, -8355840, -9728477, -23296, -47872, -2461482, -1120086, -6751336],  // 124..131
    [-5247250, -2396013, -4139, -9543, -3308225, -16181, -2252579, -5185306],  // 132..139
    [-8388480, -65536, -4419697, -12490271, -7650029, -360334, -744352, -13726889],  // 140..147
    [-2578, -6270419, -4144960, -7876885, -9807155, -9404272, -1286, -16711809],  // 148..155
    [-12156236, -2968436, -16744320, -2572328, -40121, -12525360, -1146130, -663885],  // 156..163
    [-1, -657931, -256, -6632142]   // 164..167
  ]

  /** Entry i of the colour table after InitColorTable: 0 stays the array's
      default, 1..26 and 168..174 are what UpdateSystemColors copies from
      SystemColorToArgb, 27..167 are the named colours. The array has no
      entry past 174; reading one as 0 keeps this function total, and no
      caller in the model reads one. The system entries have alpha 0,
      Transparent is white with alpha 0, and every other named colour has
      alpha 255. */
  function ColorTableAt(i: nat): (r: Int32)
    ensures i == 0 || i >= TableSize ==> r == 0
    ensures 1 <= i <= 26 || 168 <= i < TableSize ==> 0 <= r < 0x100_0000
    ensures i == 27 ==> r == 0x00FF_FFFF
    ensures 28 <= i <= 167 ==> -0x100_0000 <= r < 0
  {
    if 1 <= i <= 26 then SystemColorToArgb(SystemIndexLowRows[(i - 1) / 8][(i - 1) % 8])
    else if i == 27 then TransparentArgb
    else if 28 <= i <= 167 then OpaqueColorRows[(i - 28) / 8][(i - 28) % 8]
    else if 168 <= i < TableSize then SystemColorToArgb(SystemIndexHigh[i - 168])
    else 0
  }

  /** The names InitColorNameTable writes to entries 1..174 (ActiveBorder ..
      MenuHighlight), eight entries to a row. */
  const ColorNameRows: seq<seq<string>> := [
    ["ActiveBorder", "ActiveCaption", "ActiveCaptionText", "AppWorkspace", "Control", "ControlDark", "ControlDarkDark", "ControlLight"],  // 1..8
    ["ControlLightLight", "ControlText", "Desktop", "GrayText", "Highlight", "HighlightText", "HotTrack", "InactiveBorder"],  // 9..16
    ["InactiveCaption", "InactiveCaptionText", "Info", "InfoText", "Menu", "MenuText", "ScrollBar", "Window"],  // 17..24
    ["WindowFrame", "WindowText", "Transparent", "AliceBlue", "AntiqueWhite", "Aqua", "Aquamarine", "Azure"],  // 25..32
    ["Beige", "Bisque", "Black", "BlanchedAlmond", "Blue", "BlueViolet", "Brown", "BurlyWood"],  // 33..40
    ["CadetBlue", "Chartreuse", "Chocolate", "Coral", "CornflowerBlue", "Cornsilk", "Crimson", "Cyan"],  // 41..48
    ["DarkBlue", "DarkCyan", "DarkGoldenrod", "DarkGray", "DarkGreen", "DarkKhaki", "DarkMagenta", "DarkOliveGreen"],  // 49..56
    ["DarkOrange", "DarkOrchid", "DarkRed", "DarkSalmon", "DarkSeaGreen", "DarkSlateBlue", "DarkSlateGray", "DarkTurquoise"],  // 57..64
    ["DarkViolet", "DeepPink", "DeepSkyBlue", "DimGray", "DodgerBlue", "Firebrick", "FloralWhite", "ForestGreen"],  // 65..72
    ["Fuchsia", "Gainsboro", "GhostWhite", "Gold", "Goldenrod", "Gray", "Green", "GreenYellow"],  // 73..80
    ["Honeydew", "HotPink", "IndianRed", "Indigo", "Ivory", "Khaki", "Lavender", "LavenderBlush"],  // 81..88
    ["LawnGreen", "LemonChiffon", "LightBlue", "LightCoral", "LightCyan", "LightGoldenrodYellow", "LightGray", "LightGreen"],  // 89..96
    ["LightPink", "LightSalmon", "LightSeaGreen", "LightSkyBlue", "LightSlateGray", "LightSteelBlue", "LightYellow", "Lime"],  // 97..104
    ["LimeGreen", "Linen", "Magenta", "Maroon", "MediumAquamarine", "MediumBlue", "MediumOrchid", "MediumPurple"],  // 105..112
    ["MediumSeaGreen", "MediumSlateBlue", "MediumSpringGreen", "MediumTurquoise", "MediumVioletRed", "MidnightBlue", "MintCream", "MistyRose"],  // 113..120
    ["Moccasin", "NavajoWhite", "Navy", "OldLace", "Olive", "OliveDrab", "Orange", "OrangeRed"],  // 121..128
    ["Orchid", "PaleGoldenrod", "PaleGreen", "PaleTurquoise", "PaleVioletRed", "PapayaWhip", "PeachPuff", "Peru"],  // 129..136
    ["Pink", "Plum", "PowderBlue", "Purple", "Red", "RosyBrown", "RoyalBlue", "SaddleBrown"],  // 137..144
    ["Salmon", "SandyBrown", "SeaGreen", "SeaShell", "Sienna", "Silver", "SkyBlue", "SlateBlue"],  // 145..152
    ["SlateGray", "Snow", "SpringGreen", "SteelBlue", "Tan", "Teal", "Thistle", "Tomato"],  // 153..160
    ["Turquoise", "Violet", "Wheat", "White", "WhiteSmoke", "Yellow", "YellowGreen", "ButtonFace"],  // 161..168
    ["ButtonHighlight", "ButtonShadow", "GradientActiveCaption", "GradientInactiveCaption", "MenuBar", "MenuHighlight"]   // 169..174
  ]

  /** Entry i of the name table after InitColorNameTable; `None` is the null
      that entry 0 keeps. As for ColorTableAt, indices past 174 read as null. */
  function ColorNameAt(i: nat): (r: Option<string>)
    ensures r.Some? <==> 1 <= i <= MenuHighlight
  {
    if 1 <= i <= MenuHighlight then Some(ColorNameRows[(i - 1) / 8][(i - 1) % 8]) else None
  }
}
