/** The ARGB colour value type `Utils.Color` and the lookups of
    `KnownColorTable` (Utilities/Utilities/Color.cs).

    A colour is four read-only fields: a 64-bit `value`, a 16-bit `state` word
    of flags, an optional `name` and a 16-bit `knownColor` index. The state
    word decides where the packed ARGB word comes from: the stored value, the
    known-colour table, or nothing (0). */
module Colors {
  import opened Numerics
  import opened Failures
  import opened KnownColorData

  /** A member of the KnownColor enumeration; an enum over `int` can hold any int. */
  type KnownColor = Int32

  const StateKnownColorValid: Int16 := 1
  const StateARGBValueValid: Int16 := 2
  const StateValueMask: Int16 := StateARGBValueValid
  const StateNameValid: Int16 := 8
  const NotDefinedValue: Int64 := 0

  /** KnownColor members used below. */
  const KnownBlack: KnownColor := 35
  const KnownAliceBlue: KnownColor := 28

  /** `(state & flag) != 0` for a single-bit flag (1, 2 or 8): that bit of the
      two's complement word is set. */
  predicate HasFlag(state: Int16, flag: Int16)
    requires flag == 1 || flag == 2 || flag == 8
  {
    var bits := if flag == 1 then state else if flag == 2 then state / 2 else state / 8;
    bits % 2 == 1
  }

  /** The KnownColor values of the system colours: ActiveBorder .. WindowText
      (1..26) and ButtonFace .. MenuHighlight (168..174), plus every value
      outside the named colours 27..167. */
  predicate IsSystemIndex(k: int) { k <= 26 || k > 167 }

  datatype Color = Color(value: Int64, state: Int16, name: Option<string>, knownColor: Int16)
  {
    /** A known colour is never empty. */
    function IsKnownColor(): (b: bool)
      ensures b ==> state != 0
    {
      HasFlag(state, StateKnownColorValid)
    }

    /** An empty colour has none of the three flags. */
    function IsEmpty(): (b: bool)
      ensures b ==> !IsKnownColor() && !HasFlag(state, StateNameValid) && !HasFlag(state, StateValueMask)
    {
      state == 0
    }

    /** Every known colour is named, and a named colour is never empty. */
    function IsNamedColor(): (b: bool)
      ensures IsKnownColor() ==> b
      ensures b ==> state != 0
    {
      HasFlag(state, StateNameValid) || IsKnownColor()
    }

    /** A system colour is a known (so named) colour, and none of the named
        colours Transparent .. YellowGreen (27..167) is one. */
    function IsSystemColor(): (b: bool)
      ensures b ==> IsKnownColor() && IsNamedColor()
      ensures IsKnownColor() ==> (b <==> !(27 <= knownColor <= 167))
    {
      IsKnownColor() && IsSystemIndex(knownColor)
    }

    /** The table lookup behind `Value` indexes an `int[175]` with `knownColor`;
        every colour the source constructs has a non-negative index. */
    predicate Resolvable() { knownColor >= 0 }

    /** The packed word: the stored value when the ARGB-valid flag is set,
        else the table entry of a known colour, else 0. */
    function Value(): (v: Int64)
      requires Resolvable()
      ensures HasFlag(state, StateValueMask) ==> v == value
      ensures !HasFlag(state, StateValueMask) && IsKnownColor() ==> v == KnownColorToArgb(knownColor).value
      ensures !HasFlag(state, StateValueMask) && !IsKnownColor() ==> v == 0
    {
      if HasFlag(state, StateValueMask) then value
      else if IsKnownColor() then KnownColorToArgb(knownColor).value
      else NotDefinedValue
    }

    /** `(byte)(Value >> 24 & 255)` and the three other channels: the bytes
        of the ARGB int, from the top. */
    function A(): (a: Byte)
      requires Resolvable()
      ensures a == Byte3(ToArgb())
    {
      CastKeepsBytes(Value());
      Byte3(Value())
    }

    function R(): (r: Byte)
      requires Resolvable()
      ensures r == Byte2(ToArgb())
    {
      CastKeepsBytes(Value());
      Byte2(Value())
    }

    function G(): (g: Byte)
      requires Resolvable()
      ensures g == Byte1(ToArgb())
    {
      CastKeepsBytes(Value());
      Byte1(Value())
    }

    function B(): (b: Byte)
      requires Resolvable()
      ensures b == Byte0(ToArgb())
    {
      CastKeepsBytes(Value());
      Byte0(Value())
    }

    /** `(int)Value`: an unchecked narrowing of the 64-bit word. It is the
        stored value when that fits an int, the table entry of a known colour,
        and 0 for a colour with neither. */
    function ToArgb(): (r: Int32)
      requires Resolvable()
      ensures HasFlag(state, StateValueMask) && -0x8000_0000 <= value < 0x8000_0000 ==> r == value
      ensures !HasFlag(state, StateValueMask) && IsKnownColor() ==> r == KnownColorToArgb(knownColor).value
      ensures !HasFlag(state, StateValueMask) && !IsKnownColor() ==> r == 0
    {
      ToInt32(Value())
    }

    /** The stored index widened from `short` to the enumeration; it is a
        valid table index exactly when it is not negative. */
    function ToKnownColor(): (k: KnownColor)
      ensures -0x8000 <= k < 0x8000
      ensures k >= 0 <==> Resolvable()
    {
      knownColor
    }
  }

  /** `Color.Empty`, which is `default(Color)`. */
  const Empty: Color := Color(0, 0, None, 0)

  /** The internal constructor `Color(KnownColor)`; it narrows the index to `short`. */
  function KnownColorCtor(k: KnownColor): (c: Color)
    ensures c.IsKnownColor() && !c.IsEmpty() && c.name.None?
    ensures -0x8000 <= k < 0x8000 ==> c.knownColor == k
  {
    Color(0, StateKnownColorValid, None, ToInt16(k))
  }

  /** `Color.Black` and `Color.AliceBlue`. */
  const Black: Color := KnownColorCtor(KnownBlack)
  const AliceBlue: Color := KnownColorCtor(KnownAliceBlue)

  // ---------------------------------------------------------------------
  // KnownColorTable

  /** The table entry of a known colour. Indices above MenuHighlight give 0;
      a negative index makes the array access throw. */
  function KnownColorToArgb(color: KnownColor): (r: Result<Int32>)
    ensures r.Err? <==> color < 0
    ensures r.Err? ==> r.error == IndexOutOfRangeException
    ensures 0 <= color <= MenuHighlight ==> r == Ok(ColorTableAt(color))
    ensures color > MenuHighlight ==> r == Ok(0)
  {
    if color <= MenuHighlight then
      if color < 0 then Err(IndexOutOfRangeException) else Ok(ColorTableAt(color))
    else Ok(0)
  }

  /** The name-table entry of a known colour; `None` stands for null. */
  function KnownColorToName(color: KnownColor): (r: Result<Option<string>>)
    ensures r.Err? <==> color < 0
    ensures 0 <= color <= MenuHighlight ==> r == Ok(ColorNameAt(color))
    ensures color > MenuHighlight ==> r == Ok(None)
  {
    if color <= MenuHighlight then
      if color < 0 then Err(IndexOutOfRangeException) else Ok(ColorNameAt(color))
    else Ok(None)
  }

  /** `red << 16 | green << 8 | blue | alpha << 24` in 32-bit `int`. The four
      fields occupy disjoint bits, so the ORs add; the shift of alpha into the
      sign bit is the wrap-around of ToInt32. Its only caller passes bytes. */
  function Encode(alpha: int, red: int, green: int, blue: int): (w: Int32)
    requires 0 <= alpha < 0x100 && 0 <= red < 0x100 && 0 <= green < 0x100 && 0 <= blue < 0x100
    ensures Byte3(w) == alpha && Byte2(w) == red && Byte1(w) == green && Byte0(w) == blue
    ensures w < 0 <==> alpha >= 0x80
  {
    PackThenBytes(alpha, red, green, blue);
    ToInt32(red * 0x1_0000 + green * 0x100 + blue + alpha * 0x100_0000)
  }

  /** Reads a Win32 COLORREF word (0x00BBGGRR) as an opaque ARGB word: red
      comes from the low byte, blue from the third, and alpha is 255. */
  function FromWin32Value(value: Int32): (w: Int32)
    ensures Byte3(w) == 255 && Byte2(w) == Byte0(value) && Byte1(w) == Byte1(value) && Byte0(w) == Byte2(value)
  {
    Encode(255, Byte0(value), Byte1(value), Byte2(value))
  }

  // ---------------------------------------------------------------------
  // Construction

  /** `CheckByte`: throws unless 0 <= value <= 255; the name it is given is
      not used in the exception. */
  function CheckByte(value: Int32): (r: Result<Byte>)
    ensures r.Ok? <==> 0 <= value <= 255
    ensures r.Ok? ==> r.value == value
    ensures r.Err? ==> r.error == ArgumentException
  {
    if value < 0 || value > 255 then Err(ArgumentException) else Ok(value)
  }

  /** `MakeArgb`: the int packing of Encode, sign-extended to `long`: the
      word holds an int, negative exactly for an alpha of 128 or more, and
      its four bytes are the channels. */
  function MakeArgb(alpha: Byte, red: Byte, green: Byte, blue: Byte): (v: Int64)
    ensures -0x8000_0000 <= v < 0x8000_0000
    ensures v < 0 <==> alpha >= 0x80
    ensures Byte3(v) == alpha && Byte2(v) == red && Byte1(v) == green && Byte0(v) == blue
  {
    Encode(alpha, red, green, blue)
  }

  /** `FromArgb(int argb)`: stores the word sign-extended to `long`. ToArgb
      gives argb back for every int, and the colour is an ARGB colour: not
      known, named or empty. */
  function FromArgbValue(argb: Int32): (c: Color)
    ensures c.Resolvable() && c.ToArgb() == argb
    ensures !c.IsKnownColor() && !c.IsNamedColor() && !c.IsEmpty()
  {
    Color(argb, StateARGBValueValid, None, 0)
  }

  /** `FromArgb(int alpha, int red, int green, int blue)`: the byte checks run
      in the order alpha, red, green, blue, so it throws ArgumentException
      exactly when one component is not a byte. */
  function FromArgb(alpha: Int32, red: Int32, green: Int32, blue: Int32): (r: Result<Color>)
    ensures r.Ok? <==> 0 <= alpha <= 255 && 0 <= red <= 255 && 0 <= green <= 255 && 0 <= blue <= 255
    ensures r.Err? ==> r.error == ArgumentException
  {
    var a :- CheckByte(alpha);
    var r :- CheckByte(red);
    var g :- CheckByte(green);
    var b :- CheckByte(blue);
    Ok(Color(MakeArgb(a, r, g, b), StateARGBValueValid, None, 0))
  }

  /** `FromArgb(int alpha, Color baseColor)`: only alpha is checked. */
  function FromArgbBase(alpha: Int32, baseColor: Color): (r: Result<Color>)
    requires baseColor.Resolvable()
    ensures r.Ok? <==> 0 <= alpha <= 255
    ensures r.Err? ==> r.error == ArgumentException
  {
    var a :- CheckByte(alpha);
    Ok(Color(MakeArgb(a, baseColor.R(), baseColor.G(), baseColor.B()), StateARGBValueValid, None, 0))
  }

  /** `FromArgb(int red, int green, int blue)`: the four-byte overload with
      alpha 255, so it throws exactly when a channel is not a byte. */
  function FromRgb(red: Int32, green: Int32, blue: Int32): (r: Result<Color>)
    ensures r.Ok? <==> 0 <= red <= 255 && 0 <= green <= 255 && 0 <= blue <= 255
    ensures r.Err? ==> r.error == ArgumentException
  {
    FromArgb(255, red, green, blue)
  }

  /** `FromName`: its body throws before doing anything else. */
  function FromName(name: string): (r: Result<Color>)
    ensures r == Err(NotImplementedException)
  {
    Err(NotImplementedException)
  }

  /** `FromKnownColor`: a known colour for 1..174; any other enum value goes
      to FromName with the value's decimal spelling. */
  function FromKnownColor(color: KnownColor): (r: Result<Color>)
    ensures r.Ok? <==> 1 <= color <= 174
    ensures r.Err? ==> r.error == NotImplementedException
    ensures r.Ok? ==> r.value == KnownColorCtor(color) && r.value.knownColor == color
  {
    if !(1 <= color && color <= 174) then FromName(IntToString(color))
    else Ok(KnownColorCtor(color))
  }

  // ---------------------------------------------------------------------
  // KnownColorTable.ArgbToKnownColor

  /** What the scan of ArgbToKnownColor returns when it resumes at index i
      of a colour table: the first entry equal to the target whose known
      colour is not a system colour, the exception FromKnownColor throws on
      the way, or the plain ARGB colour when the scan runs off the table.
      The scan is stated for any table so that its properties do not depend
      on the table's contents; ArgbToKnownColor runs it over ColorTableAt. */
  function ArgbSearchFrom(colorTable: nat -> Int32, targetArgb: Int32, i: nat): Result<Color>
    requires i <= TableSize
    decreases TableSize - i
  {
    if i == TableSize then Ok(FromArgbValue(targetArgb))
    else if colorTable(i) == targetArgb then
      match FromKnownColor(i)
      case Err(e) => Err(e)
      case Ok(c) => if !c.IsSystemColor() then Ok(c) else ArgbSearchFrom(colorTable, targetArgb, i + 1)
    else ArgbSearchFrom(colorTable, targetArgb, i + 1)
  }

  /** The loop of ArgbToKnownColor, over a colour table given as a function. */
  method ScanColorTable(colorTable: nat -> Int32, targetArgb: Int32) returns (r: Result<Color>)
    ensures r == ArgbSearchFrom(colorTable, targetArgb, 0)
  {
    var i := 0;
    while i < TableSize
      invariant 0 <= i <= TableSize
      invariant ArgbSearchFrom(colorTable, targetArgb, 0) == ArgbSearchFrom(colorTable, targetArgb, i)
    {
      if colorTable(i) == targetArgb {
        var result := FromKnownColor(i);
        if result.Err? {
          return Err(result.error);
        }
        if !result.value.IsSystemColor() {
          return result;
        }
      }
      i := i + 1;
    }
    return Ok(FromArgbValue(targetArgb));
  }

  /** `ArgbToKnownColor`: the linear scan of the colour table. */
  method ArgbToKnownColor(targetArgb: Int32) returns (r: Result<Color>)
    ensures r == ArgbSearchFrom(ColorTableAt, targetArgb, 0)
  {
    r := ScanColorTable(ColorTableAt, targetArgb);
  }

  // ---------------------------------------------------------------------
  // Equality

  /** `operator ==`: componentwise, with strings compared by value, which
      makes it equality of colour values. */
  function OpEquality(left: Color, right: Color): (b: bool)
    ensures b <==> left == right
  {
    && left.value == right.value
    && left.state == right.state
    && left.knownColor == right.knownColor
    && (left.name == right.name
        || (left.name.Some? && right.name.Some? && left.name.value == right.name.value))
  }

  /** `operator !=`: the colour values differ. */
  function OpInequality(left: Color, right: Color): (b: bool)
    ensures b <==> left != right
  {
    !OpEquality(left, right)
  }

  /** `Equals(object obj)`; `None` stands for an `obj` that is not a Color.
      As in the source, the last name test compares this colour's name with
      itself, so any two non-null names pass. */
  function Equals(self: Color, obj: Option<Color>): (b: bool)
    ensures b <==> && obj.Some?
                   && self.value == obj.value.value && self.state == obj.value.state
                   && self.knownColor == obj.value.knownColor
                   && (self.name == obj.value.name || (self.name.Some? && obj.value.name.Some?))
  {
    && obj.Some?
    && self.value == obj.value.value
    && self.state == obj.value.state
    && self.knownColor == obj.value.knownColor
    && (self.name == obj.value.name
        || (self.name.Some? && obj.value.name.Some? && self.name.value == self.name.value))
  }
}
