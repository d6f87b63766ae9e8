/** What the Color value type and KnownColorTable promise, stated over the
    model in module Colors (Utilities/Utilities/Color.cs). */
module ColorProperties {
  import opened Numerics
  import opened Failures
  import opened KnownColorData
  import opened Colors

  // ---------------------------------------------------------------------
  // Packing and unpacking of the ARGB word

  /** Every int is the packing of its own four bytes: Encode inverts the
      channel extraction. */
  lemma BytesThenEncode(w: Int32)
    ensures Encode(Byte3(w), Byte2(w), Byte1(w), Byte0(w)) == w
  {
    BytesThenPack(w);
  }

  // ---------------------------------------------------------------------
  // Constructors

  /** The colour that all three FromArgb overloads that take channels
      build: the packed word with only the ARGB-valid flag set. */
  function ArgbColor(a: Byte, r: Byte, g: Byte, b: Byte): Color
  {
    Color(MakeArgb(a, r, g, b), StateARGBValueValid, None, 0)
  }

  /** Its channels read back the bytes that were packed, and it is an ARGB
      colour: not known, named, system or empty. */
  lemma ArgbColorChannels(a: Byte, r: Byte, g: Byte, b: Byte)
    ensures ArgbColor(a, r, g, b).Resolvable()
    ensures ArgbColor(a, r, g, b).Value() == Encode(a, r, g, b)
    ensures ArgbColor(a, r, g, b).A() == a && ArgbColor(a, r, g, b).R() == r
    ensures ArgbColor(a, r, g, b).G() == g && ArgbColor(a, r, g, b).B() == b
    ensures !ArgbColor(a, r, g, b).IsKnownColor() && !ArgbColor(a, r, g, b).IsNamedColor()
    ensures !ArgbColor(a, r, g, b).IsSystemColor() && !ArgbColor(a, r, g, b).IsEmpty()
  {
    var c := ArgbColor(a, r, g, b);
    assert HasFlag(c.state, StateValueMask);
    assert !HasFlag(c.state, StateKnownColorValid) && !HasFlag(c.state, StateNameValid);
    assert c.Value() == Encode(a, r, g, b);
  }

  /** The colour FromArgb(a, r, g, b) builds reads back the four components
      as its channels, and is an ARGB colour: not known, named, system or
      empty. */
  lemma FromArgbChannels(alpha: Int32, red: Int32, green: Int32, blue: Int32)
    requires 0 <= alpha <= 255 && 0 <= red <= 255 && 0 <= green <= 255 && 0 <= blue <= 255
    ensures var c := FromArgb(alpha, red, green, blue).value;
        && c.Resolvable()
        && c.A() == alpha && c.R() == red && c.G() == green && c.B() == blue
        && !c.IsKnownColor() && !c.IsNamedColor() && !c.IsEmpty() && !c.IsSystemColor()
  {
    assert FromArgb(alpha, red, green, blue) == Ok(ArgbColor(alpha, red, green, blue));
    ArgbColorChannels(alpha, red, green, blue);
  }

  /** FromArgb(r, g, b) is the opaque colour with those channels. */
  lemma FromRgbOpaque(red: Int32, green: Int32, blue: Int32)
    requires 0 <= red <= 255 && 0 <= green <= 255 && 0 <= blue <= 255
    ensures var c := FromRgb(red, green, blue).value;
        c.Resolvable() && c.A() == 255 && c.R() == red && c.G() == green && c.B() == blue
  {
    FromArgbChannels(255, red, green, blue);
  }

  /** FromArgb(alpha, base) replaces the base colour's alpha and keeps its
      red, green and blue. */
  lemma FromArgbBaseKeepsRgb(alpha: Int32, baseColor: Color)
    requires baseColor.Resolvable() && 0 <= alpha <= 255
    ensures var c := FromArgbBase(alpha, baseColor).value;
        && c.Resolvable() && c.A() == alpha
        && c.R() == baseColor.R() && c.G() == baseColor.G() && c.B() == baseColor.B()
  {
    var r, g, b := baseColor.R(), baseColor.G(), baseColor.B();
    assert FromArgbBase(alpha, baseColor) == Ok(ArgbColor(alpha, r, g, b));
    ArgbColorChannels(alpha, r, g, b);
  }

  /** The two ways of building an ARGB colour agree: splitting a word into
      bytes and passing them to FromArgb(a, r, g, b) gives the word back. */
  lemma FromArgbOfBytes(argb: Int32)
    ensures FromArgb(Byte3(argb), Byte2(argb), Byte1(argb), Byte0(argb)).Ok?
    ensures FromArgb(Byte3(argb), Byte2(argb), Byte1(argb), Byte0(argb)).value.ToArgb() == argb
  {
    var a, r, g, b := Byte3(argb), Byte2(argb), Byte1(argb), Byte0(argb);
    assert FromArgb(a, r, g, b) == Ok(ArgbColor(a, r, g, b));
    ArgbColorChannels(a, r, g, b);
    BytesThenEncode(argb);
  }

  /** Color.Empty is empty and reads as the all-zero word. */
  lemma EmptyIsZero()
    ensures Empty.IsEmpty() && !Empty.IsKnownColor() && !Empty.IsNamedColor()
    ensures Empty.Resolvable() && Empty.ToArgb() == 0
    ensures Empty.A() == 0 && Empty.R() == 0 && Empty.G() == 0 && Empty.B() == 0
  {
  }

  /** Two named colours resolve through the table: Black is #FF000000 and
      AliceBlue is #FFF0F8FF. */
  lemma NamedColorValues()
    ensures Black.Resolvable() && Black.ToArgb() == -16777216
    ensures Black.A() == 255 && Black.R() == 0 && Black.G() == 0 && Black.B() == 0
    ensures AliceBlue.Resolvable() && AliceBlue.ToArgb() == -984833
    ensures AliceBlue.A() == 255 && AliceBlue.R() == 0xF0 && AliceBlue.G() == 0xF8 && AliceBlue.B() == 0xFF
  {
    assert Black.knownColor == 35 && AliceBlue.knownColor == 28;
    assert ColorTableAt(35) == -16777216 && ColorTableAt(28) == -984833;
  }

  /** A colour built from a known-colour index reads its word from the table. */
  lemma KnownColorCtorValue(k: KnownColor)
    requires 0 <= k <= MenuHighlight
    ensures KnownColorCtor(k).Resolvable()
    ensures KnownColorCtor(k).ToKnownColor() == k
    ensures KnownColorCtor(k).ToArgb() == ColorTableAt(k)
  {
  }

  /** FromKnownColor succeeds exactly on 1..174, giving the known colour
      with that index; any other value ends in FromName's
      NotImplementedException. The colour is a system colour exactly when
      its index is at most 26 or above 167. */
  lemma FromKnownColorCases(color: KnownColor)
    ensures FromKnownColor(color).Ok? <==> 1 <= color <= 174
    ensures FromKnownColor(color).Err? ==> FromKnownColor(color).error == NotImplementedException
    ensures FromKnownColor(color).Ok? ==>
        var c := FromKnownColor(color).value;
        && c.IsKnownColor() && c.IsNamedColor() && !c.IsEmpty()
        && c.ToKnownColor() == color
        && c.Resolvable() && c.ToArgb() == ColorTableAt(color)
        && (c.IsSystemColor() <==> color <= 26 || color > 167)
  {
    if 1 <= color <= 174 {
      assert FromKnownColor(color) == Ok(KnownColorCtor(color));
      KnownColorCtorValue(color);
    }
  }

  /** The system colours are stored as the raw DefaultSystemColors words,
      whose top byte is 0, so every system colour has alpha 0. */
  lemma SystemColorsAreTransparent(color: KnownColor)
    requires 1 <= color <= 26 || 168 <= color <= 174
    ensures FromKnownColor(color).Ok?
    ensures FromKnownColor(color).value.IsSystemColor()
    ensures FromKnownColor(color).value.A() == 0
  {
    FromKnownColorCases(color);
    assert 0 <= ColorTableAt(color) < 0x100_0000;
  }

  /** Exactly the values FromKnownColor accepts have a name in the name
      table; a few entries read back as their enumeration names. */
  lemma KnownColorNames(color: KnownColor)
    ensures (KnownColorToName(color).Ok? && KnownColorToName(color).value.Some?) <==> FromKnownColor(color).Ok?
    ensures KnownColorToName(0) == Ok(None)
    ensures KnownColorToName(1) == Ok(Some("ActiveBorder"))
    ensures KnownColorToName(28) == Ok(Some("AliceBlue"))
    ensures KnownColorToName(35) == Ok(Some("Black"))
    ensures KnownColorToName(174) == Ok(Some("MenuHighlight"))
  {
    FromKnownColorCases(color);
  }

  // ---------------------------------------------------------------------
  // Equality

  /** Equals never rejects a pair of colours that `==` accepts, and it
      rejects every object that is not a colour. */
  lemma EqualsWeakerThanOpEquality(self: Color, other: Color)
    ensures OpEquality(self, other) ==> Equals(self, Some(other))
    ensures !Equals(self, None)
  {
  }

  /** Two colours that differ only in their non-null names: Equals accepts
      them while `==` tells them apart. */
  lemma EqualsIgnoresNames()
    ensures Equals(Color(0, StateNameValid, Some("a"), 0), Some(Color(0, StateNameValid, Some("b"), 0)))
    ensures !OpEquality(Color(0, StateNameValid, Some("a"), 0), Color(0, StateNameValid, Some("b"), 0))
  {
    assert "a"[0] != "b"[0];
  }

  /** Equals is still an equivalence relation on colours. */
  lemma EqualsIsEquivalence(x: Color, y: Color, z: Color)
    ensures Equals(x, Some(x))
    ensures Equals(x, Some(y)) ==> Equals(y, Some(x))
    ensures Equals(x, Some(y)) && Equals(y, Some(z)) ==> Equals(x, Some(z))
  {
  }

  // ---------------------------------------------------------------------
  // ArgbToKnownColor

  /** Resuming the scan of any table anywhere past index 0 always succeeds:
      with the known colour of the first non-system entry at or after i that
      holds the target, or, when there is none, with the plain ARGB colour. */
  lemma {:induction false} SearchFromSpec(colorTable: nat -> Int32, targetArgb: Int32, i: nat)
    requires 1 <= i <= TableSize
    ensures ArgbSearchFrom(colorTable, targetArgb, i).Ok?
    ensures var c := ArgbSearchFrom(colorTable, targetArgb, i).value;
        && (c.IsKnownColor() ==>
              && i <= c.knownColor < TableSize && !IsSystemIndex(c.knownColor)
              && c == KnownColorCtor(c.knownColor)
              && colorTable(c.knownColor) == targetArgb
              && forall j :: i <= j < c.knownColor && !IsSystemIndex(j) ==> colorTable(j) != targetArgb)
        && (!c.IsKnownColor() ==>
              && c == FromArgbValue(targetArgb)
              && forall j :: i <= j < TableSize && !IsSystemIndex(j) ==> colorTable(j) != targetArgb)
    decreases TableSize - i
  {
    if i < TableSize {
      SearchFromSpec(colorTable, targetArgb, i + 1);
      assert FromKnownColor(i) == Ok(KnownColorCtor(i));
    }
  }

  /** ArgbToKnownColor throws only for the word 0, where the table's unused
      entry 0 matches and FromKnownColor(0) goes to FromName. Any other word
      yields a colour whose ARGB word is the target: the first non-system
      known colour with that word, or the plain ARGB colour when no named
      colour has it. */
  lemma ArgbToKnownColorSpec(targetArgb: Int32)
    ensures ArgbSearchFrom(ColorTableAt, targetArgb, 0).Err? <==> targetArgb == 0
    ensures targetArgb == 0 ==> ArgbSearchFrom(ColorTableAt, targetArgb, 0) == Err(NotImplementedException)
    ensures ArgbSearchFrom(ColorTableAt, targetArgb, 0).Ok? ==>
        var c := ArgbSearchFrom(ColorTableAt, targetArgb, 0).value;
        && c.Resolvable() && c.ToArgb() == targetArgb
        && (c.IsKnownColor() ==>
              && !c.IsSystemColor()
              && forall j :: 1 <= j < c.knownColor && !IsSystemIndex(j) ==> ColorTableAt(j) != targetArgb)
        && (!c.IsKnownColor() ==>
              && c == FromArgbValue(targetArgb)
              && forall j :: 1 <= j < TableSize && !IsSystemIndex(j) ==> ColorTableAt(j) != targetArgb)
  {
    if targetArgb != 0 {
      SearchFromSpec(ColorTableAt, targetArgb, 1);
      var c := ArgbSearchFrom(ColorTableAt, targetArgb, 1).value;
      if c.IsKnownColor() {
        KnownColorCtorValue(c.knownColor);
      }
    }
  }

  /** The system colours 1..26 never end a scan that starts among them:
      a match there is passed over, and no entry there can throw. */
  lemma {:induction false} LowSystemColorsSkipped(colorTable: nat -> Int32, targetArgb: Int32, i: nat)
    requires 1 <= i <= 27
    ensures ArgbSearchFrom(colorTable, targetArgb, i) == ArgbSearchFrom(colorTable, targetArgb, 27)
    decreases 27 - i
  {
    if i < 27 {
      LowSystemColorsSkipped(colorTable, targetArgb, i + 1);
      assert FromKnownColor(i) == Ok(KnownColorCtor(i));
    }
  }

  /** Looking up Black's word finds Black: no named colour before it
      (Transparent .. Bisque) has the word #FF000000. */
  lemma ArgbToKnownColorFindsBlack(targetArgb: Int32)
    requires targetArgb == Black.ToArgb()
    ensures ArgbSearchFrom(ColorTableAt, targetArgb, 0) == Ok(Black)
  {
    NamedColorValues();
    assert ColorTableAt(0) != targetArgb;
    LowSystemColorsSkipped(ColorTableAt, targetArgb, 1);
    var i := 27;
    while i < 35
      invariant 27 <= i <= 35
      invariant ArgbSearchFrom(ColorTableAt, targetArgb, 0) == ArgbSearchFrom(ColorTableAt, targetArgb, i)
    {
      assert ColorTableAt(i) != targetArgb;
      i := i + 1;
    }
    assert FromKnownColor(35) == Ok(Black);
  }
}
