/** The dashboard's colour banding of a glucose level (`getGlucoseColor`):
    seven bands chosen by an if/else chain over the parsed level, and blank
    styling for a missing level or the `-` placeholder. */
module Dashboard {
  import opened Wrappers

  /** A CSS background and text colour. */
  datatype Style = Style(background: string, color: string)

  /** What the chain can be handed: JavaScript's `null`/`undefined`, a
      number (possibly `NaN`), or a string together with what `parseFloat`
      makes of it (`None` for `NaN`). */
  datatype LevelInput = Missing | Number(x: real) | NotANumber | Text(s: string, parsed: Option<real>)

  /** JavaScript's `!level`. */
  predicate Falsy(level: LevelInput) {
    match level
    case Missing => true
    case Number(x) => x == 0.0
    case NotANumber => true
    case Text(s, _) => s == ""
  }

  /** `level === '-'`: only the string compares equal. */
  predicate IsDash(level: LevelInput) {
    level.Text? && level.s == "-"
  }

  /** `parseFloat(level)`; `None` is `NaN`. */
  function ParsedLevel(level: LevelInput): Option<real> {
    match level
    case Missing => None
    case Number(x) => Some(x)
    case NotANumber => None
    case Text(_, p) => p
  }

  const Blank := Style("", "")

  /** The seven bands, from the highest levels to the lowest. */
  datatype Band = Critical | VeryHigh | High | Elevated | AboveTarget | Target | Low

  function StyleOf(b: Band): Style {
    match b
    case Critical => Style("#000000", "#FFFFFF")
    case VeryHigh => Style("#FF0000", "#FFFFFF")
    case High => Style("#FF00FF", "#FFFFFF")
    case Elevated => Style("#FFB6FF", "#000000")
    case AboveTarget => Style("#98fab2", "#000000")
    case Target => Style("#6eb882", "#000000")
    case Low => Style("#FFFF00", "#FF0000")
  }

  /** The range each band covers, as an independent table: `[500, ∞)`,
      `[400, 500)`, `[300, 400)`, `[200, 300)`, `(100, 200)`, `[60, 100]`,
      `(-∞, 60)`. */
  predicate InBand(g: real, b: Band) {
    match b
    case Critical => 500.0 <= g
    case VeryHigh => 400.0 <= g < 500.0
    case High => 300.0 <= g < 400.0
    case Elevated => 200.0 <= g < 300.0
    case AboveTarget => 100.0 < g < 200.0
    case Target => 60.0 <= g <= 100.0
    case Low => g < 60.0
  }

  /** The if/else chain over `parseFloat(level)`: every comparison with
      `NaN` is false, so `NaN` reaches the last branch. */
  function ChainStyle(g: Option<real>): Style {
    if g.Some? && g.value >= 500.0 then StyleOf(Critical)
    else if g.Some? && g.value >= 400.0 then StyleOf(VeryHigh)
    else if g.Some? && g.value >= 300.0 then StyleOf(High)
    else if g.Some? && g.value >= 200.0 then StyleOf(Elevated)
    else if g.Some? && g.value > 100.0 then StyleOf(AboveTarget)
    else if g.Some? && g.value >= 60.0 then StyleOf(Target)
    else StyleOf(Low)
  }

  /** `getGlucoseColor(level)`: blank for a falsy level or `-`, otherwise the
      style of its band. */
  function GlucoseColor(level: LevelInput): (st: Style)
    ensures st == Blank <==> Falsy(level) || IsDash(level)
  {
    if Falsy(level) || IsDash(level) then Blank else ChainStyle(ParsedLevel(level))
  }

  // ---------------------------------------------------------------- properties

  /** Distinct bands are styled differently. */
  lemma StyleOfInjective(a: Band, b: Band)
    ensures StyleOf(a) == StyleOf(b) <==> a == b
  {
  }

  /** Every level lies in exactly one band. */
  lemma BandsPartition(g: real)
    ensures exists b :: InBand(g, b)
    ensures forall a, b :: InBand(g, a) && InBand(g, b) ==> a == b
  {
    if 500.0 <= g { assert InBand(g, Critical); }
    else if 400.0 <= g { assert InBand(g, VeryHigh); }
    else if 300.0 <= g { assert InBand(g, High); }
    else if 200.0 <= g { assert InBand(g, Elevated); }
    else if 100.0 < g { assert InBand(g, AboveTarget); }
    else if 60.0 <= g { assert InBand(g, Target); }
    else { assert InBand(g, Low); }
  }

  /** The chain gives a number the style of the band its range places it
      in, and no other. */
  lemma ChainFollowsBands(g: real, b: Band)
    ensures ChainStyle(Some(g)) == StyleOf(b) <==> InBand(g, b)
  {
    StyleOfInjective(Critical, b);
    StyleOfInjective(VeryHigh, b);
    StyleOfInjective(High, b);
    StyleOfInjective(Elevated, b);
    StyleOfInjective(AboveTarget, b);
    StyleOfInjective(Target, b);
    StyleOfInjective(Low, b);
  }

  /** Any level that is neither blank nor `NaN` is styled by its band. */
  lemma GlucoseColorBand(level: LevelInput, b: Band)
    requires !Falsy(level) && !IsDash(level) && ParsedLevel(level).Some?
    ensures GlucoseColor(level) == StyleOf(b) <==> InBand(ParsedLevel(level).value, b)
  {
    ChainFollowsBands(ParsedLevel(level).value, b);
  }

  /** Exactly 100 is not above 100: it falls in the 60..100 band. */
  lemma HundredIsTarget()
    ensures GlucoseColor(Number(100.0)) == StyleOf(Target)
    ensures GlucoseColor(Text("100", Some(100.0))) == StyleOf(Target)
    ensures GlucoseColor(Number(100.5)) == StyleOf(AboveTarget)
  {
  }

  /** A string `parseFloat` cannot read is styled like a low reading; the
      number 0 is falsy and blank, the string "0" is low. */
  lemma UnreadableIsLow(s: string)
    requires s != "" && s != "-"
    ensures GlucoseColor(Text(s, None)) == StyleOf(Low)
    ensures GlucoseColor(Number(0.0)) == Blank
    ensures GlucoseColor(Text("0", Some(0.0))) == StyleOf(Low)
  {
  }
}
