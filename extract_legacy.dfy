/** The converter for the older export (`tools/extract-legacy.py`): the
    header is read but not checked, glucose is field 8 and the insulin dose
    field 11. */
module ExtractLegacy {
  import opened Text
  import opened Extract

  /** Glucose mode: field 8. */
  function SelectGlucose(line: string): Selection {
    var f := Fields(line);
    if |f| < 9 then Crash else EmitIfPresent(Strip(f[0]), Strip(f[8]))
  }

  /** Insulin mode: field 11. */
  function SelectInsulin(line: string): Selection {
    var f := Fields(line);
    if |f| < 12 then Crash else EmitIfPresent(Strip(f[0]), Strip(f[11]))
  }

  /** The whole script: the first line is skipped whatever it holds. */
  function LegacyScript(mode: Mode, input: seq<string>): Outcome {
    var body := if input == [] then [] else input[1..];
    match mode
    case GlucoseMode => Extracted(SelectGlucose, body)
    case InsulinMode => Extracted(SelectInsulin, body)
    case OtherMode => Outcome([], true)
  }

  method RunLegacy(mode: Mode, input: seq<string>) returns (o: Outcome)
    ensures o == LegacyScript(mode, input)
  {
    var body := if input == [] then [] else input[1..];
    match mode
    case GlucoseMode => o := ExtractLines(SelectGlucose, body);
    case InsulinMode => o := ExtractLines(SelectInsulin, body);
    case OtherMode => o := Outcome([], true);
  }

  // ---------------------------------------------------------------- properties

  /** Every printed glucose line splits into the stripped timestamp and the
      non-empty field 8. */
  lemma GlucoseLineShape(line: string)
    requires SelectGlucose(line).Emit?
    ensures var f := Fields(line);
            && Strip(f[8]) != ""
            && SelectGlucose(line).line == Strip(f[0]) + "," + Strip(f[8])
            && Split(Strip(SelectGlucose(line).line), ',') == [Strip(f[0]), Strip(f[8])]
  {
    var f := Fields(line);
    StrippedField(f, 0, line);
    StrippedField(f, 8, line);
    EmittedLineSplits(Strip(f[0]), Strip(f[8]));
  }

  /** Every printed insulin line splits into the stripped timestamp and the
      non-empty field 11. */
  lemma InsulinLineShape(line: string)
    requires SelectInsulin(line).Emit?
    ensures var f := Fields(line);
            && Strip(f[11]) != ""
            && SelectInsulin(line).line == Strip(f[0]) + "," + Strip(f[11])
            && Split(Strip(SelectInsulin(line).line), ',') == [Strip(f[0]), Strip(f[11])]
  {
    var f := Fields(line);
    StrippedField(f, 0, line);
    StrippedField(f, 11, line);
    EmittedLineSplits(Strip(f[0]), Strip(f[11]));
  }

  /** Unlike the newer converter, any header is accepted: the output
      depends only on the lines after it. */
  lemma HeaderIgnored(mode: Mode, h1: string, h2: string, body: seq<string>)
    ensures LegacyScript(mode, [h1] + body) == LegacyScript(mode, [h2] + body)
    ensures !HeaderValid(h1) ==> !ExtractScript(mode, [h1] + body).completed
  {
    assert ([h1] + body)[1..] == body;
    assert ([h2] + body)[1..] == body;
  }

  /** A line short of the chosen column raises. */
  lemma ShortLinesRaise(line: string)
    ensures |Fields(line)| < 9 <==> SelectGlucose(line) == Crash
    ensures |Fields(line)| < 12 <==> SelectInsulin(line) == Crash
  {
    var f := Fields(line);
    if |f| >= 9 {
      assert SelectGlucose(line) != Crash;
    }
    if |f| >= 12 {
      assert SelectInsulin(line) != Crash;
    }
  }
}
