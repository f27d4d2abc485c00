/** The export converters' per-line loop (`tools/extract.py`): read a
    header, then for each line split it on commas, pick the glucose or the
    insulin column, and print `timestamp,value` for the lines whose value is
    not empty. An assertion or an index past the last field stops the
    script; what was printed before stays printed. */
module Extract {
  import opened Text

  /** `sys.argv[1]`: the two modes the scripts know, or anything else (no
      output after the header). */
  datatype Mode = GlucoseMode | InsulinMode | OtherMode

  /** The mode `sys.argv[1]` names. */
  function ModeOf(arg: string): (m: Mode)
    ensures m == GlucoseMode <==> arg == "glucose"
    ensures m == InsulinMode <==> arg == "insulin"
  {
    if arg == "glucose" then GlucoseMode else if arg == "insulin" then InsulinMode else OtherMode
  }

  /** What one input line yields: an `IndexError`, nothing, or a printed
      line. */
  datatype Selection = Crash | Skip | Emit(line: string)

  /** Printed lines, and whether the script ran to its end (`false` after
      an uncaught exception). */
  datatype Outcome = Outcome(printed: seq<string>, completed: bool)

  /** `line.strip().split(",")`. */
  function Fields(line: string): (f: seq<string>)
    ensures |f| >= 1
  {
    Split(Strip(line), ',')
  }

  /** `f"{timestamp},{value}"` if the value is not empty. */
  function EmitIfPresent(timestamp: string, value: string): (r: Selection)
    ensures r != Crash
  {
    if value == "" then Skip else Emit(timestamp + "," + value)
  }

  /** The loop over the lines with one selection rule: stop at the first
      line that raises, print every emitted line in order. */
  function Extracted(select: string -> Selection, lines: seq<string>): (o: Outcome)
    ensures |o.printed| <= |lines|
  {
    if lines == [] then Outcome([], true)
    else
      var o := Extracted(select, lines[..|lines| - 1]);
      if !o.completed then o
      else match select(lines[|lines| - 1])
        case Crash => Outcome(o.printed, false)
        case Skip => o
        case Emit(p) => Outcome(o.printed + [p], true)
  }

  /** `for line in sys.stdin:` with the selection rule `select`. */
  method ExtractLines(select: string -> Selection, lines: seq<string>) returns (o: Outcome)
    ensures o == Extracted(select, lines)
  {
    o := Outcome([], true);
    var i := 0;
    while i < |lines|
      invariant 0 <= i <= |lines|
      invariant o == Extracted(select, lines[..i])
      invariant o.completed
    {
      assert lines[..i + 1][..i] == lines[..i];
      var sel := select(lines[i]);
      if sel.Crash? {
        o := Outcome(o.printed, false);
        LaterLinesIgnored(select, lines[..i + 1], lines[i + 1..]);
        assert lines[..i + 1] + lines[i + 1..] == lines;
        return;
      } else if sel.Emit? {
        o := Outcome(o.printed + [sel.line], true);
      }
      i := i + 1;
    }
    assert lines[..i] == lines;
  }

  // ---------------------------------------------------------------- extract.py

  const TimestampHeader := "時間戳記"
  const PreMealHeader := "餐前血糖值"
  const GlucoseHeader := "血糖值"

  /** The three header assertions; a header with fewer than twelve fields
      raises (an `IndexError` or a failed assertion) just as a wrong name
      does. */
  predicate HeaderValid(header: string) {
    var f := Fields(header);
    |f| >= 12 && Strip(f[0]) == TimestampHeader && Strip(f[7]) == PreMealHeader && Strip(f[11]) == GlucoseHeader
  }

  /** Glucose mode: field 11 if it is not empty after stripping, else
      field 7. */
  function SelectGlucose(line: string): Selection {
    var f := Fields(line);
    if |f| < 12 then Crash
    else EmitIfPresent(Strip(f[0]), if Strip(f[11]) != "" then Strip(f[11]) else Strip(f[7]))
  }

  /** Insulin mode: field 3. */
  function SelectInsulin(line: string): Selection {
    var f := Fields(line);
    if |f| < 4 then Crash else EmitIfPresent(Strip(f[0]), Strip(f[3]))
  }

  /** The whole script on standard input `input`: its first line is the
      header (`readline` of an empty input is the empty string). */
  function ExtractScript(mode: Mode, input: seq<string>): Outcome {
    var header := if input == [] then "" else input[0];
    var body := if input == [] then [] else input[1..];
    if !HeaderValid(header) then Outcome([], false)
    else match mode
      case GlucoseMode => Extracted(SelectGlucose, body)
      case InsulinMode => Extracted(SelectInsulin, body)
      case OtherMode => Outcome([], true)
  }

  method RunExtract(mode: Mode, input: seq<string>) returns (o: Outcome)
    ensures o == ExtractScript(mode, input)
  {
    var header := if input == [] then "" else input[0];
    var body := if input == [] then [] else input[1..];
    if !HeaderValid(header) {
      return Outcome([], false);
    }
    match mode
    case GlucoseMode => o := ExtractLines(SelectGlucose, body);
    case InsulinMode => o := ExtractLines(SelectInsulin, body);
    case OtherMode => o := Outcome([], true);
  }

  // ---------------------------------------------------------------- properties

  /** Nothing after the line that raises is read. */
  lemma {:induction false} LaterLinesIgnored(select: string -> Selection, a: seq<string>, b: seq<string>)
    requires !Extracted(select, a).completed
    ensures Extracted(select, a + b) == Extracted(select, a)
    decreases |b|
  {
    if b != [] {
      var ab := a + b;
      assert ab[..|ab| - 1] == a + b[..|b| - 1];
      LaterLinesIgnored(select, a, b[..|b| - 1]);
    } else {
      assert a + b == a;
    }
  }

  /** The lines are handled one at a time: the output for `a + b` is the
      output for `a` followed by the output for `b`, as long as `a` raised
      nothing. */
  lemma {:induction false} ExtractedAppend(select: string -> Selection, a: seq<string>, b: seq<string>)
    requires Extracted(select, a).completed
    ensures Extracted(select, a + b) ==
            Outcome(Extracted(select, a).printed + Extracted(select, b).printed, Extracted(select, b).completed)
    decreases |b|
  {
    if b == [] {
      assert a + b == a;
    } else {
      var ab := a + b;
      var b0 := b[..|b| - 1];
      assert ab[..|ab| - 1] == a + b0;
      ExtractedAppend(select, a, b0);
      var pa, pb := Extracted(select, a).printed, Extracted(select, b0).printed;
      match select(b[|b| - 1])
      case Crash =>
      case Skip =>
      case Emit(p) => assert pa + pb + [p] == pa + (pb + [p]);
    }
  }

  /** A single line's output is its selection. */
  lemma ExtractedOne(select: string -> Selection, line: string)
    ensures Extracted(select, [line]) ==
            match select(line)
            case Crash => Outcome([], false)
            case Skip => Outcome([], true)
            case Emit(p) => Outcome([p], true)
  {
    assert [line][..0] == [];
  }

  /** A stripped field of a comma split has no comma and no surrounding
      whitespace. */
  lemma StrippedField(f: seq<string>, i: nat, line: string)
    requires f == Fields(line) && i < |f|
    ensures ',' !in Strip(f[i]) && Trimmed(Strip(f[i]))
  {
    StripWithout(f[i], ',');
  }

  /** Stripping adds no character. */
  lemma StripWithout(s: string, c: char)
    requires c !in s
    ensures c !in Strip(s)
  {
    var a, b := StripDecomposes(s);
  }

  lemma TrimmedJoin(t: string, v: string)
    requires Trimmed(t) && Trimmed(v) && v != []
    ensures Trimmed(t + "," + v)
  {
    var s := t + "," + v;
    assert s[|s| - 1] == v[|v| - 1];
    if t != [] {
      assert s[0] == t[0];
    } else {
      assert s[0] == ',';
    }
  }

  lemma JoinPair(t: string, v: string)
    ensures Join([t, v], [',']) == t + "," + v
  {
    assert [t, v][1..] == [v];
  }

  /** A printed line is a comma-free timestamp and a non-empty comma-free
      value, so the mean tool's `line.strip().split(",")` reads back exactly
      these two fields. */
  lemma EmittedLineSplits(t: string, v: string)
    requires ',' !in t && ',' !in v && Trimmed(t) && Trimmed(v) && v != ""
    ensures EmitIfPresent(t, v) == Emit(t + "," + v)
    ensures Split(Strip(t + "," + v), ',') == [t, v]
  {
    TrimmedJoin(t, v);
    StripFixedIffTrimmed(t + "," + v);
    JoinPair(t, v);
    SplitJoin([t, v], ',');
  }

  /** Every line glucose mode prints splits into its stripped timestamp and
      a non-empty value taken from field 11, or from field 7 when field 11
      is empty. */
  lemma GlucoseLineShape(line: string)
    requires SelectGlucose(line).Emit?
    ensures var f := Fields(line);
            var v := if Strip(f[11]) != "" then Strip(f[11]) else Strip(f[7]);
            && v != ""
            && SelectGlucose(line).line == Strip(f[0]) + "," + v
            && Split(Strip(SelectGlucose(line).line), ',') == [Strip(f[0]), v]
  {
    var f := Fields(line);
    StrippedField(f, 0, line);
    StrippedField(f, 7, line);
    StrippedField(f, 11, line);
    var v := if Strip(f[11]) != "" then Strip(f[11]) else Strip(f[7]);
    EmittedLineSplits(Strip(f[0]), v);
  }

  /** Every line insulin mode prints splits into its stripped timestamp and
      the non-empty dose of field 3. */
  lemma InsulinLineShape(line: string)
    requires SelectInsulin(line).Emit?
    ensures var f := Fields(line);
            && Strip(f[3]) != ""
            && SelectInsulin(line).line == Strip(f[0]) + "," + Strip(f[3])
            && Split(Strip(SelectInsulin(line).line), ',') == [Strip(f[0]), Strip(f[3])]
  {
    var f := Fields(line);
    StrippedField(f, 0, line);
    StrippedField(f, 3, line);
    EmittedLineSplits(Strip(f[0]), Strip(f[3]));
  }

  /** A line too short for the chosen column raises; one whose value is
      empty prints nothing. */
  lemma ShortLinesRaise(line: string)
    ensures |Fields(line)| < 12 <==> SelectGlucose(line) == Crash
    ensures |Fields(line)| < 4 <==> SelectInsulin(line) == Crash
  {
    var f := Fields(line);
    if |f| >= 12 {
      assert SelectGlucose(line) != Crash;
    }
    if |f| >= 4 {
      assert SelectInsulin(line) != Crash;
    }
  }
}
