/** The CSV importer's timestamp conversion (`parse_timestamp`): strip
    the text, read it in the two-space export form, fall back to the
    one-space form, and write it in the store's form. */
module CsvImport {
  import opened Wrappers
  import opened Text
  import opened Calendar
  import opened Timestamps

  /** The `ValueError` of the second, uncaught `strptime`. */
  datatype ImportError = ValueError

  /** The two `strptime` attempts on the stripped text: the two-space form,
      then the one-space form. */
  function ReadExport(s: string): (r: Option<DateTime>)
    ensures r.Some? ==> r.value.Valid()
  {
    match Parse(s, '/', "  ")
    case Some(dt) => Some(dt)
    case None => Parse(s, '/', " ")
  }

  /** `parse_timestamp(ts_str)`. */
  function ParseTimestamp(ts: string): (r: Result<string, ImportError>)
    ensures r.Ok? ==> |r.value| == 19 && Parse(r.value, '-', " ").Some?
  {
    match ReadExport(Strip(ts))
    case Some(dt) => FormatDbShape(dt); Ok(FormatDb(dt))
    case None => Err(ValueError)
  }

  // ---------------------------------------------------------------- properties

  /** The conversion fails exactly when the stripped text is in neither
      form; otherwise the stored text holds the same date and time fields
      as the text read. */
  lemma ParseTimestampFields(ts: string)
    ensures ParseTimestamp(ts).Err? <==>
            Parse(Strip(ts), '/', "  ").None? && Parse(Strip(ts), '/', " ").None?
    ensures ParseTimestamp(ts).Ok? ==>
            Parse(ParseTimestamp(ts).value, '-', " ") ==
              if Parse(Strip(ts), '/', "  ").Some? then Parse(Strip(ts), '/', "  ") else Parse(Strip(ts), '/', " ")
  {
    var s := Strip(ts);
    if Parse(s, '/', "  ").Some? {
      ParseRender(Parse(s, '/', "  ").value, '-', " ");
    } else if Parse(s, '/', " ").Some? {
      ParseRender(Parse(s, '/', " ").value, '-', " ");
    }
  }

  lemma DigitIsNotSpace(c: char)
    requires IsDigit(c)
    ensures !IsSpace(c)
  {
  }

  /** A rendered date-time starts and ends with a digit. */
  lemma RenderTrimmed(dt: DateTime, sep: char, gap: string)
    requires dt.Valid()
    ensures Trimmed(Render(dt, sep, gap))
  {
    var s := Render(dt, sep, gap);
    RenderSlices(dt, sep, gap);
    assert s[0] == s[..4][0];
    assert s[|s| - 1] == s[16 + |gap|..][1];
    DigitIsNotSpace(s[0]);
    DigitIsNotSpace(s[|s| - 1]);
  }

  /** An export cell in the two-space form, with any whitespace around it,
      converts to the store's text of the same date-time. */
  lemma ImportsTwoSpaceForm(dt: DateTime, a: string, b: string)
    requires dt.Valid() && AllSpace(a) && AllSpace(b)
    ensures ParseTimestamp(a + Render(dt, '/', "  ") + b) == Ok(FormatDb(dt))
  {
    RenderTrimmed(dt, '/', "  ");
    StripPadded(a, Render(dt, '/', "  "), b);
    ParseRender(dt, '/', "  ");
  }

  /** The one-space form converts as well. In this fixed-width reading the
      fallback reads it, since it is one character too short for the
      two-space form; CPython's `strptime` matches any run of whitespace in
      a format as one or more whitespace characters, so there the first
      attempt already reads it, and the result is the same. */
  lemma ImportsOneSpaceForm(dt: DateTime, a: string, b: string)
    requires dt.Valid() && AllSpace(a) && AllSpace(b)
    ensures ParseTimestamp(a + Render(dt, '/', " ") + b) == Ok(FormatDb(dt))
  {
    RenderTrimmed(dt, '/', " ");
    StripPadded(a, Render(dt, '/', " "), b);
    RenderSlices(dt, '/', " ");
    ParseRender(dt, '/', " ");
  }

  /** A store timestamp is not an export cell: its `-` separators fail both
      forms. */
  lemma RejectsStoreForm(dt: DateTime)
    requires dt.Valid()
    ensures ParseTimestamp(FormatDb(dt)) == Err(ValueError)
  {
    var s := FormatDb(dt);
    RenderTrimmed(dt, '-', " ");
    StripFixedIffTrimmed(s);
    FormatDbShape(dt);
    RenderSlices(dt, '-', " ");
    assert s[4] == '-';
  }
}
