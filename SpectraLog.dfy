/**
 * The flat spectra log: a line-oriented text file whose first line is the
 * header `#SPECTRA,<lower>,<upper>,<bins>` and whose other lines are rows
 * `<timestamp>Z,<v1>,...,<vN>`, every number written with one decimal.
 *
 * A file is modelled as its sequence of lines, each without its terminating
 * newline; the file system is a map from file name to lines, and a name that
 * is not in the map is a file that does not exist. Numbers written with one
 * decimal are held as tenths; a timestamp is a count of seconds, written as
 * its decimal digits followed by `Z`.
 */
module SpectraLog {
  import opened Wrappers
  import opened Text

  /** The numbers of a header line, each in tenths: band edges (kHz) and bin count. */
  datatype Header = Header(lower: int, upper: int, bins: int)

  /** One data line: a timestamp in seconds and one value (tenths of a dB) per bin. */
  datatype Row = Row(time: int, values: seq<int>)

  /** What `append_to_file` did: created the file, appended, or refused (it prints which). */
  datatype AppendStatus = Created | Appended | HeaderMismatch | HeaderUnreadable

  /** The outcome of `read_spectra_file`: an exception escapes, None, or the data read. */
  datatype ReadResult =
    | ReadError
    | NoSpectra
    | Spectra(lower: int, upper: int, times: seq<int>, spectra: seq<seq<int>>)

  /** The outcome of `clip_spectra_file`: an exception escapes, None, or the file rewritten. */
  datatype ClipResult = ClipError | ClipNoSpectra | Clipped

  /** The value of every bin of a dummy row, -999.0, in tenths. */
  const DummyValue: int := -9990

  /** The header a band is written and compared as: `bins` is printed with one decimal too. */
  function BandHeader(lower: int, upper: int, bins: nat): Header
  {
    Header(lower, upper, bins * 10)
  }

  predicate IsLine(s: string) { '\n' !in s }

  predicate AllLines(lines: seq<string>) { forall i | 0 <= i < |lines| :: IsLine(lines[i]) }

  ghost predicate ValidFiles(files: map<string, seq<string>>)
  {
    forall name | name in files :: AllLines(files[name])
  }

  lemma WriteKeepsValid(files: map<string, seq<string>>, name: string, lines: seq<string>)
    requires ValidFiles(files) && AllLines(lines)
    ensures ValidFiles(files[name := lines])
  {
  }

  /** The files of the machine, by name; each file is its lines without their newlines. */
  class FileStore {
    var files: map<string, seq<string>>

    /** No stored line contains a newline, so each stored line is exactly one line of text. */
    ghost predicate Valid()
      reads this
    {
      ValidFiles(files)
    }

    constructor ()
      ensures Valid() && files == map[]
    {
      files := map[];
    }
  }

  // ---------------------------------------------------------------------------
  // Header line (create_new_file, get_file_header)
  // ---------------------------------------------------------------------------

  /** The header written by create_new_file: one line of text, marked as a spectra file. */
  function HeaderLine(lower: int, upper: int, bins: nat): (line: string)
    ensures IsLine(line) && |line| > 9 && line[..9] == "#SPECTRA,"
  {
    NoCommaInNumeral(TenthsToString(lower));
    NoCommaInNumeral(TenthsToString(upper));
    NoCommaInNumeral(TenthsToString(bins * 10));
    "#SPECTRA," + TenthsToString(lower) + "," + TenthsToString(upper) + "," + TenthsToString(bins * 10)
  }

  /**
   * The header of a file with these lines: the first character of the first
   * line is dropped (whatever it is), the rest split at commas; the first field
   * must be SPECTRA and the next three must be numbers.
   */
  function ParseHeader(lines: seq<string>): (h: Option<Header>)
    ensures h.Some? ==> |lines| > 0 && |lines[0]| >= 9 && lines[0][1..9] == "SPECTRA,"
    ensures h.Some? ==>
      var f := Split(lines[0][1..], ',');
      && |f| >= 4 && f[0] == "SPECTRA"
      && ParseTenths(f[1]) == Some(h.value.lower)
      && ParseTenths(f[2]) == Some(h.value.upper)
      && ParseTenths(f[3]) == Some(h.value.bins)
    ensures |lines| > 0 && |lines[0]| > 0 ==>
      var f := Split(lines[0][1..], ',');
      |f| >= 4 && f[0] == "SPECTRA" && ParseTenths(f[1]).Some? && ParseTenths(f[2]).Some? && ParseTenths(f[3]).Some?
      ==> h.Some?
  {
    var first := if |lines| == 0 then "" else lines[0];
    var text := if |first| == 0 then "" else first[1..];
    var fields := Split(text, ',');
    SplitHead(text, ',');
    if fields[0] != "SPECTRA" || |fields| < 4 then None
    else
      match (ParseTenths(fields[1]), ParseTenths(fields[2]), ParseTenths(fields[3]))
      case (Some(lower), Some(upper), Some(bins)) => Some(Header(lower, upper, bins))
      case _ => None
  }

  // ---------------------------------------------------------------------------
  // Data lines
  // ---------------------------------------------------------------------------

  function StampText(t: int): string { IntToString(t) + "Z" }

  function ParseStamp(field: string): Option<int>
  {
    if |field| > 0 && field[|field| - 1] == 'Z' then ParseInt(field[..|field| - 1]) else None
  }

  /** The `,<value>` suffixes of a data line, in order. */
  function ValuesText(values: seq<int>): string
  {
    if values == [] then "" else "," + TenthsToString(values[0]) + ValuesText(values[1..])
  }

  /** The data line append_to_file writes for a row: one line of text. */
  function RowLine(r: Row): (line: string)
    ensures IsLine(line)
  {
    NoCommaInNumeral(IntToString(r.time));
    ValuesTextIsLine(r.values);
    StampText(r.time) + ValuesText(r.values)
  }

  function RowLines(rows: seq<Row>): seq<string>
  {
    if rows == [] then [] else [RowLine(rows[0])] + RowLines(rows[1..])
  }

  function TenthsFields(values: seq<int>): seq<string>
  {
    if values == [] then [] else [TenthsToString(values[0])] + TenthsFields(values[1..])
  }

  /** Every field read as a one-decimal number; one failure fails the line. */
  function ParseValues(fields: seq<string>): (vs: Option<seq<int>>)
    ensures vs.Some? ==> |vs.value| == |fields|
  {
    if fields == [] then Some([])
    else
      match (ParseTenths(fields[0]), ParseValues(fields[1..]))
      case (Some(v), Some(rest)) => Some([v] + rest)
      case _ => None
  }

  /** The time field of a data line, as the reader sees it. */
  function LineStamp(line: string): Option<int> { ParseStamp(Split(line, ',')[0]) }

  /** The value fields of a data line, everything after the time field. */
  function LineValues(line: string): Option<seq<int>> { ParseValues(Split(line, ',')[1..]) }

  /** The row a reader takes from a data line. */
  function ParseRow(line: string): Option<Row>
  {
    match (LineStamp(line), LineValues(line))
    case (Some(t), Some(vs)) => Some(Row(t, vs))
    case _ => None
  }

  // ---------------------------------------------------------------------------
  // Round trips of the line formats
  // ---------------------------------------------------------------------------

  lemma NoCommaInNumeral(s: string)
    requires IsNumeral(s)
    ensures ',' !in s && '\n' !in s
  {
  }

  lemma {:induction false} ValuesTextSplits(a: string, values: seq<int>)
    requires ',' !in a
    ensures Split(a + ValuesText(values), ',') == [a] + TenthsFields(values)
    decreases |values|
  {
    if values == [] {
      assert a + ValuesText(values) == a;
      SplitWithoutSep(a, ',');
    } else {
      var t, tail := TenthsToString(values[0]), ValuesText(values[1..]);
      assert a + ValuesText(values) == a + [','] + (t + tail) by {
        assert ValuesText(values) == "," + t + tail;
      }
      assert ',' !in t by {
        NoCommaInNumeral(t);
      }
      SplitAtFirst(a, ',', t + tail);
      ValuesTextSplits(t, values[1..]);
      assert TenthsFields(values) == [t] + TenthsFields(values[1..]);
    }
  }

  lemma {:induction false} ValuesTextAppend(xs: seq<int>, ys: seq<int>)
    ensures ValuesText(xs + ys) == ValuesText(xs) + ValuesText(ys)
    decreases |xs|
  {
    if xs != [] {
      assert (xs + ys)[1..] == xs[1..] + ys;
      ValuesTextAppend(xs[1..], ys);
    } else {
      assert xs + ys == ys;
    }
  }

  lemma ValuesTextExtend(values: seq<int>, k: nat)
    requires k < |values|
    ensures ValuesText(values[..k + 1]) == ValuesText(values[..k]) + "," + TenthsToString(values[k])
  {
    assert values[..k + 1] == values[..k] + [values[k]];
    ValuesTextAppend(values[..k], [values[k]]);
    assert [values[k]][1..] == [];
  }

  lemma {:induction false} ValuesTextIsLine(values: seq<int>)
    ensures IsLine(ValuesText(values))
    decreases |values|
  {
    if values != [] {
      NoCommaInNumeral(TenthsToString(values[0]));
      ValuesTextIsLine(values[1..]);
    }
  }

  lemma {:induction false} TenthsFieldsParse(values: seq<int>)
    ensures ParseValues(TenthsFields(values)) == Some(values)
    decreases |values|
  {
    if values != [] {
      TenthsRoundTrip(values[0]);
      TenthsFieldsParse(values[1..]);
      assert TenthsFields(values)[1..] == TenthsFields(values[1..]);
      assert [values[0]] + values[1..] == values;
    }
  }

  lemma StampRoundTrip(t: int)
    ensures ParseStamp(StampText(t)) == Some(t)
  {
    var s := StampText(t);
    assert s[..|s| - 1] == IntToString(t);
    IntRoundTrip(t);
  }

  /** Reading a data line back gives the timestamp and every value that were written. */
  lemma RowRoundTrip(r: Row)
    ensures ParseRow(RowLine(r)) == Some(r)
    ensures LineStamp(RowLine(r)) == Some(r.time) && LineValues(RowLine(r)) == Some(r.values)
  {
    NoCommaInNumeral(IntToString(r.time));
    assert ',' !in StampText(r.time);
    ValuesTextSplits(StampText(r.time), r.values);
    StampRoundTrip(r.time);
    TenthsFieldsParse(r.values);
  }

  lemma HeaderText(lower: int, upper: int, bins: nat)
    ensures HeaderLine(lower, upper, bins)[1..] == "SPECTRA" + ValuesText([lower, upper, bins * 10])
  {
    var a, b, c := TenthsToString(lower), TenthsToString(upper), TenthsToString(bins * 10);
    ThreeValuesText(lower, upper, bins * 10);
    HeaderRegroup(a, b, c);
    assert HeaderLine(lower, upper, bins) == "#SPECTRA," + a + "," + b + "," + c;
  }

  lemma HeaderRegroup(a: string, b: string, c: string)
    ensures ("#SPECTRA," + a + "," + b + "," + c)[1..] == "SPECTRA" + ("," + a + ("," + b + ("," + c)))
  {
    assert "#SPECTRA," + a + "," + b + "," + c == "#" + ("SPECTRA" + ("," + a + ("," + b + ("," + c))));
  }

  lemma ThreeValuesText(a: int, b: int, c: int)
    ensures ValuesText([a, b, c]) == "," + TenthsToString(a) + ("," + TenthsToString(b) + ("," + TenthsToString(c)))
  {
    assert [c][1..] == [];
    assert ValuesText([c]) == "," + TenthsToString(c);
    assert [b, c][1..] == [c];
    assert ValuesText([b, c]) == "," + TenthsToString(b) + ("," + TenthsToString(c));
    assert [a, b, c][1..] == [b, c];
  }

  /** The header written for a band is read back as that band (get_file_header after create_new_file). */
  lemma HeaderRoundTrip(lower: int, upper: int, bins: nat, rest: seq<string>)
    ensures ParseHeader([HeaderLine(lower, upper, bins)] + rest) == Some(BandHeader(lower, upper, bins))
  {
    var values := [lower, upper, bins * 10];
    HeaderText(lower, upper, bins);
    ValuesTextSplits("SPECTRA", values);
    assert values[1..] == [upper, bins * 10] && values[1..][1..] == [bins * 10] && values[1..][1..][1..] == [];
    var fields := Split(HeaderLine(lower, upper, bins)[1..], ',');
    assert TenthsFields([bins * 10]) == [TenthsToString(bins * 10)];
    assert TenthsFields([upper, bins * 10]) == [TenthsToString(upper)] + TenthsFields([bins * 10]);
    assert TenthsFields(values) == [TenthsToString(lower)] + TenthsFields([upper, bins * 10]);
    assert fields == ["SPECTRA", TenthsToString(lower), TenthsToString(upper), TenthsToString(bins * 10)];
    TenthsRoundTrip(lower);
    TenthsRoundTrip(upper);
    TenthsRoundTrip(bins * 10);
  }

  // ---------------------------------------------------------------------------
  // create_new_file, append_to_file, append_dummy_entry
  // ---------------------------------------------------------------------------

  method CreateNewFile(fs: FileStore, name: string, lower: int, upper: int, bins: nat)
    requires fs.Valid()
    modifies fs
    ensures fs.Valid()
    ensures fs.files == old(fs.files)[name := [HeaderLine(lower, upper, bins)]]
  {
    fs.files := fs.files[name := [HeaderLine(lower, upper, bins)]];
  }

  /** The header guard of append_to_file: a missing file is created, an existing one must carry this band. */
  function AppendGuard(files: map<string, seq<string>>, name: string, lower: int, upper: int, bins: nat): (status: AppendStatus)
    ensures status == Created <==> name !in files
    ensures status == Appended <==> name in files && ParseHeader(files[name]) == Some(BandHeader(lower, upper, bins))
    ensures status == HeaderUnreadable <==> name in files && ParseHeader(files[name]).None?
  {
    if name !in files then Created
    else
      match ParseHeader(files[name])
      case None => HeaderUnreadable
      case Some(h) => if h != BandHeader(lower, upper, bins) then HeaderMismatch else Appended
  }

  /** The files after append_to_file writes `line` (a data line) under the guard. */
  function AppendedFiles(files: map<string, seq<string>>, name: string, lower: int, upper: int, bins: nat,
                         line: string): (after: map<string, seq<string>>)
    ensures after.Keys == files.Keys + {name}
    ensures forall other | other in files && other != name :: other in after && after[other] == files[other]
    ensures name in files ==> name in after && (after[name] == files[name] || after[name] == files[name] + [line])
    ensures name !in files ==> name in after && after[name] == [HeaderLine(lower, upper, bins), line]
  {
    match AppendGuard(files, name, lower, upper, bins)
    case Created => files[name := [HeaderLine(lower, upper, bins), line]]
    case Appended => files[name := files[name] + [line]]
    case _ => files
  }

  lemma AppendedFilesWritten(files: map<string, seq<string>>, name: string, lower: int, upper: int, bins: nat, line: string)
    ensures AppendGuard(files, name, lower, upper, bins) == Created ==>
      AppendedFiles(files, name, lower, upper, bins, line) == files[name := [HeaderLine(lower, upper, bins), line]]
    ensures AppendGuard(files, name, lower, upper, bins) == Appended ==>
      AppendedFiles(files, name, lower, upper, bins, line) == files[name := files[name] + [line]]
    ensures AppendGuard(files, name, lower, upper, bins) in {HeaderMismatch, HeaderUnreadable} ==>
      AppendedFiles(files, name, lower, upper, bins, line) == files
  {
  }

  /** The text of a data line, built value by value as `append_to_file` builds it; one line, read back as written. */
  method FormatRow(now: int, data: seq<int>) returns (output: string)
    ensures output == RowLine(Row(now, data)) && IsLine(output)
  {
    output := StampText(now);
    for k := 0 to |data|
      invariant output == StampText(now) + ValuesText(data[..k])
    {
      ValuesTextExtend(data, k);
      output := output + "," + TenthsToString(data[k]);
    }
    assert data[..|data|] == data;
  }

  method AppendToFile(fs: FileStore, name: string, lower: int, upper: int, bins: nat, now: int, data: seq<int>)
    returns (status: AppendStatus)
    requires fs.Valid()
    modifies fs
    ensures fs.Valid()
    ensures status == AppendGuard(old(fs.files), name, lower, upper, bins)
    ensures fs.files == AppendedFiles(old(fs.files), name, lower, upper, bins, RowLine(Row(now, data)))
  {
    AppendedFilesWritten(fs.files, name, lower, upper, bins, RowLine(Row(now, data)));
    if name !in fs.files {
      CreateNewFile(fs, name, lower, upper, bins);
      status := Created;
    } else {
      var header := ParseHeader(fs.files[name]);
      if header.None? {
        return HeaderUnreadable;
      } else if header.value != BandHeader(lower, upper, bins) {
        return HeaderMismatch;
      }
      status := Appended;
    }
    var output := FormatRow(now, data);
    assert AllLines(fs.files[name] + [output]);
    WriteKeepsValid(fs.files, name, fs.files[name] + [output]);
    if status == Created {
      assert fs.files[name] + [output] == [HeaderLine(lower, upper, bins), output];
    }
    fs.files := fs.files[name := fs.files[name] + [output]];
  }

  function DummyValues(bins: nat): seq<int> { seq(bins, _ => DummyValue) }

  method AppendDummyEntry(fs: FileStore, name: string, lower: int, upper: int, bins: nat, now: int)
    returns (status: AppendStatus)
    requires fs.Valid()
    modifies fs
    ensures fs.Valid()
    ensures status == AppendGuard(old(fs.files), name, lower, upper, bins)
    ensures fs.files == AppendedFiles(old(fs.files), name, lower, upper, bins, RowLine(Row(now, DummyValues(bins))))
  {
    status := AppendToFile(fs, name, lower, upper, bins, now, DummyValues(bins));
  }

  /**
   * What an append does to the files: a refusal changes nothing; otherwise the
   * named file gains exactly one line at its end (after a fresh header when it
   * did not exist), earlier lines and other files stay as they were, and the
   * new line reads back as the timestamp and the values given.
   */
  lemma AppendEffect(files: map<string, seq<string>>, name: string, lower: int, upper: int, bins: nat,
                     now: int, data: seq<int>)
    ensures var status := AppendGuard(files, name, lower, upper, bins);
      var after := AppendedFiles(files, name, lower, upper, bins, RowLine(Row(now, data)));
      && ((status == HeaderMismatch || status == HeaderUnreadable) <==> after == files)
      && (status == Created ==>
            name !in files && after[name] == [HeaderLine(lower, upper, bins), RowLine(Row(now, data))]
            && ParseHeader(after[name]) == Some(BandHeader(lower, upper, bins)))
      && (status == Appended ==>
            name in files && |after[name]| == |files[name]| + 1 && after[name][..|files[name]|] == files[name])
      && (status == Created || status == Appended ==>
            after.Keys == files.Keys + {name}
            && ParseRow(after[name][|after[name]| - 1]) == Some(Row(now, data))
            && forall other | other in files && other != name :: after[other] == files[other])
  {
    var status := AppendGuard(files, name, lower, upper, bins);
    var line := RowLine(Row(now, data));
    var after := AppendedFiles(files, name, lower, upper, bins, line);
    RowRoundTrip(Row(now, data));
    if status == Created {
      HeaderRoundTrip(lower, upper, bins, [line]);
      assert [HeaderLine(lower, upper, bins), line] == [HeaderLine(lower, upper, bins)] + [line];
      assert name in after && name !in files;
    } else if status == Appended {
      assert after[name] == files[name] + [line];
      assert |after[name]| != |files[name]|;
    }
  }

  /**
   * A file created for one band refuses an append for any other band, and
   * accepts exactly the band it was created with.
   */
  lemma BandGuard(files: map<string, seq<string>>, name: string, lower: int, upper: int, bins: nat,
                  lower': int, upper': int, bins': nat, rest: seq<string>)
    requires name in files && files[name] == [HeaderLine(lower, upper, bins)] + rest
    ensures AppendGuard(files, name, lower', upper', bins') ==
            if lower' == lower && upper' == upper && bins' == bins then Appended else HeaderMismatch
  {
    HeaderRoundTrip(lower, upper, bins, rest);
  }

  /** The dummy row reads back as exactly `bins` values, each -999.0. */
  lemma DummyRowReadsBack(bins: nat, now: int)
    ensures var r := ParseRow(RowLine(Row(now, DummyValues(bins))));
      r.Some? && r.value.time == now && |r.value.values| == bins
      && forall i | 0 <= i < bins :: r.value.values[i] == DummyValue
  {
    RowRoundTrip(Row(now, DummyValues(bins)));
  }

  // ---------------------------------------------------------------------------
  // read_spectra_file
  // ---------------------------------------------------------------------------

  /** Whether a timestamp is within `limit` hours of `now`, before or after. */
  predicate InWindow(t: int, now: int, limit: int)
  {
    Abs(now - t) <= limit * 3600
  }

  /** The rows of a sequence of data lines whose timestamps lie in the window. */
  function Window(rows: seq<Row>, now: int, limit: int): seq<Row>
  {
    if rows == [] then []
    else (if InWindow(rows[0].time, now, limit) then [rows[0]] else []) + Window(rows[1..], now, limit)
  }

  /** The window of rows keeps or drops the first row and then windows the rest. */
  lemma WindowCons(rows: seq<Row>, now: int, limit: int)
    requires rows != []
    ensures Window(rows, now, limit) ==
      if InWindow(rows[0].time, now, limit) then [rows[0]] + Window(rows[1..], now, limit) else Window(rows[1..], now, limit)
    ensures limit == 0 ==> [rows[0]] + rows[1..] == rows
  {
    var w := Window(rows[1..], now, limit);
    assert [] + w == w;
  }

  /**
   * The rows read from the data lines: each timestamp is read first; when a
   * limit is given (non-zero) a row outside the window is skipped without its
   * values being read; any field that cannot be read fails the whole read.
   */
  function ReadRows(lines: seq<string>, now: int, limit: int): (rs: Option<seq<Row>>)
    ensures rs.Some? ==> |rs.value| <= |lines|
    ensures (exists i | 0 <= i < |lines| :: LineStamp(lines[i]).None?) ==> rs.None?
    decreases |lines|
  {
    if lines == [] then Some([])
    else
      assert forall i | 1 <= i < |lines| :: lines[i] == lines[1..][i - 1];
      match LineStamp(lines[0])
      case None => None
      case Some(t) =>
        if limit != 0 && !InWindow(t, now, limit) then ReadRows(lines[1..], now, limit)
        else
          match (LineValues(lines[0]), ReadRows(lines[1..], now, limit))
          case (Some(vs), Some(rest)) => Some([Row(t, vs)] + rest)
          case _ => None
  }

  /**
   * Without a limit every data line is read: the read succeeds exactly when
   * every line parses, and then the rows are the lines' rows, one for one.
   */
  lemma {:induction false} ReadRowsUnlimited(lines: seq<string>, now: int)
    ensures ReadRows(lines, now, 0).Some? <==> forall i | 0 <= i < |lines| :: ParseRow(lines[i]).Some?
    ensures ReadRows(lines, now, 0).Some? ==>
      var rows := ReadRows(lines, now, 0).value;
      |rows| == |lines| && forall i | 0 <= i < |lines| :: ParseRow(lines[i]) == Some(rows[i])
    decreases |lines|
  {
    if lines != [] {
      ReadRowsUnlimited(lines[1..], now);
      assert forall i | 1 <= i < |lines| :: lines[i] == lines[1..][i - 1];
    }
  }

  function Times(rows: seq<Row>): seq<int> { seq(|rows|, i requires 0 <= i < |rows| => rows[i].time) }

  function ValuesOf(rows: seq<Row>): seq<seq<int>> { seq(|rows|, i requires 0 <= i < |rows| => rows[i].values) }

  /** `read_spectra_file` as a function of the files: the header line is skipped, not read as data. */
  function ReadFile(files: map<string, seq<string>>, name: string, limit: int, now: int): (r: ReadResult)
    ensures name !in files ==> r == ReadError
    ensures r == NoSpectra <==> name in files && ParseHeader(files[name]).None?
    ensures r.Spectra? ==>
      name in files && ParseHeader(files[name]).Some?
      && r.lower == ParseHeader(files[name]).value.lower && r.upper == ParseHeader(files[name]).value.upper
      && |r.times| == |r.spectra| <= |files[name]| - 1
    ensures r.Spectra? && limit == 0 ==> |r.times| == |files[name]| - 1
  {
    if name !in files then ReadError
    else
      match ParseHeader(files[name])
      case None => NoSpectra
      case Some(h) =>
        ReadRowsUnlimited(files[name][1..], now);
        match ReadRows(files[name][1..], now, limit)
        case None => ReadError
        case Some(rows) => Spectra(h.lower, h.upper, Times(rows), ValuesOf(rows))
  }

  /** The times and the spectra of the rows grow with the rows. */
  lemma RowsExtend(rows: seq<Row>, r: Row)
    ensures Times(rows + [r]) == Times(rows) + [r.time]
    ensures ValuesOf(rows + [r]) == ValuesOf(rows) + [r.values]
  {
  }

  function Then(done: seq<Row>, rest: Option<seq<Row>>): Option<seq<Row>>
  {
    match rest
    case None => None
    case Some(rs) => Some(done + rs)
  }

  /** One step of the reader: what the line at `k` contributes to the rows read from `k` on. */
  lemma ReadRowsStep(lines: seq<string>, k: nat, now: int, limit: int, done: seq<Row>)
    requires k < |lines|
    ensures var rest := ReadRows(lines[k + 1..], now, limit);
      match LineStamp(lines[k])
      case None => Then(done, ReadRows(lines[k..], now, limit)) == None
      case Some(t) =>
        if limit != 0 && !InWindow(t, now, limit) then
          Then(done, ReadRows(lines[k..], now, limit)) == Then(done, rest)
        else
          match LineValues(lines[k])
          case None => Then(done, ReadRows(lines[k..], now, limit)) == None
          case Some(vs) => Then(done, ReadRows(lines[k..], now, limit)) == Then(done + [Row(t, vs)], rest)
  {
    assert lines[k..][0] == lines[k] && lines[k..][1..] == lines[k + 1..];
    var rest := ReadRows(lines[k + 1..], now, limit);
    if rest.Some? && LineStamp(lines[k]).Some? && LineValues(lines[k]).Some? {
      var row := Row(LineStamp(lines[k]).value, LineValues(lines[k]).value);
      assert done + ([row] + rest.value) == done + [row] + rest.value;
    }
  }

  method ReadSpectraFile(fs: FileStore, name: string, limit: int, now: int) returns (r: ReadResult)
    ensures r == ReadFile(fs.files, name, limit, now)
    ensures r.Spectra? ==> |r.times| == |r.spectra|
  {
    if name !in fs.files {
      return ReadError;
    }
    var lines := fs.files[name];
    var header := ParseHeader(lines);
    if header.None? {
      return NoSpectra;
    }
    var times: seq<int> := [];
    var spectra: seq<seq<int>> := [];
    ghost var rows: seq<Row> := [];
    ghost var all := ReadRows(lines[1..], now, limit);
    assert all.Some? ==> [] + all.value == all.value;
    for k := 1 to |lines|
      invariant times == Times(rows) && spectra == ValuesOf(rows)
      invariant all == Then(rows, ReadRows(lines[k..], now, limit))
    {
      ReadRowsStep(lines, k, now, limit, rows);
      var stamp := LineStamp(lines[k]);
      if stamp.None? {
        return ReadError;
      }
      var t := stamp.value;
      if limit != 0 && !InWindow(t, now, limit) {
        continue;
      }
      var spec := LineValues(lines[k]);
      if spec.None? {
        return ReadError;
      }
      RowsExtend(rows, Row(t, spec.value));
      spectra := spectra + [spec.value];
      times := times + [t];
      rows := rows + [Row(t, spec.value)];
    }
    assert lines[|lines|..] == [];
    assert rows + [] == rows;
    r := Spectra(header.value.lower, header.value.upper, times, spectra);
  }

  /** With a limit, every row read lies in the window. */
  lemma {:induction false} ReadRowsInWindow(lines: seq<string>, now: int, limit: int)
    requires limit != 0 && ReadRows(lines, now, limit).Some?
    ensures var rows := ReadRows(lines, now, limit).value;
      forall i | 0 <= i < |rows| :: InWindow(rows[i].time, now, limit)
    decreases |lines|
  {
    if lines != [] {
      ReadRowsInWindow(lines[1..], now, limit);
    }
  }

  /** A line written for a row, in front of other lines, is read back as that row or skipped. */
  lemma ReadRowsCons(r: Row, rest: seq<string>, now: int, limit: int)
    ensures ReadRows([RowLine(r)] + rest, now, limit) ==
            if limit != 0 && !InWindow(r.time, now, limit) then ReadRows(rest, now, limit)
            else Then([r], ReadRows(rest, now, limit))
  {
    RowRoundTrip(r);
    assert ([RowLine(r)] + rest)[0] == RowLine(r) && ([RowLine(r)] + rest)[1..] == rest;
  }

  /**
   * Reading back lines that were written as rows gives those rows, in order:
   * all of them without a limit, exactly those in the window with one.
   */
  lemma {:induction false} ReadRowsRoundTrip(rows: seq<Row>, now: int, limit: int)
    ensures ReadRows(RowLines(rows), now, limit) == Some(if limit == 0 then rows else Window(rows, now, limit))
    decreases |rows|
  {
    if rows != [] {
      var r, tail := rows[0], rows[1..];
      var skip := limit != 0 && !InWindow(r.time, now, limit);
      var want := if limit == 0 then tail else Window(tail, now, limit);
      assert ReadRows(RowLines(tail), now, limit) == Some(want) by {
        ReadRowsRoundTrip(tail, now, limit);
      }
      assert ReadRows(RowLines(rows), now, limit) == if skip then Some(want) else Some([r] + want) by {
        assert RowLines(rows) == [RowLine(r)] + RowLines(tail);
        ReadRowsCons(r, RowLines(tail), now, limit);
      }
      assert (if limit == 0 then rows else Window(rows, now, limit)) == if skip then want else [r] + want by {
        WindowCons(rows, now, limit);
      }
    }
  }

  // ---------------------------------------------------------------------------
  // clip_spectra_file
  // ---------------------------------------------------------------------------

  /** The data lines kept by a clip, unchanged and in order; None when a timestamp cannot be read. */
  function ClipLines(lines: seq<string>, now: int, limit: int): (kept: Option<seq<string>>)
    ensures kept.None? <==> exists i | 0 <= i < |lines| :: LineStamp(lines[i]).None?
    ensures kept.Some? ==> |kept.value| <= |lines|
    decreases |lines|
  {
    if lines == [] then Some([])
    else
      assert forall i | 1 <= i < |lines| :: lines[i] == lines[1..][i - 1];
      match (LineStamp(lines[0]), ClipLines(lines[1..], now, limit))
      case (Some(t), Some(rest)) => Some(if InWindow(t, now, limit) then [lines[0]] + rest else rest)
      case _ => None
  }

  function ThenLines(done: seq<string>, rest: Option<seq<string>>): Option<seq<string>>
  {
    match rest
    case None => None
    case Some(ls) => Some(done + ls)
  }

  /** One step of the clip: what the line at `k` contributes to the lines kept from `k` on. */
  lemma ClipLinesStep(lines: seq<string>, k: nat, now: int, limit: int, done: seq<string>)
    requires k < |lines|
    ensures var rest := ClipLines(lines[k + 1..], now, limit);
      match LineStamp(lines[k])
      case None => ThenLines(done, ClipLines(lines[k..], now, limit)) == None
      case Some(t) =>
        ThenLines(done, ClipLines(lines[k..], now, limit)) ==
        ThenLines(if InWindow(t, now, limit) then done + [lines[k]] else done, rest)
  {
    assert lines[k..][0] == lines[k] && lines[k..][1..] == lines[k + 1..];
    var rest := ClipLines(lines[k + 1..], now, limit);
    if rest.Some? {
      assert done + ([lines[k]] + rest.value) == done + [lines[k]] + rest.value;
    }
  }

  method ClipSpectraFile(fs: FileStore, name: string, limit: int, now: int) returns (r: ClipResult)
    requires fs.Valid()
    modifies fs
    ensures fs.Valid()
    ensures name !in old(fs.files) ==> r == ClipError && fs.files == old(fs.files)
    ensures name in old(fs.files) ==>
      var lines := old(fs.files)[name];
      match ParseHeader(lines)
      case None => r == ClipNoSpectra && fs.files == old(fs.files)
      case Some(_) =>
        match ClipLines(lines[1..], now, limit)
        case None => r == ClipError && fs.files == old(fs.files)
        case Some(kept) => r == Clipped && fs.files == old(fs.files)[name := [lines[0]] + kept]
  {
    if name !in fs.files {
      return ClipError;
    }
    var lines := fs.files[name];
    var header := ParseHeader(lines);
    if header.None? {
      return ClipNoSpectra;
    }
    var out := [lines[0]];
    for k := 1 to |lines|
      invariant fs.files == old(fs.files)
      invariant |out| > 0 && out[0] == lines[0]
      invariant forall i | 0 <= i < |out| :: out[i] in lines
      invariant ThenLines([lines[0]], ClipLines(lines[1..], now, limit)) == ThenLines(out, ClipLines(lines[k..], now, limit))
    {
      ClipLinesStep(lines, k, now, limit, out);
      var stamp := LineStamp(lines[k]);
      if stamp.None? {
        return ClipError;
      }
      if InWindow(stamp.value, now, limit) {
        out := out + [lines[k]];
      }
    }
    assert lines[|lines|..] == [];
    assert ThenLines(out, ClipLines(lines[|lines|..], now, limit)) == Some(out + []);
    assert out + [] == out;
    var kept := ClipLines(lines[1..], now, limit).value;
    assert Some([lines[0]] + kept) == Some(out);
    fs.files := fs.files[name := out];
    r := Clipped;
  }

  /** Whether a line's timestamp can be read and lies in the window. */
  predicate LineInWindow(line: string, now: int, limit: int)
  {
    match LineStamp(line)
    case Some(t) => InWindow(t, now, limit)
    case None => false
  }

  /** A clip keeps a line exactly when that line's timestamp lies in the window. */
  lemma {:induction false} ClipKeepsExactly(lines: seq<string>, now: int, limit: int)
    requires ClipLines(lines, now, limit).Some?
    ensures var kept := ClipLines(lines, now, limit).value;
      forall line :: line in kept <==> line in lines && LineInWindow(line, now, limit)
    decreases |lines|
  {
    if lines != [] {
      ClipKeepsExactly(lines[1..], now, limit);
      assert lines == [lines[0]] + lines[1..];
    }
  }

  /** Clipping again with the same time and limit keeps everything. */
  lemma {:induction false} ClipIdempotent(lines: seq<string>, now: int, limit: int)
    requires ClipLines(lines, now, limit).Some?
    ensures var kept := ClipLines(lines, now, limit).value;
      ClipLines(kept, now, limit) == Some(kept)
    decreases |lines|
  {
    if lines != [] {
      ClipIdempotent(lines[1..], now, limit);
      var rest := ClipLines(lines[1..], now, limit).value;
      var t := LineStamp(lines[0]).value;
      if InWindow(t, now, limit) {
        assert ([lines[0]] + rest)[1..] == rest;
      }
    }
  }

  /** Clipping lines written as rows keeps, in order, the lines of the rows in the window. */
  lemma {:induction false} ClipRowsRoundTrip(rows: seq<Row>, now: int, limit: int)
    ensures ClipLines(RowLines(rows), now, limit) == Some(RowLines(Window(rows, now, limit)))
    decreases |rows|
  {
    if rows != [] {
      RowRoundTrip(rows[0]);
      assert RowLines(rows)[0] == RowLine(rows[0]) && RowLines(rows)[1..] == RowLines(rows[1..]);
      ClipRowsRoundTrip(rows[1..], now, limit);
      var w := Window(rows[1..], now, limit);
      if InWindow(rows[0].time, now, limit) {
        assert Window(rows, now, limit) == [rows[0]] + w;
        assert ([rows[0]] + w)[1..] == w;
      } else {
        assert Window(rows, now, limit) == w;
      }
    }
  }
}
