/**
 * One run of the sampler: derive the band from the options, configure the
 * receiver, gather a batch of waterfall lines, and then either give up on a
 * short batch (logging a dummy entry) or reduce the full batch to its mean
 * and peak spectra, log both, and compute the median, the 95th percentile
 * and the signal-to-noise ratio that go to the round-robin database.
 */
module Sampler {
  import opened Wrappers
  import opened Text
  import opened Geometry
  import opened Kiwi
  import opened Collection
  import opened Reduction
  import opened SpectraLog

  /** The command-line options the run depends on; "NONE" and "none" are the defaults meaning absent. */
  datatype Options = Options(password: string, length: int, zoom: int, offsetKhz: int, spectra: string)

  /** How a run ends: an uncaught error, a short batch, or the three values for the database. */
  datatype Outcome = Aborted | ShortBatch | Completed(median: real, p95: real, snr: real)

  /** The process exit status: an uncaught error and a short batch both exit with 1. */
  function ExitStatus(o: Outcome): (status: nat)
    ensures status == 0 <==> o.Completed?
  {
    if o.Completed? then 0 else 1
  }

  /**
   * The peak file name: the text before the first dot, "_peak.", and the text
   * between the first and the second dot; None when there is no dot, where
   * the second field does not exist and the run ends with an error.
   */
  function PeakFileName(name: string): (peak: Option<string>)
    ensures peak.Some? <==> '.' in name
  {
    SplitFieldCount(name, '.');
    var fields := Split(name, '.');
    if |fields| < 2 then None else Some(fields[0] + "_peak." + fields[1])
  }

  /** `a.csv` gives `a_peak.csv`; anything after a second dot is dropped. */
  lemma PeakFileNameFields(stem: string, ext: string, more: string)
    requires '.' !in stem && '.' !in ext
    ensures PeakFileName(stem + "." + ext) == Some(stem + "_peak." + ext)
    ensures PeakFileName(stem + "." + ext + "." + more) == Some(stem + "_peak." + ext)
  {
    SplitAtFirst(stem, '.', ext);
    SplitWithoutSep(ext, '.');
    assert stem + "." + ext + "." + more == stem + ['.'] + (ext + ['.'] + more);
    SplitAtFirst(stem, '.', ext + ['.'] + more);
    SplitAtFirst(ext, '.', more);
  }

  /** The mean spectrum as written to the log: each level to the nearest tenth. */
  function AvgTenths(avg: seq<real>): (tenths: seq<int>)
    ensures |tenths| == |avg|
    ensures forall j | 0 <= j < |avg| :: tenths[j] as real - 0.5 <= 10.0 * avg[j] < tenths[j] as real + 0.5
  {
    seq(|avg|, j requires 0 <= j < |avg| => RoundTenths(avg[j]))
  }

  /** The peak spectrum as written to the log: whole dBm, so exact in tenths. */
  function PeakTenths(peak: seq<int>): (tenths: seq<int>)
    ensures |tenths| == |peak| && forall j | 0 <= j < |peak| :: tenths[j] == 10 * peak[j]
  {
    seq(|peak|, j requires 0 <= j < |peak| => 10 * peak[j])
  }

  /** The matrix held in the array, line by line. */
  function Matrix(wf: array2<int>): (rows: seq<seq<int>>)
    reads wf
    ensures |rows| == wf.Length0 && Rectangular(rows, wf.Length1)
    ensures forall i, j | 0 <= i < wf.Length0 && 0 <= j < wf.Length1 :: rows[i][j] == wf[i, j]
  {
    seq(wf.Length0, i requires 0 <= i < wf.Length0 reads wf =>
      seq(wf.Length1, j requires 0 <= j < wf.Length1 reads wf => wf[i, j]))
  }

  /** One more than the largest unsigned 32-bit integer. */
  const UInt32Limit: int := 0x1_0000_0000

  /**
   * Whether the binary header can be packed: the centre and the span go in as
   * unsigned 32-bit integers, and any other value raises before the receiver
   * is contacted.
   */
  predicate HeaderPacks(b: Band)
  {
    0 <= b.center < UInt32Limit && b.span < UInt32Limit
  }

  /** The header packs for every zoom factor and every non-negative offset below a million kHz. */
  lemma OffsetPacks(zoom: int, offsetKhz: int)
    requires zoom < ZoomOverflow && 0 <= offsetKhz < 1_000_000
    ensures HeaderPacks(BandFor(zoom, offsetKhz).value)
  {
    var b := BandFor(zoom, offsetKhz).value;
    CenterNearMiddle(zoom, offsetKhz);
    if zoom > 0 {
      MulMono(1, Pow2(zoom), b.span);
    }
    assert b.span <= FullSpan;
  }

  /** A negative offset can put the centre below zero: zoom 0 and offset -20000 kHz give a centre of -5000 kHz. */
  lemma NegativeCentre()
    ensures BandFor(0, -20000).value.center == -5000 && !HeaderPacks(BandFor(0, -20000).value)
  {
    assert Span(0) == FullSpan;
    assert TruncHalf(-10000) == -5000;
  }

  datatype RunState = RunState(outcome: Outcome, files: map<string, seq<string>>)

  /** The reductions of a full batch and the values they give the database. */
  function Results(rows: seq<seq<int>>): (o: Outcome)
    requires |rows| > 0 && Rectangular(rows, Bins)
    ensures o.Completed? && o.median <= o.p95 && o.snr == o.p95 - o.median
  {
    var avg := AvgSpectrum(rows, Bins);
    Completed(Median(avg), P95(avg), Snr(avg))
  }

  /**
   * A run as a function of the options, the inbound events, the spectra
   * files and the time of the appends: how it ends and what the files are
   * afterwards.
   */
  function Run(opts: Options, events: seq<Inbound>, files: map<string, seq<string>>, now: int): (st: RunState)
    ensures opts.spectra == "none" ==> st.files == files
    ensures files.Keys <= st.files.Keys
    ensures forall other | other in files && other != opts.spectra && Some(other) != PeakFileName(opts.spectra) ::
      other in st.files && st.files[other] == files[other]
  {
    match BandFor(opts.zoom, opts.offsetKhz)
    case None => RunState(Aborted, files)
    case Some(band) =>
      if !HeaderPacks(band) then RunState(Aborted, files)
      else if opts.length < 0 then RunState(Aborted, files)
      else
        match Gather(events, opts.length, Bins)
        case Crashed(_) => RunState(Aborted, files)
        case Gathered(rows, _) =>
          if |rows| < opts.length then
            RunState(ShortBatch,
              if opts.spectra == "none" then files
              else AppendedFiles(files, opts.spectra, band.lower, band.upper, Bins, RowLine(Row(now, DummyValues(Bins)))))
          else if opts.length == 0 then RunState(Aborted, files)
          else FullBatch(opts.spectra, band, rows, files, now)
  }

  /**
   * The end of a run with a full batch: unless the spectra option is "none",
   * the mean row is appended to the spectra log and the peak row to its peak
   * file; a spectra name without a dot has no peak file and ends the run
   * with an error after the first append.
   */
  function FullBatch(spectra: string, band: Band, rows: seq<seq<int>>, files: map<string, seq<string>>, now: int): RunState
    requires |rows| > 0 && Rectangular(rows, Bins)
  {
    if spectra == "none" then RunState(Results(rows), files)
    else
      var avgLine := RowLine(Row(now, AvgTenths(AvgSpectrum(rows, Bins))));
      var logged := AppendedFiles(files, spectra, band.lower, band.upper, Bins, avgLine);
      match PeakFileName(spectra)
      case None => RunState(Aborted, logged)
      case Some(peakName) =>
        var peakLine := RowLine(Row(now, PeakTenths(MaxSpectrum(rows, Bins))));
        RunState(Results(rows), AppendedFiles(logged, peakName, band.lower, band.upper, Bins, peakLine))
  }

  method RunSampler(opts: Options, stream: KiwiStream, fs: FileStore, now: int) returns (outcome: Outcome)
    requires fs.Valid()
    modifies stream, fs
    ensures fs.Valid()
    ensures RunState(outcome, fs.files) == Run(opts, old(stream.inbound), old(fs.files), now)
    ensures BandFor(opts.zoom, opts.offsetKhz).None? || !HeaderPacks(BandFor(opts.zoom, opts.offsetKhz).value) ==>
      stream.sent == old(stream.sent)
    ensures BandFor(opts.zoom, opts.offsetKhz).Some? && HeaderPacks(BandFor(opts.zoom, opts.offsetKhz).value) ==>
      stream.sent == old(stream.sent) + Commands(opts.zoom, BandFor(opts.zoom, opts.offsetKhz).value.start, opts.password)
  {
    var found := BandFor(opts.zoom, opts.offsetKhz);
    if found.None? {
      return Aborted;
    }
    var band := found.value;
    if !HeaderPacks(band) {
      return Aborted;
    }
    SendCommands(stream, opts.zoom, band.start, opts.password);
    if opts.length < 0 {
      return Aborted;
    }
    var length: nat := opts.length;
    var wf, time, crashed := Collect(stream, length, Bins);
    if crashed {
      return Aborted;
    }
    if time < length {
      if opts.spectra != "none" {
        var _ := AppendDummyEntry(fs, opts.spectra, band.lower, band.upper, Bins, now);
      }
      return ShortBatch;
    }
    if length == 0 {
      return Aborted;
    }
    var rows := Matrix(wf);
    ghost var gathered := Gather(old(stream.inbound), length, Bins).rows;
    assert rows == gathered by {
      forall i | 0 <= i < length ensures rows[i] == gathered[i] {
        assert forall j | 0 <= j < Bins :: rows[i][j] == gathered[i][j];
      }
    }
    var avg := AvgSpectrum(rows, Bins);
    if opts.spectra != "none" {
      var _ := AppendToFile(fs, opts.spectra, band.lower, band.upper, Bins, now, AvgTenths(avg));
      var peakName := PeakFileName(opts.spectra);
      if peakName.None? {
        return Aborted;
      }
      var peak := MaxSpectrum(rows, Bins);
      var _ := AppendToFile(fs, peakName.value, band.lower, band.upper, Bins, now, PeakTenths(peak));
    }
    outcome := Completed(Median(avg), P95(avg), Snr(avg));
  }

  /**
   * A batch cut short by a failed receive ends the run with exit status 1;
   * the only change to the files is the dummy entry appended to the spectra
   * log under its header guard: no other file is created or changed, and
   * the log keeps its earlier lines and (when the guard lets the append
   * through) gains a dummy row at its end.
   */
  lemma ShortBatchRun(opts: Options, events: seq<Inbound>, later: seq<Inbound>,
                      files: map<string, seq<string>>, now: int)
    requires opts.zoom < ZoomOverflow && HeaderPacks(BandFor(opts.zoom, opts.offsetKhz).value) && opts.length > 0
    requires NoFailure(events) && AllBroadcastable(Frames(events), Bins) && |Frames(events)| < opts.length
    ensures var st := Run(opts, events + [ReceiveFailure] + later, files, now);
      var band := BandFor(opts.zoom, opts.offsetKhz).value;
      && st.outcome == ShortBatch && ExitStatus(st.outcome) == 1
      && (opts.spectra == "none" ==> st.files == files)
      && (forall other | other in files && other != opts.spectra :: other in st.files && st.files[other] == files[other])
      && (opts.spectra != "none" && AppendGuard(files, opts.spectra, band.lower, band.upper, Bins) in {Created, Appended} ==>
            var log := st.files[opts.spectra];
            |log| >= 2 && ParseRow(log[|log| - 1]) == Some(Row(now, DummyValues(Bins))))
    ensures var st := Run(opts, events + [ReceiveFailure] + later, files, now);
      var band := BandFor(opts.zoom, opts.offsetKhz).value;
      && st.files.Keys <= files.Keys + {opts.spectra}
      && (opts.spectra in files ==> st.files[opts.spectra][..|files[opts.spectra]|] == files[opts.spectra])
      && st.files == if opts.spectra == "none" then files
                     else AppendedFiles(files, opts.spectra, band.lower, band.upper, Bins, RowLine(Row(now, DummyValues(Bins))))
  {
    GatherStopsShort(events, later, opts.length, Bins);
    var band := BandFor(opts.zoom, opts.offsetKhz).value;
    AppendEffect(files, opts.spectra, band.lower, band.upper, Bins, now, DummyValues(Bins));
  }

  /**
   * A run that completes had a usable band whose header packs and a non-empty batch, exits with
   * status 0, and reports a signal-to-noise ratio that is the 95th percentile
   * minus the median, never negative.
   */
  lemma CompletedRun(opts: Options, events: seq<Inbound>, files: map<string, seq<string>>, now: int)
    requires Run(opts, events, files, now).outcome.Completed?
    ensures var o := Run(opts, events, files, now).outcome;
      && opts.zoom < ZoomOverflow && HeaderPacks(BandFor(opts.zoom, opts.offsetKhz).value)
      && opts.length > 0 && ExitStatus(o) == 0
      && o.median <= o.p95 && o.snr == o.p95 - o.median
  {
    var rows := Gather(events, opts.length, Bins).rows;
    var avg := AvgSpectrum(rows, Bins);
    assert Snr(avg) >= 0.0;
  }

  /**
   * A full batch of well-formed lines completes the run with the values
   * reduced from exactly those lines, provided the spectra option is "none"
   * or names a file with an extension; with a name without a dot the mean
   * spectrum is logged and the run then ends with an error. The files change
   * by exactly the appends of the mean row to the spectra log and of the
   * peak row to its peak file, each under its header guard.
   */
  lemma FullBatchRun(opts: Options, events: seq<Inbound>, later: seq<Inbound>,
                     files: map<string, seq<string>>, now: int)
    requires opts.zoom < ZoomOverflow && HeaderPacks(BandFor(opts.zoom, opts.offsetKhz).value) && opts.length > 0
    requires |events| > 0 && NoFailure(events) && AllBroadcastable(Frames(events), Bins)
    requires |Frames(events)| == opts.length && IsWaterfall(events[|events| - 1].data)
    ensures var o := Run(opts, events + later, files, now).outcome;
      && (opts.spectra == "none" || '.' in opts.spectra ==> o == Results(DecodeAll(Frames(events), Bins)))
      && (opts.spectra != "none" && '.' !in opts.spectra ==> o == Aborted)
    ensures var st := Run(opts, events + later, files, now);
      var band := BandFor(opts.zoom, opts.offsetKhz).value;
      var rows := DecodeAll(Frames(events), Bins);
      var logged := AppendedFiles(files, opts.spectra, band.lower, band.upper, Bins,
                                  RowLine(Row(now, AvgTenths(AvgSpectrum(rows, Bins)))));
      && (opts.spectra == "none" ==> st.files == files)
      && (opts.spectra != "none" && '.' !in opts.spectra ==> st.files == logged)
      && (opts.spectra != "none" && '.' in opts.spectra ==>
            st.files == AppendedFiles(logged, PeakFileName(opts.spectra).value, band.lower, band.upper, Bins,
                                      RowLine(Row(now, PeakTenths(MaxSpectrum(rows, Bins))))))
  {
    GatherCompletes(events, later, opts.length, Bins);
    var rows := DecodeAll(Frames(events), Bins);
    assert Run(opts, events + later, files, now) == FullBatch(opts.spectra, BandFor(opts.zoom, opts.offsetKhz).value, rows, files, now);
  }

  /**
   * A centre or span that does not fit the binary header ends the run with
   * exit status 1 before anything is sent, and no spectra log changes.
   */
  lemma HeaderOverflowRun(opts: Options, events: seq<Inbound>, files: map<string, seq<string>>, now: int)
    requires opts.zoom < ZoomOverflow && !HeaderPacks(BandFor(opts.zoom, opts.offsetKhz).value)
    ensures Run(opts, events, files, now) == RunState(Aborted, files)
    ensures ExitStatus(Run(opts, events, files, now).outcome) == 1
  {
  }
}
